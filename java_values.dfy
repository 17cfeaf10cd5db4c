/**
 * The runtime values that the cloning engine inspects, reduced to what its
 * dispatch reads: whether a value is null, whether it is an array and of
 * which element kind, whether it implements Cloneable, and what the clone
 * method declared on its own class does when it is invoked reflectively.
 */
module JavaValues {

  datatype Option<T> = None | Some(value: T)

  /** The eight primitive component types a Java array can have. */
  datatype PrimitiveType = Boolean | Byte | Char | Short | Int | Long | Float | Double

  /**
   * A Java reference. Equality on this datatype is reference equality:
   * arrays and objects are compared by identity, never by contents.
   * Primitive elements of every kind are held as int.
   */
  datatype Value =
    | Null
    | PrimArray(component: PrimitiveType, prims: array<int>)
    | RefArray(refs: array<Value>)
    | Obj(obj: JObject)

  /**
   * What the method `clone` declared on an object's OWN class does: the class
   * declares none (an inherited one is not found either), the runtime refuses to
   * make it accessible, it throws, or it returns some reference (possibly null).
   */
  datatype DeclaredClone =
    | NotDeclared
    | Inaccessible
    | Throws
    | Returns(copy: Value)

  /** A non-array Java object, with the facts about its class that cloning reads. */
  class JObject {
    const cloneable: bool
    const declaredClone: DeclaredClone

    constructor (cloneable: bool, declaredClone: DeclaredClone)
      ensures this.cloneable == cloneable && this.declaredClone == declaredClone
    {
      this.cloneable := cloneable;
      this.declaredClone := declaredClone;
    }
  }

  /** The exceptions that can leave a clone call. */
  datatype CloneError =
    | NoSuchMethod        // getDeclaredMethod("clone") found nothing on the class
    | InaccessibleObject  // setAccessible(true) was refused
    | InvocationTarget    // the declared clone threw
    | ClonerFailure       // the external deep cloner threw

  /** A clone call either returns a reference (possibly null) or throws. */
  datatype Result = Ok(value: Value) | Err(error: CloneError)

  /** The five shapes the dispatch tells apart. */
  datatype Shape = NullRef | PrimitiveArray | ReferenceArray | CloneableObject | OpaqueObject

  /**
   * The classification the dispatch reads, computed once per value:
   * `object == null`, `getClass().isArray()` with
   * `getComponentType().isPrimitive()`, and `instanceof Cloneable`.
   */
  function ShapeOf(v: Value): (s: Shape)
    ensures s == NullRef <==> v.Null?
    ensures s == PrimitiveArray <==> v.PrimArray?
    ensures s == ReferenceArray <==> v.RefArray?
    ensures s == CloneableObject <==> v.Obj? && v.obj.cloneable
    ensures s == OpaqueObject <==> v.Obj? && !v.obj.cloneable
  {
    match v
    case Null => NullRef
    case PrimArray(_, _) => PrimitiveArray
    case RefArray(_) => ReferenceArray
    case Obj(o) => if o.cloneable then CloneableObject else OpaqueObject
  }

  predicate IsArray(v: Value) {
    ShapeOf(v) == PrimitiveArray || ShapeOf(v) == ReferenceArray
  }

  /** `v instanceof Cloneable`: every Java array implements Cloneable. */
  predicate IsCloneable(v: Value) {
    ShapeOf(v) != NullRef && ShapeOf(v) != OpaqueObject
  }
}
