/**
 * CloneObjectExtensions: clone a value by its runtime shape.
 *
 * cloneObject returns null for null; sends a Cloneable value to
 * cloneCloneable; and sends everything else, or a Cloneable value whose
 * cloneCloneable gave null, to the external cloner. cloneCloneable copies
 * a primitive array element by element, shallow-copies a reference array,
 * and otherwise calls the clone declared on the object's own class.
 */
module CloneObjectExtensions {
  import opened JavaValues
  import opened CloneQuietlyExtensions

  // ---------------------------------------------------------------------
  // Primitive-element arrays: the countdown copy loop
  // ---------------------------------------------------------------------

  /** The contents of a freshly allocated primitive array: every slot holds zero (or false). */
  function DefaultValues(n: nat): (r: seq<int>) {
    seq(n, _ => 0)
  }

  /**
   * What the loop `while (length-- > 0) clone[length] = source[length]` leaves
   * in `dst` when it starts with counter `length`: it writes the indices
   * length-1, length-2, ..., 0, in that order, each with the source's element.
   */
  function CountdownCopy(src: seq<int>, dst: seq<int>, length: nat): (r: seq<int>)
    requires |dst| == |src| && length <= |src|
    ensures |r| == |src|
    decreases length
  {
    if length == 0 then dst
    else CountdownCopy(src, dst[length - 1 := src[length - 1]], length - 1)
  }

  /**
   * The loop's invariant, stated over its effect: below the starting counter
   * every slot ends up holding the source's element; at or above it, what
   * was already there stays.
   */
  lemma {:induction false} CountdownCopyAt(src: seq<int>, dst: seq<int>, length: nat, i: nat)
    requires |dst| == |src| && length <= |src| && i < |src|
    ensures CountdownCopy(src, dst, length)[i] == if i < length then src[i] else dst[i]
    decreases length
  {
    if length > 0 {
      CountdownCopyAt(src, dst[length - 1 := src[length - 1]], length - 1, i);
    }
  }

  /** Run from the full length over any starting contents, the loop reproduces the source. */
  lemma CountdownCopyIsCopy(src: seq<int>, dst: seq<int>)
    requires |dst| == |src|
    ensures CountdownCopy(src, dst, |src|) == src
  {
    forall i | 0 <= i < |src|
      ensures CountdownCopy(src, dst, |src|)[i] == src[i]
    {
      CountdownCopyAt(src, dst, |src|, i);
    }
  }

  /**
   * The primitive-array branch of cloneCloneable: allocate a zero-filled
   * array of the same length, then copy from the last index down to 0.
   * The source is only read.
   */
  method ClonePrimitiveArray(src: array<int>) returns (r: array<int>)
    ensures fresh(r)
    ensures r.Length == src.Length
    ensures r[..] == CountdownCopy(src[..], DefaultValues(src.Length), src.Length)
    ensures r[..] == src[..]
    ensures unchanged(src)
  {
    var length := src.Length;
    r := new int[length](_ => 0);
    assert r[..] == DefaultValues(src.Length);
    while length > 0
      invariant 0 <= length <= src.Length
      // what is left of the loop turns the current contents into the final ones
      invariant CountdownCopy(src[..], r[..], length)
             == CountdownCopy(src[..], DefaultValues(src.Length), src.Length)
    {
      length := length - 1;
      r[length] := src[length];
    }
    CountdownCopyIsCopy(src[..], DefaultValues(src.Length));
  }

  // ---------------------------------------------------------------------
  // Reference-element arrays: the native shallow clone
  // ---------------------------------------------------------------------

  /**
   * `((Object[]) object).clone()`: a new container of the same length whose
   * slots hold the very same references as the source's slots.
   */
  method CloneReferenceArray(src: array<Value>) returns (r: array<Value>)
    ensures fresh(r)
    ensures r.Length == src.Length
    ensures forall i :: 0 <= i < src.Length ==> r[i] == src[i]
    ensures unchanged(src)
  {
    r := new Value[src.Length](i requires 0 <= i < src.Length reads src => src[i]);
  }

  // ---------------------------------------------------------------------
  // Non-array objects: the clone declared on the object's own class
  // ---------------------------------------------------------------------

  /**
   * getDeclaredMethod("clone"), setAccessible(true), invoke: each step can
   * throw, and the first exception is what the caller sees.
   */
  function InvokeDeclaredClone(o: JObject): (r: Result)
    ensures r == Err(NoSuchMethod) <==> o.declaredClone.NotDeclared?
    ensures r.Ok? <==> o.declaredClone.Returns?
    ensures r.Ok? ==> r.value == o.declaredClone.copy
    ensures r == Err(InaccessibleObject) <==> o.declaredClone.Inaccessible?
    ensures r == Err(InvocationTarget) <==> o.declaredClone.Throws?
    ensures r.Err? ==> r.error != ClonerFailure
  {
    match o.declaredClone
    case NotDeclared => Err(NoSuchMethod)
    case Inaccessible => Err(InaccessibleObject)
    case Throws => Err(InvocationTarget)
    case Returns(copy) => Ok(copy)
  }

  // ---------------------------------------------------------------------
  // Which operations a clone call reaches
  // ---------------------------------------------------------------------

  /** The operations cloneObject can hand a value to. */
  datatype Step =
    | EnterCloneCloneable  // cloneCloneable is called
    | InvokeOwnClone       // the class's declared clone is actually invoked
    | CallExternalCloner   // withCloner is called

  /** The operations cloneCloneable reaches beyond its own array copies. */
  function CloneCloneableSteps(v: Value): (steps: seq<Step>)
    requires !v.Null?
    ensures IsArray(v) ==> steps == []
    ensures InvokeOwnClone in steps <==>
              v.Obj? && (v.obj.declaredClone.Throws? || v.obj.declaredClone.Returns?)
    ensures EnterCloneCloneable !in steps && CallExternalCloner !in steps
  {
    match v
    case Obj(o) =>
      if o.declaredClone.NotDeclared? || o.declaredClone.Inaccessible? then [] else [InvokeOwnClone]
    case _ => []
  }

  /**
   * The operations cloneObject reaches, in order. cloneCloneable is called
   * for a Cloneable value; the external cloner when the value is not
   * Cloneable or cloneCloneable returned null (an exception skips it).
   */
  function Steps(v: Value): (steps: seq<Step>)
    ensures v.Null? ==> steps == []
    ensures IsArray(v) ==> steps == [EnterCloneCloneable]
    ensures EnterCloneCloneable in steps <==> IsCloneable(v)
    ensures CallExternalCloner in steps <==>
              !v.Null? && (!IsCloneable(v) || (v.Obj? && v.obj.declaredClone == Returns(Null)))
    ensures v.Obj? && v.obj.cloneable && v.obj.declaredClone.NotDeclared? ==>
              steps == [EnterCloneCloneable]
    ensures |steps| > 0 && steps[|steps| - 1] == CallExternalCloner ==> v.Obj?
  {
    if v.Null? then []
    else
      var tried := if IsCloneable(v) then [EnterCloneCloneable] + CloneCloneableSteps(v) else [];
      var gaveNull := IsCloneable(v) && v.Obj? && InvokeDeclaredClone(v.obj) == Ok(Null);
      if !IsCloneable(v) || gaveNull then tried + [CallExternalCloner] else tried
  }

  /**
   * What cloneObject returns for a non-array object: the declared clone's
   * result or exception for a Cloneable object, unless that result is null;
   * the external cloner's copy or failure otherwise.
   */
  function ObjectOutcome(o: JObject, deepClone: DeepCloner): (r: Result)
    ensures r.Ok? ==> !r.value.Null?
    ensures r == Err(NoSuchMethod) <==> o.cloneable && o.declaredClone.NotDeclared?
    ensures CallExternalCloner in Steps(Obj(o)) ==> r == WithCloner(o, deepClone)
    ensures CallExternalCloner !in Steps(Obj(o)) ==> r == InvokeDeclaredClone(o)
    ensures o.cloneable && o.declaredClone.Returns? && o.declaredClone.copy != Null ==>
              r == Ok(o.declaredClone.copy)
    ensures o.cloneable && (o.declaredClone.Throws? || o.declaredClone.Inaccessible?) ==>
              r.Err? && r.error != ClonerFailure
  {
    var clone := if o.cloneable then InvokeDeclaredClone(o) else Ok(Null);
    if clone == Ok(Null) then WithCloner(o, deepClone) else clone
  }

  // ---------------------------------------------------------------------
  // The two entry points
  // ---------------------------------------------------------------------

  /**
   * cloneCloneable. A null argument is a NullPointerException in the
   * source, so callers pass a non-null value. The array branches always
   * produce a clone, so for an array the declared clone is never looked up.
   */
  method CloneCloneable(v: Value) returns (r: Result, ghost steps: seq<Step>)
    requires !v.Null?
    ensures steps == CloneCloneableSteps(v)
    ensures v.PrimArray? ==>
              r.Ok? && r.value.PrimArray? && r.value.component == v.component &&
              fresh(r.value.prims) && r.value.prims[..] == v.prims[..]
    ensures v.RefArray? ==>
              r.Ok? && r.value.RefArray? && fresh(r.value.refs) &&
              r.value.refs.Length == v.refs.Length &&
              forall i :: 0 <= i < v.refs.Length ==> r.value.refs[i] == v.refs[i]
    ensures v.Obj? ==> r == InvokeDeclaredClone(v.obj)
  {
    steps := [];
    match ShapeOf(v)
    case PrimitiveArray =>
      var copy := ClonePrimitiveArray(v.prims);
      r := Ok(PrimArray(v.component, copy));
    case ReferenceArray =>
      var copy := CloneReferenceArray(v.refs);
      r := Ok(RefArray(copy));
    case CloneableObject | OpaqueObject =>
      var o := v.obj;
      if !o.declaredClone.NotDeclared? && !o.declaredClone.Inaccessible? {
        steps := [InvokeOwnClone];
      }
      r := InvokeDeclaredClone(o);
  }

  /**
   * cloneObject. Null is returned as is, without any call; a Cloneable value
   * goes to cloneCloneable, whose exception propagates and whose non-null
   * result is returned; otherwise the external cloner decides. Nothing that
   * existed before the call is modified.
   */
  method CloneObject(v: Value, deepClone: DeepCloner) returns (r: Result, ghost steps: seq<Step>)
    ensures steps == Steps(v)
    ensures v.Null? ==> r == Ok(Null)
    ensures r == Ok(Null) <==> v.Null?
    ensures v.Obj? ==> r == ObjectOutcome(v.obj, deepClone)
    ensures v.PrimArray? ==>
              r.Ok? && r.value.PrimArray? && r.value.component == v.component &&
              fresh(r.value.prims) && r.value.prims[..] == v.prims[..]
    ensures v.RefArray? ==>
              r.Ok? && r.value.RefArray? && fresh(r.value.refs) &&
              r.value.refs.Length == v.refs.Length &&
              forall i :: 0 <= i < v.refs.Length ==> r.value.refs[i] == v.refs[i]
  {
    if ShapeOf(v) == NullRef {
      return Ok(Null), [];
    }
    var clone := Ok(Null);
    steps := [];
    if IsCloneable(v) {
      ghost var inner;
      clone, inner := CloneCloneable(v);
      steps := [EnterCloneCloneable] + inner;
    }
    if clone == Ok(Null) {
      clone := WithCloner(v.obj, deepClone);
      steps := steps + [CallExternalCloner];
    }
    r := clone;
  }

  /** clone(T): cloneObject behind an unchecked generic cast, which changes nothing at run time. */
  method Clone(v: Value, deepClone: DeepCloner) returns (r: Result)
    ensures v.Null? ==> r == Ok(Null)
    ensures v.Obj? ==> r == ObjectOutcome(v.obj, deepClone)
    ensures v.PrimArray? ==>
              r.Ok? && r.value.PrimArray? && r.value.component == v.component &&
              fresh(r.value.prims) && r.value.prims[..] == v.prims[..]
    ensures v.RefArray? ==>
              r.Ok? && r.value.RefArray? && fresh(r.value.refs) &&
              r.value.refs.Length == v.refs.Length &&
              forall i :: 0 <= i < v.refs.Length ==> r.value.refs[i] == v.refs[i]
  {
    ghost var steps;
    r, steps := CloneObject(v, deepClone);
  }
}
