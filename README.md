# jobj-cloner: shape-dispatching clone, modelled in Dafny

This project models the cloning core of jobj-cloner, which is `CloneObjectExtensions`. It proves the core's behaviour:

- `cloneObject` returns `null` for `null` and does nothing else for it.
- It sends a `Cloneable` value to `cloneCloneable`.
- It falls back to the external deep cloner (`CloneQuietlyExtensions.withCloner`) when the value is not `Cloneable`, or when `cloneCloneable` returned `null`.
- `cloneCloneable` copies a primitive array element by element, in a countdown loop.
- It shallow-copies a reference array: the container is new, and every slot holds the same reference as before.
- For any other object, it reflectively calls the `clone` declared on the object's own class. If that class declares none, the resulting `NoSuchMethodException` propagates.

Files:

- `java_values.dfy` (module `JavaValues`) holds the runtime values the dispatch inspects.
  - `Value` is `Null`, a primitive array (with its component type), a reference array, or an object. Equality on `Value` is reference equality.
  - `JObject` is a non-array object. It records whether the object implements `Cloneable`. It also records what the `clone` declared on its own class does: none declared, access refused, throws, or returns some reference.
  - `Result` is a returned reference or one of the exceptions that can leave a call.
  - `ShapeOf` classifies a value into the five shapes the dispatch tells apart.
- `clone_quietly_extensions.dfy` (module `CloneQuietlyExtensions`) holds `withCloner`. The external library is a parameter `DeepCloner`: for an object it gives a non-null copy, or `None` when the library throws.
- `clone_object_extensions.dfy` (module `CloneObjectExtensions`) holds the rest:
  - the countdown copy loop, and the function `CountdownCopy` that states its effect;
  - the reference-array copy;
  - the declared-`clone` call;
  - the function `Steps`, which lists the operations a call reaches;
  - the function `ObjectOutcome`, the result for non-array objects;
  - the methods `CloneCloneable`, `CloneObject` and `Clone`.

The dispatch is a method because its array branches allocate. Its `ensures` tie the recorded steps to `Steps(v)`. They tie the result for objects to `ObjectOutcome`. For arrays they state freshness, length and contents.

In the code, a non-null input never yields `null`:

- arrays always get a copy;
- a declared `clone` that returns `null` leads on to the external cloner;
- the external cloner returns a copy or throws.

This holds even though the javadoc of `cloneObject` (`CloneObjectExtensions.java:118`) says the result is null "if the clone process failed". `CloneObject` proves it, given that the external cloner never returns null: its result is `null` exactly when the input is `null`.

A `Cloneable` class that does not declare `clone` itself ends in `NoSuchMethodException`, which propagates; there is no fallback for it.

## Model

| member | source | states |
|---|---|---|
| `JavaValues.ShapeOf` | src/main/java/io/github/astrapi69/clone/CloneObjectExtensions.java:85-88 | Each value gets exactly one shape (the array tests at :85-88 and the `instanceof Cloneable` test at :140): null for null, primitive array exactly for an array of primitives, reference array exactly for an array of references, Cloneable object exactly for a non-array object that implements `Cloneable`, opaque object for any other non-array object. `CloneCloneable` and `CloneObject` dispatch on it; arrays always count as `Cloneable`. |
| `CloneQuietlyExtensions.WithCloner` | src/main/java/io/github/astrapi69/clone/CloneQuietlyExtensions.java:142-146 | On success the result is the external cloner's copy, and it is a non-null object. Otherwise it is the cloner's failure, never any other error. |
| `CloneObjectExtensions.CountdownCopy` | src/main/java/io/github/astrapi69/clone/CloneObjectExtensions.java:92-95 | The effect of the `while (length-- > 0)` loop from a given counter. The array keeps its length. |
| `CloneObjectExtensions.CountdownCopyAt` | src/main/java/io/github/astrapi69/clone/CloneObjectExtensions.java:92-95 | After the loop runs from counter `length`, every index below it holds the source element. Every index at or above it is unchanged. |
| `CloneObjectExtensions.CountdownCopyIsCopy` | src/main/java/io/github/astrapi69/clone/CloneObjectExtensions.java:90-95 | Started from the full length, whatever the array held before, the loop leaves a copy equal to the source. |
| `CloneObjectExtensions.ClonePrimitiveArray` | src/main/java/io/github/astrapi69/clone/CloneObjectExtensions.java:87-95 | The result is a freshly allocated array with the source's length. It holds exactly what the countdown loop computes from a zero-filled array, which equals the source element by element. The source is not modified. |
| `CloneObjectExtensions.CloneReferenceArray` | src/main/java/io/github/astrapi69/clone/CloneObjectExtensions.java:99 | The result is a fresh container with the same length. Every slot is the identical reference held in the source's slot (a shallow copy). The source is not modified. |
| `CloneObjectExtensions.InvokeDeclaredClone` | src/main/java/io/github/astrapi69/clone/CloneObjectExtensions.java:107-110 | The result is `NoSuchMethodException` exactly when the object's own class declares no `clone`. It is `InaccessibleObjectException` exactly when the runtime refuses `setAccessible`, and `InvocationTargetException` exactly when the declared clone throws. It returns normally exactly when the declared clone returns, and then it gives that clone's result unchanged. It never reports an external-cloner failure. |
| `CloneObjectExtensions.CloneCloneableSteps` | src/main/java/io/github/astrapi69/clone/CloneObjectExtensions.java:85-110 | For an array, `cloneCloneable` reaches nothing beyond its own copy. For an object, the declared clone is invoked exactly when it exists and can be made accessible. |
| `CloneObjectExtensions.Steps` | src/main/java/io/github/astrapi69/clone/CloneObjectExtensions.java:133-151 | Null reaches no operation. An array reaches only `cloneCloneable`, never the declared clone or the external cloner. `cloneCloneable` is called exactly for `Cloneable` values. The external cloner is called exactly when the value is non-null and either not `Cloneable` or its declared clone returned null. A missing declared clone on a `Cloneable` object does not fall back. |
| `CloneObjectExtensions.ObjectOutcome` | src/main/java/io/github/astrapi69/clone/CloneObjectExtensions.java:137-151 | For a non-array object, the result is the external cloner's result when the external cloner is reached. Otherwise it is the declared clone's result unchanged. It is never null. It is `NoSuchMethodException` exactly for a `Cloneable` object whose class declares no `clone`. |
| `CloneObjectExtensions.CloneCloneable` | src/main/java/io/github/astrapi69/clone/CloneObjectExtensions.java:81-111 | A primitive array gives a fresh array with the same component type and contents. A reference array gives a fresh shallow copy. An object gives the declared clone's outcome. The steps taken are `CloneCloneableSteps`. |
| `CloneObjectExtensions.CloneObject` | src/main/java/io/github/astrapi69/clone/CloneObjectExtensions.java:130-152 | The steps taken are exactly `Steps(v)`. Null is returned as is. The result is null only for a null input. Arrays get fresh copies, deep for primitives and shallow for references. Objects get `ObjectOutcome`. No pre-existing object is modified. |
| `CloneObjectExtensions.Clone` | src/main/java/io/github/astrapi69/clone/CloneObjectExtensions.java:60-64 | The same results as `CloneObject`, because the generic cast changes nothing at run time. |

## Left out

- Java reflection (`getClass`, `getComponentType`, `Array.newInstance`, `Array.get`/`Array.set`, `getDeclaredMethod`, `setAccessible`, `invoke`) is replaced by the facts it yields. These are the array shape and component type, and the `declaredClone` outcome recorded on each object. Access control and security managers are not modelled beyond "access refused".
- The code of the user-defined `clone` methods is not modelled. Each object records what its own class's `clone` does on this call.
- `Cloner.deepClone` and the static `Cloner` instances are a third-party library. They are a function parameter that yields a non-null copy or a failure. That the library's copy is a distinct, independent object is not modelled.
- Primitive elements of every kind (boolean, char, float, double, long, ...) are held as unbounded `int`. Boxing through `Array.get`/`Array.set` is the identity here.
- The class of a reference array's components, and the class of an object, are not modelled. Only what the dispatch reads is kept.
- `CloneCloneable`: a null argument is a `NullPointerException` in the source. The model requires a non-null value instead of modelling that exception.
- The `if (clone != null)` test after the array branches (`CloneObjectExtensions.java:101-104`) always passes. A new array is never null, so the model has no path from an array to the declared-clone lookup.
- The `CloneQuietlyExtensions` wrappers `clone`, `cloneCloneable` and `cloneObject` are not modelled. They only rewrap checked exceptions as `RuntimeException`.
- Concurrent mutation of the source during a copy is not modelled. The model is sequential.
