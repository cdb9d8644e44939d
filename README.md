# Cross-enum immutable replication (beanlib `HeteroImmutableReplicator`)

beanlib replicates object graphs, possibly into different but compatible
target types. `HeteroImmutableReplicator` is the immutable-value replicator
that also handles a source enum constant whose target class is a different
enum. It first asks the base immutable replicator. If that gives no replica,
and the target class is an enum and the source value is an enum constant, it
returns the target constant at the source constant's ordinal. If the target
enum is too short, it returns `null`.

The model is purely functional, like the source method, which has no state and
no loops:

- `wrappers.dfy`: `Option`. `None` stands for Java's `null`.
- `java_enums.dfy`, module `JavaEnums`: the enum types, the `Class` objects
  and the immutable values the method sees. An enum type (`EnumDecl`) lists
  its constants' names in declaration order. An enum constant is identified,
  as on the JVM, by its enum type and its name. `Ordinal` models
  `Enum.ordinal()` and `Values` models the static `values()` array. The JVM
  guarantees that constant names are distinct and that every constant belongs
  to its own enum. The subset types `JValue` and `JClass` carry these facts,
  so they are not preconditions.
- `hetero_immutable_replicator.dfy`, module `HeteroImmutableReplicator`:
  `ReplicateImmutable` and the positional fallback `ByOrdinal`, with lemmas.
  The inherited `replicateImmutable` is a parameter `base` of type
  `(JValue, JClass) -> Option<JValue>`: any function at all, since its logic
  is not modelled.

Java's reflective lookup (`getMethod("values")`, `invoke`, `Array.get`) is a
sequence index here. The caught `ArrayIndexOutOfBoundsException` is an
explicit `ordinal < |constants|` test that yields `None`.

The comments at lines 61-62 of `HeteroImmutableReplicator.java` say that the
source and target are always different enums, but the code does not check
this. If the base replicator gives up on a constant aimed at its own enum, the
fallback still runs and returns the same constant (`SameEnumIsIdentity`). The
model follows the code.

## Model

| member | source | states |
|---|---|---|
| `JavaEnums.IndexOf` | beanlib/src/main/java/net/sf/beanlib/provider/replicator/HeteroImmutableReplicator.java:68 | the position found holds the name, and no earlier position does; this is how the constant's ordinal is found |
| `JavaEnums.Ordinal` | beanlib/src/main/java/net/sf/beanlib/provider/replicator/HeteroImmutableReplicator.java:63-68 | `enumFrom.ordinal()` is in range for the constant's own enum and is the one position that holds the constant's name |
| `JavaEnums.Values` | beanlib/src/main/java/net/sf/beanlib/provider/replicator/HeteroImmutableReplicator.java:67-68 | `values()` has one element per declared constant, in declaration order, each a constant of that enum whose ordinal is its index |
| `JavaEnums.OrdinalDeterminesConstant` | beanlib/src/main/java/net/sf/beanlib/provider/replicator/HeteroImmutableReplicator.java:68 | two constants of one enum have the same ordinal exactly when they are the same constant |
| `JavaEnums.ConstantInValues` | beanlib/src/main/java/net/sf/beanlib/provider/replicator/HeteroImmutableReplicator.java:67-68 | every constant is an element of its enum's `values()` array, at the index given by its ordinal |
| `HeteroImmutableReplicator.ByOrdinal` | beanlib/src/main/java/net/sf/beanlib/provider/replicator/HeteroImmutableReplicator.java:62-70 | the fallback returns a value exactly when the source ordinal is below the number of target constants; that value is an element of the target's `values()`, belongs to the target enum and has the source's ordinal |
| `HeteroImmutableReplicator.ReplicateImmutable` | beanlib/src/main/java/net/sf/beanlib/provider/replicator/HeteroImmutableReplicator.java:56-80 | a non-null base result is returned unchanged; otherwise the result is non-null exactly when the target is an enum, the source is an enum constant and its ordinal fits the target; a non-null fallback result is the target constant with the source's ordinal |
| `HeteroImmutableReplicator.DependsOnlyOnBaseAnswer` | beanlib/src/main/java/net/sf/beanlib/provider/replicator/HeteroImmutableReplicator.java:56-60 | the result depends on the base replicator only through its answer for this value and class; for the same inputs and base answer the result is the same |
| `HeteroImmutableReplicator.FallbackIsPositional` | beanlib/src/main/java/net/sf/beanlib/provider/replicator/HeteroImmutableReplicator.java:62-79 | with no base answer, an enum target and an enum constant source, the result is the target constant at the source ordinal, or null when the ordinal is out of range |
| `HeteroImmutableReplicator.NameIndependent` | beanlib/src/main/java/net/sf/beanlib/provider/replicator/HeteroImmutableReplicator.java:65-68 | sources with equal ordinals map to the same constant, and equally long targets receive constants at the same position: names are never consulted |
| `HeteroImmutableReplicator.SameEnumIsIdentity` | beanlib/src/main/java/net/sf/beanlib/provider/replicator/HeteroImmutableReplicator.java:62-68 | mapping a constant onto its own enum gives back that constant |
| `HeteroImmutableReplicator.RoundTrip` | beanlib/src/main/java/net/sf/beanlib/provider/replicator/HeteroImmutableReplicator.java:62-68 | mapping into an enum with enough constants and back again returns the original constant |
| `HeteroImmutableReplicator.ReplicateRoundTrip` | beanlib/src/main/java/net/sf/beanlib/provider/replicator/HeteroImmutableReplicator.java:56-68 | the same round trip through the full replicator, when the base replicator gives up in both directions |
| `HeteroImmutableReplicator.Injective` | beanlib/src/main/java/net/sf/beanlib/provider/replicator/HeteroImmutableReplicator.java:68 | two constants of one enum that map to the same target constant are the same constant |
| `HeteroImmutableReplicator.Compose` | beanlib/src/main/java/net/sf/beanlib/provider/replicator/HeteroImmutableReplicator.java:68 | mapping through a long enough intermediate enum equals mapping directly |
| `HeteroImmutableReplicator.Surjective` | beanlib/src/main/java/net/sf/beanlib/provider/replicator/HeteroImmutableReplicator.java:68 | every constant of the target is the image of some constant of a source enum that has at least as many constants |
| `HeteroImmutableReplicator.ColorToSize` | beanlib/src/main/java/net/sf/beanlib/provider/replicator/HeteroImmutableReplicator.java:62-68 | GREEN of {RED, GREEN, BLUE} becomes MEDIUM of {SMALL, MEDIUM, LARGE} |
| `HeteroImmutableReplicator.ColorToSwitch` | beanlib/src/main/java/net/sf/beanlib/provider/replicator/HeteroImmutableReplicator.java:69-79 | BLUE of {RED, GREEN, BLUE} aimed at {ON, OFF} gives null, not an error |
| `HeteroImmutableReplicator.SingleToLetter` | beanlib/src/main/java/net/sf/beanlib/provider/replicator/HeteroImmutableReplicator.java:62-68 | A of {A} becomes X of {X, Y, Z} |
| `HeteroImmutableReplicator.DayToNote` | beanlib/src/main/java/net/sf/beanlib/provider/replicator/HeteroImmutableReplicator.java:65-68 | SUN, the seventh day, becomes the seventh constant of another seven-constant enum, whatever its name |
| `HeteroImmutableReplicator.NotBothEnums` | beanlib/src/main/java/net/sf/beanlib/provider/replicator/HeteroImmutableReplicator.java:62-79 | a non-enum source with an enum target, and an enum source with a non-enum target, both give null |

## Left out

- The inherited `ImmutableReplicator.replicateImmutable` (line 57): its code is not part of this model. It is the parameter `base`, which may be any function.
- The `Factory` class and the static `newImmutableReplicatable` entry points (lines 32-51): object construction only, with no behaviour to model.
- The `AssertionError` for an enum class without a `values()` method (lines 71-72): an `EnumClass` always carries its constants, so this state cannot arise in the model.
- The `RuntimeException` wrapping of `IllegalAccessException` and `InvocationTargetException` (lines 73-76): Java access rules and reflection are not modelled. When the target enum is not public and lies outside the package `net.sf.beanlib.provider.replicator`, `values.invoke(null)` at line 68 throws `IllegalAccessException` before `Array.get` runs. Line 74 then rethrows it as a `RuntimeException`, whatever the ordinal. The model has no access rules, so for such a target it returns the constant at the source ordinal, or `None` when the ordinal is out of range. An `InvocationTargetException` would need a `values()` method that throws; the compiler-generated one does not.
- The generic parameters `V` and `T` and the `toClass.cast` call: all values share the one datatype `Value`, and the constant taken from the target's `values()` always has the target class.
- A `null` source value: what the base replicator does with it is not part of this model. If the base returns `null`, the `instanceof Enum` test at line 62 fails and the method returns `null`.
- A `null` target class: when the base returns `null`, `toClass.isEnum()` at line 62 throws `NullPointerException`. A `JClass` is never null, so the model has no such case.
- Enum constants that have their own class bodies: the model's enum classes are the declaring enum types themselves.
- Thread safety: the `@ThreadSafe` annotation at line 39 belongs to the `Factory` class, not to `replicateImmutable`. The method itself reads no shared mutable state. Its result depends only on its inputs and the base answer (`DependsOnlyOnBaseAnswer`).
