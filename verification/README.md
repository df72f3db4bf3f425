# Class-redefinition cache invalidation (fakereplace, metawidget plugin)

This project models the metawidget integration of fakereplace. That
integration reacts to a hot class redefinition. Metawidget's action-style
and property-style objects cache per-class data in a private map field
(`mActionCache`, `mPropertiesCache`) keyed by `Class`. After a
redefinition, `ClassRedefinitionPlugin.notify` visits every tracked object
of both kinds and removes the entries of the changed classes from its cache.
It finds the cache field reflectively, by walking up the superclass chain
from the object's runtime class with `getField`. `clearMap` catches every
exception raised on one object, so the remaining objects are still cleared.

The model has two modules:

- `Reflection` (`reflection.dfy`) is the part of the Java platform that the
  plugin reaches through reflection. The loaded classes form a finite map
  from class to superclass, declared field names and a rank. The rank
  strictly decreases along each superclass step; it witnesses that
  superclass chains are acyclic and end at `java.lang.Object`. An `Instance`
  is an object with a runtime class and a field store. A field that was
  never assigned reads as null. A field value is null, a reference to a
  mutable `JavaMap` (a class whose `entries` field the plugin changes in
  place), or some other object.
- `ClassRedefinitionPlugin` (`class_redefinition_plugin.dfy`) is the plugin.
  `getField` is a pure recursive function. `clearMap` is a method that loops
  over `changed` and removes one key at a time from the resolved map.
  `notify` runs one loop per category (`ClearCategory`). The map contents
  after stripping are given by the function `Stripped`, and the loops are
  proved against it.

Exceptions are values of `JavaException`. `ClearMap` returns the exception
it catches as an `Outcome` out-parameter; the source only prints it. The
tracked instances of each category are passed to `Notify` as a sequence.

Two consequences of the code are worth stating:

- `getField` starts at the object's runtime class (`i.getClass()`), and the
  root check at line 45 means `java.lang.Object` is never searched.
- A null or non-map field value raises an exception only from
  `remove.invoke` inside the loop, so with an empty `changed` `clearMap`
  succeeds on any resolved value.

## Model

| member | source | states |
|---|---|---|
| `Reflection.Superclass` | plugins/metawidget/src/main/java/org/fakereplace/integration/metawidget/ClassRedefinitionPlugin.java:52 | Every class below `java.lang.Object` has a loaded superclass of strictly smaller rank, so each step of the walk goes down a well-founded measure |
| `Reflection.JavaMap.Remove` | plugins/metawidget/src/main/java/org/fakereplace/integration/metawidget/ClassRedefinitionPlugin.java:80 | `Map.remove(key)` drops exactly the entry for `key` and returns its value; an absent key leaves the map unchanged and returns nothing |
| `Reflection.FieldValue` | plugins/metawidget/src/main/java/org/fakereplace/integration/metawidget/ClassRedefinitionPlugin.java:78 | `Field.get` returns the value the field was assigned, and a reference field that was never assigned reads as null |
| `ClassRedefinitionPlugin.SearchedChain` | plugins/metawidget/src/main/java/org/fakereplace/integration/metawidget/ClassRedefinitionPlugin.java:44-53 | The classes `getField` asks are loaded classes, and none of them is `java.lang.Object` |
| `ClassRedefinitionPlugin.SearchedChainIsSuperclassWalk` | plugins/metawidget/src/main/java/org/fakereplace/integration/metawidget/ClassRedefinitionPlugin.java:45-52 | The searched chain starts at the runtime class and follows `getSuperclass` one step at a time. It stops just below `java.lang.Object` and is empty only for `java.lang.Object` itself. Ranks strictly decrease along it, so no class is visited twice and the recursion ends |
| `ClassRedefinitionPlugin.GetField` | plugins/metawidget/src/main/java/org/fakereplace/integration/metawidget/ClassRedefinitionPlugin.java:44-53 | A found field has the requested name and is declared by a loaded class other than `java.lang.Object`. The only failure is `NoSuchFieldException` |
| `ClassRedefinitionPlugin.GetFieldFindsFirstDeclaring` | plugins/metawidget/src/main/java/org/fakereplace/integration/metawidget/ClassRedefinitionPlugin.java:44-53 | `getField` fails exactly when no class on the searched chain declares the name. Otherwise it returns the field of the first declaring class on the chain, and same-named fields further up are shadowed |
| `ClassRedefinitionPlugin.GetFieldIgnoresObject` | plugins/metawidget/src/main/java/org/fakereplace/integration/metawidget/ClassRedefinitionPlugin.java:45-48 | The result does not depend on the fields `java.lang.Object` declares, because the root check comes before `getDeclaredField` |
| `ClassRedefinitionPlugin.Stripped` | plugins/metawidget/src/main/java/org/fakereplace/integration/metawidget/ClassRedefinitionPlugin.java:79-81 | Removing the changed classes one at a time leaves exactly the keys not in `changed`, each with its original value, whatever the order or repetitions in `changed` |
| `ClassRedefinitionPlugin.StrippedIdempotent` | plugins/metawidget/src/main/java/org/fakereplace/integration/metawidget/ClassRedefinitionPlugin.java:79-81 | Stripping twice with the same `changed` gives the same map as stripping once |
| `ClassRedefinitionPlugin.StrippedAbsentKeys` | plugins/metawidget/src/main/java/org/fakereplace/integration/metawidget/ClassRedefinitionPlugin.java:79-81 | Removing classes that are not keys changes nothing; in particular an empty `changed` changes nothing |
| `ClassRedefinitionPlugin.Resolve` | plugins/metawidget/src/main/java/org/fakereplace/integration/metawidget/ClassRedefinitionPlugin.java:76-78 | Resolving the cache field fails exactly when the instance is null (`NullPointerException` from `getClass`) or `getField` fails (`NoSuchFieldException`); otherwise it yields the field's value on the instance |
| `ClassRedefinitionPlugin.ClearMap` | plugins/metawidget/src/main/java/org/fakereplace/integration/metawidget/ClassRedefinitionPlugin.java:74-85 | `clearMap` catches every exception it raises, so none leaves it. If the field resolves to a map, that map loses exactly the keys in `changed` and the outcome is success. No other map changes. A null instance gives `NullPointerException` and a missing field gives `NoSuchFieldException`. A null or non-map value gives `NullPointerException` or `IllegalArgumentException`, but only when `changed` is non-empty. In every failure nothing is modified |
| `ClassRedefinitionPlugin.ClearCategory` | plugins/metawidget/src/main/java/org/fakereplace/integration/metawidget/ClassRedefinitionPlugin.java:64-66 | The loop over one category: every map that an instance of it holds in the named field loses exactly the keys in `changed`. This holds even when `clearMap` failed on other instances, and even when several instances share one map. No other map changes |
| `ClassRedefinitionPlugin.Notify` | plugins/metawidget/src/main/java/org/fakereplace/integration/metawidget/ClassRedefinitionPlugin.java:62-72 | Every action-style instance's `mActionCache` map and every property-style instance's `mPropertiesCache` map loses exactly the keys in `changed`, regardless of failures on other instances. No other map changes. `added` plays no part, and an added-only change (empty `changed`) leaves every cache as it was |
| `ClassRedefinitionPlugin.BeforeChange` | plugins/metawidget/src/main/java/org/fakereplace/integration/metawidget/ClassRedefinitionPlugin.java:55-57 | `beforeChange` changes no cache (it has no `modifies` clause, and its ensures says so for any set of maps) |

## Left out

- `core/src/main/java/org/fakereplace/com/google/common/collect/BiMap.java` is a copied interface with abstract method signatures only, and it plays no part in redefinition handling.
- The static initializer that looks up `Map.remove` (lines 34-42) and the `printStackTrace` calls are left out. The lookup cannot fail for `java.util.Map`, and printing is I/O; `ClearMap` returns what would be printed.
- `Field.setAccessible` is left out, together with any `SecurityException` from it or from `getDeclaredField`. Every field is treated as accessible.
- `InstanceTracker` is not part of this model, and neither is its weak-reference liveness. The live instances of each category are passed in as a sequence.
- The `MetawidgetExtension` category constants are not part of this model. The two categories are the two sequence parameters of `Notify`.
- `ClassIdentifier` is not part of this model. `added` is a sequence of names that is never read.
- The field stores of tracked instances are fixed (`const`). Nothing in the plugin assigns a field of a tracked object, and concurrent mutation by other threads is out of scope.
- A null `changed` array and null elements in it are not modelled, since class identities here are never null. In the source a null array would raise `NullPointerException` in `clearMap` and be swallowed, and a null key is passed to `Map.remove`, which some maps reject with `NullPointerException`.
- Maps that refuse removal (`UnsupportedOperationException` from an unmodifiable map) are not modelled. Such a map would fail part-way through the loop, after removing some keys. Every map in the model supports removal.
- Primitive fields are not modelled separately. Reflection boxes their values, so they fall under "some other object".
- `ClassRedefinitionPlugin.GetField` is total only on well-formed hierarchies: every chain is finite and ends at `java.lang.Object`. Interfaces and primitive types, whose superclass is null, are never the runtime class of an object.
- `ClassRedefinitionPlugin.ClearMap` and `ClassRedefinitionPlugin.Notify` model only the listed exceptions. The source catches `Exception`, not `Error`: an error such as `NoClassDefFoundError` from `getDeclaredField` propagates out of `clearMap` and `notify`, skipping the remaining instances and the property-style loop. The model's reflection raises no errors, so its per-instance isolation holds only for exceptions.
