/** An abstract model of the parts of the Java platform that the metawidget
    redefinition plugin reaches through reflection: the loaded classes and
    their superclass chains, the fields each class declares, objects with a
    runtime class and a field store, and the `java.util.Map` caches those
    fields may point at. Nothing here is plugin logic; the plugin itself is
    in module ClassRedefinitionPlugin. */
module Reflection {

  /** A class as seen at run time (`Class<?>`). It is also the key type of
      every cache the plugin clears. A `ClassId` is an opaque identity, not a
      binary class name: in Java a class is its name together with its
      class loader, so two same-named classes from different loaders are two
      distinct `ClassId`s. The strings are only a convenient carrier. */
  type ClassId = string

  type FieldName = string

  /** `org.fakereplace.classloading.ClassIdentifier` is not part of this
      model; the plugin never looks inside one, so a name stands for it. */
  type ClassIdentifier = string

  /** The universal root of every superclass chain (the one
      `java.lang.Object` of the bootstrap loader). */
  const ObjectClass: ClassId := "java.lang.Object"

  /** What the platform knows about one loaded class: its direct superclass
      (meaningless for `java.lang.Object`, whose superclass is null), the
      names of the fields it declares itself, and a rank. Java stores no
      rank: it is a witness that strictly decreases along every superclass
      step, so that walking up a chain provably ends. */
  datatype ClassInfo = ClassInfo(superclass: ClassId, declared: set<FieldName>, rank: nat)

  type Hierarchy = map<ClassId, ClassInfo>

  /** Every loaded class other than `java.lang.Object` has a loaded
      superclass of smaller rank: the superclass relation is acyclic and
      every chain ends at `java.lang.Object`. */
  predicate WellFormed(h: Hierarchy)
  {
    && ObjectClass in h
    && forall c {:trigger StepsDown(h, c)} :: c in h && c != ObjectClass ==> StepsDown(h, c)
  }

  /** The superclass of `c` is loaded and has a smaller rank. */
  predicate StepsDown(h: Hierarchy, c: ClassId)
    requires c in h
  {
    h[c].superclass in h && h[h[c].superclass].rank < h[c].rank
  }

  /** `Class.getSuperclass()` for every loaded class but the root. */
  function Superclass(h: Hierarchy, c: ClassId): (s: ClassId)
    requires WellFormed(h) && c in h && c != ObjectClass
    ensures s in h && h[s].rank < h[c].rank
  {
    assert StepsDown(h, c);
    h[c].superclass
  }

  /** A `java.lang.reflect.Field`: the class that declares it and its name. */
  datatype Field = Field(declaringClass: ClassId, name: FieldName)

  /** The exceptions the reflective calls of the plugin can raise. */
  datatype JavaException =
    | NullPointerException      // `getClass` on null, or `Method.invoke` on a null target
    | NoSuchFieldException      // no class below `java.lang.Object` declares the field
    | IllegalArgumentException  // `Method.invoke` of `Map.remove` on an object that is not a map

  datatype Option<T> = None | Some(value: T)

  datatype Result<T> = Success(value: T) | Failure(error: JavaException)

  /** How a call that returns nothing ends: normally, or with an exception. */
  datatype Outcome = Pass | Fail(error: JavaException)

  /** A mutable `java.util.Map` keyed by classes. `V` is whatever the cache
      holds; nothing in this model ever inspects it. */
  class JavaMap<V> {
    var entries: map<ClassId, V>

    constructor (entries: map<ClassId, V>)
      ensures this.entries == entries
    {
      this.entries := entries;
    }

    /** `Map.remove(key)`: drops the entry for `key` if there is one and
        returns the value it held; an absent key leaves the map as it was. */
    method Remove(key: ClassId) returns (previous: Option<V>)
      modifies this
      ensures entries == old(entries) - {key}
      ensures key in old(entries) ==> previous == Some(old(entries)[key])
      ensures key !in old(entries) ==> previous == None
    {
      previous := if key in entries then Some(entries[key]) else None;
      entries := entries - {key};
    }
  }

  /** The value a reference field holds: null, a map, or some other object. */
  datatype Value<V> = Null | MapRef(cache: JavaMap<V>) | NonMap

  /** A live object: its runtime class (`getClass()`, fixed for the
      object's lifetime) and the values of the fields that have been
      assigned. Nothing in the plugin assigns a field of a tracked object
      (it only mutates the maps they point at), so the field store is
      fixed here as well. */
  class Instance<V> {
    const runtimeClass: ClassId
    const fields: map<Field, Value<V>>

    constructor (runtimeClass: ClassId, fields: map<Field, Value<V>>)
      ensures this.runtimeClass == runtimeClass && this.fields == fields
    {
      this.runtimeClass := runtimeClass;
      this.fields := fields;
    }
  }

  /** `Field.get(i)`: a reference field that was never assigned holds null. */
  function FieldValue<V>(i: Instance<V>, f: Field): (v: Value<V>)
    ensures f in i.fields ==> v == i.fields[f]
    ensures f !in i.fields ==> v == Null
  {
    if f in i.fields then i.fields[f] else Null
  }
}
