/** The metawidget integration's reaction to a class redefinition: after the
    redefinition engine has replaced some classes, every tracked action-style
    and property-style object drops the entries its cache holds for those
    classes. The cache is a private map field that may be declared on any
    superclass of the object's runtime class, so it is found by walking the
    superclass chain, and any reflective failure on one object is swallowed
    so that the others are still cleared. */
module ClassRedefinitionPlugin {
  import opened Reflection

  /** The cache fields of the two tracked categories. */
  const ActionCacheField: FieldName := "mActionCache"
  const PropertiesCacheField: FieldName := "mPropertiesCache"

  // ---------------------------------------------------------------------
  // getField: the superclass walk
  // ---------------------------------------------------------------------

  /** The classes `getField` asks for a declared field, in the order it
      asks them: `c`, its superclass, and so on, up to but excluding
      `java.lang.Object`. */
  function SearchedChain(h: Hierarchy, c: ClassId): (chain: seq<ClassId>)
    requires WellFormed(h) && c in h
    ensures forall k :: 0 <= k < |chain| ==> chain[k] in h && chain[k] != ObjectClass
    decreases h[c].rank
  {
    if c == ObjectClass then [] else [c] + SearchedChain(h, Superclass(h, c))
  }

  /** The searched chain is a finite walk up the superclass relation that
      starts at `c` and stops just below `java.lang.Object`: it is empty
      exactly when `c` is the root, and never visits a class twice. */
  lemma {:induction false} SearchedChainIsSuperclassWalk(h: Hierarchy, c: ClassId)
    requires WellFormed(h) && c in h
    ensures var chain := SearchedChain(h, c);
      && (chain == [] <==> c == ObjectClass)
      && (chain != [] ==> chain[0] == c && Superclass(h, chain[|chain| - 1]) == ObjectClass)
      && (forall k :: 0 <= k < |chain| - 1 ==> Superclass(h, chain[k]) == chain[k + 1])
      && (forall j, k :: 0 <= j < k < |chain| ==> h[chain[k]].rank < h[chain[j]].rank)
    decreases h[c].rank
  {
    if c != ObjectClass {
      var sup := Superclass(h, c);
      SearchedChainIsSuperclassWalk(h, sup);
      var chain, rest := SearchedChain(h, c), SearchedChain(h, sup);
      assert chain == [c] + rest;
      if rest != [] {
        assert rest[0] == sup;
        assert forall k :: 0 < k < |chain| ==> chain[k] == rest[k - 1];
        forall j, k | 0 <= j < k < |chain| ensures h[chain[k]].rank < h[chain[j]].rank {
          if j > 0 {
            assert chain[j] == rest[j - 1] && chain[k] == rest[k - 1];
          } else {
            if k > 1 { assert h[rest[k - 1]].rank < h[rest[0]].rank; }
          }
        }
      }
    }
  }

  /** `getField(clazz, name)`: the field called `name` declared by `c` or by
      the nearest superclass of `c` that declares one; `java.lang.Object`
      itself is never asked. */
  function GetField(h: Hierarchy, c: ClassId, name: FieldName): (r: Result<Field>)
    requires WellFormed(h) && c in h
    ensures r.Success? ==> r.value.declaringClass in h && r.value.declaringClass != ObjectClass
    ensures r.Success? ==> r.value.name == name && name in h[r.value.declaringClass].declared
    ensures r.Failure? ==> r.error == NoSuchFieldException
    decreases h[c].rank
  {
    if c == ObjectClass then Failure(NoSuchFieldException)
    else if name in h[c].declared then Success(Field(c, name))
    else GetField(h, Superclass(h, c), name)
  }

  /** The lookup is exactly "the first class on the searched chain that
      declares `name`": it fails if and only if no class on the chain
      declares it, and otherwise every class before the one it returns
      does not declare it, so fields further up are shadowed. */
  lemma {:induction false} GetFieldFindsFirstDeclaring(h: Hierarchy, c: ClassId, name: FieldName)
    requires WellFormed(h) && c in h
    ensures var chain := SearchedChain(h, c);
      match GetField(h, c, name)
      case Failure(_) =>
        forall k :: 0 <= k < |chain| ==> name !in h[chain[k]].declared
      case Success(f) =>
        exists k :: 0 <= k < |chain| && chain[k] == f.declaringClass &&
          forall j :: 0 <= j < k ==> name !in h[chain[j]].declared
    decreases h[c].rank
  {
    if c != ObjectClass && name !in h[c].declared {
      var sup := Superclass(h, c);
      GetFieldFindsFirstDeclaring(h, sup, name);
      var chain, rest := SearchedChain(h, c), SearchedChain(h, sup);
      assert chain == [c] + rest;
      match GetField(h, sup, name)
      case Failure(_) =>
        forall k | 0 <= k < |chain| ensures name !in h[chain[k]].declared {
          if k > 0 { assert chain[k] == rest[k - 1]; }
        }
      case Success(f) =>
        var k :| 0 <= k < |rest| && rest[k] == f.declaringClass &&
          forall j :: 0 <= j < k ==> name !in h[rest[j]].declared;
        forall j | 0 <= j < k + 1 ensures name !in h[chain[j]].declared {
          if j > 0 { assert chain[j] == rest[j - 1]; }
        }
        assert 0 <= k + 1 < |chain| && chain[k + 1] == f.declaringClass;
    } else if c != ObjectClass {
      assert SearchedChain(h, c)[0] == c;
    }
  }

  /** Whatever fields `java.lang.Object` is said to declare, the lookup
      gives the same answer: the root check comes before any declared
      field is consulted. */
  lemma {:induction false} GetFieldIgnoresObject(h: Hierarchy, c: ClassId, name: FieldName, objectFields: set<FieldName>)
    requires WellFormed(h) && c in h
    ensures WellFormed(h[ObjectClass := h[ObjectClass].(declared := objectFields)])
    ensures GetField(h[ObjectClass := h[ObjectClass].(declared := objectFields)], c, name) == GetField(h, c, name)
    decreases h[c].rank
  {
    var h' := h[ObjectClass := h[ObjectClass].(declared := objectFields)];
    forall d | d in h' && d != ObjectClass ensures StepsDown(h', d) {
      assert StepsDown(h, d);
    }
    if c != ObjectClass && name !in h[c].declared {
      GetFieldIgnoresObject(h, Superclass(h, c), name, objectFields);
    }
  }

  // ---------------------------------------------------------------------
  // clearMap: resolving the cache and stripping the changed keys
  // ---------------------------------------------------------------------

  /** The map that results from calling `remove` with each of `changed` in
      turn. Whatever the order or repetitions in `changed`, exactly the
      entries whose key occurs in it are gone and every other entry keeps
      its value. */
  function Stripped<V>(m: map<ClassId, V>, changed: seq<ClassId>): (r: map<ClassId, V>)
    ensures r.Keys == m.Keys - set k | k in changed
    ensures forall k :: k in r ==> r[k] == m[k]
  {
    if |changed| == 0 then m
    else Stripped(m, changed[..|changed| - 1]) - {changed[|changed| - 1]}
  }

  /** Stripping the same classes twice leaves what stripping them once left. */
  lemma {:induction false} StrippedIdempotent<V>(m: map<ClassId, V>, changed: seq<ClassId>)
    ensures Stripped(Stripped(m, changed), changed) == Stripped(m, changed)
  {
    var once, twice := Stripped(m, changed), Stripped(Stripped(m, changed), changed);
    assert twice.Keys == once.Keys;
  }

  /** Stripping classes none of which is a key changes nothing; in
      particular an empty change set changes nothing. */
  lemma {:induction false} StrippedAbsentKeys<V>(m: map<ClassId, V>, changed: seq<ClassId>)
    requires forall k :: k in changed ==> k !in m
    ensures Stripped(m, changed) == m
  {
    assert Stripped(m, changed).Keys == m.Keys;
  }

  /** The first steps of `clearMap`: `i.getClass()`, `getField` and
      `Field.get`. The result is the value of the cache field of `inst`, or
      the exception raised on the way to it: `NullPointerException` for a
      null instance, `NoSuchFieldException` when no class on the searched
      chain declares the field. */
  function Resolve<V>(h: Hierarchy, inst: Instance?<V>, cacheName: FieldName): (r: Result<Value<V>>)
    requires WellFormed(h)
    requires inst != null ==> inst.runtimeClass in h
    ensures r.Failure? <==> inst == null || GetField(h, inst.runtimeClass, cacheName).Failure?
    ensures inst == null ==> r == Failure(NullPointerException)
    ensures inst != null && r.Failure? ==> r.error == NoSuchFieldException
    ensures r.Success? ==> r.value == FieldValue(inst, GetField(h, inst.runtimeClass, cacheName).value)
  {
    if inst == null then Failure(NullPointerException)
    else match GetField(h, inst.runtimeClass, cacheName)
      case Failure(e) => Failure(e)
      case Success(f) => Success(FieldValue(inst, f))
  }

  /** The map that `clearMap(changed, inst, cacheName)` removes keys from,
      as a frame: a singleton when the field resolves to a map, empty when
      it is missing, null or not a map. */
  function ResolvedCache<V>(h: Hierarchy, inst: Instance?<V>, cacheName: FieldName): set<JavaMap<V>>
    requires WellFormed(h)
    requires inst != null ==> inst.runtimeClass in h
  {
    match Resolve(h, inst, cacheName)
    case Success(MapRef(m)) => {m}
    case _ => {}
  }

  /** `clearMap(changed, i, cacheName)`. It catches every exception;
      `outcome` is the exception it catches and logs, if any. If the field
      resolves to a map, the map loses exactly the keys in `changed`; in
      every other case nothing changes. An exception is raised only when
      resolution fails or when `changed` is non-empty and the field holds
      null or a non-map. */
  method ClearMap<V>(h: Hierarchy, changed: seq<ClassId>, inst: Instance?<V>, cacheName: FieldName)
    returns (outcome: Outcome)
    requires WellFormed(h)
    requires inst != null ==> inst.runtimeClass in h
    modifies ResolvedCache(h, inst, cacheName)
    ensures forall m :: m in ResolvedCache(h, inst, cacheName) ==>
      m.entries == Stripped(old(m.entries), changed)
    ensures Resolve(h, inst, cacheName).Failure? ==>
      outcome == Fail(Resolve(h, inst, cacheName).error)
    ensures Resolve(h, inst, cacheName).Success? ==>
      match Resolve(h, inst, cacheName).value
      case MapRef(_) => outcome == Pass
      case Null => outcome == if changed == [] then Pass else Fail(NullPointerException)
      case NonMap => outcome == if changed == [] then Pass else Fail(IllegalArgumentException)
  {
    var resolved := Resolve(h, inst, cacheName);
    if resolved.Failure? {
      return Fail(resolved.error);
    }
    var value := resolved.value;
    ghost var before := if value.MapRef? then value.cache.entries else map[];
    for j := 0 to |changed|
      invariant value.MapRef? ==> value.cache.entries == Stripped(before, changed[..j])
      invariant !value.MapRef? ==> j == 0
    {
      match value
      case Null =>
        return Fail(NullPointerException);
      case NonMap =>
        return Fail(IllegalArgumentException);
      case MapRef(m) =>
        var previous := m.Remove(changed[j]);
        assert changed[..j + 1][..j] == changed[..j];
    }
    assert changed[..|changed|] == changed;
    return Pass;
  }

  // ---------------------------------------------------------------------
  // notify and beforeChange
  // ---------------------------------------------------------------------

  /** The caches that the instances in `insts` hold in field `cacheName`. */
  function Caches<V>(h: Hierarchy, insts: seq<Instance<V>>, cacheName: FieldName): set<JavaMap<V>>
    requires WellFormed(h)
    requires forall i :: i in insts ==> i.runtimeClass in h
  {
    set i, m | i in insts && m in ResolvedCache(h, i, cacheName) :: m
  }

  /** `beforeChange(changed, added)` does nothing: no cache, whichever,
      changes. The Java method has no `caches` parameter; this ghost set
      stands for any maps a caller holds, so that the contract can say of
      each of them that it is unchanged. */
  method BeforeChange<V>(changed: seq<ClassId>, added: seq<ClassIdentifier>, ghost caches: set<JavaMap<V>>)
    ensures forall m :: m in caches ==> m.entries == old(m.entries)
  {
  }

  /** One of the two loops of `notify`: `clearMap` on each instance of a
      category in turn. Every map one of them holds in `cacheName` loses
      exactly the keys in `changed`, even when `clearMap` failed on other
      instances, and a map shared by several instances is no worse off
      for being stripped more than once. */
  method ClearCategory<V>(h: Hierarchy, changed: seq<ClassId>, insts: seq<Instance<V>>, cacheName: FieldName)
    requires WellFormed(h)
    requires forall i :: i in insts ==> i.runtimeClass in h
    modifies Caches(h, insts, cacheName)
    ensures forall m :: m in Caches(h, insts, cacheName) ==> m.entries == Stripped(old(m.entries), changed)
  {
    ghost var all, done: set<JavaMap<V>> := Caches(h, insts, cacheName), {};
    for k := 0 to |insts|
      invariant forall j :: 0 <= j < k ==> Cleared(h, insts[j], cacheName, done)
      invariant forall m :: m in all ==>
        m.entries == if m in done then Stripped(old(m.entries), changed) else old(m.entries)
    {
      var outcome := ClearMap(h, changed, insts[k], cacheName);
      forall m | m in ResolvedCache(h, insts[k], cacheName) {
        StrippedIdempotent(old(m.entries), changed);
      }
      done := done + ResolvedCache(h, insts[k], cacheName);
    }
    forall m | m in all ensures m in done {
      var i :| i in insts && m in ResolvedCache(h, i, cacheName);
      var j :| 0 <= j < |insts| && insts[j] == i;
      assert Cleared(h, insts[j], cacheName, done);
    }
  }

  /** The cache of `inst`, if it has one, is among `done`. */
  predicate Cleared<V>(h: Hierarchy, inst: Instance<V>, cacheName: FieldName, done: set<JavaMap<V>>)
    requires WellFormed(h) && inst.runtimeClass in h
  {
    ResolvedCache(h, inst, cacheName) <= done
  }

  /** `notify(changed, added)`: `actionStyles` and `propertyStyles` are the
      live instances tracked under the base action style and base property
      style categories. Every map that an action-style instance holds in
      `mActionCache`, or a property-style instance holds in
      `mPropertiesCache`, loses exactly the keys in `changed`, whatever
      happened on the other instances; no other map changes, and `added`
      plays no part. */
  method Notify<V>(h: Hierarchy, changed: seq<ClassId>, added: seq<ClassIdentifier>,
                   actionStyles: seq<Instance<V>>, propertyStyles: seq<Instance<V>>)
    requires WellFormed(h)
    requires forall i :: i in actionStyles ==> i.runtimeClass in h
    requires forall i :: i in propertyStyles ==> i.runtimeClass in h
    modifies Caches(h, actionStyles, ActionCacheField), Caches(h, propertyStyles, PropertiesCacheField)
    ensures forall m :: m in Caches(h, actionStyles, ActionCacheField) ==>
      m.entries == Stripped(old(m.entries), changed)
    ensures forall m :: m in Caches(h, propertyStyles, PropertiesCacheField) ==>
      m.entries == Stripped(old(m.entries), changed)
    ensures changed == [] ==> forall m :: m in Caches(h, actionStyles, ActionCacheField) ==> m.entries == old(m.entries)
    ensures changed == [] ==> forall m :: m in Caches(h, propertyStyles, PropertiesCacheField) ==> m.entries == old(m.entries)
  {
    ClearCategory(h, changed, actionStyles, ActionCacheField);
    forall m | m in Caches(h, actionStyles, ActionCacheField) {
      StrippedIdempotent(old(m.entries), changed);
    }
    ClearCategory(h, changed, propertyStyles, PropertiesCacheField);
    if changed == [] {
      forall m | m in Caches(h, actionStyles, ActionCacheField) ensures m.entries == old(m.entries) {
        StrippedAbsentKeys(old(m.entries), changed);
      }
      forall m | m in Caches(h, propertyStyles, PropertiesCacheField) ensures m.entries == old(m.entries) {
        StrippedAbsentKeys(old(m.entries), changed);
      }
    }
  }
}
