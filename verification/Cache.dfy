/**
 CacheService: values with expiry, the two-way index between cache keys and dependency tags,
 and invalidation by pattern.
 */
module Cache {
  import opened Wrappers
  import opened TtlStore
  import opened Glob

  type Tags = map<string, seq<string>>

  datatype Stats = Stats(hits: nat, misses: nat, sets: nat, evictions: nat)

  /** The keys registered under a tag, as the forward index gives them. */
  function KeysUnder(keyToDeps: Tags, tag: string): set<string> {
    set k | k in keyToDeps && tag in keyToDeps[k]
  }

  /** The two indexes are inverse to each other, and no tag keeps an empty key set. */
  ghost predicate Inverse(depToKeys: map<string, set<string>>, keyToDeps: Tags) {
    && (forall t :: t in depToKeys ==> depToKeys[t] != {} && depToKeys[t] == KeysUnder(keyToDeps, t))
    && (forall k, t :: k in keyToDeps && t in keyToDeps[k] ==> t in depToKeys)
    && (forall k :: k in keyToDeps ==> keyToDeps[k] != [])
  }

  /** The keys registered under some tag that the pattern matches. */
  function TaggedKeys(keyToDeps: Tags, p: string): set<string> {
    set k | k in keyToDeps && exists t :: t in keyToDeps[k] && TagMatches(t, p)
  }

  /** A plain name stands for itself; a `*` pattern for what the store's `keys` found, if it has one. */
  function NamedKeys(p: string, found: Option<set<string>>): set<string> {
    if '*' !in p then {p} else if found.Some? then found.value else {}
  }

  function Doomed(keyToDeps: Tags, p: string, found: Option<set<string>>): set<string> {
    TaggedKeys(keyToDeps, p) + NamedKeys(p, found)
  }

  /** Comparing a tag throws, which happens only when there is some tag to compare. */
  predicate PatternFails(depToKeys: map<string, set<string>>, p: string) {
    '*' in p && depToKeys != map[] && Throws(p)
  }

  /** The store's `keys` implements the `*` glob over the names it holds. */
  ghost predicate KeysIsGlob<V>(store: Store<V>, p: string, found: set<string>) {
    forall k :: k in found <==> k in store && GlobMatches(p, k)
  }

  /** The synchronous part of `getOrSet`: join the load in flight for the key, or start load `newLoad`. */
  function JoinOrStart(inflight: map<string, nat>, key: string, newLoad: nat): (map<string, nat>, nat) {
    if key in inflight then (inflight, inflight[key]) else (inflight[key := newLoad], newLoad)
  }

  class CacheService<V(==)> {
    var stats: Stats
    var inflight: map<string, nat>
    var depToKeys: map<string, set<string>>
    var keyToDeps: Tags
    var store: Store<V>
    const defaultTtl: int

    constructor (defaultTtl: int)
      ensures this.defaultTtl == defaultTtl
      ensures Valid() && store == map[] && keyToDeps == map[] && inflight == map[] && stats == Stats(0, 0, 0, 0)
    {
      this.defaultTtl := defaultTtl;
      stats := Stats(0, 0, 0, 0);
      depToKeys, keyToDeps, store, inflight := map[], map[], map[], map[];
    }

    ghost predicate Valid()
      reads this
    {
      Inverse(depToKeys, keyToDeps)
    }

    method Lookup(key: string, now: int) returns (v: Option<V>)
      modifies this`stats
      ensures v == Get(store, key, now)
      ensures stats == if v.Some? then old(stats).(hits := old(stats).hits + 1)
                       else old(stats).(misses := old(stats).misses + 1)
    {
      v := Get(store, key, now);
      if v.Some? {
        stats := stats.(hits := stats.hits + 1);
      } else {
        stats := stats.(misses := stats.misses + 1);
      }
    }

    /** The loop of `unregisterKey`: drops the key from its tags, and tags that become empty. */
    method RemoveFromTags(key: string, deps: seq<string>)
      modifies this`depToKeys
      ensures forall t :: t in depToKeys <==> t in old(depToKeys) && (t in deps ==> old(depToKeys)[t] - {key} != {})
      ensures forall t :: t in depToKeys ==>
                depToKeys[t] == if t in deps then old(depToKeys)[t] - {key} else old(depToKeys)[t]
    {
      ghost var index := depToKeys;
      for i := 0 to |deps|
        invariant forall t :: t in depToKeys <==> t in index && (t in deps[..i] ==> index[t] - {key} != {})
        invariant forall t :: t in depToKeys ==> depToKeys[t] == if t in deps[..i] then index[t] - {key} else index[t]
      {
        var dep := deps[i];
        assert deps[..i + 1] == deps[..i] + [dep];
        if dep in depToKeys {
          var rest := depToKeys[dep] - {key};
          depToKeys := if rest == {} then depToKeys - {dep} else depToKeys[dep := rest];
        }
      }
      assert deps[..|deps|] == deps;
    }

    method BeginGetOrSet(key: string, newLoad: nat) returns (load: nat)
      modifies this`inflight
      ensures (inflight, load) == JoinOrStart(old(inflight), key, newLoad)
    {
      if key in inflight {
        return inflight[key];
      }
      inflight := inflight[key := newLoad];
      load := newLoad;
    }

    /** The `finally` of a load. */
    method EndLoad(key: string)
      modifies this`inflight
      ensures inflight == old(inflight) - {key}
    {
      inflight := inflight - {key};
    }

    method UnregisterKey(key: string)
      requires Valid()
      modifies this`depToKeys, this`keyToDeps
      ensures Valid() && keyToDeps == old(keyToDeps) - {key}
    {
      if key !in keyToDeps {
        return;
      }
      RemoveFromTags(key, keyToDeps[key]);
      keyToDeps := keyToDeps - {key};
      InverseAfterRemoval(old(depToKeys), old(keyToDeps), depToKeys, key);
    }

    /** The loop of `registerKeyDependencies`. */
    method AddToTags(key: string, deps: seq<string>)
      modifies this`depToKeys
      ensures forall t :: t in depToKeys <==> t in old(depToKeys) || t in deps
      ensures forall t :: t in depToKeys ==>
                depToKeys[t]
                == (if t in old(depToKeys) then old(depToKeys)[t] else {}) + (if t in deps then {key} else {})
    {
      ghost var index := depToKeys;
      for i := 0 to |deps|
        invariant forall t :: t in depToKeys <==> t in index || t in deps[..i]
        invariant forall t :: t in depToKeys ==>
                    depToKeys[t] == (if t in index then index[t] else {}) + (if t in deps[..i] then {key} else {})
      {
        var dep := deps[i];
        assert deps[..i + 1] == deps[..i] + [dep];
        if dep !in depToKeys {
          depToKeys := depToKeys[dep := {}];
        }
        depToKeys := depToKeys[dep := depToKeys[dep] + {key}];
      }
      assert deps[..|deps|] == deps;
    }

    method RegisterKeyDependencies(key: string, dependencies: seq<string>)
      requires Valid() && dependencies != []
      modifies this`depToKeys, this`keyToDeps
      ensures Valid() && keyToDeps == old(keyToDeps)[key := dependencies]
    {
      UnregisterKey(key);
      ghost var index, tags := depToKeys, keyToDeps;
      keyToDeps := keyToDeps[key := dependencies];
      AddToTags(key, dependencies);
      InverseAfterInsertion(index, tags, depToKeys, key, dependencies);
    }

    /** Without a TTL the store applies its own default. */
    method SetValue(key: string, value: V, ttl: Option<int>, dependencies: seq<string>, now: int)
      requires Valid()
      modifies this`stats, this`depToKeys, this`keyToDeps, this`store
      ensures Valid() && store == Put(old(store), key, value, if ttl.Some? then ttl.value else defaultTtl, now)
      ensures keyToDeps == if dependencies == [] then old(keyToDeps) else old(keyToDeps)[key := dependencies]
      ensures stats == old(stats).(sets := old(stats).sets + 1)
    {
      if |dependencies| != 0 {
        RegisterKeyDependencies(key, dependencies);
      }
      var lifetime := if ttl.Some? then ttl.value else defaultTtl;
      store := store[key := Timed(value, now + lifetime)];
      stats := stats.(sets := stats.sets + 1);
    }

    /** None when a comparison throws. */
    method KeysFromDependencyTags(p: string) returns (found: Option<set<string>>)
      requires Valid()
      ensures found.None? <==> PatternFails(depToKeys, p)
      ensures found.Some? ==> found.value == TaggedKeys(keyToDeps, p)
    {
      var out := {};
      var tags := depToKeys.Keys;
      while tags != {}
        invariant tags <= depToKeys.Keys && (tags == depToKeys.Keys || '*' !in p || !Throws(p))
        invariant forall k ::
                    k in out <==> exists t :: t in depToKeys.Keys - tags && TagMatches(t, p) && k in depToKeys[t]
      {
        var tag :| tag in tags;
        if '*' in p && Throws(p) {
          return None;
        }
        if TagMatches(tag, p) {
          out := out + depToKeys[tag];
        }
        tags := tags - {tag};
      }
      CollectedAreTagged(depToKeys, keyToDeps, p, out);
      found := Some(out);
    }

    method DeleteKey(key: string)
      requires Valid()
      modifies this`stats, this`depToKeys, this`keyToDeps, this`store
      ensures Valid() && store == old(store) - {key} && keyToDeps == old(keyToDeps) - {key}
      ensures stats == old(stats).(evictions := old(stats).evictions + 1)
    {
      store := store - {key};
      UnregisterKey(key);
      stats := stats.(evictions := stats.evictions + 1);
    }

    method DeleteKeys(doomed: set<string>)
      requires Valid()
      modifies this`stats, this`depToKeys, this`keyToDeps, this`store
      ensures Valid() && store == old(store) - doomed && keyToDeps == old(keyToDeps) - doomed
      ensures stats == old(stats).(evictions := old(stats).evictions + |doomed|)
    {
      ghost var store0, tags0, stats0 := store, keyToDeps, stats;
      var keys := doomed;
      while keys != {}
        invariant Valid() && keys <= doomed
        invariant store == store0 - (doomed - keys) && keyToDeps == tags0 - (doomed - keys)
        invariant stats == stats0.(evictions := stats.evictions)
                  && stats.evictions + |keys| == stats0.evictions + |doomed|
      {
        var key :| key in keys;
        DeleteKey(key);
        keys := keys - {key};
      }
    }

    /** Removes exactly the keys that the pattern names or tags, from the store and from the index. */
    method Invalidate(p: string, found: Option<set<string>>) returns (ok: bool)
      requires Valid()
      modifies this`stats, this`depToKeys, this`keyToDeps, this`store
      ensures Valid() && ok == !PatternFails(old(depToKeys), p)
      ensures ok ==> store == old(store) - Doomed(old(keyToDeps), p, found)
                     && keyToDeps == old(keyToDeps) - Doomed(old(keyToDeps), p, found)
                     && stats == old(stats).(evictions := old(stats).evictions + |Doomed(old(keyToDeps), p, found)|)
      ensures !ok ==> store == old(store) && keyToDeps == old(keyToDeps)
                      && depToKeys == old(depToKeys) && stats == old(stats)
    {
      var tagged := KeysFromDependencyTags(p);
      if tagged.None? {
        return false;
      }
      DeleteKeys(tagged.value + NamedKeys(p, found));
      ok := true;
    }
  }

  /** Invalidation throws exactly when some tag is registered and the pattern's question marks quantify nothing. */
  lemma InvalidationThrowsIff(index: map<string, set<string>>, p: string)
    ensures PatternFails(index, p) <==> (exists t :: t in index) && '*' in p && !MarksFit(p)
    ensures PatternFails(index, p) ==> '?' in p
  {
    ThrowsIff(p);
  }

  /** What the loop over the tag index collects is what the tags of the keys say. */
  lemma CollectedAreTagged(index: map<string, set<string>>, tags: Tags, p: string, out: set<string>)
    requires Inverse(index, tags)
    requires forall k :: k in out <==> exists t :: t in index && TagMatches(t, p) && k in index[t]
    ensures out == TaggedKeys(tags, p)
  {
    forall k ensures k in out <==> k in TaggedKeys(tags, p) {
      if k in out {
        var t :| t in index && TagMatches(t, p) && k in index[t];
        assert k in KeysUnder(tags, t);
      }
      if k in TaggedKeys(tags, p) {
        var t :| t in tags[k] && TagMatches(t, p);
        assert k in KeysUnder(tags, t) && k in index[t];
      }
    }
  }

  lemma InverseAfterRemoval(index: map<string, set<string>>, tags: Tags, index': map<string, set<string>>, key: string)
    requires Inverse(index, tags) && key in tags
    requires forall t :: t in index' <==> t in index && (t in tags[key] ==> index[t] - {key} != {})
    requires forall t :: t in index' ==> index'[t] == if t in tags[key] then index[t] - {key} else index[t]
    ensures Inverse(index', tags - {key})
  {
    forall t | t in index' ensures index'[t] == KeysUnder(tags - {key}, t) && index'[t] != {} {
      assert index[t] == KeysUnder(tags, t);
      assert t in tags[key] <==> key in index[t];
    }
    forall k, t | k in tags - {key} && t in (tags - {key})[k] ensures t in index' {
      assert k in KeysUnder(tags, t) && k in index[t];
    }
  }

  lemma InverseAfterInsertion(
    index: map<string, set<string>>, tags: Tags, index': map<string, set<string>>, key: string, deps: seq<string>)
    requires Inverse(index, tags) && key !in tags && deps != []
    requires forall t :: t in index' <==> t in index || t in deps
    requires forall t :: t in index' ==>
               index'[t] == (if t in index then index[t] else {}) + (if t in deps then {key} else {})
    ensures Inverse(index', tags[key := deps])
  {
    forall t | t in index' ensures index'[t] == KeysUnder(tags[key := deps], t) {
      if t !in index {
        assert KeysUnder(tags, t) == {};
      }
      assert KeysUnder(tags[key := deps], t) == KeysUnder(tags, t) + if t in deps then {key} else {};
    }
  }

  /** Inverse indexes: a key is listed under a tag exactly when the tag is listed under the key. */
  lemma IndexesAgree(index: map<string, set<string>>, tags: Tags, k: string, t: string)
    requires Inverse(index, tags)
    ensures (t in index && k in index[t]) <==> (k in tags && t in tags[k])
    ensures t in index <==> KeysUnder(tags, t) != {}
  {
    if k in tags && t in tags[k] {
      assert k in KeysUnder(tags, t);
    }
  }

  /**
   After `invalidate(p)`: no stored key matching `p` by name, no stored or registered key whose
   tags match, no matching tag in the index; every other key keeps its value and its tags.
   */
  lemma InvalidateClears<V>(
      store: Store<V>, tags: Tags, p: string, found: set<string>, index': map<string, set<string>>)
    requires KeysIsGlob(store, p, found)
    requires Inverse(index', tags - Doomed(tags, p, Some(found)))
    ensures var doomed := Doomed(tags, p, Some(found));
            && (forall k :: k in store - doomed ==> !GlobMatches(p, k))
            && (forall k :: k in tags && (exists t :: t in tags[k] && TagMatches(t, p)) ==>
                  k !in store - doomed && k !in tags - doomed)
            && (forall t :: t in index' ==> !TagMatches(t, p))
            && (forall k ::
                  k in store && !GlobMatches(p, k) && !(k in tags && exists t :: t in tags[k] && TagMatches(t, p)) ==>
                  k in store - doomed && (store - doomed)[k] == store[k])
  {
    var doomed := Doomed(tags, p, Some(found));
    forall k | k in store ensures k in NamedKeys(p, Some(found)) <==> GlobMatches(p, k) {
      if '*' !in p {
        PlainGlob(p, k);
      }
    }
    forall t | t in index' ensures !TagMatches(t, p) {
      var k :| k in index'[t];
      assert k in KeysUnder(tags - doomed, t);
    }
  }

  lemma PlainGlob(p: string, k: string)
    requires '*' !in p
    ensures GlobMatches(p, k) <==> k == p
  {
    FillWithoutStars(p);
    var none: seq<string> := [];
    assert |none| == Stars(p) && Fill(p, none) == p;
    if GlobMatches(p, k) {
      var gaps :| |gaps| == Stars(p) && k == Fill(p, gaps);
      assert gaps == [];
    }
  }
}
