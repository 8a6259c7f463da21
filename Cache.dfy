/**
 * The read-through cache helper over one cache instance, seen as a key/value map;
 * the value of the fetch callback is a parameter.
 */
module Cache {
  import opened JsText

  predicate OccursAt(s: string, t: string, i: nat) {
    i + |t| <= |s| && s[i..i + |t|] == t
  }

  /** The index of the first '*' in a pattern, the one `pattern.replace('*', '.*')` rewrites. */
  function StarIndex(p: string): (r: Option<nat>)
    ensures r.Some? ==> r.value < |p| && p[r.value] == '*' && forall i :: 0 <= i < r.value ==> p[i] != '*'
    ensures r.None? ==> forall i :: 0 <= i < |p| ==> p[i] != '*'
    decreases |p|
  {
    if p == [] then None
    else if p[0] == '*' then Some(0)
    else match StarIndex(p[1..])
      case None => None
      case Some(i) => Some(i + 1)
  }

  /**
   * `new RegExp(pattern.replace('*', '.*')).test(key)`, with every character other
   * than the first '*' taken literally: the text before the '*' occurs in the key,
   * followed, with no line terminator between, by the text after it.
   */
  predicate KeyMatches(key: string, pattern: string) {
    match StarIndex(pattern)
    case None => Includes(key, pattern)
    case Some(i) =>
      var before, after := pattern[..i], pattern[i + 1..];
      exists a: nat, b: nat | a <= |key| && b <= |key| :: OccursAt(key, before, a) && a + |before| <= b && OccursAt(key, after, b)
        && (forall c :: a + |before| <= c < b ==> !IsLineTerminator(key[c]))
  }

  /** The keys `invalidatePattern` deletes. */
  function Matching<V>(m: map<string, V>, pattern: string): (r: set<string>)
    ensures forall k :: k in r <==> k in m && KeyMatches(k, pattern)
  {
    set k | k in m && KeyMatches(k, pattern)
  }

  /** What `getOrSet` returns and the cache it leaves: on a hit the stored value, on a miss the fetched one. */
  datatype Outcome<V> = Outcome(value: V, hit: bool, entries: map<string, V>)

  function GetOrSetSpec<V>(m: map<string, V>, key: string, fetched: V): (r: Outcome<V>)
    ensures r.hit <==> key in m
    ensures key in r.entries && r.entries[key] == r.value
    ensures r.hit ==> r.entries == m
    ensures !r.hit ==> r.value == fetched
    ensures r.entries.Keys == m.Keys + {key}
    ensures forall k :: k in m && k != key ==> r.entries[k] == m[k]
  {
    if key in m then Outcome(m[key], true, m) else Outcome(fetched, false, m[key := fetched])
  }

  /** `keys.filter(key => regex.test(key))` over the keys of the cache. */
  method MatchingKeys<V>(m: map<string, V>, pattern: string) returns (matching: set<string>)
    ensures matching == Matching(m, pattern)
  {
    var keys := m.Keys;
    matching := {};
    var pending := keys;
    while pending != {}
      invariant pending <= keys
      invariant forall k :: k in matching <==> k in keys && k !in pending && KeyMatches(k, pattern)
      decreases |pending|
    {
      var k :| k in pending;
      if KeyMatches(k, pattern) {
        matching := matching + {k};
      }
      pending := pending - {k};
    }
  }

  class Store<V> {
    var entries: map<string, V>

    constructor()
      ensures entries == map[]
    {
      entries := map[];
    }

    /** `getOrSet`: `fetched` is what the callback would return; `hit` says it was not called. */
    method GetOrSet(key: string, fetched: V) returns (value: V, hit: bool)
      modifies this
      ensures Outcome(value, hit, entries) == GetOrSetSpec(old(entries), key, fetched)
    {
      if key in entries {
        return entries[key], true;
      }
      entries := entries[key := fetched];
      return fetched, false;
    }

    /** `invalidate`: the key is deleted. */
    method Invalidate(key: string)
      modifies this
      ensures entries == old(entries) - {key}
    {
      entries := entries - {key};
    }

    /** `invalidatePattern`: filter the keys, then delete each match; `removed` is the count it logs. */
    method InvalidatePattern(pattern: string) returns (removed: nat)
      modifies this
      ensures entries == old(entries) - Matching(old(entries), pattern)
      ensures removed == |Matching(old(entries), pattern)|
    {
      var matching := MatchingKeys(entries, pattern);
      DeleteEach(matching);
      removed := |matching|;
    }

    /** `keys.forEach(key => this.cache.del(key))`. */
    method DeleteEach(keys: set<string>)
      modifies this
      ensures entries == old(entries) - keys
    {
      var toDelete := keys;
      while toDelete != {}
        invariant toDelete <= keys
        invariant entries == old(entries) - (keys - toDelete)
        decreases |toDelete|
      {
        var k :| k in toDelete;
        entries := entries - {k};
        toDelete := toDelete - {k};
        assert entries == old(entries) - (keys - toDelete);
      }
    }

    /** `clear`: every entry is dropped. */
    method Clear()
      modifies this
      ensures entries == map[]
    {
      entries := map[];
    }
  }

  /** A hit leaves the cache alone; a miss stores the fetched value; a second call is a hit with the same value. */
  lemma GetOrSetTwice<V>(m: map<string, V>, key: string, f1: V, f2: V)
    ensures var r1 := GetOrSetSpec(m, key, f1);
      var r2 := GetOrSetSpec(r1.entries, key, f2);
      r2.hit && r2.value == r1.value && r2.entries == r1.entries
  {
  }

  /** After `invalidate(k)` the next `getOrSet(k)` is a miss and returns the freshly fetched value. */
  lemma InvalidateThenMiss<V>(m: map<string, V>, key: string, fetched: V)
    ensures var r := GetOrSetSpec(m - {key}, key, fetched);
      !r.hit && r.value == fetched
  {
  }

  /** `invalidate` removes exactly the key and keeps every other entry. */
  lemma InvalidateExact<V>(m: map<string, V>, key: string)
    ensures key !in m - {key}
    ensures forall k :: k != key ==> (k in m - {key} <==> k in m)
    ensures forall k :: k in m && k != key ==> (m - {key})[k] == m[k]
  {
  }

  /** `invalidatePattern` removes exactly the keys that match and keeps the others unchanged. */
  lemma InvalidatePatternExact<V>(m: map<string, V>, pattern: string)
    ensures var r := m - Matching(m, pattern);
      && (forall k :: k in r <==> k in m && !KeyMatches(k, pattern))
      && (forall k :: k in r ==> r[k] == m[k])
  {
  }

  /** For `prefix*`, with no other '*', a key matches exactly when it contains the prefix. */
  lemma PrefixPattern(prefix: string, key: string)
    requires forall i :: 0 <= i < |prefix| ==> prefix[i] != '*'
    ensures KeyMatches(key, prefix + "*") <==> Includes(key, prefix)
  {
    var p := prefix + "*";
    StarOfPrefix(prefix);
    assert p[..|prefix|] == prefix && p[|prefix| + 1..] == "";
    if KeyMatches(key, p) {
      var a: nat, b: nat :| a <= |key| && b <= |key| && OccursAt(key, prefix, a) && a + |prefix| <= b && OccursAt(key, "", b)
        && (forall c :: a + |prefix| <= c < b ==> !IsLineTerminator(key[c]));
      IncludesAt(key, prefix, a);
    }
    if Includes(key, prefix) {
      var a := IncludesWitness(key, prefix);
      var b: nat := a + |prefix|;
      assert OccursAt(key, prefix, a) && OccursAt(key, "", b);
    }
  }

  lemma StarOfPrefix(prefix: string)
    requires forall i :: 0 <= i < |prefix| ==> prefix[i] != '*'
    ensures StarIndex(prefix + "*") == Some(|prefix|)
  {
    var r := StarIndex(prefix + "*");
    assert (prefix + "*")[|prefix|] == '*';
  }

  /** A pattern without '*' matches the keys that contain it. */
  lemma LiteralPattern(pattern: string, key: string)
    requires forall i :: 0 <= i < |pattern| ==> pattern[i] != '*'
    ensures KeyMatches(key, pattern) <==> Includes(key, pattern)
  {
  }
}
