/**
 * Distinct, Except, Intersect and Union, with their By variants. Each keeps
 * a local record of keys while it scans: a Go map (a `set`, or a map to bool
 * for the Intersect family) when no comparer is given, a slice of kept keys
 * searched with the comparer otherwise.
 */
module Sets {
  import opened Options
  import opened Definition

  function Identity<T>(x: T): T { x }

  /** The keys of the elements of `s`. */
  function KeySet<T, K>(s: seq<T>, key: T -> K): set<K> {
    if s == [] then {} else {key(s[0])} + KeySet(s[1..], key)
  }

  lemma {:induction false} KeySetConcat<T, K>(a: seq<T>, b: seq<T>, key: T -> K)
    ensures KeySet(a + b, key) == KeySet(a, key) + KeySet(b, key)
  {
    if a == [] {
      assert a + b == b;
    } else {
      assert (a + b)[0] == a[0];
      assert (a + b)[1..] == a[1..] + b;
      KeySetConcat(a[1..], b, key);
    }
  }

  // ---------------------------------------------------------------------------
  // Specifications: the hash branches

  /** No two elements of `r` share a key. */
  ghost predicate UniqueKeys<T, K>(r: seq<T>, key: T -> K) {
    forall i, j :: 0 <= i < j < |r| ==> key(r[i]) != key(r[j])
  }

  /**
   * The hash-branch scan: an element goes out when its key is not yet in
   * `seen`, and its key is then added. Distinct, Except and Union are this
   * scan with different starting sets.
   */
  function KeyDistinctFrom<T, K>(s: seq<T>, key: T -> K, seen: set<K>): seq<T> {
    if s == [] then []
    else if key(s[0]) in seen then KeyDistinctFrom(s[1..], key, seen)
    else [s[0]] + KeyDistinctFrom(s[1..], key, seen + {key(s[0])})
  }

  /**
   * The Intersect scan: an element goes out when its key is still available
   * (present in the second sequence and not yet used), and is then used up.
   */
  function KeyIntersectFrom<T, K>(s: seq<T>, key: T -> K, avail: set<K>): seq<T> {
    if s == [] then []
    else if key(s[0]) in avail then [s[0]] + KeyIntersectFrom(s[1..], key, avail - {key(s[0])})
    else KeyIntersectFrom(s[1..], key, avail)
  }

  /** The output's keys are the input's keys not already seen. */
  lemma {:induction false} KeyDistinctKeys<T, K>(s: seq<T>, key: T -> K, seen: set<K>)
    ensures KeySet(KeyDistinctFrom(s, key, seen), key) == KeySet(s, key) - seen
  {
    if s != [] {
      var k := key(s[0]);
      if k in seen {
        KeyDistinctKeys(s[1..], key, seen);
      } else {
        KeyDistinctKeys(s[1..], key, seen + {k});
        var r := [s[0]] + KeyDistinctFrom(s[1..], key, seen + {k});
        assert r[0] == s[0] && r[1..] == KeyDistinctFrom(s[1..], key, seen + {k});
      }
    }
  }

  /** No two outputs share a key, and no output's key was already seen. */
  lemma {:induction false} KeyDistinctUnique<T, K>(s: seq<T>, key: T -> K, seen: set<K>)
    ensures forall i :: 0 <= i < |KeyDistinctFrom(s, key, seen)| ==> key(KeyDistinctFrom(s, key, seen)[i]) !in seen
    ensures UniqueKeys(KeyDistinctFrom(s, key, seen), key)
  {
    if s != [] {
      var k := key(s[0]);
      if k in seen {
        KeyDistinctUnique(s[1..], key, seen);
      } else {
        KeyDistinctUnique(s[1..], key, seen + {k});
        var rest := KeyDistinctFrom(s[1..], key, seen + {k});
        var r := [s[0]] + rest;
        assert forall i :: 0 < i < |r| ==> r[i] == rest[i - 1];
      }
    }
  }

  /** Scanning a + b is scanning a, then scanning b with a's keys also seen: a's outputs come first. */
  lemma {:induction false} KeyDistinctConcat<T, K>(a: seq<T>, b: seq<T>, key: T -> K, seen: set<K>)
    ensures KeyDistinctFrom(a + b, key, seen) ==
      KeyDistinctFrom(a, key, seen) + KeyDistinctFrom(b, key, seen + KeySet(a, key))
  {
    if a == [] {
      assert a + b == b;
      assert seen + KeySet(a, key) == seen;
    } else {
      var k := key(a[0]);
      assert (a + b)[0] == a[0];
      assert (a + b)[1..] == a[1..] + b;
      if k in seen {
        KeyDistinctConcat(a[1..], b, key, seen);
        assert seen + KeySet(a[1..], key) == seen + KeySet(a, key);
      } else {
        KeyDistinctConcat(a[1..], b, key, seen + {k});
        assert seen + {k} + KeySet(a[1..], key) == seen + KeySet(a, key);
      }
    }
  }

  /** The Intersect output's keys are the input's keys that are available. */
  lemma {:induction false} KeyIntersectKeys<T, K>(s: seq<T>, key: T -> K, avail: set<K>)
    ensures KeySet(KeyIntersectFrom(s, key, avail), key) == KeySet(s, key) * avail
  {
    if s != [] {
      var k := key(s[0]);
      if k in avail {
        KeyIntersectKeys(s[1..], key, avail - {k});
        var r := [s[0]] + KeyIntersectFrom(s[1..], key, avail - {k});
        assert r[0] == s[0] && r[1..] == KeyIntersectFrom(s[1..], key, avail - {k});
      } else {
        KeyIntersectKeys(s[1..], key, avail);
      }
    }
  }

  /** Each Intersect output key was available, and no two outputs share a key. */
  lemma {:induction false} KeyIntersectUnique<T, K>(s: seq<T>, key: T -> K, avail: set<K>)
    ensures forall i :: 0 <= i < |KeyIntersectFrom(s, key, avail)| ==> key(KeyIntersectFrom(s, key, avail)[i]) in avail
    ensures UniqueKeys(KeyIntersectFrom(s, key, avail), key)
  {
    if s != [] {
      var k := key(s[0]);
      if k in avail {
        KeyIntersectUnique(s[1..], key, avail - {k});
        var rest := KeyIntersectFrom(s[1..], key, avail - {k});
        var r := [s[0]] + rest;
        assert forall i :: 0 < i < |r| ==> r[i] == rest[i - 1];
      } else {
        KeyIntersectUnique(s[1..], key, avail);
      }
    }
  }

  // ---------------------------------------------------------------------------
  // Specifications: the comparer branches

  /** Whether `comparer(k, kept[i])` holds for some kept key. */
  predicate AnyMatch<K>(k: K, kept: seq<K>, comparer: (K, K) -> bool) {
    exists i :: 0 <= i < |kept| && comparer(k, kept[i])
  }

  lemma AnyMatchConcat<K>(k: K, a: seq<K>, b: seq<K>, comparer: (K, K) -> bool)
    ensures AnyMatch(k, a + b, comparer) <==> AnyMatch(k, a, comparer) || AnyMatch(k, b, comparer)
  {
    if AnyMatch(k, a + b, comparer) {
      var i :| 0 <= i < |a + b| && comparer(k, (a + b)[i]);
      if i >= |a| {
        assert comparer(k, b[i - |a|]);
      }
    }
    if AnyMatch(k, a, comparer) {
      var i :| 0 <= i < |a| && comparer(k, a[i]);
      assert (a + b)[i] == a[i];
    }
    if AnyMatch(k, b, comparer) {
      var i :| 0 <= i < |b| && comparer(k, b[i]);
      assert (a + b)[|a| + i] == b[i];
    }
  }

  /** The comparer matches no element's key against the key of an earlier element. */
  predicate UnmatchedKeys<T, K>(r: seq<T>, key: T -> K, comparer: (K, K) -> bool) {
    forall i, j :: 0 <= i < j < |r| ==> !comparer(key(r[j]), key(r[i]))
  }

  /**
   * The comparer-branch scan: an element goes out iff the comparer matches
   * its key against none of the kept keys; its key is then kept.
   */
  function CmpDistinctFrom<T, K>(s: seq<T>, key: T -> K, comparer: (K, K) -> bool, kept: seq<K>): seq<T> {
    if s == [] then []
    else if AnyMatch(key(s[0]), kept, comparer) then CmpDistinctFrom(s[1..], key, comparer, kept)
    else [s[0]] + CmpDistinctFrom(s[1..], key, comparer, kept + [key(s[0])])
  }

  /**
   * The IntersectBy comparer scan: an element goes out iff its key matches
   * some key of `second` and no key kept so far.
   */
  function CmpIntersectFrom<T, K>(s: seq<T>, key: T -> K, comparer: (K, K) -> bool,
                                  second: seq<K>, kept: seq<K>): seq<T>
  {
    if s == [] then []
    else if !AnyMatch(key(s[0]), kept, comparer) && AnyMatch(key(s[0]), second, comparer)
    then [s[0]] + CmpIntersectFrom(s[1..], key, comparer, second, kept + [key(s[0])])
    else CmpIntersectFrom(s[1..], key, comparer, second, kept)
  }

  /** No output's key matches a kept key, nor the key of an earlier output. */
  lemma {:induction false} CmpDistinctUnique<T, K>(s: seq<T>, key: T -> K, comparer: (K, K) -> bool, kept: seq<K>)
    ensures forall i :: 0 <= i < |CmpDistinctFrom(s, key, comparer, kept)| ==> !AnyMatch(key(CmpDistinctFrom(s, key, comparer, kept)[i]), kept, comparer)
    ensures UnmatchedKeys(CmpDistinctFrom(s, key, comparer, kept), key, comparer)
  {
    if s != [] {
      var k := key(s[0]);
      if AnyMatch(k, kept, comparer) {
        CmpDistinctUnique(s[1..], key, comparer, kept);
        assert CmpDistinctFrom(s, key, comparer, kept) == CmpDistinctFrom(s[1..], key, comparer, kept);
      } else {
        CmpDistinctUnique(s[1..], key, comparer, kept + [k]);
        var rest := CmpDistinctFrom(s[1..], key, comparer, kept + [k]);
        var r := [s[0]] + rest;
        forall i | 0 < i < |r|
          ensures r[i] == rest[i - 1]
          ensures !AnyMatch(key(r[i]), kept, comparer) && !comparer(key(r[i]), k)
        {
          var x := key(rest[i - 1]);
          AnyMatchConcat(x, kept, [k], comparer);
          assert [k][0] == k;
        }
      }
    }
  }

  /** Every IntersectBy output's key matches a key of `second`, and none matches an earlier output's key. */
  lemma {:induction false} CmpIntersectMatches<T, K>(s: seq<T>, key: T -> K, comparer: (K, K) -> bool,
                                                     second: seq<K>, kept: seq<K>)
    ensures forall i :: 0 <= i < |CmpIntersectFrom(s, key, comparer, second, kept)| ==> AnyMatch(key(CmpIntersectFrom(s, key, comparer, second, kept)[i]), second, comparer)
    ensures UnmatchedKeys(CmpIntersectFrom(s, key, comparer, second, kept), key, comparer)
  {
    if s != [] {
      var k := key(s[0]);
      if !AnyMatch(k, kept, comparer) && AnyMatch(k, second, comparer) {
        CmpIntersectMatches(s[1..], key, comparer, second, kept + [k]);
        CmpIntersectAvoidsKept(s[1..], key, comparer, second, kept + [k]);
        var rest := CmpIntersectFrom(s[1..], key, comparer, second, kept + [k]);
        var r := [s[0]] + rest;
        forall i | 0 < i < |r|
          ensures r[i] == rest[i - 1]
          ensures !comparer(key(r[i]), k)
        {
          var x := key(rest[i - 1]);
          AnyMatchConcat(x, kept, [k], comparer);
          assert [k][0] == k;
        }
      } else {
        CmpIntersectMatches(s[1..], key, comparer, second, kept);
        assert CmpIntersectFrom(s, key, comparer, second, kept) == CmpIntersectFrom(s[1..], key, comparer, second, kept);
      }
    }
  }

  /** No IntersectBy output's key matches a key kept before the scan. */
  lemma {:induction false} CmpIntersectAvoidsKept<T, K>(s: seq<T>, key: T -> K, comparer: (K, K) -> bool,
                                                        second: seq<K>, kept: seq<K>)
    ensures forall i :: 0 <= i < |CmpIntersectFrom(s, key, comparer, second, kept)| ==> !AnyMatch(key(CmpIntersectFrom(s, key, comparer, second, kept)[i]), kept, comparer)
  {
    if s != [] {
      var k := key(s[0]);
      if !AnyMatch(k, kept, comparer) && AnyMatch(k, second, comparer) {
        CmpIntersectAvoidsKept(s[1..], key, comparer, second, kept + [k]);
        var rest := CmpIntersectFrom(s[1..], key, comparer, second, kept + [k]);
        forall i | 0 <= i < |rest|
          ensures !AnyMatch(key(rest[i]), kept, comparer)
        {
          AnyMatchConcat(key(rest[i]), kept, [k], comparer);
        }
      } else {
        CmpIntersectAvoidsKept(s[1..], key, comparer, second, kept);
        assert CmpIntersectFrom(s, key, comparer, second, kept) == CmpIntersectFrom(s[1..], key, comparer, second, kept);
      }
    }
  }

  /** Under a comparer that is equality, a kept-key search is set membership. */
  lemma {:induction false} AnyMatchIsMembership<K>(k: K, kept: seq<K>, comparer: (K, K) -> bool)
    requires forall x, y :: comparer(x, y) <==> x == y
    ensures AnyMatch(k, kept, comparer) <==> k in KeySet(kept, Identity)
  {
    if kept != [] {
      AnyMatchIsMembership(k, kept[1..], comparer);
      assert kept == [kept[0]] + kept[1..];
      AnyMatchConcat(k, [kept[0]], kept[1..], comparer);
    }
  }

  /** With `==` as the comparer, the comparer branch of DistinctBy behaves as its hash branch. */
  lemma {:induction false} CmpDistinctIsKeyDistinct<T, K>(s: seq<T>, key: T -> K, comparer: (K, K) -> bool, kept: seq<K>)
    requires forall x, y :: comparer(x, y) <==> x == y
    ensures CmpDistinctFrom(s, key, comparer, kept) == KeyDistinctFrom(s, key, KeySet(kept, Identity))
  {
    if s != [] {
      var k := key(s[0]);
      AnyMatchIsMembership(k, kept, comparer);
      KeySetConcat(kept, [k], Identity);
      assert KeySet([k], Identity) == {k};
      CmpDistinctIsKeyDistinct(s[1..], key, comparer, kept + [k]);
      CmpDistinctIsKeyDistinct(s[1..], key, comparer, kept);
    }
  }

  /** With `==` as the comparer, the comparer branch of IntersectBy behaves as its hash branch. */
  lemma {:induction false} CmpIntersectIsKeyIntersect<T, K>(s: seq<T>, key: T -> K, comparer: (K, K) -> bool,
                                                            second: seq<K>, kept: seq<K>)
    requires forall x, y :: comparer(x, y) <==> x == y
    ensures CmpIntersectFrom(s, key, comparer, second, kept) ==
      KeyIntersectFrom(s, key, KeySet(second, Identity) - KeySet(kept, Identity))
  {
    if s != [] {
      var k := key(s[0]);
      AnyMatchIsMembership(k, kept, comparer);
      AnyMatchIsMembership(k, second, comparer);
      KeySetConcat(kept, [k], Identity);
      assert KeySet([k], Identity) == {k};
      assert KeySet(second, Identity) - KeySet(kept + [k], Identity) ==
        (KeySet(second, Identity) - KeySet(kept, Identity)) - {k};
      CmpIntersectIsKeyIntersect(s[1..], key, comparer, second, kept + [k]);
      CmpIntersectIsKeyIntersect(s[1..], key, comparer, second, kept);
    }
  }

  // ---------------------------------------------------------------------------
  // The operators

  /** The inner `for i := range kept` loop of the comparer branches, with its early break. */
  method FindMatch<K>(k: K, kept: seq<K>, comparer: (K, K) -> bool) returns (exist: bool)
    ensures exist == AnyMatch(k, kept, comparer)
  {
    exist := false;
    for i := 0 to |kept|
      invariant forall j :: 0 <= j < i ==> !comparer(k, kept[j])
    {
      if comparer(k, kept[i]) {
        exist := true;
        break;
      }
    }
  }

  /** The keys a map to bool still marks true: an Intersect map's available keys. */
  function Available<K>(m: map<K, bool>): set<K> {
    set k | k in m && m[k]
  }

  /** Builds the map from each key of `keys` to true, as Intersect and IntersectBy do for `second`. */
  method MarkAll<K>(keys: seq<K>) returns (m: map<K, bool>)
    ensures Available(m) == KeySet(keys, Identity)
  {
    m := map[];
    for i := 0 to |keys|
      invariant m.Keys == KeySet(keys[..i], Identity)
      invariant forall k | k in m :: m[k]
    {
      assert keys[..i + 1] == keys[..i] + [keys[i]];
      KeySetConcat(keys[..i], [keys[i]], Identity);
      assert KeySet([keys[i]], Identity) == {keys[i]};
      m := m[keys[i] := true];
    }
    assert keys[..|keys|] == keys;
  }

  /** Distinct pushes each value the first time it occurs. */
  method Distinct<T(==)>(s: seq<T>) returns (out: seq<T>)
    ensures out == KeyDistinctFrom(s, Identity, {})
  {
    var m: set<T> := {};
    out := [];
    for i := 0 to |s|
      invariant out + KeyDistinctFrom(s[i..], Identity, m) == KeyDistinctFrom(s, Identity, {})
    {
      assert s[i..][0] == s[i] && s[i..][1..] == s[i + 1..];
      var value := s[i];
      if value !in m {
        m := m + {value};
        out := out + [value];
      }
    }
  }

  /** DistinctBy keeps the first element for each key: by hash without a comparer, by comparer scan with one. */
  method DistinctBy<T>(s: seq<T>, keySelector: T -> Value, comparer: Option<(Value, Value) -> bool>)
    returns (out: seq<T>)
    ensures comparer.None? ==> out == KeyDistinctFrom(s, keySelector, {})
    ensures comparer.Some? ==> out == CmpDistinctFrom(s, keySelector, comparer.value, [])
  {
    out := [];
    if comparer.None? {
      var m: set<Value> := {};
      for i := 0 to |s|
        invariant out + KeyDistinctFrom(s[i..], keySelector, m) == KeyDistinctFrom(s, keySelector, {})
      {
        assert s[i..][0] == s[i] && s[i..][1..] == s[i + 1..];
        var key := keySelector(s[i]);
        if key !in m {
          m := m + {key};
          out := out + [s[i]];
        }
      }
    } else {
      var temp: seq<Value> := [];
      for i := 0 to |s|
        invariant out + CmpDistinctFrom(s[i..], keySelector, comparer.value, temp) ==
          CmpDistinctFrom(s, keySelector, comparer.value, [])
      {
        assert s[i..][0] == s[i] && s[i..][1..] == s[i + 1..];
        var key := keySelector(s[i]);
        var exist := FindMatch(key, temp, comparer.value);
        if !exist {
          temp := temp + [key];
          out := out + [s[i]];
        }
      }
    }
  }

  /** Except pushes the distinct values of `s` that do not occur in `second`, in first-occurrence order. */
  method Except<T(==)>(s: seq<T>, second: seq<T>) returns (out: seq<T>)
    ensures out == KeyDistinctFrom(s, Identity, KeySet(second, Identity))
  {
    var secondMap := KeySet(second, Identity);
    out := [];
    for i := 0 to |s|
      invariant out + KeyDistinctFrom(s[i..], Identity, secondMap) ==
        KeyDistinctFrom(s, Identity, KeySet(second, Identity))
    {
      assert s[i..][0] == s[i] && s[i..][1..] == s[i + 1..];
      var value := s[i];
      if value !in secondMap {
        out := out + [value];
        secondMap := secondMap + {value};
      }
    }
  }

  /**
   * ExceptBy: an element goes out when its key is in neither `second` nor the
   * keys already pushed; the comparer branch scans the pushed keys, then `second`.
   */
  method ExceptBy<T>(s: seq<T>, second: seq<Value>, keySelector: T -> Value,
                     comparer: Option<(Value, Value) -> bool>) returns (out: seq<T>)
    ensures comparer.None? ==> out == KeyDistinctFrom(s, keySelector, KeySet(second, Identity))
    ensures comparer.Some? ==> out == CmpDistinctFrom(s, keySelector, comparer.value, second)
  {
    out := [];
    if comparer.None? {
      var secondMap := KeySet(second, Identity);
      for i := 0 to |s|
        invariant out + KeyDistinctFrom(s[i..], keySelector, secondMap) ==
          KeyDistinctFrom(s, keySelector, KeySet(second, Identity))
      {
        assert s[i..][0] == s[i] && s[i..][1..] == s[i + 1..];
        var key := keySelector(s[i]);
        if key !in secondMap {
          out := out + [s[i]];
          secondMap := secondMap + {key};
        }
      }
    } else {
      var c := comparer.value;
      var setKey: seq<Value> := [];
      assert second + setKey == second;
      for i := 0 to |s|
        invariant out + CmpDistinctFrom(s[i..], keySelector, c, second + setKey) ==
          CmpDistinctFrom(s, keySelector, c, second)
      {
        assert s[i..][0] == s[i] && s[i..][1..] == s[i + 1..];
        var fKey := keySelector(s[i]);
        AnyMatchConcat(fKey, second, setKey, c);
        var exist := FindMatch(fKey, setKey, c);
        if exist {
          continue;
        }
        exist := FindMatch(fKey, second, c);
        if !exist {
          out := out + [s[i]];
          assert second + (setKey + [fKey]) == (second + setKey) + [fKey];
          setKey := setKey + [fKey];
        }
      }
    }
  }

  /** Marking a key false takes it out of the available keys. */
  lemma AvailableAfterUse<K>(m: map<K, bool>, k: K)
    ensures Available(m[k := false]) == Available(m) - {k}
  {
  }

  /** Intersect pushes the distinct values of `s` that also occur in `second`, in `s` order. */
  method Intersect<T(==)>(s: seq<T>, second: seq<T>) returns (out: seq<T>)
    ensures out == KeyIntersectFrom(s, Identity, KeySet(second, Identity))
  {
    var secondMap := MarkAll(second);
    out := [];
    for i := 0 to |s|
      invariant out + KeyIntersectFrom(s[i..], Identity, Available(secondMap)) ==
        KeyIntersectFrom(s, Identity, KeySet(second, Identity))
    {
      assert s[i..][0] == s[i] && s[i..][1..] == s[i + 1..];
      var value := s[i];
      if value in secondMap && secondMap[value] {
        AvailableAfterUse(secondMap, value);
        secondMap := secondMap[value := false];
        out := out + [value];
      }
    }
  }

  /** IntersectBy pushes an element when its key matches a key of `second` and no key pushed before. */
  method IntersectBy<T>(s: seq<T>, second: seq<Value>, keySelector: T -> Value,
                        comparer: Option<(Value, Value) -> bool>) returns (out: seq<T>)
    ensures comparer.None? ==> out == KeyIntersectFrom(s, keySelector, KeySet(second, Identity))
    ensures comparer.Some? ==> out == CmpIntersectFrom(s, keySelector, comparer.value, second, [])
  {
    if comparer.None? {
      out := IntersectByKeys(s, second, keySelector);
    } else {
      out := IntersectByComparer(s, second, keySelector, comparer.value);
    }
  }

  /** IntersectBy without a comparer: a Go map marks each key of `second` true until it is used. */
  method IntersectByKeys<T>(s: seq<T>, second: seq<Value>, keySelector: T -> Value) returns (out: seq<T>)
    ensures out == KeyIntersectFrom(s, keySelector, KeySet(second, Identity))
  {
    out := [];
    var secondMap := MarkAll(second);
    for i := 0 to |s|
      invariant out + KeyIntersectFrom(s[i..], keySelector, Available(secondMap)) ==
        KeyIntersectFrom(s, keySelector, KeySet(second, Identity))
    {
      assert s[i..][0] == s[i] && s[i..][1..] == s[i + 1..];
      var key := keySelector(s[i]);
      if key in secondMap && secondMap[key] {
        AvailableAfterUse(secondMap, key);
        secondMap := secondMap[key := false];
        out := out + [s[i]];
      }
    }
  }

  /** IntersectBy with a comparer: scan the pushed keys, then `second`. */
  method IntersectByComparer<T>(s: seq<T>, second: seq<Value>, keySelector: T -> Value, c: (Value, Value) -> bool)
    returns (out: seq<T>)
    ensures out == CmpIntersectFrom(s, keySelector, c, second, [])
  {
    out := [];
    var setKey: seq<Value> := [];
    for i := 0 to |s|
      invariant out + CmpIntersectFrom(s[i..], keySelector, c, second, setKey) ==
        CmpIntersectFrom(s, keySelector, c, second, [])
    {
      assert s[i..][0] == s[i] && s[i..][1..] == s[i + 1..];
      var fKey := keySelector(s[i]);
      var exist := FindMatch(fKey, setKey, c);
      if exist {
        continue;
      }
      exist := FindMatch(fKey, second, c);
      if exist {
        out := out + [s[i]];
        setKey := setKey + [fKey];
      }
    }
  }

  /** Union is Distinct over `s` followed by `second`: one map shared by two loops. */
  method Union<T(==)>(s: seq<T>, second: seq<T>) returns (out: seq<T>)
    ensures out == KeyDistinctFrom(s + second, Identity, {})
  {
    var m: set<T> := {};
    out := [];
    for i := 0 to |s|
      invariant out + KeyDistinctFrom(s[i..] + second, Identity, m) == KeyDistinctFrom(s + second, Identity, {})
    {
      assert (s[i..] + second)[0] == s[i] && (s[i..] + second)[1..] == s[i + 1..] + second;
      var value := s[i];
      if value !in m {
        out := out + [value];
        m := m + {value};
      }
    }
    assert s[|s|..] + second == second;
    for i := 0 to |second|
      invariant out + KeyDistinctFrom(second[i..], Identity, m) == KeyDistinctFrom(s + second, Identity, {})
    {
      assert second[i..][0] == second[i] && second[i..][1..] == second[i + 1..];
      var value := second[i];
      if value !in m {
        out := out + [value];
        m := m + {value};
      }
    }
  }

  /** UnionBy is DistinctBy over `s` followed by `second`, with one key record shared by both loops. */
  method UnionBy<T>(s: seq<T>, second: seq<T>, keySelector: T -> Value,
                    comparer: Option<(Value, Value) -> bool>) returns (out: seq<T>)
    ensures comparer.None? ==> out == KeyDistinctFrom(s + second, keySelector, {})
    ensures comparer.Some? ==> out == CmpDistinctFrom(s + second, keySelector, comparer.value, [])
  {
    if comparer.None? {
      out := UnionByKeys(s, second, keySelector);
    } else {
      out := UnionByComparer(s, second, keySelector, comparer.value);
    }
  }

  /** UnionBy without a comparer: the keys seen so far are a Go map. */
  method UnionByKeys<T>(s: seq<T>, second: seq<T>, keySelector: T -> Value) returns (out: seq<T>)
    ensures out == KeyDistinctFrom(s + second, keySelector, {})
  {
    out := [];
    var m: set<Value> := {};
    for i := 0 to |s|
      invariant out + KeyDistinctFrom(s[i..] + second, keySelector, m) ==
        KeyDistinctFrom(s + second, keySelector, {})
    {
      assert (s[i..] + second)[0] == s[i] && (s[i..] + second)[1..] == s[i + 1..] + second;
      var key := keySelector(s[i]);
      if key !in m {
        out := out + [s[i]];
        m := m + {key};
      }
    }
    assert s[|s|..] + second == second;
    for i := 0 to |second|
      invariant out + KeyDistinctFrom(second[i..], keySelector, m) == KeyDistinctFrom(s + second, keySelector, {})
    {
      assert second[i..][0] == second[i] && second[i..][1..] == second[i + 1..];
      var key := keySelector(second[i]);
      if key !in m {
        out := out + [second[i]];
        m := m + {key};
      }
    }
  }

  /** UnionBy with a comparer: the keys kept so far are a slice, searched with the comparer. */
  method UnionByComparer<T>(s: seq<T>, second: seq<T>, keySelector: T -> Value, c: (Value, Value) -> bool)
    returns (out: seq<T>)
    ensures out == CmpDistinctFrom(s + second, keySelector, c, [])
  {
    out := [];
    var setKey: seq<Value> := [];
    for i := 0 to |s|
      invariant out + CmpDistinctFrom(s[i..] + second, keySelector, c, setKey) ==
        CmpDistinctFrom(s + second, keySelector, c, [])
    {
      ghost var tail := s[i + 1..] + second;
      assert s[i..] + second == [s[i]] + tail;
      out, setKey := UnionStep(out, setKey, s[i], tail, keySelector, c);
    }
    assert s[|s|..] + second == second;
    for i := 0 to |second|
      invariant out + CmpDistinctFrom(second[i..], keySelector, c, setKey) ==
        CmpDistinctFrom(s + second, keySelector, c, [])
    {
      ghost var tail := second[i + 1..];
      assert second[i..] == [second[i]] + tail;
      out, setKey := UnionStep(out, setKey, second[i], tail, keySelector, c);
    }
  }

  /** One value of a UnionBy comparer loop: skipped when its key matches a kept key, else pushed and its key kept. */
  method UnionStep<T>(out: seq<T>, setKey: seq<Value>, value: T, ghost tail: seq<T>,
                      keySelector: T -> Value, c: (Value, Value) -> bool)
    returns (out': seq<T>, setKey': seq<Value>)
    ensures out' + CmpDistinctFrom(tail, keySelector, c, setKey') ==
      out + CmpDistinctFrom([value] + tail, keySelector, c, setKey)
  {
    assert ([value] + tail)[0] == value && ([value] + tail)[1..] == tail;
    var key := keySelector(value);
    var exist := FindMatch(key, setKey, c);
    if exist {
      out', setKey' := out, setKey;
      return;
    }
    out' := out + [value];
    setKey' := setKey + [key];
    assert out' + CmpDistinctFrom(tail, keySelector, c, setKey') ==
      out + ([value] + CmpDistinctFrom(tail, keySelector, c, setKey'));
  }
}
