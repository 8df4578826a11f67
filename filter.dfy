/** Where: the filtering operator. */
module Filter {
  import opened Predicates

  /** The elements of `s` that satisfy `p`, in their original relative order. */
  function Filtered<T>(s: seq<T>, p: T -> bool): (r: seq<T>)
    ensures |r| <= |s|
    ensures forall i :: 0 <= i < |r| ==> p(r[i])
  {
    if s == [] then []
    else (if p(s[0]) then [s[0]] else []) + Filtered(s[1..], p)
  }

  /** A value survives the filter exactly when it occurs upstream and satisfies `p`. */
  lemma {:induction false} FilteredMembers<T>(s: seq<T>, p: T -> bool, x: T)
    ensures x in Filtered(s, p) <==> x in s && p(x)
  {
    if s != [] {
      FilteredMembers(s[1..], p, x);
      assert s == [s[0]] + s[1..];
    }
  }

  /** Filtering distributes over concatenation: the survivors of `a` come first, in order. */
  lemma {:induction false} FilteredConcat<T>(a: seq<T>, b: seq<T>, p: T -> bool)
    ensures Filtered(a + b, p) == Filtered(a, p) + Filtered(b, p)
  {
    if a == [] {
      assert a + b == b;
    } else {
      assert (a + b)[0] == a[0];
      assert (a + b)[1..] == a[1..] + b;
      FilteredConcat(a[1..], b, p);
    }
  }

  /** A sequence all of whose elements satisfy `p` passes through unchanged, and none passes when none satisfies it. */
  lemma {:induction false} FilteredExtremes<T>(s: seq<T>, p: T -> bool)
    ensures (forall i :: 0 <= i < |s| ==> p(s[i])) ==> Filtered(s, p) == s
    ensures (forall i :: 0 <= i < |s| ==> !p(s[i])) ==> Filtered(s, p) == []
  {
    if s != [] {
      FilteredExtremes(s[1..], p);
    }
  }

  /** Filtering by p.And(q) is filtering by p, then by q. */
  lemma {:induction false} FilteredAnd<T(!new)>(s: seq<T>, p: T -> bool, q: T -> bool)
    ensures Filtered(s, And(p, q)) == Filtered(Filtered(s, p), q)
  {
    if s != [] {
      FilteredAnd(s[1..], p, q);
      var rest := Filtered(s[1..], p);
      if p(s[0]) {
        assert Filtered(s, p) == [s[0]] + rest;
        assert ([s[0]] + rest)[0] == s[0];
        assert ([s[0]] + rest)[1..] == rest;
      } else {
        assert Filtered(s, p) == rest;
      }
    }
  }

  /** Filtering a suffix keeps or drops its first value, then filters the rest. */
  lemma FilteredFrom<T>(s: seq<T>, i: int, p: T -> bool)
    requires 0 <= i < |s|
    ensures Filtered(s[i..], p) == (if p(s[i]) then [s[i]] else []) + Filtered(s[i + 1..], p)
  {
    assert s[i..][0] == s[i] && s[i..][1..] == s[i + 1..];
  }

  /** Where(p) pushes exactly the values that satisfy `p`, in upstream order. */
  method Where<T>(s: seq<T>, pred: T -> bool) returns (output: seq<T>)
    ensures output == Filtered(s, pred)
  {
    output := [];
    for i := 0 to |s|
      invariant output + Filtered(s[i..], pred) == Filtered(s, pred)
    {
      ghost var rest := Filtered(s[i + 1..], pred);
      FilteredFrom(s, i, pred);
      if pred(s[i]) {
        ghost var before := output;
        output := output + [s[i]];
        assert output + rest == before + ([s[i]] + rest);
      }
    }
  }

  /** [1, 2, 3] filtered by v > 2 is [3]. */
  lemma WhereExample()
    ensures Filtered([1, 2, 3], (v: int) => v > 2) == [3]
  {
    var s := [1, 2, 3];
    assert s[1..] == [2, 3] && s[1..][1..] == [3] && s[1..][1..][1..] == [];
  }
}
