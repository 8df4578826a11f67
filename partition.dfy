/** Skip, SkipWhile, Take and TakeWhile. */
module Partition {
  import opened Seqs

  /** The negation of a predicate: the test that stops SkipWhile and TakeWhile. */
  function Fails<T>(p: T -> bool): T -> bool {
    x => !p(x)
  }

  /** Skip(n): the counter starts at 1, so the value at position k goes out when k >= n. */
  method Skip<T>(s: seq<T>, number: int) returns (out: seq<T>)
    ensures out == s[Clamp(number, |s|)..]
  {
    out := [];
    var i := 1;
    for k := 0 to |s|
      invariant i == k + 1
      invariant out == s[Clamp(number, k)..k]
    {
      if i > number {
        out := out + [s[k]];
      }
      i := i + 1;
    }
  }

  /** Take(n) pushes the values at positions below n. */
  method Take<T>(s: seq<T>, number: int) returns (out: seq<T>)
    ensures out == s[..Clamp(number, |s|)]
  {
    out := [];
    var i := 0;
    for k := 0 to |s|
      invariant i == k
      invariant out == s[..Clamp(number, k)]
    {
      if i < number {
        out := out + [s[k]];
      }
      i := i + 1;
    }
  }

  /**
   * SkipWhile(p): `stopped` latches at the first value that fails p; from
   * there on every value goes out, whether it satisfies p or not.
   */
  method SkipWhile<T>(s: seq<T>, p: T -> bool) returns (out: seq<T>)
    ensures out == s[FirstIndex(s, Fails(p))..]
    ensures out != [] ==> !p(out[0])
    ensures forall j :: 0 <= j < |s| - |out| ==> p(s[j])
  {
    ghost var f := FirstIndex(s, Fails(p));
    out := [];
    var stopped := false;
    for k := 0 to |s|
      invariant stopped <==> f < k
      invariant out == if f < k then s[f..k] else []
    {
      if !p(s[k]) {
        stopped := true;
      }
      if stopped {
        out := out + [s[k]];
      }
    }
  }

  /**
   * TakeWhile(p) pushes the longest prefix whose values all satisfy p; after
   * the first failing value `stopped` stays set, so later satisfying values
   * are not pushed.
   */
  method TakeWhile<T>(s: seq<T>, p: T -> bool) returns (out: seq<T>)
    ensures out == s[..FirstIndex(s, Fails(p))]
    ensures forall j :: 0 <= j < |out| ==> p(out[j])
    ensures |out| < |s| ==> !p(s[|out|])
  {
    ghost var f := FirstIndex(s, Fails(p));
    out := [];
    var stopped := false;
    for k := 0 to |s|
      invariant stopped <==> f < k
      invariant out == s[..if f < k then f else k]
    {
      if !p(s[k]) {
        stopped := true;
      }
      if !stopped {
        out := out + [s[k]];
      }
    }
  }

  /** Take(n) followed by Skip(n) gives back the whole sequence, for every n. */
  method TakeThenSkip<T>(s: seq<T>, number: int) returns (out: seq<T>)
    ensures out == s
  {
    var taken := Take(s, number);
    var skipped := Skip(s, number);
    out := taken + skipped;
    assert s[..Clamp(number, |s|)] + s[Clamp(number, |s|)..] == s;
  }

  /** TakeWhile(p) followed by SkipWhile(p) gives back the whole sequence, for every p. */
  method TakeWhileThenSkipWhile<T>(s: seq<T>, p: T -> bool) returns (out: seq<T>)
    ensures out == s
  {
    var taken := TakeWhile(s, p);
    var skipped := SkipWhile(s, p);
    out := taken + skipped;
    assert s[..FirstIndex(s, Fails(p))] + s[FirstIndex(s, Fails(p))..] == s;
  }
}
