/** FirstOr*, LastOr* and ElementAtOr*: the single-element reducers. */
module Retrieve {
  import opened Options
  import opened Definition
  import opened Seqs
  import opened Filter

  /** The test the FirstOr and LastOr operators apply: the first predicate, or none (every value matches). */
  function Matcher<T>(pred: seq<Option<T -> bool>>): T -> bool {
    match Chosen(pred)
    case None => _ => true
    case Some(p) => p
  }

  /** The first value of `s` that satisfies `m`, or `otherwise` when none does. */
  function FirstMatch<T>(s: seq<T>, m: T -> bool, otherwise: T): T {
    var k := FirstIndex(s, m);
    if k < |s| then s[k] else otherwise
  }

  /** The last value of `s` that satisfies `m`, or `otherwise` when none does. */
  function LastMatch<T>(s: seq<T>, m: T -> bool, otherwise: T): T {
    var k := LastIndex(s, m);
    if k >= 0 then s[k] else otherwise
  }

  /**
   * The loop shared by FirstOrNil and FirstOrDefault: `t` starts as the value
   * to fall back on, and the `first` flag lets only the first match overwrite it.
   */
  method FirstLoop<T>(s: seq<T>, init: T, pred: seq<Option<T -> bool>>) returns (t: T)
    ensures t == FirstMatch(s, Matcher(pred), init)
  {
    ghost var m := Matcher(pred);
    ghost var f := FirstIndex(s, m);
    t := init;
    var first := true;
    for i := 0 to |s|
      invariant first <==> f >= i
      invariant t == if f < i then s[f] else init
    {
      var value := s[i];
      if !IsEmptyOrNil(pred) {
        if !pred[0].value(value) {
          continue;
        }
      }
      assert m(value);
      if first {
        first := false;
        t := value;
      }
    }
  }

  /** FirstOrNil returns the first matching value, or the zero value of T. */
  method FirstOrNil<T>(s: seq<T>, zero: T, pred: seq<Option<T -> bool>>) returns (t: T)
    ensures t == FirstMatch(s, Matcher(pred), zero)
  {
    t := FirstLoop(s, zero, pred);
  }

  /** FirstOrDefault returns the first matching value, or `defaultValue`. */
  method FirstOrDefault<T>(s: seq<T>, defaultValue: T, pred: seq<Option<T -> bool>>) returns (t: T)
    ensures t == FirstMatch(s, Matcher(pred), defaultValue)
  {
    t := FirstLoop(s, defaultValue, pred);
  }

  /** The loop shared by LastOrNil and LastOrDefault: every match overwrites `t`. */
  method LastLoop<T>(s: seq<T>, init: T, pred: seq<Option<T -> bool>>) returns (t: T)
    ensures t == LastMatch(s, Matcher(pred), init)
  {
    ghost var m := Matcher(pred);
    t := init;
    for i := 0 to |s|
      invariant t == LastMatch(s[..i], m, init)
    {
      assert s[..i + 1][..i] == s[..i];
      var value := s[i];
      if !IsEmptyOrNil(pred) {
        if !pred[0].value(value) {
          continue;
        }
      }
      t := value;
    }
    assert s[..|s|] == s;
  }

  /** LastOrNil returns the last matching value, or the zero value of T. */
  method LastOrNil<T>(s: seq<T>, zero: T, pred: seq<Option<T -> bool>>) returns (t: T)
    ensures t == LastMatch(s, Matcher(pred), zero)
  {
    t := LastLoop(s, zero, pred);
  }

  /** LastOrDefault returns the last matching value, or `defaultValue`. */
  method LastOrDefault<T>(s: seq<T>, defaultValue: T, pred: seq<Option<T -> bool>>) returns (t: T)
    ensures t == LastMatch(s, Matcher(pred), defaultValue)
  {
    t := LastLoop(s, defaultValue, pred);
  }

  /** The first match is the head of Where(m), when Where(m) is not empty. */
  lemma {:induction false} FirstMatchIsHeadOfFiltered<T>(s: seq<T>, m: T -> bool, otherwise: T)
    ensures FirstMatch(s, m, otherwise) == if Filtered(s, m) == [] then otherwise else Filtered(s, m)[0]
  {
    if s != [] && !m(s[0]) {
      FirstMatchIsHeadOfFiltered(s[1..], m, otherwise);
    }
  }

  /** The last match is the last value of Where(m), when Where(m) is not empty. */
  lemma {:induction false} LastMatchIsLastOfFiltered<T>(s: seq<T>, m: T -> bool, otherwise: T)
    ensures var w := Filtered(s, m);
      LastMatch(s, m, otherwise) == if w == [] then otherwise else w[|w| - 1]
  {
    if s != [] {
      var init := s[..|s| - 1];
      var last := s[|s| - 1];
      assert s == init + [last];
      FilteredConcat(init, [last], m);
      assert Filtered([last], m) == if m(last) then [last] else [] by {
        assert [last][1..] == [];
      }
      LastMatchIsLastOfFiltered(init, m, otherwise);
    }
  }

  /**
   * The loop shared by ElementAtOrNil and ElementAtOrDefault: `t` takes each
   * value while the counter `i` is at most `index`; a final count other than
   * index + 1 means the index was out of range.
   */
  method ElementAtLoop<T>(s: seq<T>, index: int, init: T) returns (t: T)
    ensures t == if 0 <= index < |s| then s[index] else init
  {
    t := init;
    var i := 0;
    for k := 0 to |s|
      invariant i == Clamp(index + 1, k)
      invariant t == if i > 0 then s[i - 1] else init
    {
      if i <= index {
        t := s[k];
        i := i + 1;
      }
    }
    if i != index + 1 {
      return init;
    }
  }

  /** ElementAtOrNil(i) returns s[i] when 0 <= i < |s|, and the zero value of T otherwise. */
  method ElementAtOrNil<T>(s: seq<T>, index: int, zero: T) returns (t: T)
    ensures t == if 0 <= index < |s| then s[index] else zero
  {
    t := ElementAtLoop(s, index, zero);
  }

  /** ElementAtOrDefault(i, d) returns s[i] when 0 <= i < |s|, and d otherwise, negative i included. */
  method ElementAtOrDefault<T>(s: seq<T>, index: int, defaultValue: T) returns (t: T)
    ensures t == if 0 <= index < |s| then s[index] else defaultValue
  {
    t := ElementAtLoop(s, index, defaultValue);
  }
}
