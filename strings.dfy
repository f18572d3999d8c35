/**
  Text helpers shared by the terminal model: the `str.split` / `''.join` /
  `filter(None, ...)` idioms the terminal relies on, written as functions over
  `string` (`seq<char>`).
 */
module Strings {

  datatype Option<+T> = None | Some(value: T)

  /** `''.join(xs)`: the pieces glued together with nothing in between. */
  function Concat(xs: seq<string>): string
  {
    if xs == [] then "" else Concat(xs[..|xs| - 1]) + xs[|xs| - 1]
  }

  /** `sp.join(xs)` for a non-empty list. */
  function Join(xs: seq<string>, sp: string): string
    requires xs != []
  {
    if |xs| == 1 then xs[0] else xs[0] + sp + Join(xs[1..], sp)
  }

  /** `sp` occurs in `s` starting at index `i`. */
  predicate OccursAt(s: string, sp: string, i: nat)
  {
    i + |sp| <= |s| && s[i..i + |sp|] == sp
  }

  /** The leftmost occurrence of `sp` in `s` at or after index `k` (`s.find(sp, k)`). */
  function IndexOf(s: string, sp: string, k: nat): (r: Option<nat>)
    decreases |s| - k
    ensures r.Some? ==> k <= r.value && OccursAt(s, sp, r.value)
    ensures r.Some? ==> forall j :: k <= j < r.value ==> !OccursAt(s, sp, j)
    ensures r.None? ==> forall j :: k <= j ==> !OccursAt(s, sp, j)
  {
    if k + |sp| > |s| then None
    else if s[k..k + |sp|] == sp then Some(k)
    else IndexOf(s, sp, k + 1)
  }

  /** `s.split(sp)`: cut at every leftmost, non-overlapping occurrence of `sp`. */
  function Split(s: string, sp: string): (parts: seq<string>)
    requires sp != ""
    decreases |s|
    ensures parts != []
  {
    match IndexOf(s, sp, 0)
    case None => [s]
    case Some(i) => [s[..i]] + Split(s[i + |sp|..], sp)
  }

  /** `list(filter(None, xs))`: drop the empty strings, keep the order. */
  function NonEmpty(xs: seq<string>): (r: seq<string>)
    ensures forall k :: 0 <= k < |r| ==> r[k] != ""
    ensures |r| <= |xs|
  {
    if xs == [] then []
    else if xs[0] == "" then NonEmpty(xs[1..])
    else [xs[0]] + NonEmpty(xs[1..])
  }

  /** `filter(None, s.split(sp))`: the parts `splitReturn` works on. */
  function Parts(s: string, sp: string): seq<string>
    requires sp != ""
  {
    NonEmpty(Split(s, sp))
  }

  /** `s` with every occurrence of `sp` taken out, scanning left to right. */
  function RemoveAll(s: string, sp: string): string
    requires sp != ""
    decreases |s|
  {
    if |s| < |sp| then s
    else if s[..|sp|] == sp then RemoveAll(s[|sp|..], sp)
    else [s[0]] + RemoveAll(s[1..], sp)
  }

  /** `text` without any occurrence of `c` (`text.replace(c, '')`). */
  function Strip(text: string, c: char): (r: string)
    ensures c !in r
  {
    if text == [] then ""
    else if text[0] == c then Strip(text[1..], c)
    else [text[0]] + Strip(text[1..], c)
  }

  function Last<T>(xs: seq<T>): T
    requires xs != []
  {
    xs[|xs| - 1]
  }

  lemma ConcatAppend(xs: seq<string>, ys: seq<string>)
    ensures Concat(xs + ys) == Concat(xs) + Concat(ys)
    decreases |ys|
  {
    if ys == [] {
      assert xs + ys == xs;
    } else {
      var init, y := ys[..|ys| - 1], ys[|ys| - 1];
      assert (xs + ys)[..|xs + ys| - 1] == xs + init;
      assert (xs + ys)[|xs + ys| - 1] == y;
      ConcatAppend(xs, init);
      var a, b := Concat(xs), Concat(init);
      assert Concat(xs + ys) == (a + b) + y;
      assert (a + b) + y == a + (b + y);
    }
  }

  lemma ConcatCons(x: string, xs: seq<string>)
    ensures Concat([x] + xs) == x + Concat(xs)
  {
    ConcatAppend([x], xs);
    assert Concat([x]) == Concat([]) + x;
  }

  lemma ConcatSingle(x: string)
    ensures Concat([x]) == x
  {
    assert [x][..0] == [];
  }

  lemma JoinCons(x: string, xs: seq<string>, sp: string)
    requires xs != []
    ensures Join([x] + xs, sp) == x + sp + Join(xs, sp)
  {
    assert ([x] + xs)[1..] == xs;
  }

  /** Splitting and joining back with the separator gives the text back. */
  lemma {:induction false} JoinSplit(s: string, sp: string)
    requires sp != ""
    ensures Join(Split(s, sp), sp) == s
    decreases |s|
  {
    match IndexOf(s, sp, 0)
    case None =>
    case Some(i) =>
      var tail := s[i + |sp|..];
      JoinSplit(tail, sp);
      assert Split(s, sp) == [s[..i]] + Split(tail, sp);
      assert s == s[..i] + sp + tail;
  }

  /** No part of a split contains the separator. */
  lemma {:induction false} SplitPartsFree(s: string, sp: string)
    requires sp != ""
    ensures forall p, j :: p in Split(s, sp) && 0 <= j ==> !OccursAt(p, sp, j)
    decreases |s|
  {
    match IndexOf(s, sp, 0)
    case None =>
    case Some(i) =>
      var tail := s[i + |sp|..];
      SplitPartsFree(tail, sp);
      forall j | 0 <= j
        ensures !OccursAt(s[..i], sp, j)
      {
        if OccursAt(s[..i], sp, j) {
          assert s[..i][j..j + |sp|] == s[j..j + |sp|];
          assert OccursAt(s, sp, j);
        }
      }
  }

  /** Dropping empty parts does not change their concatenation. */
  lemma {:induction false} ConcatNonEmpty(xs: seq<string>)
    ensures Concat(NonEmpty(xs)) == Concat(xs)
  {
    if xs != [] {
      ConcatNonEmpty(xs[1..]);
      ConcatCons(xs[0], xs[1..]);
      assert xs == [xs[0]] + xs[1..];
      if xs[0] != "" {
        ConcatCons(xs[0], NonEmpty(xs[1..]));
      }
    }
  }

  /** The scan copies every character before the first occurrence of `sp`. */
  lemma {:induction false} RemoveAllSkip(s: string, sp: string, i: nat)
    requires sp != "" && i <= |s|
    requires forall j :: 0 <= j < i ==> !OccursAt(s, sp, j)
    ensures RemoveAll(s, sp) == s[..i] + RemoveAll(s[i..], sp)
    decreases i
  {
    if i == 0 {
      assert s[..0] == "" && s[0..] == s;
    } else if |s| < |sp| {
      assert s == s[..i] + s[i..];
    } else {
      assert !OccursAt(s, sp, 0);
      var t := s[1..];
      forall j | 0 <= j < i - 1
        ensures !OccursAt(t, sp, j)
      {
        assert !OccursAt(s, sp, j + 1);
        if j + |sp| <= |t| {
          assert t[j..j + |sp|] == s[j + 1..j + 1 + |sp|];
        }
      }
      RemoveAllSkip(t, sp, i - 1);
      assert t[i - 1..] == s[i..];
      assert [s[0]] + t[..i - 1] == s[..i];
    }
  }

  /** Concatenating the pieces of `s.split(sp)` removes every separator, scanning left to right. */
  lemma {:induction false} SplitRemoveAll(s: string, sp: string)
    requires sp != ""
    ensures Concat(Split(s, sp)) == RemoveAll(s, sp)
    decreases |s|
  {
    match IndexOf(s, sp, 0)
    case None =>
      RemoveAllSkip(s, sp, |s|);
      assert s[..|s|] == s && RemoveAll(s[|s|..], sp) == "";
      ConcatSingle(s);
    case Some(i) =>
      var tail := s[i + |sp|..];
      RemoveAllSkip(s, sp, i);
      assert s[i..][..|sp|] == sp && s[i..][|sp|..] == tail;
      SplitRemoveAll(tail, sp);
      ConcatCons(s[..i], Split(tail, sp));
  }

  /** The parts of `s`, concatenated, are `s` with its separators removed. */
  lemma PartsConcat(s: string, sp: string)
    requires sp != ""
    ensures Concat(Parts(s, sp)) == RemoveAll(s, sp)
  {
    ConcatNonEmpty(Split(s, sp));
    SplitRemoveAll(s, sp);
  }
}
