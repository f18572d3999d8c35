/**
  `keepEndSpaceShort`: runs of spaces between words shrink to one space, while
  the spaces at the start and at the end of the text are kept as they are.
 */
module SpaceSqueeze {
  import opened Strings

  /** `' ' * n`. */
  function Blanks(n: nat): (r: string)
    ensures |r| == n && forall k :: 0 <= k < n ==> r[k] == ' '
  {
    if n == 0 then "" else Blanks(n - 1) + " "
  }

  predicate AllBlank(s: string)
  {
    forall k :: 0 <= k < |s| ==> s[k] == ' '
  }

  /** The number of spaces `s` starts with. */
  function Leading(s: string): (n: nat)
    ensures n <= |s|
  {
    if s != [] && s[0] == ' ' then 1 + Leading(s[1..]) else 0
  }

  /** The number of spaces `s` ends with. */
  function Trailing(s: string): (n: nat)
    ensures n <= |s|
  {
    if s != [] && s[|s| - 1] == ' ' then 1 + Trailing(s[..|s| - 1]) else 0
  }

  /** `list(filter(None, text.split(' ')))`. */
  function Words(text: string): seq<string>
  {
    Parts(text, " ")
  }

  /** `' '.join(Words(text))`. */
  function Squeeze(text: string): string
  {
    if Words(text) == [] then "" else Join(Words(text), " ")
  }

  /** The result `keepEndSpaceShort` promises, in terms of the text's words and end spaces. */
  function KeepEndSpaceShortSpec(text: string): string
  {
    var lead := Leading(text);
    Blanks(lead) + Squeeze(text) + Blanks(Trailing(text[lead..]))
  }

  lemma {:induction false} LeadingIs(s: string, i: nat)
    requires i <= |s| && AllBlank(s[..i]) && (i == |s| || s[i] != ' ')
    ensures Leading(s) == i
  {
    if i > 0 {
      assert s[0] == s[..i][0];
      assert s[1..][..i - 1] == s[1..i] == s[..i][1..];
      LeadingIs(s[1..], i - 1);
    }
  }

  lemma {:induction false} TrailingIs(s: string, j: nat)
    requires j <= |s| && AllBlank(s[j..]) && (j == 0 || s[j - 1] != ' ')
    ensures Trailing(s) == |s| - j
    decreases |s|
  {
    if j < |s| {
      var s' := s[..|s| - 1];
      assert s[|s| - 1] == s[j..][|s| - 1 - j];
      assert s'[j..] == s[j..|s| - 1];
      TrailingIs(s', j);
    }
  }

  lemma {:induction false} BlanksAdd(a: nat, b: nat)
    ensures Blanks(a) + Blanks(b) == Blanks(a + b)
  {
    assert (Blanks(a) + Blanks(b)) == Blanks(a + b);
  }

  // ---------------------------------------------------------------------------
  // Splitting on a single space
  // ---------------------------------------------------------------------------

  /** A one-space separator occurs exactly where the text holds a space. */
  lemma OccursBlank(s: string, j: nat)
    ensures OccursAt(s, " ", j) <==> j < |s| && s[j] == ' '
  {
    if j < |s| {
      assert s[j..j + 1] == [s[j]];
    }
  }

  lemma SplitNoBlank(w: string)
    requires ' ' !in w
    ensures Split(w, " ") == [w]
  {
    forall j: nat ensures !OccursAt(w, " ", j) {
      OccursBlank(w, j);
    }
  }

  /** The first space of `a + " " + b` is the first space of `a`, or the added one. */
  lemma FirstBlankAround(a: string, b: string)
    ensures IndexOf(a + " " + b, " ", 0) == if IndexOf(a, " ", 0).Some? then IndexOf(a, " ", 0) else Some(|a|)
  {
    var s := a + " " + b;
    forall j: nat | j < |a| ensures OccursAt(s, " ", j) == OccursAt(a, " ", j) {
      OccursBlank(s, j);
      OccursBlank(a, j);
    }
    OccursBlank(s, |a|);
  }

  /** With a one-character separator, splitting `a + sp + b` splits `a` and `b` apart. */
  lemma {:induction false} SplitAround(a: string, b: string)
    ensures Split(a + " " + b, " ") == Split(a, " ") + Split(b, " ")
    decreases |a|
  {
    FirstBlankAround(a, b);
    var ia := IndexOf(a, " ", 0);
    if ia.None? {
      SplitAroundAdded(a, b);
    } else {
      SplitAround(a[ia.value + 1..], b);
      SplitAroundFirst(a, b, ia.value);
    }
  }

  /** `a` has no space: the added space is the first cut. */
  lemma SplitAroundAdded(a: string, b: string)
    requires IndexOf(a, " ", 0).None? && IndexOf(a + " " + b, " ", 0) == Some(|a|)
    ensures Split(a + " " + b, " ") == Split(a, " ") + Split(b, " ")
  {
    var s := a + " " + b;
    assert Split(a, " ") == [a];
    assert s[..|a|] == a;
    assert s[|a| + 1..] == b;
  }

  /** `a` has a space at `i`: that is the first cut, and the rest of `a` is split with `b`. */
  lemma SplitAroundFirst(a: string, b: string, i: nat)
    requires IndexOf(a, " ", 0) == Some(i) && IndexOf(a + " " + b, " ", 0) == Some(i)
    requires Split(a[i + 1..] + " " + b, " ") == Split(a[i + 1..], " ") + Split(b, " ")
    ensures Split(a + " " + b, " ") == Split(a, " ") + Split(b, " ")
  {
    CutBefore(a, b, i);
    var head, tail := [a[..i]], a[i + 1..];
    assert Split(a + " " + b, " ") == head + Split(tail + " " + b, " ");
    assert Split(a, " ") == head + Split(tail, " ");
  }

  /** Cutting `a + " " + b` at an index inside `a`. */
  lemma CutBefore(a: string, b: string, i: nat)
    requires i < |a|
    ensures (a + " " + b)[..i] == a[..i] && (a + " " + b)[i + 1..] == a[i + 1..] + " " + b
  {
  }

  lemma {:induction false} NonEmptyAppend(xs: seq<string>, ys: seq<string>)
    ensures NonEmpty(xs + ys) == NonEmpty(xs) + NonEmpty(ys)
  {
    if xs != [] {
      assert (xs + ys)[1..] == xs[1..] + ys;
      NonEmptyAppend(xs[1..], ys);
    } else {
      assert xs + ys == ys;
    }
  }

  lemma {:induction false} NonEmptyKeeps(xs: seq<string>)
    requires forall k :: 0 <= k < |xs| ==> xs[k] != ""
    ensures NonEmpty(xs) == xs
  {
    if xs != [] {
      NonEmptyKeeps(xs[1..]);
    }
  }

  lemma {:induction false} WordsOfBlanks(n: nat)
    ensures Words(Blanks(n)) == []
  {
    if n == 0 {
      SplitNoBlank("");
    } else {
      WordsOfBlanks(n - 1);
      SplitAround(Blanks(n - 1), "");
      assert Blanks(n - 1) + " " + "" == Blanks(n);
      SplitNoBlank("");
      NonEmptyAppend(Split(Blanks(n - 1), " "), [""]);
    }
  }

  /** Parts of a split on " " hold no space. */
  lemma WordsHaveNoBlank(text: string)
    ensures forall k :: 0 <= k < |Words(text)| ==> Words(text)[k] != "" && ' ' !in Words(text)[k]
  {
    SplitPartsFree(text, " ");
    NonEmptyFrom(Split(text, " "));
    forall k | 0 <= k < |Words(text)| ensures ' ' !in Words(text)[k] {
      var w := Words(text)[k];
      assert w in Split(text, " ");
      if ' ' in w {
        var m :| 0 <= m < |w| && w[m] == ' ';
        assert w[m..m + 1] == " ";
        assert OccursAt(w, " ", m);
      }
    }
  }

  lemma {:induction false} NonEmptyFrom(xs: seq<string>)
    ensures forall x :: x in NonEmpty(xs) ==> x in xs
  {
    if xs != [] {
      NonEmptyFrom(xs[1..]);
    }
  }

  /** Joining space-free words with " " and splitting again gives the words back. */
  lemma {:induction false} SplitJoinWords(ws: seq<string>)
    requires ws != [] && forall k :: 0 <= k < |ws| ==> ' ' !in ws[k]
    ensures Split(Join(ws, " "), " ") == ws
  {
    if |ws| == 1 {
      SplitNoBlank(ws[0]);
    } else {
      SplitJoinWords(ws[1..]);
      SplitJoinCons(ws[0], Join(ws[1..], " "), ws[1..]);
      assert ws == [ws[0]] + ws[1..];
    }
  }

  lemma SplitJoinCons(w: string, t: string, rest: seq<string>)
    requires ' ' !in w && Split(t, " ") == rest
    ensures Split(w + " " + t, " ") == [w] + rest
  {
    SplitAround(w, t);
    SplitNoBlank(w);
  }

  /** Joined non-empty, space-free words neither start nor end with a space, nor hold two in a row. */
  lemma {:induction false} JoinWordsShape(ws: seq<string>)
    requires ws != [] && forall k :: 0 <= k < |ws| ==> ws[k] != "" && ' ' !in ws[k]
    ensures var s := Join(ws, " ");
      s != [] && s[0] != ' ' && s[|s| - 1] != ' ' &&
      forall k :: 0 <= k < |s| - 1 ==> !(s[k] == ' ' && s[k + 1] == ' ')
  {
    if |ws| > 1 {
      JoinWordsShape(ws[1..]);
      var w, t := ws[0], Join(ws[1..], " ");
      var s := w + " " + t;
      assert Join(ws, " ") == s;
      assert w[|w| - 1] in w;
      assert s[|s| - 1] == t[|t| - 1];
      forall k | 0 <= k < |s| - 1 ensures !(s[k] == ' ' && s[k + 1] == ' ') {
        if k < |w| - 1 {
          assert s[k] == w[k];
        } else if k == |w| - 1 {
          assert s[k] == w[k];
        } else if k == |w| {
          assert s[k + 1] == t[0];
        } else {
          assert s[k] == t[k - |w| - 1] && s[k + 1] == t[k - |w|];
        }
      }
    } else {
      assert ws[0][0] in ws[0];
      assert ws[0][|ws[0]| - 1] in ws[0];
    }
  }

  lemma {:induction false} JoinEmptiesBlank(xs: seq<string>)
    requires xs != [] && forall k :: 0 <= k < |xs| ==> xs[k] == ""
    ensures AllBlank(Join(xs, " "))
  {
    if |xs| > 1 {
      JoinEmptiesBlank(xs[1..]);
    }
  }

  lemma {:induction false} NonEmptyNone(xs: seq<string>)
    requires NonEmpty(xs) == []
    ensures forall k :: 0 <= k < |xs| ==> xs[k] == ""
  {
    if xs != [] {
      NonEmptyNone(xs[1..]);
    }
  }

  /** A text has no words exactly when it is all spaces. */
  lemma WordsEmptyIffBlank(text: string)
    ensures Words(text) == [] <==> AllBlank(text)
  {
    if AllBlank(text) {
      assert text == Blanks(|text|);
      WordsOfBlanks(|text|);
    }
    if Words(text) == [] {
      NonEmptyNone(Split(text, " "));
      JoinEmptiesBlank(Split(text, " "));
      JoinSplit(text, " ");
    }
  }

  // ---------------------------------------------------------------------------
  // The method and its properties
  // ---------------------------------------------------------------------------

  /**
    `keepEndSpaceShort`: the loop moves `i` past the leading spaces and `j`
    back over the trailing ones; the middle is re-joined with single spaces.
   */
  method KeepEndSpaceShort(text: string) returns (r: string)
    ensures r == KeepEndSpaceShortSpec(text)
  {
    var i := 0;
    var j0 := |text|;
    var j := j0;
    while i < j && (text[i] == ' ' || text[j - 1] == ' ')
      invariant 0 <= i <= j <= |text|
      invariant forall k :: 0 <= k < i ==> text[k] == ' '
      invariant forall k :: j <= k < |text| ==> text[k] == ' '
      invariant forall k :: 0 <= k < |text| && text[k] != ' ' ==> i <= k < j
      decreases j - i
    {
      if text[i] == ' ' {
        i := i + 1;
      }
      if text[j - 1] == ' ' {
        j := j - 1;
      }
      if i > j {
        j := j + 1;
      }
    }
    var middle := Squeeze(text);
    r := Blanks(i) + middle + Blanks(j0 - j);
    LoopExit(text, i, j);
  }

  /** Where the loop of `KeepEndSpaceShort` stops, `i` and `j` mark the end spaces. */
  lemma LoopExit(text: string, i: nat, j: nat)
    requires i <= j <= |text|
    requires forall k :: 0 <= k < i ==> text[k] == ' '
    requires forall k :: j <= k < |text| ==> text[k] == ' '
    requires forall k :: 0 <= k < |text| && text[k] != ' ' ==> i <= k < j
    requires !(i < j && (text[i] == ' ' || text[j - 1] == ' '))
    ensures Blanks(i) + Squeeze(text) + Blanks(|text| - j) == KeepEndSpaceShortSpec(text)
  {
    if i < j {
      assert AllBlank(text[..i]);
      LeadingIs(text, i);
      TrailingFrom(text, i, j);
    } else {
      assert AllBlank(text);
      WordsEmptyIffBlank(text);
      assert AllBlank(text[..|text|]);
      LeadingIs(text, |text|);
      BlanksAdd(i, |text| - j);
    }
  }

  lemma TrailingFrom(text: string, i: nat, j: nat)
    requires i < j <= |text| && text[j - 1] != ' '
    requires forall k :: j <= k < |text| ==> text[k] == ' '
    ensures Trailing(text[i..]) == |text| - j
  {
    var t := text[i..];
    assert t[j - i..] == text[j..];
    assert t[j - i - 1] == text[j - 1];
    TrailingIs(t, j - i);
  }

  /** An all-space text is returned unchanged. */
  lemma BlankTextKept(text: string)
    requires AllBlank(text)
    ensures KeepEndSpaceShortSpec(text) == text
  {
    WordsEmptyIffBlank(text);
    LeadingIs(text, |text|);
    assert text == Blanks(|text|);
  }

  lemma {:induction false} LeadingBlanks(n: nat, s: string)
    requires s == [] || s[0] != ' '
    ensures Leading(Blanks(n) + s) == n
  {
    var t := Blanks(n) + s;
    assert t[..n] == Blanks(n);
    LeadingIs(t, n);
  }

  lemma TrailingBlanks(s: string, n: nat)
    requires s == [] || s[|s| - 1] != ' '
    ensures Trailing(s + Blanks(n)) == n
  {
    var t := s + Blanks(n);
    assert t[|s|..] == Blanks(n);
    TrailingIs(t, |s|);
  }

  /** Squeeze keeps the words, in order, and leaves single spaces between them. */
  lemma SqueezeShape(text: string)
    ensures Words(Squeeze(text)) == Words(text)
    ensures forall k :: 0 <= k < |Squeeze(text)| - 1 ==> !(Squeeze(text)[k] == ' ' && Squeeze(text)[k + 1] == ' ')
    ensures Squeeze(text) != [] ==> Squeeze(text)[0] != ' ' && Squeeze(text)[|Squeeze(text)| - 1] != ' '
  {
    var ws := Words(text);
    WordsHaveNoBlank(text);
    if ws == [] {
      SplitNoBlank("");
    } else {
      JoinWordsShape(ws);
      SplitJoinWords(ws);
      NonEmptyKeeps(ws);
    }
  }

  /** The words of the result are the words of the text. */
  lemma KeepsWords(text: string)
    ensures Words(KeepEndSpaceShortSpec(text)) == Words(text)
  {
    var lead := Leading(text);
    var trail := Trailing(text[lead..]);
    var m := Squeeze(text);
    SqueezeShape(text);
    WordsAroundBlanks(lead, m, trail);
  }

  /** Spaces added at either end of a text add no word. */
  lemma WordsAroundBlanks(a: nat, m: string, b: nat)
    ensures Words(Blanks(a) + m + Blanks(b)) == Words(m)
  {
    WordsPrefixBlanks(a, m + Blanks(b));
    WordsSuffixBlanks(m, b);
    assert Blanks(a) + m + Blanks(b) == Blanks(a) + (m + Blanks(b));
  }

  lemma {:induction false} WordsPrefixBlanks(a: nat, m: string)
    ensures Words(Blanks(a) + m) == Words(m)
  {
    if a > 0 {
      WordsPrefixBlanks(a - 1, m);
      assert Blanks(a) + m == Blanks(a - 1) + " " + m;
      SplitAround(Blanks(a - 1), m);
      NonEmptyAppend(Split(Blanks(a - 1), " "), Split(m, " "));
      WordsOfBlanks(a - 1);
    } else {
      assert Blanks(0) + m == m;
    }
  }

  lemma {:induction false} WordsSuffixBlanks(m: string, b: nat)
    ensures Words(m + Blanks(b)) == Words(m)
  {
    if b > 0 {
      WordsSuffixBlanks(m, b - 1);
      assert m + Blanks(b) == (m + Blanks(b - 1)) + " " + "";
      SplitAround(m + Blanks(b - 1), "");
      SplitNoBlank("");
      NonEmptyAppend(Split(m + Blanks(b - 1), " "), [""]);
    } else {
      assert m + Blanks(0) == m;
    }
  }

  /** Applying keepEndSpaceShort a second time changes nothing. */
  lemma KeepEndSpaceShortIdempotent(text: string)
    ensures KeepEndSpaceShortSpec(KeepEndSpaceShortSpec(text)) == KeepEndSpaceShortSpec(text)
  {
    WordsEmptyIffBlank(text);
    if AllBlank(text) {
      BlankTextKept(text);
    } else {
      ResultFrame(text);
    }
  }

  /**
    For a text with a word in it, the result starts with the same spaces, ends
    with the same spaces and squeezes to the same middle.
   */
  lemma ResultFrame(text: string)
    requires Words(text) != []
    ensures var r := KeepEndSpaceShortSpec(text);
      var lead := Leading(text);
      Leading(r) == lead && Trailing(r[lead..]) == Trailing(text[lead..]) && Squeeze(r) == Squeeze(text)
  {
    var lead := Leading(text);
    var m := Squeeze(text);
    SqueezeShape(text);
    KeepsWords(text);
    assert m != [] by {
      if m == [] {
        SplitNoBlank("");
      }
    }
    Framed(lead, m, Trailing(text[lead..]));
  }

  /** Spaces put around a middle that starts and ends with a non-space are found again at both ends. */
  lemma Framed(a: nat, m: string, b: nat)
    requires m != [] && m[0] != ' ' && m[|m| - 1] != ' '
    ensures Leading(Blanks(a) + m + Blanks(b)) == a
    ensures (Blanks(a) + m + Blanks(b))[a..] == m + Blanks(b)
    ensures Trailing(m + Blanks(b)) == b
  {
    var pre, post := Blanks(a), Blanks(b);
    Regroup(pre, m, post);
    DropPrefix(pre, m + post);
    LeadingBlanks(a, m + post);
    TrailingBlanks(m, b);
  }

  lemma DropPrefix(x: string, y: string)
    ensures (x + y)[|x|..] == y
  {
  }

  lemma Regroup(x: string, y: string, z: string)
    ensures x + y + z == x + (y + z)
  {
  }
}
