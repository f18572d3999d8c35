/**
  The unit test `TestSplit.testUnicode`: six chunks cut at `'\n'` are fed to
  `splitReturn` with a processor that collects every match of the lazy
  pattern `a(?P<anything>.*?)Z` (with `re.DOTALL`), and the test looks at the
  buffer afterwards. The processor is `TestSplit.process`; its loop is the
  same as the one of `parseLine` and is modelled by `Patterns.Scan`.
 */
module SplitScenario {
  import opened Strings
  import opened Patterns
  import opened Reassembly

  /** `t.find(c, k)` for a single character. */
  function FindChar(t: string, c: char, k: nat): (r: Option<nat>)
    decreases |t| - k
    ensures r.Some? ==> k <= r.value < |t| && t[r.value] == c
    ensures r.Some? ==> forall j :: k <= j < r.value ==> t[j] != c
    ensures r.None? ==> forall j :: k <= j < |t| ==> t[j] != c
  {
    if k >= |t| then None
    else if t[k] == c then Some(k)
    else FindChar(t, c, k + 1)
  }

  /**
    `re.compile(r'a(?P<anything>.*?)Z', re.DOTALL).search(t)`: the leftmost
    `a` that has a `Z` somewhere after it, up to the first such `Z`; the group
    is what lies between them. (Only the first `a` can start a match: a later
    one has no more `Z`s after it than the first.)
   */
  function LazySearch(t: string): (r: Option<Match>)
    ensures SpanOk(t, r)
    ensures r.Some? ==> t[r.value.start] == 'a' && t[r.value.end - 1] == 'Z'
    ensures r.Some? ==> r.value.groups == [t[r.value.start + 1..r.value.end - 1]]
    ensures r.Some? ==> forall j :: 0 <= j < r.value.start ==> t[j] != 'a'
    ensures r.Some? ==> forall j :: r.value.start < j < r.value.end - 1 ==> t[j] != 'Z'
    ensures r.None? <==> forall i, j :: 0 <= i < j < |t| && t[i] == 'a' ==> t[j] != 'Z'
  {
    match FindChar(t, 'a', 0)
    case None => None
    case Some(i) =>
      match FindChar(t, 'Z', i + 1)
      case None => None
      case Some(z) => Some(Match(i, z + 1, [t[i + 1..z]]))
  }

  /** `TestSplit.process`: every match, left to right, and the text after the last one. */
  function Process(t: string): (r: Parsed)
    ensures IsSuffix(r.rest, t)
    ensures r.records == [] <==> LazySearch(t).None?
    ensures r.records == [] ==> r.rest == t
    ensures LazySearch(r.rest).None?
  {
    var s := Scan(LazySearch, t);
    Parsed(Texts(s.found), s.rest)
  }

  /** The leftmost `a` with a later `Z`, up to the first `Z` after it. */
  lemma LazyHit(x: string, y: string, z: string)
    requires 'a' !in x && 'Z' !in y
    ensures LazySearch(x + "a" + y + "Z" + z) == Some(Match(|x|, |x| + |y| + 2, [y]))
  {
    var t := x + "a" + y + "Z" + z;
    var n := |x|;
    assert FindChar(t, 'a', 0) == Some(n) by {
      assert t[n] == 'a';
      assert forall j :: 0 <= j < n ==> t[j] == x[j];
    }
    assert FindChar(t, 'Z', n + 1) == Some(n + |y| + 1) by {
      assert t[n + |y| + 1] == 'Z';
      assert forall j :: n < j < n + |y| + 1 ==> t[j] == y[j - n - 1];
    }
    assert t[n + 1..n + |y| + 1] == y;
  }

  /** A text with an `a` in front of a later `Z` gives up the shortest such piece first. */
  lemma ProcessStep(x: string, y: string, z: string)
    requires 'a' !in x && 'Z' !in y
    ensures Process(x + "a" + y + "Z" + z) == Parsed(["a" + y + "Z"] + Process(z).records, Process(z).rest)
  {
    var t := x + "a" + y + "Z" + z;
    var n := |x|;
    LazyHit(x, y, z);
    assert t[n..n + |y| + 2] == "a" + y + "Z";
    assert t[n + |y| + 2..] == z;
    TextsCons(Found("a" + y + "Z", [y]), Scan(LazySearch, z).found);
  }

  /** A text with no `a` at all gives no record. */
  lemma ProcessNoA(x: string)
    requires 'a' !in x
    ensures Process(x) == Parsed([], x)
  {
    assert FindChar(x, 'a', 0).None?;
  }

  /** A text whose first `a` has no `Z` after it gives no record. */
  lemma ProcessNoZ(x: string, y: string)
    requires 'a' !in x && 'Z' !in y
    ensures Process(x + "a" + y) == Parsed([], x + "a" + y)
  {
    var t := x + "a" + y;
    assert t[|x|] == 'a';
    assert forall j :: 0 <= j < |x| ==> t[j] == x[j];
    assert forall j :: |x| < j < |t| ==> t[j] == y[j - |x| - 1];
    assert FindChar(t, 'a', 0) == Some(|x|);
    assert FindChar(t, 'Z', |x| + 1).None?;
  }

  /** `TestSplit.process` leaves a text without records as it is. */
  lemma ProcessConservative()
    ensures Conservative(Process)
  {
  }

  // ---------------------------------------------------------------------------
  // Cutting at newlines
  // ---------------------------------------------------------------------------

  /** Cutting at the first newline. */
  lemma SplitAtNewline(a: string, b: string)
    requires '\n' !in a
    ensures Split(a + "\n" + b, "\n") == [a] + Split(b, "\n")
  {
    var s := a + "\n" + b;
    assert OccursAt(s, "\n", |a|) by {
      assert s[|a|..|a| + 1] == "\n";
    }
    forall j | 0 <= j < |a|
      ensures !OccursAt(s, "\n", j)
    {
      assert s[j] == a[j];
    }
    assert IndexOf(s, "\n", 0) == Some(|a|);
    assert s[..|a|] == a && s[|a| + 1..] == b;
  }

  /** A text without a newline is a single piece. */
  lemma SplitNoNewline(a: string)
    requires '\n' !in a
    ensures Split(a, "\n") == [a]
  {
    forall j | 0 <= j
      ensures !OccursAt(a, "\n", j)
    {
      if j + 1 <= |a| {
        assert a[j..j + 1] == [a[j]];
      }
    }
    assert IndexOf(a, "\n", 0).None?;
  }

  /** The shape of every chunk of the test: four pieces around three newlines. */
  lemma SplitFour(a: string, b: string, c: string, d: string)
    requires '\n' !in a && '\n' !in b && '\n' !in c && '\n' !in d
    ensures Split(a + "\n" + (b + "\n" + (c + "\n" + d)), "\n") == [a, b, c, d]
  {
    var t3 := c + "\n" + d;
    var t2 := b + "\n" + t3;
    SplitNoNewline(d);
    SplitAtNewline(c, d);
    SplitAtNewline(b, t3);
    SplitAtNewline(a, t2);
    assert [a] + ([b] + ([c] + [d])) == [a, b, c, d];
  }

  /** What `filter(None, ...)` keeps of one piece. */
  function Keep(x: string): seq<string>
  {
    if x == "" then [] else [x]
  }

  lemma NonEmptyCons(x: string, xs: seq<string>)
    ensures NonEmpty([x] + xs) == Keep(x) + NonEmpty(xs)
  {
    assert ([x] + xs)[1..] == xs;
  }

  /** The non-empty pieces of a four-piece chunk whose third piece is empty (two newlines in a row). */
  lemma PartsFour(a: string, b: string, d: string)
    requires '\n' !in a && '\n' !in b && '\n' !in d
    ensures Parts(a + "\n" + (b + "\n" + ("" + "\n" + d)), "\n") == Keep(a) + Keep(b) + Keep(d)
  {
    SplitFour(a, b, "", d);
    var s1 := [d];
    var s2 := [""] + s1;
    var s3 := [b] + s2;
    var s4 := [a] + s3;
    assert s4 == [a, b, "", d];
    NonEmptyCons(d, []);
    assert NonEmpty(s1) == Keep(d) by {
      assert s1 == [d] + [];
    }
    NonEmptyCons("", s1);
    NonEmptyCons(b, s2);
    NonEmptyCons(a, s3);
    AppendAssoc(Keep(a), Keep(b), Keep(d));
  }

  // ---------------------------------------------------------------------------
  // The processor on texts of a few fixed shapes
  // ---------------------------------------------------------------------------

  /** One record, and a rest without any `a`. */
  lemma ProcessOneQuiet(x: string, y: string, z: string)
    requires 'a' !in x && 'Z' !in y && 'a' !in z
    ensures Process(x + "a" + y + "Z" + z) == Parsed(["a" + y + "Z"], z)
  {
    ProcessStep(x, y, z);
    ProcessNoA(z);
    assert ["a" + y + "Z"] + [] == ["a" + y + "Z"];
  }

  /** One record, and a rest whose `a` is never closed. */
  lemma ProcessOneOpen(x: string, y: string, u: string, v: string)
    requires 'a' !in x && 'Z' !in y && 'a' !in u && 'Z' !in v
    ensures Process(x + "a" + y + "Z" + (u + "a" + v)) == Parsed(["a" + y + "Z"], u + "a" + v)
  {
    ProcessStep(x, y, u + "a" + v);
    ProcessNoZ(u, v);
    assert ["a" + y + "Z"] + [] == ["a" + y + "Z"];
  }

  lemma PairFront<T>(p: T, q: T, rest: seq<T>)
    ensures [p] + ([q] + rest) == [p, q] + rest
  {
  }

  /** Two records in front of whatever `z` holds. */
  lemma ProcessTwo(x0: string, y0: string, x1: string, y1: string, z: string)
    requires 'a' !in x0 && 'Z' !in y0 && 'a' !in x1 && 'Z' !in y1
    ensures Process(x0 + "a" + y0 + "Z" + (x1 + "a" + y1 + "Z" + z))
      == Parsed(["a" + y0 + "Z", "a" + y1 + "Z"] + Process(z).records, Process(z).rest)
  {
    var r := Process(z);
    ProcessStep(x1, y1, z);
    ProcessStep(x0, y0, x1 + "a" + y1 + "Z" + z);
    PairFront("a" + y0 + "Z", "a" + y1 + "Z", r.records);
  }

  /** Three records, then an `a` that is never closed. */
  lemma ProcessThreeOpen(x0: string, y0: string, x1: string, y1: string, x2: string, y2: string, u: string, v: string)
    requires 'a' !in x0 && 'Z' !in y0 && 'a' !in x1 && 'Z' !in y1 && 'a' !in x2 && 'Z' !in y2
    requires 'a' !in u && 'Z' !in v
    ensures Process(x0 + "a" + y0 + "Z" + (x1 + "a" + y1 + "Z" + (x2 + "a" + y2 + "Z" + (u + "a" + v))))
      == Parsed(["a" + y0 + "Z", "a" + y1 + "Z", "a" + y2 + "Z"], u + "a" + v)
  {
    ProcessTwo(x0, y0, x1, y1, x2 + "a" + y2 + "Z" + (u + "a" + v));
    ProcessOneOpen(x2, y2, u, v);
  }

  /** Four records, then a rest without any `a`. */
  lemma ProcessFourQuiet(x0: string, y0: string, x1: string, y1: string, x2: string, y2: string, x3: string, y3: string, z: string)
    requires 'a' !in x0 && 'Z' !in y0 && 'a' !in x1 && 'Z' !in y1 && 'a' !in x2 && 'Z' !in y2
    requires 'a' !in x3 && 'Z' !in y3 && 'a' !in z
    ensures Process(x0 + "a" + y0 + "Z" + (x1 + "a" + y1 + "Z" + (x2 + "a" + y2 + "Z" + (x3 + "a" + y3 + "Z" + z))))
      == Parsed(["a" + y0 + "Z", "a" + y1 + "Z", "a" + y2 + "Z", "a" + y3 + "Z"], z)
  {
    ProcessNoA(z);
    ProcessTwo(x2, y2, x3, y3, z);
    assert ["a" + y2 + "Z", "a" + y3 + "Z"] + [] == ["a" + y2 + "Z", "a" + y3 + "Z"];
    ProcessTwo(x0, y0, x1, y1, x2 + "a" + y2 + "Z" + (x3 + "a" + y3 + "Z" + z));
  }

  // ---------------------------------------------------------------------------
  // `splitReturn` on chunks of a few fixed shapes
  // ---------------------------------------------------------------------------

  /** A chunk of two pieces, neither of which completes a record: both go onto the last line. */
  lemma QuietPair(buf: seq<string>, chunk: string, a: string, b: string, processor: Processor)
    requires buf != [] && Parts(chunk, "\n") == [a, b]
    requires processor(Last(buf) + a) == Parsed([], Last(buf) + a)
    requires processor(b) == Parsed([], b)
    ensures Feed(buf, Parts(chunk, "\n"), processor) == buf[..|buf| - 1] + [Last(buf) + (a + b)]
    ensures Appended(buf, Parts(chunk, "\n"), processor) == 0
  {
    var h := HeadStep(buf, a, processor);
    assert h == buf[..|buf| - 1] + [Last(buf) + a];
    assert [a, b][1..] == [b] && [b][..0] == [] && Last([b]) == b;
    assert FeedParts(h, [b], processor) == PartStep(h, b, processor);
    assert CountParts([b], processor) == |processor(b).records|;
    assert Last(buf) + a + b == Last(buf) + (a + b);
  }

  /** A chunk of three pieces; only the first, joined to the last line, completes a record. */
  lemma OneThenQuiet(buf: seq<string>, chunk: string, a: string, b: string, c: string, processor: Processor,
                     rec: string, rest: string)
    requires buf != [] && Parts(chunk, "\n") == [a, b, c]
    requires processor(Last(buf) + a) == Parsed([rec], rest)
    requires processor(b) == Parsed([], b) && processor(c) == Parsed([], c)
    ensures Feed(buf, Parts(chunk, "\n"), processor) == buf[..|buf| - 1] + [rec, rest + b + c]
    ensures Appended(buf, Parts(chunk, "\n"), processor) == 1
  {
    FeedThree(buf, a, b, c, processor);
  }

  /**
    A chunk of three pieces; the first (joined to the last line) and the third
    complete records, the second does not. The second piece ends up on the
    line that the third one replaces.
   */
  lemma RecordsAroundQuiet(buf: seq<string>, chunk: string, a: string, b: string, c: string, processor: Processor,
                           ra: seq<string>, sa: string, rc: seq<string>, sc: string)
    requires buf != [] && ra != [] && rc != [] && Parts(chunk, "\n") == [a, b, c]
    requires processor(Last(buf) + a) == Parsed(ra, sa)
    requires processor(b) == Parsed([], b) && processor(c) == Parsed(rc, sc)
    ensures Feed(buf, Parts(chunk, "\n"), processor) == buf[..|buf| - 1] + ra + rc + [sc]
    ensures Appended(buf, Parts(chunk, "\n"), processor) == |ra| + |rc|
  {
    FeedThree(buf, a, b, c, processor);
    var e := Emit(buf, Parsed(ra, sa));
    assert Extend(e, b)[..|e| - 1] == buf[..|buf| - 1] + ra;
  }

  // ---------------------------------------------------------------------------
  // The chunks of `testUnicode`. Each is written as the pieces the model cuts
  // it into (at `\n`, then at each `a` and the `Z` that closes it), so that
  // the proofs below only instantiate the lemmas above; joined, the pieces
  // spell the test's own chunk, shown above each one.
  // ---------------------------------------------------------------------------

  /** `'hi hi 你好 \nrewq req  \n\n'` */
  const Chunk1: string := "hi hi 你好 " + "\n" + ("rewq req  " + "\n" + ("" + "\n" + ""))
  /** `'fdas\n\n\naaa'` */
  const Chunk2: string := "fd" + "a" + "s" + "\n" + ("" + "\n" + ("" + "\n" + ("" + "a" + "aa")))
  /** `' contiZnue\n \n\naaa'` */
  const Chunk3: string := " conti" + "Z" + "nue" + "\n" + (" " + "\n" + ("" + "\n" + ("" + "a" + "aa")))
  /** `' cont2iZnue\n \n\naaaZZZa1ZZtestate1stZZZa'` */
  const Chunk4: string := " cont2i" + "Z" + "nue" + "\n" + (" " + "\n" + ("" + "\n" + Tail4))
  const Tail4: string := "" + "a" + "aa" + "Z" + ("ZZ" + "a" + "1" + "Z" + ("Ztest" + "a" + "te1st" + "Z" + ("ZZ" + "a" + "")))
  /** `' cont3iZnue\n \n\naaaZZZa2ZZtestates2tZZZaZ'` */
  const Chunk5: string := " cont3i" + "Z" + "nue" + "\n" + (" " + "\n" + ("" + "\n" + Tail5))
  const Tail5: string := "" + "a" + "aa" + "Z" + ("ZZ" + "a" + "2" + "Z" + ("Ztest" + "a" + "tes2t" + "Z" + ("ZZ" + "a" + "" + "Z" + "")))
  /** `' Zacont4iZnue\n \n\naaaZa3ZZa4ZZtestatestZZZ'` */
  const Chunk6: string := " Z" + "a" + "cont4i" + "Z" + "nue" + "\n" + (" " + "\n" + ("" + "\n" + Tail6))
  const Tail6: string := "" + "a" + "aa" + "Z" + ("" + "a" + "3" + "Z" + ("Z" + "a" + "4" + "Z" + ("Ztest" + "a" + "test" + "Z" + "ZZ")))

  /** The buffer before the first call and after each call. */
  const Buffer0: seq<string> := [""]
  const Buffer1: seq<string> := ["" + ("hi hi 你好 " + "rewq req  ")]
  const Buffer2: seq<string> := [Buffer1[0] + (("fd" + "a" + "s") + ("" + "a" + "aa"))]
  const Buffer3: seq<string> := ["a" + ("s" + ("" + "a" + "aa") + " conti") + "Z", "nue" + " " + ("" + "a" + "aa")]
  const Buffer4: seq<string> := [Buffer3[0], "a" + ("aa" + " cont2i") + "Z",
                                 "a" + "aa" + "Z", "a" + "1" + "Z", "a" + "te1st" + "Z", "ZZ" + "a" + ""]
  const Buffer5: seq<string> := Buffer4[..5] + ["a" + ("" + " cont3i") + "Z",
                                 "a" + "aa" + "Z", "a" + "2" + "Z", "a" + "tes2t" + "Z", "a" + "" + "Z", ""]
  const Buffer6: seq<string> := Buffer5[1..10] + ["a" + "cont4i" + "Z",
                                 "a" + "aa" + "Z", "a" + "3" + "Z", "a" + "4" + "Z", "a" + "test" + "Z", "ZZ"]

  // The pieces of each chunk.

  lemma Parts1() ensures Parts(Chunk1, "\n") == ["hi hi 你好 ", "rewq req  "]
  { PartsFour("hi hi 你好 ", "rewq req  ", ""); }

  lemma Parts2() ensures Parts(Chunk2, "\n") == ["fd" + "a" + "s", "" + "a" + "aa"]
  { PartsFour("fd" + "a" + "s", "", "" + "a" + "aa"); }

  lemma Parts3() ensures Parts(Chunk3, "\n") == [" conti" + "Z" + "nue", " ", "" + "a" + "aa"]
  { PartsFour(" conti" + "Z" + "nue", " ", "" + "a" + "aa"); }

  lemma Parts4() ensures Parts(Chunk4, "\n") == [" cont2i" + "Z" + "nue", " ", Tail4]
  { PartsFour(" cont2i" + "Z" + "nue", " ", Tail4); }

  lemma Parts5() ensures Parts(Chunk5, "\n") == [" cont3i" + "Z" + "nue", " ", Tail5]
  { PartsFour(" cont3i" + "Z" + "nue", " ", Tail5); }

  lemma Parts6() ensures Parts(Chunk6, "\n") == [" Z" + "a" + "cont4i" + "Z" + "nue", " ", Tail6]
  { PartsFour(" Z" + "a" + "cont4i" + "Z" + "nue", " ", Tail6); }

  // Each joined line, regrouped around its first `a` and the `Z` that closes it.

  lemma Joined2Shape() ensures Buffer1[0] + ("fd" + "a" + "s") == Buffer1[0] + "fd" + "a" + "s"
  {}

  lemma Joined3Shape()
    ensures Buffer2[0] + (" conti" + "Z" + "nue")
         == Buffer1[0] + "fd" + "a" + ("s" + ("" + "a" + "aa") + " conti") + "Z" + "nue"
  {}

  lemma Joined4Shape()
    ensures Buffer3[1] + (" cont2i" + "Z" + "nue") == "nue" + " " + "" + "a" + ("aa" + " cont2i") + "Z" + "nue"
  {}

  lemma Joined5Shape()
    ensures Buffer4[5] + (" cont3i" + "Z" + "nue") == "ZZ" + "a" + ("" + " cont3i") + "Z" + "nue"
  {}

  lemma Joined6Shape()
    ensures Buffer5[10] + (" Z" + "a" + "cont4i" + "Z" + "nue") == "" + " Z" + "a" + "cont4i" + "Z" + "nue"
  {}

  // What the processor makes of each piece.

  lemma Processed1()
    ensures Process(Buffer0[0] + "hi hi 你好 ") == Parsed([], Buffer0[0] + "hi hi 你好 ")
  {
    ProcessNoA(Buffer0[0] + "hi hi 你好 ");
  }

  lemma ProcessedWords()
    ensures Process("rewq req  ") == Parsed([], "rewq req  ")
  {
    ProcessNoA("rewq req  ");
  }

  lemma ProcessedSpace()
    ensures Process(" ") == Parsed([], " ")
  {
    ProcessNoA(" ");
  }

  lemma ProcessedAaa()
    ensures Process("" + "a" + "aa") == Parsed([], "" + "a" + "aa")
  {
    ProcessNoZ("", "aa");
  }

  lemma Processed2()
    ensures Process(Buffer1[0] + ("fd" + "a" + "s")) == Parsed([], Buffer1[0] + ("fd" + "a" + "s"))
  {
    Joined2Shape();
    ProcessNoZ(Buffer1[0] + "fd", "s");
  }

  lemma Processed3()
    ensures Process(Buffer2[0] + (" conti" + "Z" + "nue")) == Parsed([Buffer3[0]], "nue")
  {
    Joined3Shape();
    ProcessOneQuiet(Buffer1[0] + "fd", "s" + ("" + "a" + "aa") + " conti", "nue");
  }

  lemma Processed4()
    ensures Process(Buffer3[1] + (" cont2i" + "Z" + "nue")) == Parsed(["a" + ("aa" + " cont2i") + "Z"], "nue")
  {
    Joined4Shape();
    ProcessOneQuiet("nue" + " " + "", "aa" + " cont2i", "nue");
  }

  lemma ProcessedTail4()
    ensures Process(Tail4) == Parsed(["a" + "aa" + "Z", "a" + "1" + "Z", "a" + "te1st" + "Z"], "ZZ" + "a" + "")
  {
    ProcessThreeOpen("", "aa", "ZZ", "1", "Ztest", "te1st", "ZZ", "");
  }

  lemma Processed5()
    ensures Process(Buffer4[5] + (" cont3i" + "Z" + "nue")) == Parsed(["a" + ("" + " cont3i") + "Z"], "nue")
  {
    Joined5Shape();
    ProcessOneQuiet("ZZ", "" + " cont3i", "nue");
  }

  lemma ProcessedTail5()
    ensures Process(Tail5) == Parsed(["a" + "aa" + "Z", "a" + "2" + "Z", "a" + "tes2t" + "Z", "a" + "" + "Z"], "")
  {
    ProcessFourQuiet("", "aa", "ZZ", "2", "Ztest", "tes2t", "ZZ", "", "");
  }

  lemma Processed6()
    ensures Process(Buffer5[10] + (" Z" + "a" + "cont4i" + "Z" + "nue")) == Parsed(["a" + "cont4i" + "Z"], "nue")
  {
    Joined6Shape();
    ProcessOneQuiet("" + " Z", "cont4i", "nue");
  }

  lemma ProcessedTail6()
    ensures Process(Tail6) == Parsed(["a" + "aa" + "Z", "a" + "3" + "Z", "a" + "4" + "Z", "a" + "test" + "Z"], "ZZ")
  {
    ProcessFourQuiet("", "aa", "", "3", "Z", "4", "Ztest", "test", "ZZ");
  }

  // The buffer each of the last three calls leaves behind, before trimming.

  lemma Fed4()
    ensures Trim(Buffer3[..1] + ["a" + ("aa" + " cont2i") + "Z"]
      + ["a" + "aa" + "Z", "a" + "1" + "Z", "a" + "te1st" + "Z"] + ["ZZ" + "a" + ""]) == Buffer4
  {}

  lemma Fed5()
    ensures Trim(Buffer4[..5] + ["a" + ("" + " cont3i") + "Z"]
      + ["a" + "aa" + "Z", "a" + "2" + "Z", "a" + "tes2t" + "Z", "a" + "" + "Z"] + [""]) == Buffer5
  {}

  lemma Fed6()
    ensures Trim(Buffer5[..10] + ["a" + "cont4i" + "Z"]
      + ["a" + "aa" + "Z", "a" + "3" + "Z", "a" + "4" + "Z", "a" + "test" + "Z"] + ["ZZ"]) == Buffer6
  {
    var fed := Buffer5[..10] + ["a" + "cont4i" + "Z"]
      + ["a" + "aa" + "Z", "a" + "3" + "Z", "a" + "4" + "Z", "a" + "test" + "Z"] + ["ZZ"];
    assert |fed| == 16;
    assert fed[1..] == Buffer6;
  }

  // ---------------------------------------------------------------------------
  // The six calls of `testUnicode`
  // ---------------------------------------------------------------------------

  /** First call: nothing to match; both pieces end up in the one buffered line. */
  lemma Call1()
    ensures Parts(Chunk1, "\n") == ["hi hi 你好 ", "rewq req  "]
    ensures Trim(Feed(Buffer0, Parts(Chunk1, "\n"), Process)) == Buffer1
  {
    Parts1();
    Processed1();
    ProcessedWords();
    QuietPair(Buffer0, Chunk1, "hi hi 你好 ", "rewq req  ", Process);
  }

  /** The number of lines the first call adds to `lineNum`. */
  lemma Count1()
    ensures Parts(Chunk1, "\n") == ["hi hi 你好 ", "rewq req  "]
    ensures Appended(Buffer0, Parts(Chunk1, "\n"), Process) == 0
  {
    Parts1();
    Processed1();
    ProcessedWords();
    QuietPair(Buffer0, Chunk1, "hi hi 你好 ", "rewq req  ", Process);
  }

  /** Second call: `fdas` has an `a` but no `Z` follows; still nothing to match. */
  lemma Call2()
    ensures Parts(Chunk2, "\n") == ["fd" + "a" + "s", "" + "a" + "aa"]
    ensures Trim(Feed(Buffer1, Parts(Chunk2, "\n"), Process)) == Buffer2
  {
    Parts2();
    Processed2();
    ProcessedAaa();
    QuietPair(Buffer1, Chunk2, "fd" + "a" + "s", "" + "a" + "aa", Process);
  }

  /** The number of lines the second call adds to `lineNum`. */
  lemma Count2()
    ensures Parts(Chunk2, "\n") == ["fd" + "a" + "s", "" + "a" + "aa"]
    ensures Appended(Buffer1, Parts(Chunk2, "\n"), Process) == 0
  {
    Parts2();
    Processed2();
    ProcessedAaa();
    QuietPair(Buffer1, Chunk2, "fd" + "a" + "s", "" + "a" + "aa", Process);
  }

  /** Third call: the joined line closes the first record; the other pieces extend its rest. */
  lemma Call3()
    ensures Parts(Chunk3, "\n") == [" conti" + "Z" + "nue", " ", "" + "a" + "aa"]
    ensures Trim(Feed(Buffer2, Parts(Chunk3, "\n"), Process)) == Buffer3
  {
    Parts3();
    Processed3();
    ProcessedSpace();
    ProcessedAaa();
    OneThenQuiet(Buffer2, Chunk3, " conti" + "Z" + "nue", " ", "" + "a" + "aa", Process, Buffer3[0], "nue");
  }

  /** The number of lines the third call adds to `lineNum`. */
  lemma Count3()
    ensures Parts(Chunk3, "\n") == [" conti" + "Z" + "nue", " ", "" + "a" + "aa"]
    ensures Appended(Buffer2, Parts(Chunk3, "\n"), Process) == 1
  {
    Parts3();
    Processed3();
    ProcessedSpace();
    ProcessedAaa();
    OneThenQuiet(Buffer2, Chunk3, " conti" + "Z" + "nue", " ", "" + "a" + "aa", Process, Buffer3[0], "nue");
  }

  /** Fourth call: records in the joined line and in the last piece; the lone space goes with the replaced line. */
  lemma Call4()
    ensures Parts(Chunk4, "\n") == [" cont2i" + "Z" + "nue", " ", Tail4]
    ensures Trim(Feed(Buffer3, Parts(Chunk4, "\n"), Process)) == Buffer4
  {
    Parts4();
    Fed4();
    Processed4();
    ProcessedTail4();
    ProcessedSpace();
    RecordsAroundQuiet(Buffer3, Chunk4, " cont2i" + "Z" + "nue", " ", Tail4, Process,
                       ["a" + ("aa" + " cont2i") + "Z"], "nue",
                       ["a" + "aa" + "Z", "a" + "1" + "Z", "a" + "te1st" + "Z"], "ZZ" + "a" + "");
  }

  /** The number of lines the fourth call adds to `lineNum`. */
  lemma Count4()
    ensures Parts(Chunk4, "\n") == [" cont2i" + "Z" + "nue", " ", Tail4]
    ensures Appended(Buffer3, Parts(Chunk4, "\n"), Process) == 4
  {
    Parts4();
    Processed4();
    ProcessedTail4();
    ProcessedSpace();
    RecordsAroundQuiet(Buffer3, Chunk4, " cont2i" + "Z" + "nue", " ", Tail4, Process,
                       ["a" + ("aa" + " cont2i") + "Z"], "nue",
                       ["a" + "aa" + "Z", "a" + "1" + "Z", "a" + "te1st" + "Z"], "ZZ" + "a" + "");
  }

  /** Fifth call: the rest `ZZa` left by the fourth call opens the next record. */
  lemma Call5()
    ensures Parts(Chunk5, "\n") == [" cont3i" + "Z" + "nue", " ", Tail5]
    ensures Trim(Feed(Buffer4, Parts(Chunk5, "\n"), Process)) == Buffer5
  {
    Parts5();
    Fed5();
    Processed5();
    ProcessedTail5();
    ProcessedSpace();
    RecordsAroundQuiet(Buffer4, Chunk5, " cont3i" + "Z" + "nue", " ", Tail5, Process,
                       ["a" + ("" + " cont3i") + "Z"], "nue",
                       ["a" + "aa" + "Z", "a" + "2" + "Z", "a" + "tes2t" + "Z", "a" + "" + "Z"], "");
  }

  /** The number of lines the fifth call adds to `lineNum`. */
  lemma Count5()
    ensures Parts(Chunk5, "\n") == [" cont3i" + "Z" + "nue", " ", Tail5]
    ensures Appended(Buffer4, Parts(Chunk5, "\n"), Process) == 5
  {
    Parts5();
    Processed5();
    ProcessedTail5();
    ProcessedSpace();
    RecordsAroundQuiet(Buffer4, Chunk5, " cont3i" + "Z" + "nue", " ", Tail5, Process,
                       ["a" + ("" + " cont3i") + "Z"], "nue",
                       ["a" + "aa" + "Z", "a" + "2" + "Z", "a" + "tes2t" + "Z", "a" + "" + "Z"], "");
  }

  /** Sixth call: the buffer grows to sixteen lines and its oldest line is dropped. */
  lemma Call6()
    ensures Parts(Chunk6, "\n") == [" Z" + "a" + "cont4i" + "Z" + "nue", " ", Tail6]
    ensures Trim(Feed(Buffer5, Parts(Chunk6, "\n"), Process)) == Buffer6
  {
    Parts6();
    Fed6();
    Processed6();
    ProcessedTail6();
    ProcessedSpace();
    RecordsAroundQuiet(Buffer5, Chunk6, " Z" + "a" + "cont4i" + "Z" + "nue", " ", Tail6, Process,
                       ["a" + "cont4i" + "Z"], "nue",
                       ["a" + "aa" + "Z", "a" + "3" + "Z", "a" + "4" + "Z", "a" + "test" + "Z"], "ZZ");
  }

  /** The number of lines the sixth call adds to `lineNum`. */
  lemma Count6()
    ensures Parts(Chunk6, "\n") == [" Z" + "a" + "cont4i" + "Z" + "nue", " ", Tail6]
    ensures Appended(Buffer5, Parts(Chunk6, "\n"), Process) == 5
  {
    Parts6();
    Processed6();
    ProcessedTail6();
    ProcessedSpace();
    RecordsAroundQuiet(Buffer5, Chunk6, " Z" + "a" + "cont4i" + "Z" + "nue", " ", Tail6, Process,
                       ["a" + "cont4i" + "Z"], "nue",
                       ["a" + "aa" + "Z", "a" + "3" + "Z", "a" + "4" + "Z", "a" + "test" + "Z"], "ZZ");
  }

  /** The values `testUnicode` checks, letter by letter. */
  lemma Checked()
    ensures Last(Buffer3) == "nue aaa"
    ensures Last(Buffer4) == "ZZa"
    ensures Buffer5[5] == "a cont3iZ" && Last(Buffer5) == ""
    ensures Buffer6[10] == "aaaZ" && Buffer6[10] != "acont4iZ"
    ensures Last(Buffer6) == "ZZ" && |Buffer6| == 15
  {
  }

  /**
    `testUnicode` on a fresh buffer, with the test's own checks: the rest of
    the third chunk, the rest `ZZa` of the fourth, the record that replaces it
    in the fifth, and the sixth call pushing the oldest line out.
   */
  method TestUnicode() returns (buffer: LineBuffer)
    ensures buffer.lines == Buffer6 && buffer.lineNum == 15
  {
    buffer := new LineBuffer();
    Checked();
    Step(buffer, 1);
    Step(buffer, 2);
    Step(buffer, 3);
    assert Last(buffer.lines) == "nue aaa";
    Step(buffer, 4);
    assert Last(buffer.lines) == "ZZa";
    var ind := |buffer.lines| - 1;
    Step(buffer, 5);
    assert buffer.lines[ind] == "a cont3iZ";
    assert Last(buffer.lines) == "";
    ind := |buffer.lines| - 1;
    Step(buffer, 6);
    assert buffer.lines[ind] != "acont4iZ" && buffer.lines[ind] == "aaaZ";
    assert Last(buffer.lines) == "ZZ" && |buffer.lines| == 15;
  }

  /** The chunk of the `n`-th call, the buffer after it and the lines it adds to `lineNum`. */
  function Chunks(n: nat): string
    requires 1 <= n <= 6
  {
    match n
    case 1 => Chunk1
    case 2 => Chunk2
    case 3 => Chunk3
    case 4 => Chunk4
    case 5 => Chunk5
    case _ => Chunk6
  }

  function Buffers(n: nat): seq<string>
    requires n <= 6
  {
    match n
    case 0 => Buffer0
    case 1 => Buffer1
    case 2 => Buffer2
    case 3 => Buffer3
    case 4 => Buffer4
    case 5 => Buffer5
    case _ => Buffer6
  }

  function Added(n: nat): nat
    requires 1 <= n <= 6
  {
    match n
    case 1 => 0
    case 2 => 0
    case 3 => 1
    case 4 => 4
    case 5 => 5
    case _ => 5
  }

  /** The `n`-th `splitReturn(line, self.process, sp='\n')` of the test. */
  method Step(buffer: LineBuffer, n: nat)
    requires 1 <= n <= 6 && buffer.Valid() && buffer.lines == Buffers(n - 1)
    modifies buffer
    ensures buffer.Valid() && buffer.lines == Buffers(n) && buffer.lineNum == old(buffer.lineNum) + Added(n)
  {
    if n == 1 {
      Call1();
      Count1();
    } else if n == 2 {
      Call2();
      Count2();
    } else if n == 3 {
      Call3();
      Count3();
    } else if n == 4 {
      Call4();
      Count4();
    } else if n == 5 {
      Call5();
      Count5();
    } else {
      Call6();
      Count6();
    }
    var ok := buffer.SplitReturn(Chunks(n), Process, "\n");
  }
}
