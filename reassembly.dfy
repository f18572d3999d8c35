/**
  `splitReturn`: reassembly of a serial stream that arrives in arbitrary
  chunks into records. The module keeps a buffer of at most fifteen lines
  whose last entry may be an incomplete line, and a count of the records seen.
  Each chunk is cut at a separator; the first piece continues the last buffered
  line, the others are processed on their own; whatever a processor recognises
  as records replaces the last buffered entry, followed by the unmatched rest.
 */
module Reassembly {
  import opened Strings
  import opened Patterns

  /** The separator `splitReturn` cuts a chunk at unless told otherwise. */
  const DefaultSeparator: string := "\r\r\r\r\n\n\n\n"

  /** How many lines the buffer keeps; older ones are dropped first. */
  const MaxLines: nat := 15

  /** `processor(text)` returns the records found in `text` and the text left after them. */
  type Processor = string -> Parsed

  /** A processor that leaves a text without records untouched, as `parseLine` does. */
  ghost predicate Conservative(processor: Processor)
  {
    forall t :: processor(t).records == [] ==> processor(t).rest == t
  }

  /** `parseLine` with the terminal's patterns, as a processor. */
  function ParseLineProcessor(register: RegisterSearcher): Processor
  {
    t => ParseLineSpec(Terminal(register), t)
  }

  lemma ParseLineConservative(p: PatternSet)
    ensures Conservative(t => ParseLineSpec(p, t))
  {
  }

  // ---------------------------------------------------------------------------
  // What one call does to the buffer
  // ---------------------------------------------------------------------------

  /** `linebuff.pop(); linebuff += lines; linebuff.append(rest)`. */
  function Emit(buf: seq<string>, r: Parsed): (res: seq<string>)
    requires buf != []
    ensures |res| == |buf| + |r.records|
    ensures res[..|buf| - 1] == buf[..|buf| - 1]
    ensures res[|buf| - 1..] == r.records + [r.rest]
  {
    buf[..|buf| - 1] + r.records + [r.rest]
  }

  /** The last buffered line with `text` appended to it. */
  function Extend(buf: seq<string>, text: string): (res: seq<string>)
    requires buf != []
    ensures |res| == |buf| && res[..|buf| - 1] == buf[..|buf| - 1]
    ensures Last(res) == Last(buf) + text
  {
    buf[..|buf| - 1] + [Last(buf) + text]
  }

  /** The first piece continues the last line, and the joined line is processed. */
  function HeadStep(buf: seq<string>, head: string, processor: Processor): (res: seq<string>)
    requires buf != []
    ensures res != []
  {
    var joined := Last(buf) + head;
    var r := processor(joined);
    if r.records != [] then Emit(buf, r) else Extend(buf, head)
  }

  /** A later piece is processed on its own; without records, its rest is appended to the last line. */
  function PartStep(buf: seq<string>, part: string, processor: Processor): (res: seq<string>)
    requires buf != []
    ensures res != []
  {
    var r := processor(part);
    if r.records != [] then Emit(buf, r) else Extend(buf, r.rest)
  }

  /** The later pieces, one after the other. */
  function FeedParts(buf: seq<string>, parts: seq<string>, processor: Processor): (res: seq<string>)
    requires buf != []
    decreases |parts|
    ensures res != []
  {
    if parts == [] then buf
    else PartStep(FeedParts(buf, parts[..|parts| - 1], processor), Last(parts), processor)
  }

  /** The buffer after all pieces of one chunk, before old lines are dropped. */
  function Feed(buf: seq<string>, parts: seq<string>, processor: Processor): (res: seq<string>)
    requires buf != [] && parts != []
    ensures res != []
  {
    FeedParts(HeadStep(buf, parts[0], processor), parts[1..], processor)
  }

  /** Records found in the later pieces. */
  function CountParts(parts: seq<string>, processor: Processor): nat
  {
    if parts == [] then 0
    else CountParts(parts[..|parts| - 1], processor) + |processor(Last(parts)).records|
  }

  /** `apped`: the records one chunk adds to `lineNum`. */
  function Appended(buf: seq<string>, parts: seq<string>, processor: Processor): nat
    requires buf != [] && parts != []
  {
    |processor(Last(buf) + parts[0]).records| + CountParts(parts[1..], processor)
  }

  /** `while len(linebuff) > 15: linebuff.popleft()`. */
  function Trim(buf: seq<string>): (res: seq<string>)
    ensures |res| == if |buf| > MaxLines then MaxLines else |buf|
    ensures res == buf[|buf| - |res|..]
  {
    if |buf| > MaxLines then buf[|buf| - MaxLines..] else buf
  }

  // ---------------------------------------------------------------------------
  // Properties of one call
  // ---------------------------------------------------------------------------

  /** Every record found adds one entry to the buffer, before old lines are dropped. */
  lemma {:induction false} FeedPartsLength(buf: seq<string>, parts: seq<string>, processor: Processor)
    requires buf != []
    ensures |FeedParts(buf, parts, processor)| == |buf| + CountParts(parts, processor)
    decreases |parts|
  {
    if parts != [] {
      FeedPartsLength(buf, parts[..|parts| - 1], processor);
    }
  }

  lemma FeedLength(buf: seq<string>, parts: seq<string>, processor: Processor)
    requires buf != [] && parts != []
    ensures |Feed(buf, parts, processor)| == |buf| + Appended(buf, parts, processor)
  {
    FeedPartsLength(HeadStep(buf, parts[0], processor), parts[1..], processor);
  }

  /** The lines before the last one are never rewritten by the later pieces, only appended to. */
  lemma {:induction false} FeedPartsKeepsOlder(buf: seq<string>, parts: seq<string>, processor: Processor)
    requires buf != []
    ensures |FeedParts(buf, parts, processor)| >= |buf|
    ensures FeedParts(buf, parts, processor)[..|buf| - 1] == buf[..|buf| - 1]
    decreases |parts|
  {
    if parts != [] {
      var before := FeedParts(buf, parts[..|parts| - 1], processor);
      FeedPartsKeepsOlder(buf, parts[..|parts| - 1], processor);
      var after := PartStep(before, Last(parts), processor);
      assert after[..|before| - 1] == before[..|before| - 1];
      OlderKept(after, before, buf);
    }
  }

  /** Keeping the older lines twice over keeps the older lines of the first buffer. */
  lemma OlderKept(x: seq<string>, y: seq<string>, z: seq<string>)
    requires 1 <= |z| <= |y| <= |x|
    requires x[..|y| - 1] == y[..|y| - 1] && y[..|z| - 1] == z[..|z| - 1]
    ensures x[..|z| - 1] == z[..|z| - 1]
  {
    assert x[..|z| - 1] == x[..|y| - 1][..|z| - 1];
    assert y[..|z| - 1] == y[..|y| - 1][..|z| - 1];
  }

  /** One chunk only ever changes the last buffered line and appends after it. */
  lemma FeedKeepsOlder(buf: seq<string>, parts: seq<string>, processor: Processor)
    requires buf != [] && parts != []
    ensures |Feed(buf, parts, processor)| >= |buf|
    ensures Feed(buf, parts, processor)[..|buf| - 1] == buf[..|buf| - 1]
  {
    var h := HeadStep(buf, parts[0], processor);
    assert |h| >= |buf| && h[..|buf| - 1] == buf[..|buf| - 1];
    FeedPartsKeepsOlder(h, parts[1..], processor);
    OlderKept(Feed(buf, parts, processor), h, buf);
  }

  /** Appending to the last line twice is appending both texts at once. */
  lemma ExtendTwice(buf: seq<string>, a: string, b: string)
    requires buf != []
    ensures Extend(Extend(buf, a), b) == Extend(buf, a + b)
  {
    AppendAssoc(Last(buf), a, b);
  }

  /** Without records, a conservative processor gives the piece itself as the rest. */
  lemma QuietStep(buf: seq<string>, part: string, processor: Processor)
    requires buf != [] && Conservative(processor)
    requires processor(part).records == []
    ensures PartStep(buf, part, processor) == Extend(buf, part)
  {
  }

  /** Pieces in which no record is found all end up in the last line, in order. */
  lemma {:induction false} QuietPartsConcatenate(buf: seq<string>, parts: seq<string>, processor: Processor)
    requires buf != [] && Conservative(processor)
    requires forall i :: 0 <= i < |parts| ==> processor(parts[i]).records == []
    ensures FeedParts(buf, parts, processor) == Extend(buf, Concat(parts))
    ensures CountParts(parts, processor) == 0
    decreases |parts|
  {
    if parts == [] {
      AppendNil(Last(buf));
      assert Extend(buf, "") == buf;
    } else {
      var init := parts[..|parts| - 1];
      var x := Last(parts);
      QuietPartsConcatenate(buf, init, processor);
      assert processor(parts[|parts| - 1]).records == [];
      QuietStep(Extend(buf, Concat(init)), x, processor);
      ExtendTwice(buf, Concat(init), x);
    }
  }

  /**
    A chunk in which no record is found leaves the buffer as long as it was
    and appends the chunk, without its separators, to the last line.
   */
  lemma QuietChunk(buf: seq<string>, parts: seq<string>, processor: Processor)
    requires buf != [] && parts != [] && Conservative(processor)
    requires processor(Last(buf) + parts[0]).records == []
    requires forall i :: 1 <= i < |parts| ==> processor(parts[i]).records == []
    ensures Feed(buf, parts, processor) == Extend(buf, Concat(parts))
    ensures Appended(buf, parts, processor) == 0
  {
    QuietTail(parts, processor);
    QuietHeadTail(buf, parts[0], parts[1..], processor);
    assert parts == [parts[0]] + parts[1..];
    ConcatCons(parts[0], parts[1..]);
  }

  /** `QuietChunk` for a chunk cut into its first piece and the others. */
  lemma QuietHeadTail(buf: seq<string>, head: string, tail: seq<string>, processor: Processor)
    requires buf != [] && Conservative(processor)
    requires processor(Last(buf) + head).records == []
    requires forall i :: 0 <= i < |tail| ==> processor(tail[i]).records == []
    ensures FeedParts(HeadStep(buf, head, processor), tail, processor) == Extend(buf, head + Concat(tail))
    ensures CountParts(tail, processor) == 0
  {
    var h := Extend(buf, head);
    assert HeadStep(buf, head, processor) == h;
    QuietPartsConcatenate(h, tail, processor);
    ExtendTwice(buf, head, Concat(tail));
  }

  lemma QuietTail(parts: seq<string>, processor: Processor)
    requires parts != []
    requires forall i :: 1 <= i < |parts| ==> processor(parts[i]).records == []
    ensures forall i :: 0 <= i < |parts[1..]| ==> processor(parts[1..][i]).records == []
  {
    forall i | 0 <= i < |parts[1..]|
      ensures processor(parts[1..][i]).records == []
    {
      assert parts[1..][i] == parts[i + 1];
    }
  }

  /**
    When only the joined first piece holds records: its entry is replaced by
    the records and the rest, and the later pieces are appended to that rest.
   */
  lemma RecordsThenQuiet(buf: seq<string>, parts: seq<string>, processor: Processor)
    requires buf != [] && parts != [] && Conservative(processor)
    requires processor(Last(buf) + parts[0]).records != []
    requires forall i :: 1 <= i < |parts| ==> processor(parts[i]).records == []
    ensures var r := processor(Last(buf) + parts[0]);
      Feed(buf, parts, processor) == buf[..|buf| - 1] + r.records + [r.rest + Concat(parts[1..])]
    ensures Appended(buf, parts, processor) == |processor(Last(buf) + parts[0]).records|
  {
    var r := processor(Last(buf) + parts[0]);
    var e := Emit(buf, r);
    var tail := parts[1..];
    assert HeadStep(buf, parts[0], processor) == e;
    assert forall i :: 0 <= i < |tail| ==> processor(tail[i]).records == [] by {
      forall i | 0 <= i < |tail|
        ensures processor(tail[i]).records == []
      {
        assert tail[i] == parts[i + 1];
      }
    }
    QuietPartsConcatenate(e, tail, processor);
    assert e[..|e| - 1] == buf[..|buf| - 1] + r.records;
  }

  /**
    When the joined first piece holds records, its entry is replaced by those
    records and the rest, and the later pieces continue from that rest.
   */
  lemma HeadRecords(buf: seq<string>, parts: seq<string>, processor: Processor)
    requires buf != [] && parts != []
    requires processor(Last(buf) + parts[0]).records != []
    ensures var r := processor(Last(buf) + parts[0]);
      |Feed(buf, parts, processor)| >= |buf| + |r.records| &&
      Feed(buf, parts, processor)[..|buf| - 1 + |r.records|] == buf[..|buf| - 1] + r.records
  {
    var r := processor(Last(buf) + parts[0]);
    var h := HeadStep(buf, parts[0], processor);
    assert h == buf[..|buf| - 1] + r.records + [r.rest];
    FeedPartsKeepsOlder(h, parts[1..], processor);
    assert h[..|h| - 1] == buf[..|buf| - 1] + r.records;
  }

  /** A chunk of three pieces, step by step. */
  lemma FeedThree(buf: seq<string>, a: string, b: string, c: string, processor: Processor)
    requires buf != []
    ensures Feed(buf, [a, b, c], processor)
      == PartStep(PartStep(HeadStep(buf, a, processor), b, processor), c, processor)
    ensures Appended(buf, [a, b, c], processor)
      == |processor(Last(buf) + a).records| + |processor(b).records| + |processor(c).records|
  {
    var h := HeadStep(buf, a, processor);
    assert [a, b, c][1..] == [b, c];
    assert [b, c][..1] == [b] && Last([b, c]) == c;
    assert [b][..0] == [] && Last([b]) == b;
    assert FeedParts(h, [b], processor) == PartStep(h, b, processor);
    assert FeedParts(h, [b, c], processor) == PartStep(PartStep(h, b, processor), c, processor);
    assert CountParts([b], processor) == |processor(b).records|;
  }

  /** One more later piece. */
  lemma FeedPartsSnoc(buf: seq<string>, parts: seq<string>, p: nat, processor: Processor)
    requires buf != [] && p < |parts|
    ensures FeedParts(buf, parts[..p + 1], processor) == PartStep(FeedParts(buf, parts[..p], processor), parts[p], processor)
    ensures CountParts(parts[..p + 1], processor) == CountParts(parts[..p], processor) + |processor(parts[p]).records|
  {
    assert parts[..p + 1][..p] == parts[..p];
  }

  // ---------------------------------------------------------------------------
  // The buffer
  // ---------------------------------------------------------------------------

  /** `linebuff` and `lineNum`. */
  class LineBuffer {
    var lines: seq<string>
    var lineNum: nat

    /** The buffer always holds a (possibly empty, possibly incomplete) last line and at most fifteen lines. */
    ghost predicate Valid()
      reads this
    {
      1 <= |lines| <= MaxLines
    }

    /** `lineNum = 0; linebuff = deque(['',])`. */
    constructor ()
      ensures Valid()
      ensures lines == [""] && lineNum == 0
    {
      lines := [""];
      lineNum := 0;
    }

    /** `while len(linebuff) > 15: linebuff.popleft()`. */
    method DropOldest()
      requires lines != []
      modifies this
      ensures lines == Trim(old(lines)) && lineNum == old(lineNum)
    {
      while |lines| > MaxLines
        invariant 1 <= |lines| && lines == old(lines)[|old(lines)| - |lines|..]
        invariant |old(lines)| > MaxLines ==> |lines| >= MaxLines
        invariant |old(lines)| <= MaxLines ==> lines == old(lines)
        invariant lineNum == old(lineNum)
        decreases |lines|
      {
        lines := lines[1..];
      }
    }

    /**
      `splitReturn(line, processor, sp)`. `ok` is false where Python raises:
      ValueError for an empty separator, IndexError when the chunk holds
      nothing but separators; the buffer is then untouched.
     */
    method SplitReturn(line: string, processor: Processor, sp: string) returns (ok: bool)
      requires Valid()
      modifies this
      ensures Valid()
      ensures ok <==> sp != "" && Parts(line, sp) != []
      ensures !ok ==> lines == old(lines) && lineNum == old(lineNum)
      ensures ok ==> lines == Trim(Feed(old(lines), Parts(line, sp), processor))
      ensures ok ==> lineNum == old(lineNum) + Appended(old(lines), Parts(line, sp), processor)
    {
      if sp == "" {
        return false;
      }
      var parts := Parts(line, sp);
      if parts == [] {
        return false;
      }
      var head, restParts := parts[0], parts[1..];
      lines := lines[..|lines| - 1] + [Last(lines) + head];
      var r := processor(Last(lines));
      if r.records != [] {
        lines := lines[..|lines| - 1] + r.records + [r.rest];
      }
      assert lines == HeadStep(old(lines), head, processor);
      var apped := |r.records|;
      for p := 0 to |restParts|
        invariant lines == FeedParts(HeadStep(old(lines), head, processor), restParts[..p], processor)
        invariant apped == |r.records| + CountParts(restParts[..p], processor)
        invariant lineNum == old(lineNum)
      {
        FeedPartsSnoc(HeadStep(old(lines), head, processor), restParts, p, processor);
        var res := processor(restParts[p]);
        if res.records != [] {
          lines := lines[..|lines| - 1] + res.records + [res.rest];
        } else {
          lines := lines[..|lines| - 1] + [Last(lines) + res.rest];
        }
        apped := apped + |res.records|;
      }
      assert restParts[..|restParts|] == restParts;
      assert lines == Feed(old(lines), parts, processor);
      assert apped == Appended(old(lines), parts, processor);
      DropOldest();
      lineNum := lineNum + apped;
      ok := true;
    }

    /** `splitReturn(line)`: the default processor and the default separator. */
    method SplitReturnDefault(line: string, register: RegisterSearcher) returns (ok: bool)
      requires Valid()
      modifies this
      ensures Valid()
      ensures ok <==> Parts(line, DefaultSeparator) != []
      ensures !ok ==> lines == old(lines) && lineNum == old(lineNum)
      ensures ok ==> lines == Trim(Feed(old(lines), Parts(line, DefaultSeparator), ParseLineProcessor(register)))
      ensures ok ==> lineNum == old(lineNum) + Appended(old(lines), Parts(line, DefaultSeparator), ParseLineProcessor(register))
    {
      ok := SplitReturn(line, ParseLineProcessor(register), DefaultSeparator);
    }
  }
}
