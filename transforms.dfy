/**
  The text transformations of the terminal (`Transform` and its subclasses in
  COMspeedTest.py) and the transformation chain that `MiniSerial` builds from
  its end-of-line and filter configuration.
 */
module Transforms {
  import opened Strings

  /** The fixed set of transformation classes, as a tagged variant. */
  datatype Transform = Direct | SingleLR | CRLF | CR | LF | Printable | DebugIO

  // ---------------------------------------------------------------------------
  // Character replacement (`str.replace` with one-character arguments)
  // ---------------------------------------------------------------------------

  /** `text.replace(from, to)` for one-character `from` and `to`. */
  function MapChar(text: string, from: char, to: char): (r: string)
    ensures |r| == |text|
    ensures forall k :: 0 <= k < |r| ==> r[k] == if text[k] == from then to else text[k]
  {
    if text == [] then "" else [if text[0] == from then to else text[0]] + MapChar(text[1..], from, to)
  }

  /** `text.replace('\n', '\r\n')`. */
  function ExpandLF(text: string): string
  {
    if text == [] then ""
    else if text[0] == '\n' then "\r\n" + ExpandLF(text[1..])
    else [text[0]] + ExpandLF(text[1..])
  }

  lemma {:induction false} ExpandLFAppend(a: string, b: string)
    ensures ExpandLF(a + b) == ExpandLF(a) + ExpandLF(b)
  {
    if a == [] {
      assert a + b == b;
    } else {
      assert (a + b)[0] == a[0] && (a + b)[1..] == a[1..] + b;
      ExpandLFAppend(a[1..], b);
    }
  }

  lemma {:induction false} ExpandLFNoLF(text: string)
    requires '\n' !in text
    ensures ExpandLF(text) == text
  {
    if text != [] {
      assert '\n' !in text[1..] by {
        forall c | c in text[1..]
          ensures c in text
        {
        }
      }
      ExpandLFNoLF(text[1..]);
    }
  }

  /** No line feed starts before the first one `IndexOf` finds. */
  lemma NoLFBefore(text: string, i: nat)
    requires i <= |text|
    requires forall j :: 0 <= j < i ==> !OccursAt(text, "\n", j)
    ensures '\n' !in text[..i]
  {
    forall j | 0 <= j < i
      ensures text[..i][j] != '\n'
    {
      assert !OccursAt(text, "\n", j);
      assert text[j..j + 1] == [text[j]];
    }
  }

  lemma ExpandLFAtFirstLF(head: string, tail: string)
    requires '\n' !in head
    ensures ExpandLF(head + "\n" + tail) == head + "\r\n" + ExpandLF(tail)
  {
    ExpandLFNoLF(head);
    ExpandLFAppend(head, "\n" + tail);
    assert head + "\n" + tail == head + ("\n" + tail);
  }

  /**
    CRLF is `str.replace` as Python defines it: the text cut at every line
    feed and joined back with a carriage return and a line feed.
   */
  lemma {:induction false} ExpandLFIsReplace(text: string)
    ensures ExpandLF(text) == Join(Split(text, "\n"), "\r\n")
    decreases |text|
  {
    match IndexOf(text, "\n", 0)
    case None =>
      NoLFBefore(text, |text|);
      assert text[..|text|] == text;
      ExpandLFNoLF(text);
    case Some(i) =>
      var head, tail := text[..i], text[i + 1..];
      NoLFBefore(text, i);
      assert text == head + "\n" + tail by {
        assert text[i..i + 1] == "\n";
      }
      ExpandLFIsReplace(tail);
      ExpandLFAtFirstLF(head, tail);
      JoinCons(head, Split(tail, "\n"), "\r\n");
  }

  /** CRLF only inserts carriage returns: everything else is kept, in order. */
  lemma {:induction false} ExpandLFOnlyAddsCR(text: string)
    ensures Strip(ExpandLF(text), '\r') == Strip(text, '\r')
  {
    if text != [] {
      ExpandLFOnlyAddsCR(text[1..]);
      if text[0] == '\n' {
        assert ExpandLF(text) == ['\r'] + (['\n'] + ExpandLF(text[1..]));
        assert (['\n'] + ExpandLF(text[1..]))[1..] == ExpandLF(text[1..]);
      } else {
        assert ExpandLF(text)[1..] == ExpandLF(text[1..]);
      }
    }
  }

  /** After CRLF every line feed is preceded by a carriage return. */
  lemma {:induction false} ExpandLFPairsLF(text: string)
    ensures forall k :: 0 <= k < |ExpandLF(text)| && ExpandLF(text)[k] == '\n' ==> 0 < k && ExpandLF(text)[k - 1] == '\r'
  {
    if text != [] {
      ExpandLFPairsLF(text[1..]);
      var e := ExpandLF(text[1..]);
      if text[0] == '\n' {
        assert ExpandLF(text) == "\r\n" + e;
      } else {
        assert ExpandLF(text) == [text[0]] + e;
      }
    }
  }

  /** The CR transform round-trips text that holds no carriage return. */
  lemma CRRoundTrip(text: string)
    requires '\r' !in text
    ensures MapChar(MapChar(text, '\n', '\r'), '\r', '\n') == text
  {
    var r := MapChar(MapChar(text, '\n', '\r'), '\r', '\n');
    assert forall k :: 0 <= k < |text| ==> r[k] == text[k];
  }

  // ---------------------------------------------------------------------------
  // SingleLR: collapse runs of line breaks
  // ---------------------------------------------------------------------------

  /** `re.subn('\n\n+', '\n', text)`: each run of two or more LFs becomes one LF. */
  function CollapseLF(text: string): string
  {
    if text == [] then ""
    else if |text| >= 2 && text[0] == '\n' && text[1] == '\n' then CollapseLF(text[1..])
    else [text[0]] + CollapseLF(text[1..])
  }

  predicate CRLFAt(text: string, k: int)
  {
    0 <= k && k + 1 < |text| && text[k] == '\r' && text[k + 1] == '\n'
  }

  /** `re.subn('\r\n(\r\n)+', '\r\n', text)`: each run of two or more CRLFs becomes one CRLF. */
  function CollapseCRLF(text: string): string
  {
    if text == [] then ""
    else if CRLFAt(text, 0) && CRLFAt(text, 2) then CollapseCRLF(text[2..])
    else [text[0]] + CollapseCRLF(text[1..])
  }

  /** `SingleLR.rx` (and `SingleLR.tx`, which calls it). */
  function SingleRx(text: string): string
  {
    CollapseCRLF(CollapseLF(text))
  }

  predicate NoDoubleLF(text: string)
  {
    forall k :: 0 <= k < |text| - 1 ==> !(text[k] == '\n' && text[k + 1] == '\n')
  }

  predicate NoDoubleCRLF(text: string)
  {
    forall k :: 0 <= k < |text| ==> !(CRLFAt(text, k) && CRLFAt(text, k + 2))
  }

  lemma {:induction false} CollapseLFHead(text: string)
    ensures |CollapseLF(text)| <= |text|
    ensures text != [] ==> CollapseLF(text) != [] && CollapseLF(text)[0] == text[0]
  {
    if text != [] {
      CollapseLFHead(text[1..]);
    }
  }

  /** Every character CollapseLF emits comes from its input. */
  lemma {:induction false} CollapseLFChars(text: string)
    ensures forall c :: c in CollapseLF(text) ==> c in text
  {
    if text != [] {
      CollapseLFChars(text[1..]);
    }
  }

  lemma {:induction false} CollapseLFNoDouble(text: string)
    ensures NoDoubleLF(CollapseLF(text))
  {
    if text != [] {
      CollapseLFNoDouble(text[1..]);
      if !(|text| >= 2 && text[0] == '\n' && text[1] == '\n') {
        CollapseLFHead(text[1..]);
        var r := CollapseLF(text);
        assert r == [text[0]] + CollapseLF(text[1..]);
        forall k | 0 <= k < |r| - 1
          ensures !(r[k] == '\n' && r[k + 1] == '\n')
        {
          if k > 0 {
            assert r[k] == CollapseLF(text[1..])[k - 1];
          }
        }
      }
    }
  }

  lemma {:induction false} CollapseLFFixed(text: string)
    requires NoDoubleLF(text)
    ensures CollapseLF(text) == text
  {
    if text != [] {
      CollapseLFFixed(text[1..]);
    }
  }

  lemma {:induction false} CollapseCRLFHead(text: string)
    ensures |CollapseCRLF(text)| <= |text|
    ensures |text| >= 1 ==> |CollapseCRLF(text)| >= 1 && CollapseCRLF(text)[0] == text[0]
    ensures |text| >= 2 ==> |CollapseCRLF(text)| >= 2 && CollapseCRLF(text)[1] == text[1]
    decreases |text|
  {
    if text != [] {
      CollapseCRLFHead(text[1..]);
      if CRLFAt(text, 0) && CRLFAt(text, 2) {
        CollapseCRLFHead(text[2..]);
      }
    }
  }

  lemma {:induction false} CollapseCRLFChars(text: string)
    ensures forall c :: c in CollapseCRLF(text) ==> c in text
    decreases |text|
  {
    if text != [] {
      if CRLFAt(text, 0) && CRLFAt(text, 2) {
        CollapseCRLFChars(text[2..]);
      } else {
        CollapseCRLFChars(text[1..]);
      }
    }
  }

  lemma {:induction false} CollapseCRLFNoDouble(text: string)
    ensures NoDoubleCRLF(CollapseCRLF(text))
    decreases |text|
  {
    if text != [] {
      if CRLFAt(text, 0) && CRLFAt(text, 2) {
        CollapseCRLFNoDouble(text[2..]);
      } else {
        var t1 := text[1..];
        CollapseCRLFNoDouble(t1);
        var c1 := CollapseCRLF(t1);
        var r := CollapseCRLF(text);
        assert r == [text[0]] + c1;
        CollapseCRLFConsStart(text);
        forall k | 0 <= k < |r|
          ensures !(CRLFAt(r, k) && CRLFAt(r, k + 2))
        {
          if k > 0 {
            assert CRLFAt(r, k) == CRLFAt(c1, k - 1);
            assert CRLFAt(r, k + 2) == CRLFAt(c1, k + 1);
          }
        }
      }
    }
  }

  /** Output that is not collapsed at its head starts with a doubled CRLF only if the input did. */
  lemma CollapseCRLFConsStart(text: string)
    requires text != []
    ensures var r := [text[0]] + CollapseCRLF(text[1..]);
      CRLFAt(r, 0) && CRLFAt(r, 2) ==> CRLFAt(text, 0) && CRLFAt(text, 2)
  {
    var t1 := text[1..];
    CollapseCRLFHead(t1);
    if |t1| >= 2 && t1[0] == '\n' {
      assert CollapseCRLF(t1) == ['\n'] + CollapseCRLF(t1[1..]);
      CollapseCRLFHead(t1[1..]);
    }
  }

  lemma {:induction false} CollapseCRLFKeepsNoDoubleLF(text: string)
    requires NoDoubleLF(text)
    ensures NoDoubleLF(CollapseCRLF(text))
    decreases |text|
  {
    if text != [] {
      if CRLFAt(text, 0) && CRLFAt(text, 2) {
        CollapseCRLFKeepsNoDoubleLF(text[2..]);
      } else {
        var t1 := text[1..];
        CollapseCRLFKeepsNoDoubleLF(t1);
        CollapseCRLFHead(t1);
        var r := CollapseCRLF(text);
        assert r == [text[0]] + CollapseCRLF(t1);
        forall k | 0 <= k < |r| - 1
          ensures !(r[k] == '\n' && r[k + 1] == '\n')
        {
          if k > 0 {
            assert r[k] == CollapseCRLF(t1)[k - 1];
          }
        }
      }
    }
  }

  lemma {:induction false} CollapseCRLFFixed(text: string)
    requires NoDoubleCRLF(text)
    ensures CollapseCRLF(text) == text
  {
    if text != [] {
      assert !(CRLFAt(text, 0) && CRLFAt(text, 2));
      var t1 := text[1..];
      forall k | 0 <= k < |t1|
        ensures !(CRLFAt(t1, k) && CRLFAt(t1, k + 2))
      {
        assert CRLFAt(t1, k) == CRLFAt(text, k + 1);
        assert CRLFAt(t1, k + 2) == CRLFAt(text, k + 3);
      }
      CollapseCRLFFixed(t1);
    }
  }

  /** SingleLR leaves no doubled LF and no doubled CRLF behind. */
  lemma SingleRxCollapses(text: string)
    ensures NoDoubleLF(SingleRx(text)) && NoDoubleCRLF(SingleRx(text))
  {
    CollapseLFNoDouble(text);
    CollapseCRLFKeepsNoDoubleLF(CollapseLF(text));
    CollapseCRLFNoDouble(CollapseLF(text));
  }

  /** SingleLR changes nothing in text that has no doubled line break. */
  lemma SingleRxFixed(text: string)
    requires NoDoubleLF(text) && NoDoubleCRLF(text)
    ensures SingleRx(text) == text
  {
    CollapseLFFixed(text);
    CollapseCRLFFixed(text);
  }

  /** Applying SingleLR twice is the same as applying it once. */
  lemma SingleRxIdempotent(text: string)
    ensures SingleRx(SingleRx(text)) == SingleRx(text)
  {
    SingleRxCollapses(text);
    SingleRxFixed(SingleRx(text));
  }

  // ---------------------------------------------------------------------------
  // Printable: visible glyphs for control and non-ASCII characters
  // ---------------------------------------------------------------------------

  /** Decimal digits of `n`, most significant first (`'{:d}'.format(n)`). */
  function Digits(n: nat): (ds: seq<nat>)
    ensures ds != [] && forall k :: 0 <= k < |ds| ==> ds[k] < 10
  {
    if n < 10 then [n] else Digits(n / 10) + [n % 10]
  }

  function FromDigits(ds: seq<nat>): nat
  {
    if ds == [] then 0 else FromDigits(ds[..|ds| - 1]) * 10 + ds[|ds| - 1]
  }

  lemma {:induction false} DigitsRoundTrip(n: nat)
    ensures FromDigits(Digits(n)) == n
  {
    if n >= 10 {
      DigitsRoundTrip(n / 10);
      var ds := Digits(n / 10) + [n % 10];
      assert ds[..|ds| - 1] == Digits(n / 10);
    }
  }

  /** The subscript digit glyph for `d` (U+2080 + d). */
  function SubscriptChar(d: nat): char
    requires d < 10
  {
    (0x2080 + d) as char
  }

  predicate IsSubscript(c: char)
  {
    0x2080 <= c as int <= 0x2089
  }

  function Subscripts(ds: seq<nat>): (r: string)
    requires forall k :: 0 <= k < |ds| ==> ds[k] < 10
    ensures |r| == |ds|
  {
    if ds == [] then "" else [SubscriptChar(ds[0])] + Subscripts(ds[1..])
  }

  /** How `Printable.rx` renders one character. */
  function Escape(c: char): (r: string)
    ensures r != []
  {
    if ' ' <= c && (c as int) < 0x7F then [c]
    else if c < ' ' then [(0x2400 + c as int) as char]
    else Subscripts(Digits(c as int)) + " "
  }

  /** `Printable.rx(text)` (and `Printable.echo`, the same function). */
  function EscapeAll(text: string): string
  {
    if text == [] then "" else Escape(text[0]) + EscapeAll(text[1..])
  }

  lemma {:induction false} EscapeAllSnoc(text: string, c: char)
    ensures EscapeAll(text + [c]) == EscapeAll(text) + Escape(c)
  {
    if text == [] {
      assert [c][1..] == [];
    } else {
      assert (text + [c])[1..] == text[1..] + [c];
      EscapeAllSnoc(text[1..], c);
    }
  }

  predicate Visible(c: char)
  {
    c >= ' '
  }

  /** Every character of an escape is at or above U+0020. */
  lemma EscapeVisible(c: char)
    ensures forall k :: 0 <= k < |Escape(c)| ==> Visible(Escape(c)[k])
  {
    if !(' ' <= c && (c as int) < 0x7F) && !(c < ' ') {
      var ds := Digits(c as int);
      SubscriptsVisible(ds);
    }
  }

  lemma {:induction false} SubscriptsVisible(ds: seq<nat>)
    requires forall k :: 0 <= k < |ds| ==> ds[k] < 10
    ensures forall k :: 0 <= k < |Subscripts(ds)| ==> IsSubscript(Subscripts(ds)[k])
  {
    if ds != [] {
      SubscriptsVisible(ds[1..]);
    }
  }

  /**
    `Printable.rx` builds its result in a list, one input character at a time.
    Nothing below U+0020 survives, and printable ASCII passes through unchanged.
   */
  method PrintableRx(text: string) returns (r: string)
    ensures r == EscapeAll(text)
    ensures forall k :: 0 <= k < |r| ==> Visible(r[k])
    ensures (forall k :: 0 <= k < |text| ==> ' ' <= text[k] && (text[k] as int) < 0x7F) ==> r == text
  {
    r := "";
    for i := 0 to |text|
      invariant r == EscapeAll(text[..i])
      invariant forall k :: 0 <= k < |r| ==> Visible(r[k])
      invariant (forall k :: 0 <= k < i ==> ' ' <= text[k] && (text[k] as int) < 0x7F) ==> r == text[..i]
    {
      var c := text[i];
      ghost var before := r;
      if ' ' <= c && (c as int) < 0x7F {
        r := r + [c];
      } else if c < ' ' {
        r := r + [(0x2400 + c as int) as char];
      } else {
        r := r + Subscripts(Digits(c as int));
        r := r + [' '];
      }
      assert r == before + Escape(c);
      PrintableStep(text, i, before);
    }
    assert text[..|text|] == text;
  }

  /** One more character escaped keeps the loop's invariants. */
  lemma PrintableStep(text: string, i: nat, r: string)
    requires i < |text| && r == EscapeAll(text[..i])
    requires forall k :: 0 <= k < |r| ==> Visible(r[k])
    requires (forall k :: 0 <= k < i ==> ' ' <= text[k] && (text[k] as int) < 0x7F) ==> r == text[..i]
    ensures r + Escape(text[i]) == EscapeAll(text[..i + 1])
    ensures forall k :: 0 <= k < |r + Escape(text[i])| ==> Visible((r + Escape(text[i]))[k])
    ensures (forall k :: 0 <= k < i + 1 ==> ' ' <= text[k] && (text[k] as int) < 0x7F) ==> r + Escape(text[i]) == text[..i + 1]
  {
    var c := text[i];
    EscapeAllSnoc(text[..i], c);
    assert text[..i + 1] == text[..i] + [c];
    EscapeVisible(c);
  }

  /** The digit values of the subscript glyphs at the head of `s`. */
  function LeadingSubscripts(s: string): (ds: seq<nat>)
    ensures |ds| <= |s|
    ensures forall k :: 0 <= k < |ds| ==> ds[k] < 10
  {
    if s != [] && IsSubscript(s[0]) then [s[0] as int - 0x2080] + LeadingSubscripts(s[1..]) else []
  }

  predicate IsCharCode(n: int)
  {
    0 <= n < 0xD800 || 0xE000 <= n < 0x11_0000
  }

  /** Reads text rendered by `Printable.rx` back: the reference decoder of the escape. */
  function Unescape(s: string): string
    decreases |s|
  {
    if s == [] then ""
    else if 0x2400 <= s[0] as int < 0x2420 then [(s[0] as int - 0x2400) as char] + Unescape(s[1..])
    else if IsSubscript(s[0]) then
      var ds := LeadingSubscripts(s);
      var n := FromDigits(ds);
      if |ds| < |s| && s[|ds|] == ' ' && IsCharCode(n) then [n as char] + Unescape(s[|ds| + 1..])
      else [s[0]] + Unescape(s[1..])
    else [s[0]] + Unescape(s[1..])
  }

  lemma {:induction false} LeadingSubscriptsOf(ds: seq<nat>, rest: string)
    requires forall k :: 0 <= k < |ds| ==> ds[k] < 10
    ensures LeadingSubscripts(Subscripts(ds) + " " + rest) == ds
  {
    if ds != [] {
      var tail := Subscripts(ds[1..]) + " " + rest;
      assert Subscripts(ds) + " " + rest == [SubscriptChar(ds[0])] + tail;
      LeadingSubscriptsOf(ds[1..], rest);
      LeadingSubscriptCons(ds[0], tail);
      assert ds == [ds[0]] + ds[1..];
    }
  }

  /** A subscript glyph at the head adds its digit in front. */
  lemma LeadingSubscriptCons(d: nat, tail: string)
    requires d < 10
    ensures LeadingSubscripts([SubscriptChar(d)] + tail) == [d] + LeadingSubscripts(tail)
  {
    var s := [SubscriptChar(d)] + tail;
    assert s[1..] == tail;
  }

  lemma UnescapeEscape(c: char, rest: string)
    ensures Unescape(Escape(c) + rest) == [c] + Unescape(rest)
  {
    var s := Escape(c) + rest;
    if ' ' <= c && (c as int) < 0x7F {
      assert s[1..] == rest;
    } else if c < ' ' {
      assert s[1..] == rest;
    } else {
      UnescapeSubscripts(c, rest);
    }
  }

  /** A character rendered as its decimal code in subscript digits reads back as itself. */
  lemma UnescapeSubscripts(c: char, rest: string)
    requires !(' ' <= c && (c as int) < 0x7F) && !(c < ' ')
    ensures Unescape(Escape(c) + rest) == [c] + Unescape(rest)
  {
    var ds := Digits(c as int);
    var s := Subscripts(ds) + " " + rest;
    assert Escape(c) + rest == s;
    LeadingSubscriptsOf(ds, rest);
    DigitsRoundTrip(c as int);
    SubscriptsVisible(ds);
    var head := s[0];
    assert IsSubscript(head);
    assert !(0x2400 <= head as int < 0x2420);
    assert s[|ds|] == ' ';
    assert s[|ds| + 1..] == rest;
  }

  /** `Printable.rx` loses nothing: its output decodes back to the input. */
  lemma {:induction false} PrintableRoundTrip(text: string)
    ensures Unescape(EscapeAll(text)) == text
  {
    if text != [] {
      PrintableRoundTrip(text[1..]);
      UnescapeEscape(text[0], EscapeAll(text[1..]));
    }
  }

  // ---------------------------------------------------------------------------
  // The three directions of every transformation
  // ---------------------------------------------------------------------------

  /** `t.rx(text)`: text received from the serial port. */
  function Rx(t: Transform, text: string): string
  {
    match t
    case Direct => text
    case SingleLR => SingleRx(text)
    case CRLF => text
    case CR => MapChar(text, '\r', '\n')
    case LF => MapChar(text, '\r', '\n')
    case Printable => EscapeAll(text)
    case DebugIO => text
  }

  /** `t.tx(text)`: text to be sent to the serial port. */
  function Tx(t: Transform, text: string): string
  {
    match t
    case Direct => text
    case SingleLR => SingleRx(text)
    case CRLF => ExpandLF(text)
    case CR => MapChar(text, '\n', '\r')
    case LF => text
    case Printable => text
    case DebugIO => text
  }

  /** `t.echo(text)`: text sent, as shown on the console. */
  function Echo(t: Transform, text: string): string
  {
    match t
    case Printable => EscapeAll(text)
    case _ => text
  }

  /** Printable's echo is its rx. */
  lemma PrintableEchoIsRx(text: string)
    ensures Echo(Printable, text) == Rx(Printable, text)
    ensures forall k :: 0 <= k < |Echo(Printable, text)| ==> Visible(Echo(Printable, text)[k])
  {
    EscapeAllVisible(text);
  }

  lemma {:induction false} EscapeAllVisible(text: string)
    ensures forall k :: 0 <= k < |EscapeAll(text)| ==> Visible(EscapeAll(text)[k])
  {
    if text != [] {
      EscapeVisible(text[0]);
      EscapeAllVisible(text[1..]);
      var e, r := Escape(text[0]), EscapeAll(text[1..]);
      forall k | 0 <= k < |e + r| ensures Visible((e + r)[k]) {
        if k >= |e| { assert (e + r)[k] == r[k - |e|]; }
      }
    }
  }

  predicate AllVisible(text: string)
  {
    forall k :: 0 <= k < |text| ==> Visible(text[k])
  }

  /** No rx transformation brings back a control character. */
  lemma RxKeepsVisible(t: Transform, text: string)
    requires AllVisible(text)
    ensures AllVisible(Rx(t, text))
  {
    match t
    case SingleLR =>
      CollapseLFChars(text);
      CollapseCRLFChars(CollapseLF(text));
      var r := SingleRx(text);
      forall k | 0 <= k < |r| ensures Visible(r[k]) {
        assert r[k] in CollapseLF(text);
        assert r[k] in text;
      }
    case Printable => EscapeAllVisible(text);
    case _ =>
  }

  // ---------------------------------------------------------------------------
  // The chain
  // ---------------------------------------------------------------------------

  /** `EOL_TRANSFORMATIONS[name]`; None is the KeyError. */
  function EolTransform(name: string): Option<Transform>
  {
    if name == "single" then Some(SingleLR)
    else if name == "crlf" then Some(CRLF)
    else if name == "cr" then Some(CR)
    else if name == "lf" then Some(LF)
    else None
  }

  /** `TRANSFORMATIONS[name]`; None is the KeyError. */
  function FilterTransform(name: string): Option<Transform>
  {
    if name == "single" then Some(SingleLR)
    else if name == "direct" then Some(Direct)
    else if name == "default" then Some(Printable)
    else if name == "printable" then Some(Printable)
    else if name == "debug" then Some(DebugIO)
    else None
  }

  /** A list comprehension of dictionary lookups: fails at the first unknown name. */
  function LookupAll(names: seq<string>, eol: bool): (r: Option<seq<Transform>>)
    ensures r.Some? <==> forall k :: 0 <= k < |names| ==> (if eol then EolTransform(names[k]) else FilterTransform(names[k])).Some?
    ensures r.Some? ==> |r.value| == |names|
    ensures r.Some? ==> forall k :: 0 <= k < |names| ==>
      Some(r.value[k]) == if eol then EolTransform(names[k]) else FilterTransform(names[k])
  {
    if names == [] then Some([])
    else
      var t := if eol then EolTransform(names[0]) else FilterTransform(names[0]);
      match t
      case None => None
      case Some(x) =>
        match LookupAll(names[1..], eol)
        case None => None
        case Some(xs) => Some([x] + xs)
  }

  function Reverse<T>(xs: seq<T>): (r: seq<T>)
    ensures |r| == |xs|
    ensures forall k :: 0 <= k < |xs| ==> r[k] == xs[|xs| - 1 - k]
  {
    if xs == [] then [] else [xs[|xs| - 1]] + Reverse(xs[..|xs| - 1])
  }

  /** Folding text through the rx side of a chain, first element first. */
  function ApplyRx(chain: seq<Transform>, text: string): string
    decreases |chain|
  {
    if chain == [] then text else ApplyRx(chain[1..], Rx(chain[0], text))
  }

  /** Folding text through the echo side of a chain, first element first. */
  function ApplyEcho(chain: seq<Transform>, text: string): string
    decreases |chain|
  {
    if chain == [] then text else ApplyEcho(chain[1..], Echo(chain[0], text))
  }

  lemma {:induction false} ApplyRxSnoc(chain: seq<Transform>, t: Transform, text: string)
    ensures ApplyRx(chain + [t], text) == Rx(t, ApplyRx(chain, text))
    decreases |chain|
  {
    if chain != [] {
      assert (chain + [t])[1..] == chain[1..] + [t];
      ApplyRxSnoc(chain[1..], t, Rx(chain[0], text));
    }
  }

  /**
    Receiving runs the tx list backwards: the transformation configured last
    sees the received text first.
   */
  lemma {:induction false} RxRunsChainBackwards(tx: seq<Transform>, t: Transform, text: string)
    ensures ApplyRx(Reverse(tx + [t]), text) == ApplyRx(Reverse(tx), Rx(t, text))
  {
    var r := Reverse(tx + [t]);
    assert r == [t] + Reverse(tx) by {
      assert (tx + [t])[..|tx|] == tx;
    }
    assert r[1..] == Reverse(tx);
  }

  /** Once the text holds no control character, the rest of the chain keeps it so. */
  lemma {:induction false} ApplyRxKeepsVisible(chain: seq<Transform>, text: string)
    requires AllVisible(text)
    ensures AllVisible(ApplyRx(chain, text))
    decreases |chain|
  {
    if chain != [] {
      RxKeepsVisible(chain[0], text);
      ApplyRxKeepsVisible(chain[1..], Rx(chain[0], text));
    }
  }

  /** A chain holding Printable delivers received text without control characters. */
  lemma {:induction false} PrintableChainVisible(chain: seq<Transform>, text: string)
    requires Printable in chain
    ensures AllVisible(ApplyRx(chain, text))
    decreases |chain|
  {
    if chain[0] == Printable {
      EscapeAllVisible(text);
      ApplyRxKeepsVisible(chain[1..], Rx(Printable, text));
    } else {
      assert Printable in chain[1..];
      PrintableChainVisible(chain[1..], Rx(chain[0], text));
    }
  }

  /** Echo keeps text that holds no control character free of them. */
  lemma {:induction false} ApplyEchoKeepsVisible(chain: seq<Transform>, text: string)
    requires AllVisible(text)
    ensures AllVisible(ApplyEcho(chain, text))
    decreases |chain|
  {
    if chain != [] {
      if chain[0] == Printable {
        EscapeAllVisible(text);
      }
      ApplyEchoKeepsVisible(chain[1..], Echo(chain[0], text));
    }
  }

  /**
    A tx list holding Printable echoes sent text without control characters;
    one without it echoes the text unchanged.
   */
  lemma {:induction false} PrintableEchoChainVisible(chain: seq<Transform>, text: string)
    ensures Printable in chain ==> AllVisible(ApplyEcho(chain, text))
    ensures Printable !in chain ==> ApplyEcho(chain, text) == text
    decreases |chain|
  {
    if chain != [] {
      if chain[0] == Printable {
        EscapeAllVisible(text);
        ApplyEchoKeepsVisible(chain[1..], Echo(Printable, text));
      } else {
        assert Printable in chain <==> Printable in chain[1..];
        PrintableEchoChainVisible(chain[1..], Echo(chain[0], text));
      }
    }
  }

  /**
    The transformation state of `MiniSerial`: its end-of-line and filter
    configuration and the two lists `update_transformations` rebuilds from it.
   */
  class MiniSerial {
    var eol: seq<string>
    var filters: seq<string>
    var txTransformations: seq<Transform>
    var rxTransformations: seq<Transform>

    /** The rx list is the tx list backwards. */
    ghost predicate Valid()
      reads this
    {
      rxTransformations == Reverse(txTransformations)
    }

    constructor (eol: seq<string>, filters: seq<string>)
      ensures Valid()
      ensures this.eol == eol && this.filters == filters
      ensures txTransformations == [] && rxTransformations == []
    {
      this.eol := eol;
      this.filters := filters;
      txTransformations := [];
      rxTransformations := [];
    }

    /**
      `update_transformations`: the tx list is the end-of-line transformations
      followed by the filters, and the rx list is its reverse. An unknown name
      raises KeyError before either field is rebound.
     */
    method UpdateTransformations() returns (ok: bool)
      modifies this
      ensures eol == old(eol) && filters == old(filters)
      ensures ok == (LookupAll(eol, true).Some? && LookupAll(filters, false).Some?)
      ensures ok ==> txTransformations == LookupAll(eol, true).value + LookupAll(filters, false).value
      ensures ok ==> rxTransformations == Reverse(txTransformations) && Valid()
      ensures !ok ==> txTransformations == old(txTransformations) && rxTransformations == old(rxTransformations)
    {
      var eolT := LookupAll(eol, true);
      var filterT := LookupAll(filters, false);
      if eolT.None? || filterT.None? {
        return false;
      }
      txTransformations := eolT.value + filterT.value;
      rxTransformations := Reverse(txTransformations);
      ok := true;
    }

    /** The reader's pass of received text through the rx list. */
    method ReceiveText(text: string) returns (r: string)
      requires Valid()
      ensures r == ApplyRx(rxTransformations, text)
      ensures Printable in txTransformations ==> AllVisible(r)
    {
      r := text;
      for i := 0 to |rxTransformations|
        invariant ApplyRx(rxTransformations[i..], r) == ApplyRx(rxTransformations, text)
      {
        assert rxTransformations[i..][1..] == rxTransformations[i + 1..];
        r := Rx(rxTransformations[i], r);
      }
      if Printable in txTransformations {
        var k :| 0 <= k < |txTransformations| && txTransformations[k] == Printable;
        assert rxTransformations[|txTransformations| - 1 - k] == Printable;
        PrintableChainVisible(rxTransformations, text);
      }
    }

    /** The writer's pass of sent text through the echo side of the tx list. */
    method EchoText(text: string) returns (r: string)
      ensures r == ApplyEcho(txTransformations, text)
      ensures Printable in txTransformations ==> AllVisible(r)
      ensures Printable !in txTransformations ==> r == text
    {
      r := text;
      for i := 0 to |txTransformations|
        invariant ApplyEcho(txTransformations[i..], r) == ApplyEcho(txTransformations, text)
      {
        assert txTransformations[i..][1..] == txTransformations[i + 1..];
        r := Echo(txTransformations[i], r);
      }
      PrintableEchoChainVisible(txTransformations, text);
    }
  }

  /**
    With the end of line set to "cr" and no content filter, applying the
    built tx list and then the rx list gives the text back when it holds no
    carriage return.
   */
  lemma CRChainRoundTrip(text: string)
    requires '\r' !in text
    ensures LookupAll(["cr"], true) == Some([CR]) && LookupAll(["direct"], false) == Some([Direct])
    ensures ApplyRx(Reverse([CR, Direct]), Tx(Direct, Tx(CR, text))) == text
  {
    assert ["cr"][1..] == [] && ["direct"][1..] == [];
    var e, f := LookupAll(["cr"], true), LookupAll(["direct"], false);
    assert e.Some? && e.value[0] == CR && e.value == [CR];
    assert f.Some? && f.value[0] == Direct && f.value == [Direct];
    assert EolTransform("cr") == Some(CR);
    assert FilterTransform("direct") == Some(Direct);
    assert Reverse([CR, Direct]) == [Direct, CR];
    CRRoundTrip(text);
  }
}
