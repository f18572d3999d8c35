/**
  The record matcher `parseLine`: three record patterns tried in a fixed
  priority (status, then register read/echo, then data frame); the first one
  found anywhere in the text is matched over and over until it no longer
  occurs, and each match is dispatched by its kind.

  A pattern is a searcher: given a text, the leftmost match of the pattern in
  it, as a span and its capture groups. The status and data frame patterns are
  fixed-width and are written out here; the register pattern is kept
  abstract, by the contract its regular expression meets.
 */
module Patterns {
  import opened Strings

  /** A match: its span in the searched text and its capture groups, in pattern order. */
  datatype Match = Match(start: nat, end: nat, groups: seq<string>)

  /** A pattern never matches the empty string, so every match makes progress. */
  predicate SpanOk(t: string, m: Option<Match>)
  {
    m.Some? ==> m.value.start < m.value.end <= |t|
  }

  function NeverMatches(t: string): Option<Match>
  {
    None
  }

  /** `pattern.search`: the leftmost match in the text, if there is one. */
  type SearchFn = string -> Option<Match>

  /** A search whose every match is a non-empty span of the searched text, as with a regular expression that cannot match the empty string. */
  type Searcher = f: SearchFn | forall t :: SpanOk(t, f(t)) witness NeverMatches

  /** A search result that is a non-empty span of the text. */
  predicate Hit(t: string, m: Option<Match>)
  {
    m.Some? && m.value.start < m.value.end <= |t|
  }

  lemma SearcherHits(f: Searcher, t: string)
    ensures Hit(t, f(t)) <==> f(t).Some?
  {
  }

  ghost predicate HasArity(f: SearchFn, n: nat)
  {
    forall t :: f(t).Some? ==> |f(t).value.groups| == n
  }

  // ---------------------------------------------------------------------------
  // Characters the patterns use
  // ---------------------------------------------------------------------------

  predicate IsDigit(c: char)
  {
    '0' <= c <= '9'
  }

  /** `[0-9a-fA-F]`. */
  predicate IsHexDigit(c: char)
  {
    '0' <= c <= '9' || 'a' <= c <= 'f' || 'A' <= c <= 'F'
  }

  predicate AllHex(s: string)
  {
    forall k :: 0 <= k < |s| ==> IsHexDigit(s[k])
  }

  predicate AllDigits(s: string)
  {
    forall k :: 0 <= k < |s| ==> IsDigit(s[k])
  }

  function HexDigitValue(c: char): (v: nat)
    requires IsHexDigit(c)
    ensures v < 16
  {
    if '0' <= c <= '9' then c as int - '0' as int
    else if 'a' <= c <= 'f' then c as int - 'a' as int + 10
    else c as int - 'A' as int + 10
  }

  /** The value of a string of hex digits, most significant first. */
  function HexNumber(s: string): nat
    requires AllHex(s)
  {
    if s == [] then 0 else HexNumber(s[..|s| - 1]) * 16 + HexDigitValue(s[|s| - 1])
  }

  /** `int(s)` for a string of ASCII decimal digits. */
  function DecimalNumber(s: string): nat
    requires AllDigits(s)
  {
    if s == [] then 0 else DecimalNumber(s[..|s| - 1]) * 10 + (s[|s| - 1] as int - '0' as int)
  }

  // ---------------------------------------------------------------------------
  // Leftmost search for a fixed-width pattern
  // ---------------------------------------------------------------------------

  /** The leftmost position at or after `k` where `at` holds. */
  function FirstFrom(t: string, k: nat, at: (string, nat) -> bool): (r: Option<nat>)
    decreases |t| + 1 - k
    ensures r.Some? ==> k <= r.value <= |t| && at(t, r.value)
    ensures r.Some? ==> forall j :: k <= j < r.value ==> !at(t, j)
    ensures r.None? ==> forall j :: k <= j <= |t| ==> !at(t, j)
  {
    if k > |t| then None
    else if at(t, k) then Some(k)
    else FirstFrom(t, k + 1, at)
  }

  /** The width of the status and data frame patterns. */
  const FrameWidth: nat := 26

  /**
    `dataptn`, `(?P<timestamp>.{8}):(?P<data>.{16})W` with DOTALL: any eight
    characters, a colon, any sixteen characters, and a `W`.
   */
  predicate DataAt(t: string, k: nat)
  {
    k + FrameWidth <= |t| && t[k + 8] == ':' && t[k + 25] == 'W'
  }

  function DataSearchFn(t: string): (r: Option<Match>)
    ensures SpanOk(t, r)
    ensures r.Some? ==> |r.value.groups| == 2
    ensures r.Some? ==> r.value.end == r.value.start + FrameWidth && DataAt(t, r.value.start)
    ensures r.Some? ==> forall j: nat :: j < r.value.start ==> !DataAt(t, j)
    ensures r.None? ==> forall j :: !DataAt(t, j)
  {
    match FirstFrom(t, 0, DataAt)
    case None => None
    case Some(k) => Some(Match(k, k + FrameWidth, [t[k..k + 8], t[k + 9..k + 25]]))
  }

  /**
    `statusptn`, `ID (?P<status>.{2}): 0x(?P<idstatus>[0-9a-fA-F]{8}):(?P<timestamp>[0-9a-fA-F]{8})`:
    "ID ", two characters other than a line feed, ": 0x", eight hex digits,
    a colon and eight hex digits.
   */
  predicate StatusAt(t: string, k: nat)
  {
    && k + FrameWidth <= |t|
    && t[k] == 'I' && t[k + 1] == 'D' && t[k + 2] == ' '
    && t[k + 3] != '\n' && t[k + 4] != '\n'
    && t[k + 5] == ':' && t[k + 6] == ' ' && t[k + 7] == '0' && t[k + 8] == 'x'
    && AllHex(t[k + 9..k + 17]) && t[k + 17] == ':' && AllHex(t[k + 18..k + 26])
  }

  function StatusSearchFn(t: string): (r: Option<Match>)
    ensures SpanOk(t, r)
    ensures r.Some? ==> |r.value.groups| == 3
    ensures r.Some? ==> r.value.end == r.value.start + FrameWidth && StatusAt(t, r.value.start)
    ensures r.Some? ==> forall j: nat :: j < r.value.start ==> !StatusAt(t, j)
    ensures r.None? ==> forall j :: !StatusAt(t, j)
  {
    match FirstFrom(t, 0, StatusAt)
    case None => None
    case Some(k) => Some(Match(k, k + FrameWidth, [t[k + 3..k + 5], t[k + 9..k + 17], t[k + 18..k + 26]]))
  }

  /** A register match starts with its operation, "Read" or "Echo", and carries four groups. */
  predicate RegisterHit(t: string, m: Option<Match>)
  {
    m.Some? ==>
      var g := m.value.groups;
      && m.value.start + 4 <= m.value.end <= |t|
      && |g| == 4
      && g[0] == t[m.value.start..m.value.start + 4]
      && (g[0] == "Read" || g[0] == "Echo")
      && g[1] != "" && AllDigits(g[1])
      && HexPrefixed(g[2]) && HexPrefixed(g[3])
  }

  /** The value and wanted groups both start with `0x`. */
  predicate HexPrefixed(s: string)
  {
    |s| >= 2 && s[0] == '0' && s[1] == 'x'
  }

  /** `statusptn.search`. */
  type StatusSearcher = f: Searcher | HasArity(f, 3) witness NeverMatches

  /**
    `lnptn.search`, for `(?P<retype>Read|Echo)\s*(?P<reg>\d+)\s*as\s*(?P<value>0x\s*[\-0-9a-fA-F]+)\s*-?\s*(?P<wanted>0x\s*[\-0-9a-fA-F]+)`,
    known by its contract only.
   */
  type RegisterSearcher = f: Searcher | (forall t :: RegisterHit(t, f(t))) witness NeverMatches

  /** `dataptn.search`. */
  type DataSearcher = f: Searcher | HasArity(f, 2) witness NeverMatches

  /** The three record patterns of the terminal. */
  datatype PatternSet = PatternSet(status: StatusSearcher, register: RegisterSearcher, data: DataSearcher)

  /** The patterns with the status and data frame matchers written out. */
  function Terminal(register: RegisterSearcher): PatternSet
  {
    PatternSet(StatusSearchFn, register, DataSearchFn)
  }


  // ---------------------------------------------------------------------------
  // Matching one pattern to exhaustion
  // ---------------------------------------------------------------------------

  datatype Found = Found(text: string, groups: seq<string>)

  datatype Scanned = Scanned(found: seq<Found>, rest: string)

  function Texts(found: seq<Found>): (r: seq<string>)
    ensures |r| == |found|
  {
    if found == [] then [] else [found[0].text] + Texts(found[1..])
  }

  predicate IsSuffix(s: string, t: string)
  {
    |s| <= |t| && s == t[|t| - |s|..]
  }

  /**
    The loop of `parseLine` once a pattern is chosen: take the leftmost match,
    keep the text after it, search again, until no match is left. (For a
    `Searcher`, `Hit` is exactly `mat` being a match.)
   */
  function Scan(f: SearchFn, t: string): (r: Scanned)
    decreases |t|
    ensures IsSuffix(r.rest, t)
    ensures !Hit(r.rest, f(r.rest))
    ensures r.found == [] <==> !Hit(t, f(t))
  {
    var m := f(t);
    if Hit(t, m) then
      var tail := Scan(f, t[m.value.end..]);
      Scanned([Found(t[m.value.start..m.value.end], m.value.groups)] + tail.found, tail.rest)
    else
      Scanned([], t)
  }

  /** The unmatched text before each match. */
  ghost function Gaps(f: SearchFn, t: string): (r: seq<string>)
    decreases |t|
    ensures |r| == |Scan(f, t).found|
  {
    var m := f(t);
    if Hit(t, m) then [t[..m.value.start]] + Gaps(f, t[m.value.end..]) else []
  }

  /** Gap, match, gap, match, ...: the pieces a scan cuts the text into. */
  function Weave(gaps: seq<string>, records: seq<string>): string
    requires |gaps| == |records|
  {
    if gaps == [] then "" else gaps[0] + records[0] + Weave(gaps[1..], records[1..])
  }

  lemma TextsCons(x: Found, xs: seq<Found>)
    ensures Texts([x] + xs) == [x.text] + Texts(xs)
  {
    assert ([x] + xs)[1..] == xs;
  }

  /** One more gap and match in front of a covered text. */
  lemma {:induction false} CoverStep(t: string, a: nat, b: nat, gs: seq<string>, rs: seq<string>, rest: string)
    requires a < b <= |t| && |gs| == |rs|
    requires t[b..] == Weave(gs, rs) + rest
    ensures t == Weave([t[..a]] + gs, [t[a..b]] + rs) + rest
  {
    assert ([t[..a]] + gs)[1..] == gs && ([t[a..b]] + rs)[1..] == rs;
    assert t == t[..a] + t[a..b] + t[b..];
  }

  /**
    The matches come out in text order and do not overlap: the text is the
    matches with the unmatched gaps between them, followed by the rest.
   */
  lemma {:induction false} ScanCovers(f: SearchFn, t: string)
    ensures t == Weave(Gaps(f, t), Texts(Scan(f, t).found)) + Scan(f, t).rest
    decreases |t|
  {
    var m := f(t);
    if Hit(t, m) {
      var a, b := m.value.start, m.value.end;
      var st := Scan(f, t[b..]);
      ScanCovers(f, t[b..]);
      CoverStep(t, a, b, Gaps(f, t[b..]), Texts(st.found), st.rest);
      assert Gaps(f, t) == [t[..a]] + Gaps(f, t[b..]);
      TextsCons(Found(t[a..b], m.value.groups), st.found);
    } else {
      assert Gaps(f, t) == [] && Scan(f, t) == Scanned([], t);
    }
  }

  // ---------------------------------------------------------------------------
  // Dispatch of a match by its kind
  // ---------------------------------------------------------------------------

  datatype Kind = Status | Register | Data

  function Arity(k: Kind): nat
  {
    match k
    case Status => 3
    case Register => 4
    case Data => 2
  }

  function SearcherOf(p: PatternSet, k: Kind): Searcher
  {
    match k
    case Status => p.status
    case Register => p.register
    case Data => p.data
  }

  /** The groups of a match of the given kind, as the dispatch reads them. */
  predicate WellFormed(k: Kind, g: seq<string>)
  {
    |g| == Arity(k) && (k == Register ==> AllDigits(g[1]))
  }

  lemma MatchWellFormed(p: PatternSet, k: Kind, t: string)
    requires SearcherOf(p, k)(t).Some?
    ensures WellFormed(k, SearcherOf(p, k)(t).value.groups)
  {
    if k == Register {
      assert RegisterHit(t, p.register(t));
    }
  }

  /** Every match lies inside the text and carries the groups its kind dispatches on. */
  ghost predicate Searches(f: SearchFn, k: Kind)
  {
    forall t :: (Hit(t, f(t)) <==> f(t).Some?) && (f(t).Some? ==> WellFormed(k, f(t).value.groups))
  }

  lemma SearcherOfSearches(p: PatternSet, k: Kind)
    ensures Searches(SearcherOf(p, k), k)
  {
    var f := SearcherOf(p, k);
    forall t
      ensures (Hit(t, f(t)) <==> f(t).Some?) && (f(t).Some? ==> WellFormed(k, f(t).value.groups))
    {
      SearcherHits(SearcherOf(p, k), t);
      if SearcherOf(p, k)(t).Some? {
        MatchWellFormed(p, k, t);
      }
    }
  }

  ghost predicate AllWellFormed(k: Kind, found: seq<Found>)
  {
    forall i :: 0 <= i < |found| ==> WellFormed(k, found[i].groups)
  }

  lemma {:induction false} ScanWellFormed(f: SearchFn, k: Kind, t: string)
    requires Searches(f, k)
    ensures AllWellFormed(k, Scan(f, t).found)
    decreases |t|
  {
    var m := f(t);
    if Hit(t, m) {
      ScanWellFormed(f, k, t[m.value.end..]);
    }
  }

  /** A register match begins with an `R` (Read) or an `E` (Echo). */
  lemma RegisterStartsWithKeyword(f: RegisterSearcher, t: string)
    ensures f(t).Some? ==> f(t).value.start < |t| && (t[f(t).value.start] == 'R' || t[f(t).value.start] == 'E')
  {
    if f(t).Some? {
      assert RegisterHit(t, f(t));
      var m := f(t).value;
      assert t[m.start] == m.groups[0][0];
    }
  }

  /** What reading register 0xFF with a sentinel value means for the settings lock. */
  datatype LockAction = Unlock | Lock | NoAction

  /** What `parseLine` does with each match, besides returning it. */
  datatype Event =
    | StatusSeen
    | RegisterRead(reg: nat, value: nat, action: LockAction)
    | RegisterEcho(reg: nat, value: nat, wanted: nat)
    | DecodeFailed
    | DataFrame(timestamp: string, payload: string)

  /**
    `int(s.replace(" ", ''), 16)` for a value or wanted group (which starts
    with `0x`): None is the ValueError raised when anything but hex digits
    follows the prefix.
   */
  function HexValue(s: string): (r: Option<nat>)
    ensures r.Some? <==> var u := Strip(s, ' '); |u| > 2 && u[..2] == "0x" && AllHex(u[2..])
    ensures r.Some? ==> r.value == HexNumber(Strip(s, ' ')[2..])
  {
    var u := Strip(s, ' ');
    if |u| > 2 && u[0] == '0' && u[1] == 'x' && AllHex(u[2..]) then Some(HexNumber(u[2..])) else None
  }

  /** A dash inside a value matches the register pattern but is no hex digit; blanks are dropped. */
  lemma DashedValueFails()
    ensures HexValue("0x12-").None?
    ensures HexValue("0x 12") == Some(0x12)
  {
    DashStripped();
    assert !IsHexDigit("0x12-"[4]);
    BlankStripped();
    assert "0x12"[2..] == "12";
    assert "12"[..1] == "1";
    assert HexNumber("1") == 1;
  }

  lemma DashStripped()
    ensures Strip("0x12-", ' ') == "0x12-"
  {
    assert Strip("-", ' ') == "-";
    assert Strip("2-", ' ') == "2-";
    assert Strip("12-", ' ') == "12-";
    assert Strip("x12-", ' ') == "x12-";
  }

  lemma BlankStripped()
    ensures Strip("0x 12", ' ') == "0x12"
  {
    assert Strip("2", ' ') == "2";
    assert Strip("12", ' ') == "12";
    assert Strip(" 12", ' ') == "12";
    assert Strip("x 12", ' ') == "x12";
  }

  const LockRegister: nat := 0xFF
  const UnlockValue: nat := 0xDEADBEAF
  const LockValue: nat := 0xBEADDEAF

  /**
    The register branch of `parseLine`: decode the register number and value;
    an Echo also decodes the wanted value, a Read of register 0xFF with a
    sentinel value (un)locks the settings. A ValueError is caught and logged.
   */
  function DecodeRegister(g: seq<string>): (e: Event)
    requires WellFormed(Register, g)
    ensures e.RegisterRead? || e.RegisterEcho? || e.DecodeFailed?
    ensures e.DecodeFailed? <==> HexValue(g[2]).None? || (g[0] == "Echo" && HexValue(g[3]).None?)
    ensures e.RegisterRead? ==> g[0] != "Echo" && e.reg == DecimalNumber(g[1]) && HexValue(g[2]) == Some(e.value)
    ensures e.RegisterEcho? ==> g[0] == "Echo" && e.reg == DecimalNumber(g[1]) && HexValue(g[2]) == Some(e.value) && HexValue(g[3]) == Some(e.wanted)
    ensures e.RegisterRead? ==> (e.action == Unlock <==> e.reg == LockRegister && e.value == UnlockValue)
    ensures e.RegisterRead? ==> (e.action == Lock <==> e.reg == LockRegister && e.value == LockValue)
  {
    var reg := DecimalNumber(g[1]);
    match HexValue(g[2])
    case None => DecodeFailed
    case Some(value) =>
      if g[0] == "Echo" then
        match HexValue(g[3])
        case None => DecodeFailed
        case Some(wanted) => RegisterEcho(reg, value, wanted)
      else
        var action :=
          if reg == LockRegister && value == UnlockValue then Unlock
          else if reg == LockRegister && value == LockValue then Lock
          else NoAction;
        RegisterRead(reg, value, action)
  }

  /** The dispatch of one match of the given kind. */
  function Dispatch(k: Kind, g: seq<string>): Event
    requires WellFormed(k, g)
  {
    match k
    case Status => StatusSeen
    case Register => DecodeRegister(g)
    case Data => DataFrame(g[0], g[1])
  }

  // ---------------------------------------------------------------------------
  // parseLine
  // ---------------------------------------------------------------------------

  /** `processor` results: the matched records, in order, and the unmatched rest. */
  datatype Parsed = Parsed(records: seq<string>, rest: string)

  /**
    The pattern `localptn` holds when the loop of `parseLine` starts: status
    if it matches anywhere, else register if it matches anywhere, else data.
   */
  function Committed(p: PatternSet, t: string): (k: Kind)
    ensures k == Status <==> p.status(t).Some?
    ensures k == Register <==> p.status(t).None? && p.register(t).Some?
    ensures k == Data <==> p.status(t).None? && p.register(t).None?
  {
    if p.status(t).Some? then Status
    else if p.register(t).Some? then Register
    else Data
  }

  /** The matches of the committed pattern. */
  function CommittedScan(p: PatternSet, t: string): Scanned
  {
    Scan(SearcherOf(p, Committed(p, t)), t)
  }

  /** No pattern matches anywhere in the text. */
  predicate NoneMatch(p: PatternSet, t: string)
  {
    p.status(t).None? && p.register(t).None? && p.data(t).None?
  }

  /**
    What `parseLine(text)` returns. Exactly one pattern is used, the first
    that matches; its matches come back in order, and the rest is a suffix of
    the text in which that pattern no longer matches. With no pattern
    matching, the result is `([], text)`.
   */
  function ParseLineSpec(p: PatternSet, t: string): (r: Parsed)
    ensures IsSuffix(r.rest, t)
    ensures r.records == [] <==> NoneMatch(p, t)
    ensures NoneMatch(p, t) ==> r.rest == t
    ensures SearcherOf(p, Committed(p, t))(r.rest).None?
  {
    var f := SearcherOf(p, Committed(p, t));
    var s := Scan(f, t);
    SearcherHits(f, t);
    SearcherHits(f, s.rest);
    Parsed(Texts(s.found), s.rest)
  }

  function Events(k: Kind, found: seq<Found>): (es: seq<Event>)
    requires AllWellFormed(k, found)
    ensures |es| == |found|
  {
    if found == [] then [] else [Dispatch(k, found[0].groups)] + Events(k, found[1..])
  }

  /** The dispatch of every match of one `parseLine` call, in order, one per record. */
  function ParseEvents(p: PatternSet, t: string): (es: seq<Event>)
    ensures |es| == |ParseLineSpec(p, t).records|
  {
    var k := Committed(p, t);
    SearcherOfSearches(p, k);
    ScanWellFormed(SearcherOf(p, k), k, t);
    Events(k, Scan(SearcherOf(p, k), t).found)
  }

  /** One turn of the scan: the leftmost match, then the scan of the text after it. */
  lemma ScanStep(f: SearchFn, t: string)
    requires Hit(t, f(t))
    ensures Scan(f, t).found == [Found(t[f(t).value.start..f(t).value.end], f(t).value.groups)] + Scan(f, t[f(t).value.end..]).found
    ensures Scan(f, t).rest == Scan(f, t[f(t).value.end..]).rest
  {
  }

  lemma {:induction false} TextsSnoc(found: seq<Found>, x: Found)
    ensures Texts(found + [x]) == Texts(found) + [x.text]
  {
    if found != [] {
      assert (found + [x])[1..] == found[1..] + [x];
      TextsSnoc(found[1..], x);
    }
  }

  lemma {:induction false} EventsSnoc(k: Kind, found: seq<Found>, x: Found)
    requires AllWellFormed(k, found)
    requires WellFormed(k, x.groups)
    ensures Events(k, found + [x]) == Events(k, found) + [Dispatch(k, x.groups)]
  {
    if found != [] {
      assert (found + [x])[1..] == found[1..] + [x];
      EventsSnoc(k, found[1..], x);
    }
  }

  /** One turn of the loop of `parseLine`, in terms of the scan it performs. */
  lemma MatchStep(search: SearchFn, kind: Kind, text: string, rest: string, found: seq<Found>)
    requires Searches(search, kind) && search(rest).Some?
    requires Scan(search, text).found == found + Scan(search, rest).found
    requires Scan(search, text).rest == Scan(search, rest).rest
    requires AllWellFormed(kind, found)
    ensures var m := search(rest).value; var x := Found(rest[m.start..m.end], m.groups);
      && WellFormed(kind, m.groups)
      && Scan(search, text).found == (found + [x]) + Scan(search, rest[m.end..]).found
      && Scan(search, text).rest == Scan(search, rest[m.end..]).rest
      && AllWellFormed(kind, found + [x])
      && Texts(found + [x]) == Texts(found) + [x.text]
      && Events(kind, found + [x]) == Events(kind, found) + [Dispatch(kind, x.groups)]
  {
    var m := search(rest).value;
    var x := Found(rest[m.start..m.end], m.groups);
    ScanStep(search, rest);
    AppendAssoc(found, [x], Scan(search, rest[m.end..]).found);
    TextsSnoc(found, x);
    EventsSnoc(kind, found, x);
  }

  lemma AppendNil<T>(a: seq<T>)
    ensures a + [] == a
  {
  }

  lemma AppendAssoc<T>(a: seq<T>, b: seq<T>, c: seq<T>)
    ensures a + (b + c) == (a + b) + c
  {
  }

  /**
    The loop of `parseLine`: record the match, dispatch it, cut the text
    after it and search again, as long as the pattern matches.
   */
  method MatchAll(search: SearchFn, kind: Kind, text: string, first: Option<Match>) returns (records: seq<string>, rest: string, events: seq<Event>)
    requires Searches(search, kind) && first == search(text)
    ensures records == Texts(Scan(search, text).found) && rest == Scan(search, text).rest
    ensures AllWellFormed(kind, Scan(search, text).found) && events == Events(kind, Scan(search, text).found)
  {
    var mat := first;
    ghost var found: seq<Found> := [];
    records, rest, events := [], text, [];
    ScanWellFormed(search, kind, text);
    assert found + Scan(search, rest).found == Scan(search, text).found;
    while mat.Some?
      invariant mat == search(rest)
      invariant Scan(search, text).found == found + Scan(search, rest).found
      invariant Scan(search, text).rest == Scan(search, rest).rest
      invariant AllWellFormed(kind, found)
      invariant records == Texts(found) && events == Events(kind, found)
      decreases |rest|
    {
      MatchStep(search, kind, text, rest, found);
      var m := mat.value;
      var shrt := rest[m.start..m.end];
      var e := Dispatch(kind, m.groups);
      found := found + [Found(shrt, m.groups)];
      records := records + [shrt];
      events := events + [e];
      rest := rest[m.end..];
      mat := search(rest);
    }
    assert !Hit(rest, search(rest));
    AppendNil(found);
  }

  /** `parseLine`: commit to the first pattern that matches, then match it to exhaustion. */
  method ParseLine(p: PatternSet, text: string) returns (records: seq<string>, rest: string, events: seq<Event>)
    ensures Parsed(records, rest) == ParseLineSpec(p, text)
    ensures events == ParseEvents(p, text)
  {
    var kind := Status;
    var mat := p.status(text);
    if mat.None? {
      kind := Register;
      mat := p.register(text);
      if mat.None? {
        kind := Data;
        mat := p.data(text);
      }
    }
    assert kind == Committed(p, text);
    SearcherOfSearches(p, kind);
    records, rest, events := MatchAll(SearcherOf(p, kind), kind, text, mat);
  }

  // ---------------------------------------------------------------------------
  // Properties of parseLine
  // ---------------------------------------------------------------------------

  /** Every record is a non-empty piece of the text. */
  lemma {:induction false} ScanRecordsNonEmpty(f: SearchFn, t: string)
    ensures "" !in Texts(Scan(f, t).found)
    decreases |t|
  {
    var m := f(t);
    if Hit(t, m) {
      var st := Scan(f, t[m.value.end..]);
      ScanRecordsNonEmpty(f, t[m.value.end..]);
      TextsCons(Found(t[m.value.start..m.value.end], m.value.groups), st.found);
    }
  }

  /** `MalformedValuesKept` at the first match: the search's leftmost register match is the first record. */
  lemma {:induction false} RegisterRecordsKept(p: PatternSet, t: string)
    requires Committed(p, t) == Register
    ensures |ParseEvents(p, t)| == |ParseLineSpec(p, t).records| > 0
    ensures ParseLineSpec(p, t).records[0] == t[p.register(t).value.start..p.register(t).value.end]
    ensures ParseEvents(p, t)[0] == DecodeRegister(p.register(t).value.groups)
  {
    SearcherHits(p.register, t);
    ScanStep(p.register, t);
    MalformedValuesKept(p, t);
  }

  /** A malformed value is logged and its record kept; the rest of the line is still scanned. */
  lemma MalformedValueKept(p: PatternSet, t: string)
    requires Committed(p, t) == Register
    requires p.register(t).value.groups[2] == "0x12-"
    ensures ParseEvents(p, t)[0] == DecodeFailed
    ensures ParseLineSpec(p, t).records[0] == t[p.register(t).value.start..p.register(t).value.end]
  {
    RegisterRecordsKept(p, t);
    DashedValueFails();
  }

  /** The i-th record is the text of the i-th match. */
  lemma {:induction false} TextsAt(found: seq<Found>, i: nat)
    requires i < |found|
    ensures Texts(found)[i] == found[i].text
  {
    if i > 0 {
      TextsAt(found[1..], i - 1);
    }
  }

  /** The i-th event is the dispatch of the i-th match. */
  lemma {:induction false} EventsAt(k: Kind, found: seq<Found>, i: nat)
    requires AllWellFormed(k, found) && i < |found|
    ensures WellFormed(k, found[i].groups) && Events(k, found)[i] == Dispatch(k, found[i].groups)
  {
    if i > 0 {
      assert AllWellFormed(k, found[1..]) by {
        forall j | 0 <= j < |found[1..]|
          ensures WellFormed(k, found[1..][j].groups)
        {
          assert found[1..][j] == found[j + 1];
        }
      }
      EventsAt(k, found[1..], i - 1);
    }
  }

  /**
    Every register match of the line, not only the first, is returned as a
    record; its event is the decode of its groups, which fails exactly when
    the value (or, for an Echo, the wanted value) is no hex number. A failed
    decode is logged and the scan goes on.
   */
  lemma MalformedValuesKept(p: PatternSet, t: string)
    requires Committed(p, t) == Register
    ensures var found := Scan(p.register, t).found;
      && |ParseLineSpec(p, t).records| == |ParseEvents(p, t)| == |found|
      && forall i :: 0 <= i < |found| ==>
        && WellFormed(Register, found[i].groups)
        && ParseLineSpec(p, t).records[i] == found[i].text
        && ParseEvents(p, t)[i] == DecodeRegister(found[i].groups)
        && (ParseEvents(p, t)[i] == DecodeFailed <==>
              HexValue(found[i].groups[2]).None? || (found[i].groups[0] == "Echo" && HexValue(found[i].groups[3]).None?))
  {
    var found := Scan(p.register, t).found;
    SearcherOfSearches(p, Register);
    ScanWellFormed(p.register, Register, t);
    forall i | 0 <= i < |found|
      ensures && WellFormed(Register, found[i].groups)
        && ParseLineSpec(p, t).records[i] == found[i].text
        && ParseEvents(p, t)[i] == DecodeRegister(found[i].groups)
    {
      TextsAt(found, i);
      EventsAt(Register, found, i);
    }
  }

  /** One data frame: eight characters, a colon, sixteen characters and a `W`. */
  predicate IsFrame(f: string)
  {
    |f| == 26 && f[8] == ':' && f[25] == 'W'
  }

  /** The scan records of frames sent back to back. */
  function FrameRecords(frames: seq<string>): (r: seq<Found>)
    requires forall i :: 0 <= i < |frames| ==> IsFrame(frames[i])
    ensures |r| == |frames|
  {
    if frames == [] then []
    else
      assert IsFrame(frames[0]);
      [Found(frames[0], [frames[0][..8], frames[0][9..25]])] + FrameRecords(frames[1..])
  }

  /** The data frame events of frames sent back to back. */
  function FrameEvents(frames: seq<string>): (r: seq<Event>)
    requires forall i :: 0 <= i < |frames| ==> IsFrame(frames[i])
    ensures |r| == |frames|
  {
    if frames == [] then []
    else
      assert IsFrame(frames[0]);
      [DataFrame(frames[0][..8], frames[0][9..25])] + FrameEvents(frames[1..])
  }

  /** Frames sent back to back are matched one by one, each whole, leaving nothing. */
  lemma {:induction false} FramesScan(frames: seq<string>)
    requires forall i :: 0 <= i < |frames| ==> IsFrame(frames[i])
    ensures Scan(DataSearchFn, Concat(frames)) == Scanned(FrameRecords(frames), "")
  {
    var t := Concat(frames);
    if frames == [] {
      assert !DataAt(t, 0);
    } else {
      var f := frames[0];
      assert frames == [f] + frames[1..];
      ConcatCons(f, frames[1..]);
      assert t[..FrameWidth] == f;
      assert DataAt(t, 0);
      assert FirstFrom(t, 0, DataAt) == Some(0);
      assert t[0..8] == f[..8] && t[9..25] == f[9..25];
      assert DataSearchFn(t) == Some(Match(0, FrameWidth, [f[..8], f[9..25]]));
      assert t[FrameWidth..] == Concat(frames[1..]);
      FramesScan(frames[1..]);
      ScanStep(DataSearchFn, t);
    }
  }

  lemma {:induction false} FrameEventsOf(frames: seq<string>)
    requires forall i :: 0 <= i < |frames| ==> IsFrame(frames[i])
    ensures AllWellFormed(Data, FrameRecords(frames))
    ensures Events(Data, FrameRecords(frames)) == FrameEvents(frames)
    ensures Texts(FrameRecords(frames)) == frames
  {
    if frames != [] {
      FrameEventsOf(frames[1..]);
      TextsCons(Found(frames[0], [frames[0][..8], frames[0][9..25]]), FrameRecords(frames[1..]));
      var r := FrameRecords(frames);
      assert r[1..] == FrameRecords(frames[1..]);
      assert frames == [frames[0]] + frames[1..];
    }
  }

  /**
    A stream of data frames with no status or register record in it comes
    back as exactly those frames, in order, each dispatched, with nothing left.
   */
  lemma FramesBackToBack(register: RegisterSearcher, frames: seq<string>)
    requires forall i :: 0 <= i < |frames| ==> IsFrame(frames[i])
    requires StatusSearchFn(Concat(frames)).None? && register(Concat(frames)).None?
    ensures ParseLineSpec(Terminal(register), Concat(frames)) == Parsed(frames, "")
    ensures ParseEvents(Terminal(register), Concat(frames)) == FrameEvents(frames)
  {
    FramesScan(frames);
    FrameEventsOf(frames);
  }

  /** A data frame as the firmware sends it: timestamp, colon, payload, `W`. */
  const SampleStamp: string := "00000001"
  const SamplePayload: string := "0011223344556677"
  const SampleFrame: string := SampleStamp + ":" + SamplePayload + "W"

  /** A timestamp and a payload of the right widths make a frame. */
  lemma FrameOf(stamp: string, payload: string)
    requires |stamp| == 8 && |payload| == 16
    ensures IsFrame(stamp + ":" + payload + "W")
    ensures Plain(stamp) && Plain(payload) ==> Plain(stamp + ":" + payload + "W")
    ensures (stamp + ":" + payload + "W")[..8] == stamp
    ensures (stamp + ":" + payload + "W")[9..25] == payload
  {
    var f := stamp + ":" + payload + "W";
    assert forall i :: 0 <= i < 16 ==> f[9..25][i] == payload[i];
    PlainAppend(stamp, ":");
    PlainAppend(stamp + ":", payload);
    PlainAppend(stamp + ":" + payload, "W");
  }

  lemma PlainAppend(a: string, b: string)
    ensures Plain(a + b) <==> Plain(a) && Plain(b)
  {
    assert forall c :: c in a + b <==> c in a || c in b;
  }

  /** A text with neither an `R` nor an `E` in it holds no register record. */
  lemma NoKeywordNoRegister(f: RegisterSearcher, t: string)
    requires 'R' !in t && 'E' !in t
    ensures f(t).None?
  {
    RegisterStartsWithKeyword(f, t);
  }

  /** Neither the sample frame nor the wide frame below holds a status record. */
  lemma NoStatusWithoutID(t: string)
    requires 'I' !in t
    ensures StatusSearchFn(t).None?
  {
  }

  /** A text with no `R`, `E` or `I` in it holds neither register nor status records. */
  predicate Plain(t: string)
  {
    'R' !in t && 'E' !in t && 'I' !in t
  }

  /** A single frame with no keyword in it comes back as one record and one data frame event. */
  lemma SingleFrameParsed(register: RegisterSearcher, f: string)
    requires IsFrame(f) && Plain(f)
    ensures Committed(Terminal(register), f) == Data && DataSearchFn(f).Some?
    ensures ParseLineSpec(Terminal(register), f) == Parsed([f], "")
    ensures ParseEvents(Terminal(register), f) == [DataFrame(f[..8], f[9..25])]
  {
    NoKeywordNoRegister(register, f);
    NoStatusWithoutID(f);
    ConcatSingle(f);
    FramesBackToBack(register, [f]);
  }

  lemma StampPlain()
    ensures Plain(SampleStamp)
  {
  }

  lemma PayloadPlain()
    ensures Plain(SamplePayload)
  {
  }

  lemma PayloadUnmarked()
    ensures ':' !in SamplePayload && 'W' !in SamplePayload
  {
  }

  lemma SampleFrameShape()
    ensures IsFrame(SampleFrame) && Plain(SampleFrame)
    ensures SampleFrame[..8] == SampleStamp && SampleFrame[9..25] == SamplePayload
  {
    StampPlain();
    PayloadPlain();
    FrameOf(SampleStamp, SamplePayload);
  }

  /** The sample frame comes back as one record and one dispatched data frame. */
  lemma SampleFrameParsed(register: RegisterSearcher)
    ensures ParseLineSpec(Terminal(register), SampleFrame) == Parsed([SampleFrame], "")
    ensures ParseEvents(Terminal(register), SampleFrame) == [DataFrame(SampleStamp, SamplePayload)]
  {
    SampleFrameShape();
    SingleFrameParsed(register, SampleFrame);
  }

  /** A keyword-free text in which the data pattern never matches comes back whole, with no record. */
  lemma NoFrameUnmatched(register: RegisterSearcher, t: string)
    requires Plain(t) && forall j: nat :: !DataAt(t, j)
    ensures ParseLineSpec(Terminal(register), t) == Parsed([], t)
  {
    NoKeywordNoRegister(register, t);
    NoStatusWithoutID(t);
  }

  /** The characters of a hex frame: hex digits, the colon and the `W`. */
  predicate FrameChar(c: char)
  {
    IsHexDigit(c) || c == ':' || c == 'W'
  }

  lemma KeywordNotFrame(t: string, k: nat)
    requires k + 4 <= |t| && (t[k..k + 4] == "Read" || t[k..k + 4] == "Echo")
    ensures !FrameChar(t[k]) || !FrameChar(t[k + 2])
  {
    assert t[k] == t[k..k + 4][0] && t[k + 2] == t[k..k + 4][2];
  }

  /** Neither "Read" nor "Echo" can be spelt with hex digits, colons and `W`s. */
  lemma FrameCharsNoRegister(f: RegisterSearcher, t: string)
    requires forall k :: 0 <= k < |t| ==> FrameChar(t[k])
    ensures f(t).None?
  {
    if f(t).Some? {
      assert RegisterHit(t, f(t));
      KeywordNotFrame(t, f(t).value.start);
    }
  }

  /**
    A frame whose timestamp is eight hex digits and whose payload is
    thirty-two hex digits is not a data record: its only colon is at offset
    8, and offset 25 holds a payload digit, not the `W`. Nor does it hold a
    status or register record, so the whole text comes back unmatched.
   */
  lemma HexFrameUnmatched(register: RegisterSearcher, stamp: string, payload: string)
    requires |stamp| == 8 && AllHex(stamp) && |payload| == 32 && AllHex(payload)
    ensures var t := stamp + ":" + payload + "W"; ParseLineSpec(Terminal(register), t) == Parsed([], t)
  {
    var t := stamp + ":" + payload + "W";
    forall k | 0 <= k < |t|
      ensures FrameChar(t[k])
    {
      if k < 8 {
        assert t[k] == stamp[k];
      } else if 8 < k < 41 {
        assert t[k] == payload[k - 9];
      }
    }
    forall j: nat
      ensures !DataAt(t, j)
    {
      if j + FrameWidth <= |t| {
        if j == 0 {
          assert t[25] == payload[16];
        } else {
          assert t[j + 8] == payload[j - 1];
        }
      }
    }
    FrameCharsNoRegister(register, t);
    assert 'I' !in t;
    NoStatusWithoutID(t);
  }

  /** A frame with a thirty-two digit payload. */
  const WidePayload: string := "00112233445566778899AABBCCDDEEFF"
  const WideFrame: string := SampleStamp + ":" + WidePayload + "W"

  lemma WideFrameHex()
    ensures AllHex(SampleStamp) && AllHex(WidePayload)
  {
  }

  lemma WideFrameUnmatched(register: RegisterSearcher)
    ensures ParseLineSpec(Terminal(register), WideFrame) == Parsed([], WideFrame)
  {
    WideFrameHex();
    HexFrameUnmatched(register, SampleStamp, WidePayload);
  }

  // ---------------------------------------------------------------------------
  // parseLine as written
  // ---------------------------------------------------------------------------

  /** The exceptions `parseLine` lets escape. */
  datatype PyError = NameError | AttributeError

  /** How a call of `parseLine` ends. */
  datatype Outcome = Returned(parsed: Parsed, events: seq<Event>) | Raised(error: PyError)

  /**
    `parseLine` as written, under Python 3: the data branch reads the global
    `pipeConn`, which the module never binds, so the first data match raises
    NameError; the ValueError handler reads `e.message`, which Python 3
    exceptions do not have, so the first malformed register value raises
    AttributeError.
   */
  function ParseLineAsWritten(p: PatternSet, t: string): (o: Outcome)
    ensures o.Raised? ==> Committed(p, t) != Status
    ensures o.Returned? ==> o == Returned(ParseLineSpec(p, t), ParseEvents(p, t))
    ensures Committed(p, t) == Data ==> (o.Raised? <==> p.data(t).Some?)
    ensures Committed(p, t) == Register ==> (o.Raised? <==> DecodeFailed in ParseEvents(p, t))
    ensures o.Raised? ==> (o.error == NameError <==> Committed(p, t) == Data)
  {
    var es := ParseEvents(p, t);
    match Committed(p, t)
    case Data => if p.data(t).Some? then Raised(NameError) else Returned(ParseLineSpec(p, t), es)
    case Register => if DecodeFailed in es then Raised(AttributeError) else Returned(ParseLineSpec(p, t), es)
    case Status => Returned(ParseLineSpec(p, t), es)
  }

  /** As written, the sample frame, which should be forwarded, raises NameError instead. */
  lemma SampleFrameRaises(register: RegisterSearcher)
    ensures ParseLineAsWritten(Terminal(register), SampleFrame) == Raised(NameError)
  {
    SampleFrameShape();
    SingleFrameParsed(register, SampleFrame);
  }

  /** As written, a malformed register value, which should be logged and skipped, raises AttributeError. */
  lemma MalformedValueRaises(p: PatternSet, t: string)
    requires Committed(p, t) == Register
    requires p.register(t).value.groups[2] == "0x12-"
    ensures ParseLineAsWritten(p, t) == Raised(AttributeError)
  {
    MalformedValueKept(p, t);
  }
}
