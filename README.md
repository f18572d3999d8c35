# usbCom terminal text layer, in Dafny

`COMspeedTest.py` is a serial terminal for a USB virtual COM port. Between
the port and the console it passes all text through a small text-processing
layer:

- **Transformations.** `Transform`, `SingleLR`, `CRLF`, `CR`, `LF`,
  `Printable` and `DebugIO` each map text in three directions: `rx` for
  received text, `tx` for text to send and `echo` for sent text shown on the
  console. `MiniSerial.update_transformations` builds the tx list from the
  end-of-line names followed by the filter names, and the rx list is that
  list reversed.
- **`keepEndSpaceShort`.** It squeezes runs of spaces between words to one
  space and keeps the spaces at both ends of the text.
- **`parseLine`.** It recognises records in a line. Three patterns are tried
  in priority order: status, then register read/echo, then data frame. The
  first pattern that matches anywhere is matched again and again until it no
  longer occurs. Each match is returned and dispatched by its kind, and the
  unmatched rest is returned with the matches.
- **`splitReturn`.** It reassembles a stream that arrives in arbitrary
  chunks. It keeps a buffer `linebuff` of at most fifteen lines, whose last
  entry may be an incomplete line, and a record count `lineNum`. Each chunk
  is cut at a separator and its empty pieces are dropped. The first piece
  continues the last buffered line, and the joined line is given to a
  processor. Every later piece is given to the processor on its own. A piece
  in which the processor finds records replaces the last entry with those
  records followed by the unmatched rest. A later piece without records is
  appended to the last entry.
- **`TestSplit.testUnicode`.** This in-file unit test drives `splitReturn`
  with six chunks. Its processor collects the matches of the lazy pattern
  `a.*?Z`.

The Dafny project has six modules, one per file:

| file | module | what it holds |
|---|---|---|
| `strings.dfy` | `Strings` | `str.split`, `''.join`, `filter(None, …)`, `str.replace` as functions on `string`, and their algebra |
| `transforms.dfy` | `Transforms` | the transformations as a datatype with `Rx`/`Tx`/`Echo`, the escaping loop of `Printable.rx` as a method, the lookup tables, and class `MiniSerial` holding the configuration and the two transformation lists |
| `spaces.dfy` | `SpaceSqueeze` | `keepEndSpaceShort` as a method with its index loop, proved against a specification in terms of words and end spaces |
| `patterns.dfy` | `Patterns` | `parseLine`, generic over the three searches (see below); its loop as a method proved against a specification function; the dispatch of each match as an event; `parseLine` as written, with its two exceptions |
| `reassembly.dfy` | `Reassembly` | `splitReturn` as class `LineBuffer` (fields `lines` and `lineNum`), proved against the functions `Feed`, `Appended` and `Trim` |
| `split_scenario.dfy` | `SplitScenario` | the processor `TestSplit.process` and the six calls of `testUnicode`, with the test's assertions |

A regular-expression search is modelled as a function from a text to its
leftmost match (`Patterns.SearchFn`). The fixed-width `statusptn` and `dataptn`
are written out as such functions. `lnptn` is kept abstract and is known
only by a contract its expression meets: a non-empty span that starts with
`Read` or `Echo`, four groups, a decimal register, and value and wanted
groups that start with `0x`. The test's `a(?P<anything>.*?)Z` with `re.DOTALL`
is written out as `SplitScenario.LazySearch`.

A data frame is any eight characters, a colon, exactly sixteen characters and
a `W`, as `dataptn` says. So a frame with an eight-hex-digit stamp and a
32-hex-digit payload, such as `00000001:00112233445566778899AABBCCDDEEFFW`,
is not a data record at all. The whole text comes back unmatched
(`Patterns.HexFrameUnmatched` for every such frame, `Patterns.WideFrameUnmatched`
for that one).

## Model

| member | source | states |
|---|---|---|
| Strings.IndexOf | COMspeedTest.py:756 | the result is the leftmost occurrence of the separator at or after the start index, and there is none before it; None means there is no occurrence at all |
| Strings.JoinSplit | COMspeedTest.py:669 | joining the pieces of `s.split(sp)` with `sp` gives `s` back |
| Strings.PartsConcat | COMspeedTest.py:756 | the pieces `filter(None, line.split(sp))` keeps, concatenated, are the chunk with every separator removed |
| Transforms.MapChar | COMspeedTest.py:87-91 | `text.replace(a, b)` for single characters keeps the length and puts `b` exactly where `a` was, leaving every other character as it was |
| Transforms.CRRoundTrip | COMspeedTest.py:84-91 | `CR.rx(CR.tx(t)) == t` for every `t` without a carriage return |
| Transforms.ExpandLFOnlyAddsCR | COMspeedTest.py:77-81 | `CRLF.tx` only inserts carriage returns: without them the output is the input |
| Transforms.ExpandLFIsReplace | COMspeedTest.py:77-81 | `CRLF.tx` is exactly `text.replace('\n', '\r\n')`: the text cut at every line feed and joined back with a carriage return and a line feed |
| Transforms.ExpandLFPairsLF | COMspeedTest.py:77-81 | after `CRLF.tx` every line feed is directly preceded by a carriage return |
| Transforms.CollapseLFNoDouble | COMspeedTest.py:69 | after the first substitution of `SingleLR.rx` no two line feeds are adjacent |
| Transforms.CollapseLFFixed | COMspeedTest.py:69 | text without two adjacent line feeds passes the first substitution unchanged |
| Transforms.CollapseCRLFNoDouble | COMspeedTest.py:70 | after the second substitution no CRLF directly follows another CRLF |
| Transforms.CollapseCRLFKeepsNoDoubleLF | COMspeedTest.py:69-70 | the second substitution does not create two adjacent line feeds |
| Transforms.CollapseCRLFFixed | COMspeedTest.py:70 | text without a repeated CRLF passes the second substitution unchanged |
| Transforms.SingleRxCollapses | COMspeedTest.py:66-74 | the output of `SingleLR.rx`/`tx` holds neither two adjacent line feeds nor two adjacent CRLFs |
| Transforms.SingleRxFixed | COMspeedTest.py:66-74 | text with neither repetition passes `SingleLR` unchanged |
| Transforms.SingleRxIdempotent | COMspeedTest.py:66-74 | applying `SingleLR.rx` twice is applying it once |
| Transforms.DigitsRoundTrip | COMspeedTest.py:111 | the decimal digits of a character code, read back as a decimal number, are the code |
| Transforms.PrintableRx | COMspeedTest.py:104-114 | the loop builds the concatenation of every character's escape; the output holds no control character; text of printable ASCII only comes back unchanged |
| Transforms.UnescapeEscape | COMspeedTest.py:106-113 | each of the three escapes (the character itself, its control picture U+2400+code, its code in subscript digits followed by a space) reads back as that one character, whatever follows it |
| Transforms.PrintableRoundTrip | COMspeedTest.py:104-114 | `Printable.rx` loses nothing: its output decodes back to its input |
| Transforms.EscapeAllVisible | COMspeedTest.py:104-114 | no character of `Printable.rx`'s output is below U+0020 |
| Transforms.PrintableEchoIsRx | COMspeedTest.py:116 | `Printable.echo` is `Printable.rx`, and its output holds no control character |
| Transforms.RxKeepsVisible | COMspeedTest.py:53-105 | no transformation's `rx` turns text without control characters into text with one |
| Transforms.LookupAll | COMspeedTest.py:409 | the comprehension succeeds exactly when every name is a key of its table; it then has one entry per name, in order, each being that name's table entry |
| Transforms.RxRunsChainBackwards | COMspeedTest.py:411 | on receive, the transformation configured last sees the received text first |
| Transforms.PrintableChainVisible | COMspeedTest.py:409-411 | a chain holding `Printable` anywhere delivers received text without control characters |
| Transforms.MiniSerial.UpdateTransformations | COMspeedTest.py:407-411 | the tx list is the end-of-line transformations followed by the filter transformations, and the rx list is exactly its reverse; an unknown name (KeyError) leaves both lists as they were |
| Transforms.MiniSerial.ReceiveText | COMspeedTest.py:262-263 | received text goes through the rx list in order; with `Printable` configured, the result holds no control character |
| Transforms.ApplyEchoKeepsVisible | COMspeedTest.py:53-116 | no transformation's `echo` turns text without control characters into text with one |
| Transforms.PrintableEchoChainVisible | COMspeedTest.py:329-332 | with `Printable` anywhere in the tx list the echoed text holds no control character; without it the echoed text is the text the echo pass starts from |
| Transforms.MiniSerial.EchoText | COMspeedTest.py:329-332 | echoed text goes through the echo side of the tx list in order; with `Printable` configured it holds no control character, and without it it is the text the echo pass starts from, unchanged |
| Transforms.CRChainRoundTrip | COMspeedTest.py:407-411 | with end of line `cr` and filter `direct`, applying the built tx list and then the built rx list to text without a carriage return gives the text back |
| SpaceSqueeze.KeepEndSpaceShort | COMspeedTest.py:655-670 | the result is the text's leading spaces, then its words joined by single spaces, then the trailing spaces of what follows the leading ones |
| SpaceSqueeze.LoopExit | COMspeedTest.py:661-667 | where the index loop stops, `i` counts the leading spaces and `j0 - j` the trailing ones; for an all-space text, `i + (j0 - j)` is its length |
| SpaceSqueeze.WordsEmptyIffBlank | COMspeedTest.py:669 | `filter(None, text.split(' '))` is empty exactly when the text is all spaces |
| SpaceSqueeze.SplitAround | COMspeedTest.py:669 | splitting `a + ' ' + b` on spaces gives the pieces of `a` followed by those of `b` |
| SpaceSqueeze.SplitJoinWords | COMspeedTest.py:669 | space-free words joined with single spaces split back into the same words |
| SpaceSqueeze.SqueezeShape | COMspeedTest.py:669 | the joined middle has the text's words, in order; it holds no two adjacent spaces and neither starts nor ends with a space |
| SpaceSqueeze.KeepsWords | COMspeedTest.py:655-670 | the result has the same words as the text, in the same order |
| SpaceSqueeze.BlankTextKept | COMspeedTest.py:655-670 | an all-space text, the empty text included, comes back unchanged |
| SpaceSqueeze.ResultFrame | COMspeedTest.py:670 | for a text with a word, the result starts with as many spaces as the text, ends with as many and squeezes to the same middle |
| SpaceSqueeze.KeepEndSpaceShortIdempotent | COMspeedTest.py:655-670 | applying `keepEndSpaceShort` to its own result changes nothing |
| Patterns.StatusSearchFn | COMspeedTest.py:674 | the match is the leftmost status frame (`ID `, two characters, `: 0x`, eight hex digits, `:`, eight hex digits), with its three groups; None means there is none anywhere |
| Patterns.DataSearchFn | COMspeedTest.py:675 | the match is the leftmost 26-character data frame (colon at 8, `W` at 25), with stamp and payload as groups; None means there is none anywhere |
| Patterns.Scan | COMspeedTest.py:691-734 | the rest is a suffix of the text in which the pattern no longer matches; no match is found exactly when the pattern does not match the text |
| Patterns.ScanStep | COMspeedTest.py:691-734 | the first match found is the search's leftmost match, and scanning continues after its end |
| Patterns.ScanCovers | COMspeedTest.py:691-734 | the text is the gaps and the matched records interleaved, in order, followed by the rest: the records are disjoint, left to right, and nothing is lost |
| Patterns.ScanRecordsNonEmpty | COMspeedTest.py:692-694 | no returned record is empty |
| Patterns.ScanWellFormed | COMspeedTest.py:691-734 | every match found carries the groups its pattern defines |
| Patterns.Committed | COMspeedTest.py:680-689 | the pattern used is status if it matches anywhere, else register if it matches anywhere, else data |
| Patterns.ParseLineSpec | COMspeedTest.py:678-735 | the rest is a suffix in which the chosen pattern no longer matches; there are no records exactly when no pattern matches, and the rest is then the whole text |
| Patterns.MatchAll | COMspeedTest.py:691-734 | the loop returns the chosen pattern's matches in order, the rest after the last one, and one event per match |
| Patterns.ParseLine | COMspeedTest.py:678-735 | `parseLine` returns what `ParseLineSpec` describes, and dispatches one event per record |
| Patterns.HexValue | COMspeedTest.py:701 | `int(s.replace(' ', ''), 16)` succeeds exactly when `0x` and at least one hex digit remain, and is then that hex number |
| Patterns.DashedValueFails | COMspeedTest.py:673 | a value group that `lnptn` accepts can still fail `int` (a `-` among the digits), while inner spaces are removed before conversion |
| Patterns.DecodeRegister | COMspeedTest.py:699-719 | Echo gives the register, the value and the wanted value; Read gives the register and the value; register 0xFF with 0xDEADBEAF unlocks, and with 0xBEADDEAF locks; decoding fails exactly when a hex value does not convert |
| Patterns.RegisterRecordsKept | COMspeedTest.py:692-721 | with the register pattern chosen, its leftmost match is the first record and its decoding the first event (`MalformedValuesKept` at index 0) |
| Patterns.MalformedValuesKept | COMspeedTest.py:692-721 | with the register pattern chosen, every match, not only the first, is returned as a record in order, and its event is its decoding; that event is the logged failure exactly when the value, or an Echo's wanted value, does not convert |
| Patterns.MalformedValueKept | COMspeedTest.py:692-721 | a first register match whose value is `0x12-` stays among the records; its event is the logged failure (`MalformedValuesKept` at index 0) |
| Patterns.FramesBackToBack | COMspeedTest.py:675 | data frames sent back to back are all returned, whole and in order, with an empty rest, one data event each |
| Patterns.SingleFrameParsed | COMspeedTest.py:722-727 | a single data frame without keywords is returned whole, and its stamp and payload are dispatched |
| Patterns.SampleFrameParsed | COMspeedTest.py:722-727 | `00000001:0011223344556677W` gives one record, an empty rest and the data event (`00000001`, `0011223344556677`) |
| Patterns.NoFrameUnmatched | COMspeedTest.py:733-735 | text in which no pattern matches comes back as `([], text)` |
| Patterns.HexFrameUnmatched | COMspeedTest.py:673-735 | every text of eight hex digits, a colon, thirty-two hex digits and a `W` matches none of the three patterns and comes back whole as the rest, with no record |
| Patterns.WideFrameUnmatched | COMspeedTest.py:673-735 | `00000001:00112233445566778899AABBCCDDEEFFW` comes back whole as the rest, with no record |
| Patterns.ParseLineAsWritten | COMspeedTest.py:720-727 | as written, the first data match raises NameError, and a register value that fails to convert raises AttributeError; otherwise the result is `ParseLineSpec` |
| Patterns.SampleFrameRaises | COMspeedTest.py:725-727 | as written, the sample data frame raises NameError |
| Patterns.MalformedValueRaises | COMspeedTest.py:720-721 | as written, a malformed register value raises AttributeError |
| Reassembly.ParseLineConservative | COMspeedTest.py:733-735 | `parseLine` returns the text unchanged as its rest when it finds no record |
| Reassembly.Emit | COMspeedTest.py:764-767 | the last entry is replaced by the records, in order, and then the rest; the older entries stay |
| Reassembly.Extend | COMspeedTest.py:778-779 | only the last entry changes, and it gets the text appended |
| Reassembly.Trim | COMspeedTest.py:781-782 | the buffer keeps its newest `min(len, 15)` entries, in order |
| Reassembly.FeedLength | COMspeedTest.py:762-780 | one chunk lengthens the buffer by exactly the number of records it adds to `lineNum` |
| Reassembly.FeedKeepsOlder | COMspeedTest.py:762-780 | a chunk only rewrites the last entry and appends after it |
| Reassembly.ExtendTwice | COMspeedTest.py:778-779 | appending two texts to the last entry one after the other is appending their concatenation |
| Reassembly.QuietStep | COMspeedTest.py:773-779 | a later piece without records is appended to the last entry as it is |
| Reassembly.QuietPartsConcatenate | COMspeedTest.py:769-780 | later pieces that give no record all end up on the last entry, in order, and count nothing |
| Reassembly.QuietChunk | COMspeedTest.py:756-780 | with no record in any piece, the buffer keeps its length and its last entry gets every piece appended, that is, the chunk with separators removed; `lineNum` is unchanged |
| Reassembly.RecordsThenQuiet | COMspeedTest.py:762-780 | when only the joined first piece holds records, they replace the last entry, the rest follows, and the later pieces are appended to that rest; the count is those records |
| Reassembly.HeadRecords | COMspeedTest.py:762-767 | records found in the joined first piece follow the older entries, in order, whatever the later pieces do |
| Reassembly.FeedThree | COMspeedTest.py:762-780 | a chunk of three pieces is the head step and two piece steps, and counts the records of all three |
| Reassembly.LineBuffer.DropOldest | COMspeedTest.py:781-782 | the oldest entries are dropped until at most fifteen remain; the count is unchanged |
| Reassembly.LineBuffer.SplitReturn | COMspeedTest.py:738-784 | the buffer becomes the trimmed result of feeding the chunk's non-empty pieces, and `lineNum` grows by the records found; the buffer stays non-empty with at most fifteen entries; an empty separator or a chunk of separators only fails and changes nothing |
| Reassembly.LineBuffer.SplitReturnDefault | COMspeedTest.py:738 | `splitReturn(line)` with its defaults: the processor is `parseLine` (as `Patterns.ParseLineSpec` describes it) and the separator `'\r\r\r\r\n\n\n\n'` |
| SplitScenario.LazySearch | COMspeedTest.py:900-902 | the match runs from the leftmost `a` that has a `Z` after it up to the first such `Z`, with what lies between as the group; None exactly when no `a` has a `Z` after it |
| SplitScenario.Process | COMspeedTest.py:899-911 | the records are the lazy matches in order; the rest is a suffix without a match, and is the whole text when there is no record |
| SplitScenario.LazyHit | COMspeedTest.py:900-902 | in `x + 'a' + y + 'Z' + z`, with no `a` in `x` and no `Z` in `y`, the match is `'a' + y + 'Z'` |
| SplitScenario.ProcessStep | COMspeedTest.py:905-910 | the processor takes the first lazy match and continues on what follows it |
| SplitScenario.ProcessNoA | COMspeedTest.py:899-911 | a text without `a` gives no record and comes back whole |
| SplitScenario.ProcessNoZ | COMspeedTest.py:899-911 | a text whose first `a` has no `Z` after it gives no record |
| SplitScenario.QuietPair | COMspeedTest.py:756-779 | a chunk of two pieces without records is appended, joined, to the last line |
| SplitScenario.OneThenQuiet | COMspeedTest.py:756-780 | a chunk whose joined first piece holds one record and whose later pieces hold none: the record, then the rest with the later pieces appended |
| SplitScenario.RecordsAroundQuiet | COMspeedTest.py:756-780 | records in the first and third pieces, none in the second: the second piece lands on the entry the third piece's records replace |
| SplitScenario.Call1 | COMspeedTest.py:914 | the first chunk gives no record, and the buffer is the one line `'hi hi 你好 rewq req  '` |
| SplitScenario.Call2 | COMspeedTest.py:915 | the second chunk still gives no record; its pieces are appended to that line |
| SplitScenario.Call3 | COMspeedTest.py:916 | the third chunk gives one record and leaves the rest `'nue aaa'` |
| SplitScenario.Call4 | COMspeedTest.py:918 | the fourth chunk gives four records and leaves `'ZZa'` |
| SplitScenario.Call5 | COMspeedTest.py:921 | the fifth chunk replaces `'ZZa'` by `'a cont3iZ'` and leaves an empty last line |
| SplitScenario.Call6 | COMspeedTest.py:925 | the sixth chunk pushes the oldest line out and leaves fifteen lines ending in `'ZZ'` |
| SplitScenario.Count4 | COMspeedTest.py:918 | the fourth call adds four to `lineNum` |
| SplitScenario.Checked | COMspeedTest.py:917-930 | the buffers after the calls satisfy every assertion of the test |
| SplitScenario.Step | COMspeedTest.py:914-925 | the `n`-th `splitReturn` of the test turns the buffer before it into the buffer after it, and adds that call's records to `lineNum` |
| SplitScenario.TestUnicode | COMspeedTest.py:913-930 | the six calls on a fresh buffer pass every assertion of the test and end with fifteen lines and `lineNum == 15` |

## Left out

- Threads, `start`/`stop`, the reader and writer loops and `changeNewport` are not modelled. Only the transformation passes of the reader and the writer are, as `ReceiveText` and `EchoText`. These parts coordinate threads and do pyserial I/O.
- The pyserial `hexlify` and UTF-8 incremental codecs are not modelled. Text is taken after decoding, as `string`. That code is library code outside this repository.
- `DebugIO` writes to stderr. The model treats it as the identity on text.
- Logging is not modelled. Log calls become `Patterns.Event` values, or nothing where they are commented out.
- `pipeConn.send` is not modelled. A data match becomes a `DataFrame` event.
- `exitCallback` is not modelled.
- `calSpeed` is not modelled: it reads the wall clock and divides floats.
- The command line, `main`, `ask_for_port`, `portslist` and `openComPortInProcess` are not modelled: they prompt the console and plumb processes.
- The firmware files under `Core/` are not part of this model. They do DMA and USB on the microcontroller, and their meaning depends on interrupts.
- Python's `re` engine is not modelled. Each pattern is a leftmost-search function. `lnptn` is known only by its contract (`Patterns.RegisterSearcher`), so no lemma decides whether a given text matches it.
- `\d` in `lnptn` also matches non-ASCII decimal digits. `Patterns.DecimalNumber` reads ASCII digits only.
- The last `else` branch of `parseLine` (COMspeedTest.py:728-731) is not modelled. It cannot be reached, since `localptn` is always one of the three patterns.
- `Patterns.Scan`: a match that could be empty would make `parseLine` loop forever. The model assumes every search returns a non-empty span (`Patterns.Searcher`), which holds for all four patterns here.
- Python exceptions in `splitReturn` become `ok == false` with the buffer untouched. These are the ValueError for an empty separator and the IndexError when no non-empty piece remains.
- Python exceptions in `parseLine` become `Patterns.Outcome.Raised`.
- Reassembly.LineBuffer.SplitReturn: processors are total functions, so a processor that raises is not modelled. `parseLine` as written raises NameError on a data frame. In `splitReturn` that exception escapes after the joined first piece is already stored (line 762) and after earlier pieces have updated `linebuff`; the trim (781-782) and the `lineNum` update (784) are then skipped. The model promises nothing about that partial update.
- The program never applies the tx list to text it sends: the writer (COMspeedTest.py:321-333) encodes and writes the text as it is, and uses the tx list only for the echo. `Transforms.Tx` and `Transforms.CRChainRoundTrip` describe the transformations themselves, not what goes out on the port.
- Python strings may hold lone surrogate code points, which Dafny's `char` excludes.
- The module-level `linebuff` and `lineNum` are the fields of one `Reassembly.LineBuffer` object. The module-level `deque` with its `popleft` is a `seq` that `DropOldest` shortens from the front.
- `SplitScenario`: the test's chunks are written as concatenations of the pieces the proofs cut them into. Each equals the test's own literal, which is shown in the comment above it.
- `Transforms.MiniSerial.constructor`: it sets `eol` and `filters` and leaves both lists empty. `__init__` then calls `update_transformations`, which is `UpdateTransformations`; the other fields of `__init__` are not modelled.

## Findings

| source | as written | input that shows it | evidently intended | confidence | as-written member | corrected member |
|---|---|---|---|---|---|---|
| COMspeedTest.py:725-727 | the data branch declares `global pipeConn`, but the module never binds that name (only `MiniSerial` has an attribute `pipeConn`), so `if pipeConn:` raises NameError | `parseLine('00000001:0011223344556677W')` | the data frame is returned as a record and forwarded when a pipe is attached | not executed; NameError under Python 2 and 3 | Patterns.SampleFrameRaises | Patterns.SampleFrameParsed |
| COMspeedTest.py:720-721 | the ValueError handler logs `e.message`, which Python 3 exceptions lack, so it raises AttributeError | a register match `Read 3 as 0x12- 0x1` (value group `0x12-`) | the failure is logged and the register record is kept | not executed; AttributeError under Python 3 only | Patterns.MalformedValueRaises | Patterns.MalformedValuesKept |
