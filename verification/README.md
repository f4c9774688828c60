# Models of the C++ framework's codecs, parsers and step machines

This project models the stateful core of a C++ network and HTTP framework in Dafny and
proves what that core is for: printers and parsers undo each other, incremental readers do
not depend on how the network cuts the bytes, a resumable sender puts the right bytes on the
wire, a hand-made lock is a recursive mutex.  Objects are classes with the fields of the
source, loops stay loops, arrays that are rewritten in place stay arrays; each such method is
tied to a specification function, and the theorems are about those functions.

| file | component |
|---|---|
| `Common.dfy`, `Chars.dfy` | shared types; character classes and searches of the C library |
| `Inet.dfy`, `Inet6.dfy`, `Inet6Texts.dfy` | IPv4 and IPv6 text forms (section 2.2 of RFC 4291, section 4.2 of RFC 5952) |
| `Range.dfy`, `ResponseHead.dfy`, `Sender.dfy` | byte ranges (section 2.1 of RFC 7233), the response header as written and as read, and the file response sender |
| `Reblock.dfy`, `Chunked.dfy`, `ChunkSplits.dfy` | block re-framing, the chunked decoder (section 4.1 of RFC 7230), and when it depends on the pieces |
| `SafeLock.dfy`, `SafeObject.dfy`, `SafeCalls.dfy` | the hand-made reentrant lock, lazily created locks and reference counts, as interleaved atomic steps, and a log of the calls |
| `Md5.dfy`, `Md5Answers.dfy`, `Md5Empty.dfy`, `Md5Abc.dfy` | MD5 as a stream (RFC 1321), the meaning of its parts, and two published digests |
| `Csv.dfy`, `CString.dfy` | CSV (RFC 4180) and C-string quoting of the bundled SQLite shell |
| `XmlTree.dfy` | the XML tree builder with its open-element stack, and the text of a node |
| `Calendar.dfy`, `HttpDate.dfy` | the Gregorian calendar and HTTP dates (section 7.1.1.1 of RFC 7231) |
| `RequestHead.dfy` | the incremental request head parser |
| `PollTable.dfy` | the poll table and the sweep over it |
| `Base64.dfy` | Base64 (section 4 of RFC 4648) |
| `KnownAnswers.dfy` | published texts of Base64, C strings and CSV |

`dafny verify dfyconfig.toml` checks all of it.

## What the code does that one would not expect

Where code and expectation part, the model follows the code and a lemma says exactly when.

- `HttpRequest::parseRequest` does depend on the split: a piece that ends right behind the
  request line or a header line empties the buffer, `String::toChars` of an empty string is a
  null pointer, and the header stage searches it (`SplitIndependent`, `SplitBehindLine`).
- A header line without a colon is refused when no colon has arrived behind it, and otherwise is
  part of the next header's name (`ColonlessLine`).  So a head with such a line depends on the
  pieces (`ColonlessSplit`, `ColonlessWitness`).
- `strtol` skips line ends, so behind a size line of nothing but blanks the chunked decoder takes
  its number from the bytes that follow, before all of it may have arrived.  The payloads it hands
  on and its outcome depend on the pieces if and only if, somewhere the scan gets to, a line end is
  among the next six bytes and the number found on the line and two more bytes (neither positive nor,
  together with the length it is added to, negative) is changed by the bytes behind them
  (`SteadyLine`, `SplitExact`; `BytesDependOnPieces` is such a stream).
- With more than one block of leftover, `IHttpReader::procBlocks` delivers nothing before the end,
  because the room in the block wraps around (`CutConserves`, `HttpReader.ProcBlocks`).
- A response body that arrives with more bytes behind it in the same piece never completes
  (`Receive`).
- Chunk extensions, and chunks of more than four digits, are refused (`LongSizeRefused`).
- Suffix ranges and empty files are always refused (`SuffixAlwaysRefused`, `WholeFile`); the
  character behind the unit is not looked at, and of several ranges the first is served
  (`ClosedRangeMeaning`).
- `expget` overflows for dates before 1901-12-13T20:46 that the formats allow, as it does after
  2038-01-19T03:14:07 (`OverflowExact`).
- When the bytes are a multiple of the block size the chunked listener gets `onResponse(NULL, 0)`
  twice: for the empty last block, whose `toChars` is a null pointer, and as the end mark.
- The MD5 counter is exact modulo the 32-bit cut of the piece length (`CounterExact`), and its loop
  index wraps for pieces close to 2^32 bytes (`IndexWraps`).
- The middle case of the IPv4 test of `inet_ntop6` (a run of seven words) never decides anything,
  because word 6 then lies in the run and is skipped before the test (`Format`).

## Assumptions

- A `char` or `byte` is one byte.  Text handled as C strings holds no NUL.  The chunked decoder's
  search for a line end looks at the valid bytes only.
- An empty block in `delivered` stands for the call `onResponse(NULL, 0)`, which is also the end mark
  of the chunked decoder; the model keeps the end mark apart, as `finished`.
- No buffer is longer than 2^63 bytes (`SplitExact`).
- Kernel, file system, waits and callbacks of the sender are arbitrary; listener callbacks succeed.
- The GMT offset is 0 and `gmtime_r` is the function `GmTime`; time 0 means the given current time.
- A fresh lock has owner 0 and count 0, and thread numbers are not 0; pthread calls succeed.
- A signed int that leaves its range has the outcome `Overflow`, about which nothing is claimed.
- A length that wraps around to nearly 2^64 makes an allocation fail.

## Model

| member | source | states |
|---|---|---|
| `Inet.NtoP4` | lib/net/Hostname.cpp:481-492 | prints the dotted quad, or refuses when the text with its NUL does not fit |
| `Inet.PtoN4` | lib/net/Socket.cpp:822-867 | the array loop computes the octets of exactly the accepted texts |
| `Inet.RoundTrip4` | lib/net/Socket.cpp:822-867 | parsing the printed form of any four octets gives them back |
| `Inet.Parse4Exact` | lib/net/Socket.cpp:822-867 | a text parses to four octets if and only if it is the text the printer writes for them |
| `Inet6.LoadWords` | lib/net/Hostname.cpp:517-519 | the byte loop fills the eight words with the big-endian byte pairs |
| `Inet6.FindRun` | lib/net/Hostname.cpp:520-543 | the scan finds the first longest maximal run of zero words, and none when every run is a single word (section 4.2 of RFC 5952) |
| `Inet6.CompressedUnique` | lib/net/Hostname.cpp:520-543 | that run is unique, so the printed form is |
| `Inet6.Format` | lib/net/Hostname.cpp:548-574 | the format loop writes the words before the run, a double colon, the words behind it, and a dotted quad for mapped and compatible addresses |
| `Inet6.NtoP6` | lib/net/Hostname.cpp:494-584 | the whole printer: one text per address, whatever names its best run, refused when it does not fit |
| `Inet6.TextFits` | lib/net/Hostname.cpp:507-576 | every text fits the 46-byte temporary with its NUL |
| `Inet6.ScanText` | lib/net/Socket.cpp:885-938 | the character loop stores words, remembers the gap and hands a dotted tail to the IPv4 parser |
| `Inet6.ShiftToEnd` | lib/net/Socket.cpp:939-956 | the overlapping in-place shift moves the bytes behind the gap to the end and leaves zeros between |
| `Inet6.PtoN6` | lib/net/Socket.cpp:869-963 | the whole parser: sixteen bytes or a refusal |
| `Inet6.RoundTrip6` | lib/net/Socket.cpp:869-963 | for every address, parsing the text with its best run compressed gives back the sixteen bytes |
| `Inet6.RoundTripAddress` | lib/net/Hostname.cpp:494-584 | printer and parser called one after the other are the identity on every address |
| `Inet6Texts.FullText` | lib/net/Socket.cpp:869-963 | the parser takes eight words, or six and a dotted quad, in digits of either case and with any leading zeros, and gives their bytes (section 2.2 of RFC 4291) |
| `Inet6Texts.GapText` | lib/net/Socket.cpp:869-963 | so it does with a double colon anywhere, for the zero bytes that are missing |
| `Inet6Texts.JoinIsJoined` | lib/net/Hostname.cpp:569 | written words have lower-case digits and no leading zeros (section 4 of RFC 5952) |
| `Inet6Texts.DottedExactly` | lib/net/Hostname.cpp:559-566 | a dotted quad is written exactly for IPv4-mapped addresses and for those with twelve zero bytes whose next two are not zero |
| `Chars.DecSpells` | lib/net/Hostname.cpp:481-492 | numbers are written in decimal digits without leading zeros |
| `Chars.HexOfExact` | lib/httpd/HttpdUtil.cpp:31-45 | the hexadecimal digits and their values, in either case |
| `Chars.CaseFolded` | lib/lang/String.cpp:152-161 | comparing without case folds the letters A to Z and nothing else |
| `Range.PlanInsideFile` | lib/httpd/HttpdClient.cpp:576-673 | whatever the header, accepted bounds satisfy start <= end < size and length = end - start + 1 in spite of 64-bit wrap-around on the way |
| `Range.ClosedRangeMeaning` | lib/httpd/HttpdUtil.cpp:316-354 | bytes=a-b, the unit in any case, is served exactly when a <= b and a is inside the file, clipped to its last byte, whatever follows b |
| `Range.OpenRangeMeaning` | lib/httpd/HttpdUtil.cpp:337-343 | bytes=a- is served exactly when a is inside the file, up to its last byte |
| `Range.SuffixAlwaysRefused` | lib/httpd/HttpdClient.cpp:630-640 | a suffix range is refused for every file, because the start is never computed from it, and so is bytes=0-0,-1 |
| `Range.WholeFile` | lib/httpd/HttpdClient.cpp:577-582 | without a usable range a file is served whole, but an empty file never is |
| `Range.NoLiveRange` | lib/httpd/HttpdUtil.cpp:286-300 | without a Range header, with an empty one or with a stale If-Range, every file but the empty one is served whole with 200, whatever the other headers |
| `Range.AcceptRange` | lib/httpd/HttpdUtil.cpp:302-309 | a live range is refused for an Accept-Range other than bytes or none in any case; otherwise that header does not matter |
| `Range.OtherUnit` | lib/httpd/HttpdUtil.cpp:311-315 | a live range that does not start with the word bytes is refused |
| `Sender.Socket.Send` | lib/net/Socket.cpp:597-663 | under any answers of the kernel the wire grows by exactly the reported beginning of the data; success means all of it |
| `Sender.Client.SendStream` | lib/httpd/HttpdClient.cpp:462-504 | keeps the sender invariant and completes exactly when the header is out |
| `Sender.Client.SendLocalFileReady` | lib/httpd/HttpdClient.cpp:506-735 | plans the response and starts the header; a refused range sends nothing |
| `Sender.Client.Refill` | lib/httpd/HttpdClient.cpp:784-835 | a read of any length advances the file offset by the bytes it gave, which are the next ones to send |
| `Sender.Client.SendChunk` | lib/httpd/HttpdClient.cpp:842-861 | after a short send the unsent bytes are kept in front of the buffer; the offset stays start + sent + buffered |
| `Sender.Client.SendBody` | lib/httpd/HttpdClient.cpp:764-862 | one step of the body state keeps the invariant and never loses or repeats sent bytes |
| `Sender.Client.SendLocalFile` | lib/httpd/HttpdClient.cpp:737-880 | one step of the four-state machine keeps the invariant, never goes back a state, and reports completion only in the last one |
| `Sender.Run` | lib/httpd/HttpdClient.cpp:229-249 | any number of retries keeps the invariant; when no wait, read or send fails it completes in as many calls as the file has bytes, and a few |
| `Sender.Serve` | lib/httpd/HttpdClient.cpp:718-880 | in every run the wire holds a prefix of header and requested bytes, and all of them when the run completes, which it does when nothing fails |
| `ResponseHead.HeadRead` | lib/httpd/HttpResponse.cpp:23-83 | a client that reads the written header line by line finds the status, length and range of the plan, and then exactly the body |
| `Sender.ResponseIsTruthful` | lib/httpd/HttpdClient.cpp:675-685 | for every accepted request the header read that way is true of the bytes behind it: Content-Length is their number, Content-Range their place in the file, and without it they are the file |
| `Sender.ServeFile` | lib/httpd/HttpdClient.cpp:506-880 | from the request's headers to the wire: what a client reads off a completed run is the plan of those headers and true of the bytes; without a live range they are the file |
| `Reblock.FeedConserves` | lib/http/IHttpReader.cpp:83-122 | blocks and pending bytes together are the input in order, every block is full, less than a block is pending |
| `Reblock.FeedAppend` | lib/http/IHttpReader.cpp:83-122 | re-blocking two pieces one after the other is re-blocking them at once |
| `Reblock.CutConserves` | lib/http/IHttpReader.cpp:83-122 | no byte is lost by one call, also when the leftover exceeds a block and the room wraps around |
| `Reblock.HttpReader.Reset` | lib/http/IHttpReader.cpp:16-28 | bytes read with the header become the pending bytes, once |
| `Reblock.HttpReader.DeliverBlocks` | lib/http/IHttpReader.cpp:94-121 | the loop ends and delivers what the cutting function says |
| `Reblock.HttpReader.ProcBlocks` | lib/http/IHttpReader.cpp:83-122 | delivered and pending bytes grow by the piece, and the receive counter is the length of both |
| `Reblock.HttpReader.ReadLastBlocks` | lib/http/IHttpReader.cpp:75-81 | flushes the rest when, and only when, the announced length has arrived |
| `Reblock.Receive` | lib/http/IHttpReader.cpp:30-73 | over any pieces the listener gets a prefix of the body in full blocks, all of it on completion, and only the last block is short; it completes exactly when a piece ends at the announced length |
| `Chunked.HttpChunked.ProcChunkedBlocks` | lib/http/HttpChunked.cpp:13-57 | delivers the full blocks, and the rest and the end mark on the last call |
| `Chunked.HttpChunked.FillBlocks` | lib/http/HttpChunked.cpp:24-56 | the loop ends and agrees with the same cutting function as the plain reader |
| `Chunked.HttpChunked.ReadSize` | lib/http/HttpChunked.cpp:71-93 | the checks of one turn, with the 64-bit sum of size and framing |
| `Chunked.HttpChunked.TakeChunks` | lib/http/HttpChunked.cpp:70-101 | the loop hands on exactly the payloads of the complete chunks and says why it stopped |
| `Chunked.HttpChunked.ParseChunkedBlocks` | lib/http/HttpChunked.cpp:59-107 | besides, the bytes not consumed are moved to the front of the buffer |
| `Chunked.SolidTurn` | lib/http/HttpChunked.cpp:70-101 | behind a size line that is not blank, a decision taken on a part of the stream is not changed by the bytes that follow |
| `Chunked.ScanExtend` | lib/http/HttpChunked.cpp:70-107 | scanning a part, keeping the leftover and going on is scanning the whole, wherever no turn is decided differently with more bytes |
| `Chunked.FragmentationIndependent` | lib/http/HttpChunked.cpp:59-107 | payloads and outcome do not depend on the pieces, for all streams on which no turn is decided differently with more bytes |
| `Chunked.SolidLinesSteady` | lib/http/HttpChunked.cpp:70-101 | streams without a blank size line are among them |
| `ChunkSplits.SteadyExact` | lib/http/HttpChunked.cpp:71-93 | a turn may be decided differently exactly when the number strtol finds behind a line end among the first six bytes is changed by later bytes |
| `ChunkSplits.SplitExact` | lib/http/HttpChunked.cpp:59-107 | payloads handed on and outcome are the same for all lists of pieces if and only if that is so nowhere in the stream |
| `ChunkSplits.BytesDependOnPieces` | lib/http/HttpChunked.cpp:79-90 | a stream of nine bytes of which five are delivered when it comes at once and none when it comes in two pieces |
| `Chunked.ScanEncoded` | lib/http/HttpChunked.cpp:70-101 | a well-formed message scans to its payloads and ends at the zero chunk (section 4.1 of RFC 7230) |
| `Chunked.LongSizeRefused` | lib/http/HttpChunked.cpp:83-86 | a size line of more than four bytes is refused, so chunk extensions are (section 4.1.1 of RFC 7230) |
| `KnownAnswers.NumberForms` | lib/http/HttpChunked.cpp:79 | blanks, signs and the prefix 0x as strtol and atoll read them |
| `Chunked.Decode` | lib/http/HttpChunked.cpp:122-142 | the decoder object over any pieces equals one scan of the whole stream |
| `Chunked.DecodeMessage` | lib/http/HttpChunked.cpp:59-142 | a well-formed message in any pieces: exactly the payloads, in full blocks but the last, nothing pending, finished |
| `SafeLock.StepInv` | lib/base/Object.cpp:57-99 | every atomic step of every thread keeps the lock invariant |
| `SafeLock.NextInv` | lib/base/Object.cpp:57-99 | so does every call |
| `SafeLock.MutualExclusion` | lib/base/Object.cpp:65-98 | two threads are never inside one lock, an owner field naming a thread means it holds the mutex, and the mutex is held exactly while its calls do not balance |
| `SafeLock.StepRefines` | lib/base/Object.cpp:57-99 | every step is invisible to a recursive mutex or is one of its lock and unlock operations, on that lock only |
| `SafeLock.RunInv` | lib/base/Object.cpp:57-99 | the invariant holds in every state of every interleaving |
| `SafeLock.RunRefines` | lib/base/Object.cpp:57-99 | every interleaving, seen through the abstraction, is a run of a recursive mutex that starts free |
| `SafeLock.LoneLock` | lib/base/Object.cpp:57-79 | a call of lock on a mutex that is free or its own returns in four steps, with the lock once more and nothing else changed |
| `SafeLock.LoneUnlock` | lib/base/Object.cpp:81-99 | a call of unlock returns in seven steps, with the lock once less, or unchanged without it |
| `SafeObject.WorldNextInv` | lib/base/Object.cpp:117-162 | lock creation and reference counting on top keep their invariant at every step |
| `SafeObject.RunSafe` | lib/base/Object.cpp:117-162 | in every interleaving an object has at most one lock object, and no two threads are between the load and the store of its count |
| `SafeCalls.LogNextInv` | lib/base/Object.cpp:117-162 | every step of every thread keeps a log of the calls true |
| `SafeCalls.LogFollows` | lib/base/Object.cpp:117-162 | the log hinders no step |
| `SafeCalls.RunCounts` | lib/base/Object.cpp:148-162 | in every interleaving the count of an object is the returned calls of incRefCount minus those of decRefCount, with those that have stored and not returned; the plain difference when none is under way |
| `SafeCalls.RunHolds` | lib/base/Object.cpp:117-162 | in every interleaving a thread outside has an object's lock exactly while its returned lock calls are not undone by its returned unlock calls, whatever it did to the count |
| `Md5.EncodeWords` | lib/util/MD5.cpp:76-89 | the loop writes the little-endian bytes of the words |
| `Md5.DecodeBytes` | lib/util/MD5.cpp:91-101 | the loop reads little-endian words |
| `Md5.DecodeEncode` | lib/util/MD5.cpp:76-101 | the two are inverse |
| `Md5.MD5.Transform` | lib/util/MD5.cpp:103-189 | the 64 operations, added to the state |
| `Md5.FoldAppend` | lib/util/MD5.cpp:219-227 | compressing in two goes is compressing at once |
| `Md5.AddBitsMeaning` | lib/util/MD5.cpp:211-215 | the two counter words count eight bits a byte modulo 2^64, of the length cut to 32 bits |
| `Md5.CounterExact` | lib/util/MD5.cpp:211-215 | the counter is the true bit count if and only if the cut loses nothing modulo 2^61 |
| `Md5.ShortFits` | lib/util/MD5.cpp:224-225 | for pieces up to 2^32 - 64 bytes the 32-bit loop index cannot wrap |
| `Md5.IndexWraps` | lib/util/MD5.cpp:224-225 | otherwise the loop goes past the last whole block exactly when the sum in its test wraps |
| `Md5.MD5.CountBytes` | lib/util/MD5.cpp:211-215 | the carry keeps the counter at eight times the bytes so far |
| `Md5.MD5.Blocks` | lib/util/MD5.cpp:217-227 | completes the buffered block and takes the whole blocks of the input |
| `Md5.MD5.Update` | lib/util/MD5.cpp:203-233 | state and buffer are those of the concatenated message |
| `Md5.MD5.Finalization` | lib/util/MD5.cpp:235-256 | the result is the digest of the message padded as in sections 3.1 and 3.2 of RFC 1321 |
| `Md5.Hash` | lib/util/MD5.cpp:191-256 | any sequence of updates and a finalization: the digest of the concatenation |
| `Md5Answers.FBits` | lib/util/MD5.cpp:23 | F takes c where b is set and d elsewhere |
| `Md5Answers.GBits` | lib/util/MD5.cpp:24 | G takes b where d is set and c elsewhere |
| `Md5Answers.HBits` | lib/util/MD5.cpp:25 | H is the parity |
| `Md5Answers.IBits` | lib/util/MD5.cpp:26 | I flips c where b is set or d is not, and keeps it elsewhere |
| `Md5Answers.RotateCarries` | lib/util/MD5.cpp:29 | a rotation multiplies by 2^n and adds what leaves the word at the bottom |
| `Md5Answers.InitialBytes` | lib/util/MD5.cpp:197-200 | the initial registers are the bytes 01 23 45 67 89 ab cd ef fe dc ba 98 76 54 32 10 |
| `Md5Answers.Lines1` | lib/util/MD5.cpp:111-126 | input word, rotation and constant of the sixteen operations of the first round |
| `Md5Answers.Lines2` | lib/util/MD5.cpp:129-144 | of the second |
| `Md5Answers.Lines3` | lib/util/MD5.cpp:147-162 | of the third |
| `Md5Answers.Lines4` | lib/util/MD5.cpp:165-180 | of the fourth |
| `Md5Empty.KnownDigest` | lib/util/MD5.cpp:103-256 | the digest of the empty message is d41d8cd98f00b204e9800998ecf8427e (section A.5 of RFC 1321) |
| `Md5Abc.KnownDigest` | lib/util/MD5.cpp:103-256 | that of abc is 900150983cd24fb0d6963f7d28e17f72 |
| `Csv.OutputCsv` | packages/sqlite3/shell.c:767-796 | a field is written bare exactly when it is non-empty and no byte calls for quotes, else with its quotes doubled |
| `Csv.ImportCtx.CsvReadOneField` | packages/sqlite3/shell.c:2181-2241 | the character machine as a function of the unread input: text, terminator, rest |
| `Csv.ImportCtx.ReadQuoted` | packages/sqlite3/shell.c:2193-2226 | its loop on a quoted field |
| `Csv.ImportCtx.DropFromQuote` | packages/sqlite3/shell.c:2211 | the search back for the closing quote stays inside the field |
| `Csv.ImportCtx.ReadBare` | packages/sqlite3/shell.c:2228-2237 | its loop on a bare field |
| `Csv.FieldRoundTrip` | packages/sqlite3/shell.c:2181-2241 | every written field, followed by separator or line end, is read back and leaves the rest of the file |
| `Csv.RowRoundTrip` | packages/sqlite3/shell.c:971-985 | so is every row |
| `Csv.RowFits` | packages/sqlite3/shell.c:3117-3150 | a written row of any length read for n columns: what is missing is NULL, what is too much is dropped up to the line end |
| `Csv.TableRoundTrip` | packages/sqlite3/shell.c:767-796 | a whole table comes back field by field with the same row breaks, its rows filled or cut to the columns (RFC 4180) |
| `Csv.WriteTable` | packages/sqlite3/shell.c:971-985 | the row callback in CSV mode writes the text of the table |
| `Csv.ReadColumns` | packages/sqlite3/shell.c:3117-3138 | the column loop: missing columns become NULL, the end of the file is noticed before a row |
| `Csv.ImportTable` | packages/sqlite3/shell.c:3115-3156 | the row loop, with surplus fields skipped |
| `Csv.ExportImport` | packages/sqlite3/shell.c:3005-3012 | writing a table and importing the text gives the table, its rows filled or cut to the columns |
| `KnownAnswers.CsvBare` | packages/sqlite3/shell.c:767-796 | a field is written bare exactly when it is some printable bytes without quote, apostrophe and separator |
| `KnownAnswers.CsvQuote` | packages/sqlite3/shell.c:785-788 | a quote inside a field is doubled |
| `KnownAnswers.CsvLineEnds` | packages/sqlite3/shell.c:2228-2237 | a line feed ends a row, and a carriage return before it is not part of the field |
| `CString.OutputCString` | packages/sqlite3/shell.c:675-701 | the writer's loop escapes byte by byte, in octal with three digits where not printable |
| `CString.ResolveEscaped` | packages/sqlite3/shell.c:1965-2007 | resolving an escaped string gives back every byte sequence |
| `CString.Rewrite` | packages/sqlite3/shell.c:1969-2006 | the in-place loop: the write index never passes the read index, nothing outside the string changes |
| `CString.ResolveBackslashes` | packages/sqlite3/shell.c:1965-2007 | the string is replaced by its resolved form, ended by a 0 |
| `CString.QuotedEscaped` | packages/sqlite3/shell.c:2653-2656 | the tokenizer does not stop inside an escaped string |
| `CString.Tokenize` | packages/sqlite3/shell.c:2645-2667 | the arguments found in the line are those of the token function, each ended by a 0, at most fifty |
| `CString.LineRoundTrip` | packages/sqlite3/shell.c:2645-2667 | tokenizing quoted arguments gives the arguments |
| `CString.TypedRoundTrip` | packages/sqlite3/shell.c:2645-2667 | so does tokenizing arguments in quotes, in apostrophes and bare, mixed, up to the number that fits |
| `CString.QuoteAndTokenize` | packages/sqlite3/shell.c:675-701 | writer, tokenizer and in-place resolution one after the other are the identity on argument lists |
| `KnownAnswers.CEscapes` | packages/sqlite3/shell.c:675-701 | the escapes that are written: those of the C language for tab, line ends, quote and backslash, three octal digits of the byte for the rest that is not printable |
| `KnownAnswers.CSequences` | packages/sqlite3/shell.c:1970-2003 | what the letters and digits behind a backslash are read as |
| `XmlTree.Xml.FindClosed` | lib/xml/XmlParser.cpp:553-562 | finds the innermost open element of the name, ignoring case |
| `XmlTree.Xml.SetClosedNode` | lib/xml/XmlParser.cpp:551-571 | closes everything down to that element, or nothing |
| `XmlTree.Xml.Insert` | lib/xml/XmlParser.cpp:538-585 | the node becomes the last child of the innermost open element, or the last root |
| `XmlTree.Xml.Append` | lib/xml/XmlParser.cpp:573-594 | children lists and open list keep standing for a forest, which grows by one node |
| `XmlTree.GrowPreorder` | lib/xml/XmlParser.cpp:573-594 | every append puts its node at the end of the preorder traversal |
| `XmlTree.OpenAfter` | lib/xml/XmlParser.cpp:551-594 | after every append: a tag that does not close itself is open on top, an end tag has closed everything down to the innermost element of its name, all else leaves the open elements |
| `XmlTree.OpenListIsRightSpine` | lib/xml/XmlParser.cpp:538-571 | each open element is the last child of the one below it, the first one the last root |
| `XmlTree.TreeUnique` | lib/xml/XmlParser.cpp:573-594 | children lists stand for one tree only |
| `XmlTree.Build` | lib/xml/XmlParser.cpp:573-594 | for any sequence of nodes the result is a forest whose preorder traversal is the sequence |
| `XmlTree.CloseTop` | lib/xml/XmlParser.cpp:551-571 | an end tag whose element is on top closes exactly that element |
| `XmlTree.BalancedDocument` | lib/xml/XmlParser.cpp:573-594 | a balanced document becomes exactly the trees of its elements |
| `XmlTree.ElementIsInterval` | lib/xml/XmlParser.cpp:573-594 | the subtree of an element is its nodes from start tag to end tag, in order |
| `XmlTree.ForestKinds` | lib/xml/XmlParser.cpp:573-594 | whatever is appended, only tags that do not close themselves get children |
| `XmlTree.Xml.Text` | lib/xml/XmlParser.cpp:597-613 | the recursive walk over the children lists computes the text of the tree |
| `XmlTree.TextIsInOrder` | lib/xml/XmlParser.cpp:597-613 | that text is the concatenation, in document order, of all text nodes below the node |
| `XmlTree.ElementText` | lib/xml/XmlParser.cpp:573-613 | for every element of a balanced document, at its place in it: the children lists hold its tree and its text is the texts of its own text nodes, joined in order |
| `XmlTree.TextOfElement` | lib/xml/XmlParser.cpp:573-613 | so for the objects: append a balanced document node by node, ask any element for its text |
| `Calendar.GmTimeCorrect` | lib/util/Time.cpp:110-131 | the time broken down as by gmtime_r is a date of the calendar that stands for the same second |
| `Calendar.SecondsInjective` | lib/util/Time.cpp:110-131 | and the only one |
| `Calendar.MarchDaysCorrect` | lib/httpd/HttpdUtil.cpp:129-134 | the closed day count with its truncating divisions is the sum of the Gregorian year lengths from 1970, from 1900 on |
| `HttpDate.ClosedDaysCorrect` | lib/httpd/HttpdUtil.cpp:119-134 | with the month table it is the day number of every date |
| `HttpDate.ExpGet` | lib/httpd/HttpdUtil.cpp:119-145 | the seconds of the date; every int on the way fits exactly when the time without its seconds is not below INT_MIN and the time is not above INT_MAX |
| `HttpDate.YearsThatFit` | lib/httpd/HttpdUtil.cpp:119-145 | no date from 1970 to 2037 overflows or is refused |
| `HttpDate.LastSecond` | lib/httpd/HttpdUtil.cpp:136-138 | 2038-01-19T03:14:07 is the last second that fits |
| `HttpDate.OverflowExact` | lib/httpd/HttpdUtil.cpp:136-142 | the dates that overflow are exactly those before 1901-12-13T20:46 and those after 2038-01-19T03:14:07, in the order of their year, month, day, hour and minute |
| `HttpDate.IsDateMask` | lib/httpd/HttpdUtil.cpp:82-114 | the mask loop accepts exactly the texts that fit up to the star |
| `HttpDate.DayChecksExact` | lib/httpd/HttpdUtil.cpp:222-251 | the day checks pass exactly the days that exist in the Gregorian calendar |
| `HttpDate.MonthNumber` | lib/httpd/HttpdUtil.cpp:232-239 | the comparison of packed letters finds the month of that name |
| `HttpDate.CheckAndConvert` | lib/httpd/HttpdUtil.cpp:222-268 | refuses exactly what is no date, else the calendar's seconds |
| `HttpDate.ParseToTime` | lib/httpd/HttpdUtil.cpp:148-271 | the whole parser against the calendar |
| `HttpDate.SpellingsAgree` | lib/httpd/HttpdUtil.cpp:181-220 | the RFC 1123, RFC 850 and asctime spellings of every date from 1970 to 2069 parse to the calendar's result |
| `HttpDate.AnyFields` | lib/httpd/HttpdUtil.cpp:181-268 | any fields in the RFC 1123 and asctime spellings, for all four-digit years: the calendar's result for the dates that exist from 1900 on, a refusal for all others |
| `HttpDate.LeadingSpaces` | lib/httpd/HttpdUtil.cpp:168-171 | blanks in front do not matter |
| `HttpDate.GetDateStringRfc822` | lib/util/Time.cpp:386-431 | writes 29 characters and a NUL inside the buffer, the date of the time |
| `HttpDate.DateRoundTrip` | lib/util/Time.cpp:386-431 | parsing the written date gives back every 32-bit time |
| `HttpDate.PublishedRead` | lib/httpd/HttpdUtil.cpp:148-271 | the date of section 7.1.1.1 of RFC 7231 is read as 784111777 in its three spellings |
| `HttpDate.PublishedWritten` | lib/util/Time.cpp:386-431 | and that time is written as it stands there |
| `HttpDate.WeekdaySteps` | lib/util/Time.cpp:386-431 | weekdays go on by one a day from Thursday |
| `HttpDate.MonthNames` | lib/httpd/HttpdUtil.cpp:232-239 | the months by their names |
| `RequestHead.DecodeUrl` | lib/httpd/HttpdUtil.cpp:21-62 | the decoding loop stays inside its buffer and computes the decoded text up to its first NUL |
| `RequestHead.DecodeExact` | lib/httpd/HttpdUtil.cpp:21-62 | a text decodes to x if and only if it is an encoding of x: bytes as themselves, plus for a blank, percent forms in either case, and percent signs without digits as they are |
| `RequestHead.HttpRequest.ReadLine` | lib/httpd/HttpRequest.cpp:101-165 | takes the request line apart or reports why not |
| `RequestHead.HttpRequest.SetTarget` | lib/httpd/HttpRequest.cpp:132-143 | file, extension and query of the decoded target |
| `RequestHead.FieldsOf` | lib/httpd/HttpRequest.cpp:132-143 | the file is the decoded target up to its first question mark, the query what follows it, the extension what follows the last dot of the file |
| `RequestHead.TargetUnique` | lib/httpd/HttpRequest.cpp:132-143 | there is one such way to take a target apart |
| `RequestHead.LineParsed` | lib/httpd/HttpRequest.cpp:101-165 | a written request line is split where it was joined, its target into file, extension and query |
| `RequestHead.AcceptedLine` | lib/httpd/HttpRequest.cpp:101-165 | every accepted request line is the method, an encoding of the target and the protocol, joined, with the fields of that target |
| `RequestHead.HttpRequest.ParseRequestReady` | lib/httpd/HttpRequest.cpp:88-170 | the first stage |
| `RequestHead.HttpRequest.ParseRequestHeaders` | lib/httpd/HttpRequest.cpp:172-242 | one header, the blank line, or a wait |
| `RequestHead.FieldsByName` | lib/httpd/HttpRequest.cpp:208-239 | every field kept apart listens to one header name only and is changed by no other, though the names are tried one after the other |
| `RequestHead.ContainsMeans` | lib/httpd/HttpRequest.cpp:233 | the search for max-age finds it exactly when it is there |
| `RequestHead.HttpRequest.ParseRequest` | lib/httpd/HttpRequest.cpp:244-273 | one call: append, then as far as the bytes allow |
| `RequestHead.HeadersParsed` | lib/httpd/HttpRequest.cpp:172-242 | written headers are read back one by one, trimmed, and the body is left |
| `RequestHead.HeadRoundTrip` | lib/httpd/HttpRequest.cpp:244-273 | a written head comes back whole: line, decoded target with file, extension and query, headers, and the body as leftover |
| `RequestHead.LastHeaderKept` | lib/http/HttpHeader.cpp:15-21 | of several headers with one name the last is kept |
| `RequestHead.LastConnectionDecides` | lib/httpd/HttpRequest.cpp:212-217 | the last Connection header decides whether the connection is kept |
| `RequestHead.NamelessRefused` | lib/httpd/HttpRequest.cpp:187-194 | a header line that starts with its colon is refused |
| `RequestHead.OneShot` | lib/httpd/HttpRequest.cpp:244-273 | parsed at once, the leftover is what follows the blank line |
| `RequestHead.HeadersExtend` | lib/httpd/HttpRequest.cpp:172-242 | the header loop on a part of the lines waits or goes on as on the whole, unless the part ends right behind a line |
| `RequestHead.FeedReady` | lib/httpd/HttpRequest.cpp:244-273 | the same from the request line on, from any waiting state |
| `RequestHead.SplitIndependent` | lib/httpd/HttpRequest.cpp:88-273 | for every well-formed head and every split: same request and same leftover exactly when no piece inside the head ends right behind a line; otherwise a null pointer is searched |
| `RequestHead.SplitBehindLine` | lib/httpd/HttpRequest.cpp:176-177 | a head and a split for which that happens |
| `RequestHead.TrimMeans` | lib/lang/String.cpp:190-211 | trimming takes off blanks, tabs and line ends at both ends, all of them and nothing else |
| `RequestHead.ColonlessLine` | lib/httpd/HttpRequest.cpp:187-200 | a header line without colon is refused when there is none behind it; otherwise it is stored, with the bytes up to that colon, as a name without value, and parsing goes on behind the line |
| `RequestHead.ColonlessSplit` | lib/httpd/HttpRequest.cpp:187-200 | every head with such a line: refused when the first piece ends between it and the next colon, taken in one piece |
| `RequestHead.ColonlessWitness` | lib/httpd/HttpRequest.cpp:187-200 | a head for which that happens, with a piece that does not end behind a line |
| `RequestHead.ReceiveHead` | lib/httpd/HttpdClient.cpp:61-130 | the receive loop over the pieces ends as the split theorem says |
| `PollTable.Poll.Prepare` | lib/net/Poll.cpp:126-160 | growing keeps every entry; without memory nothing changes |
| `PollTable.Poll.Append` | lib/net/Poll.cpp:162-184 | one entry more at the end, with a slot to spare |
| `PollTable.Poll.Remove` | lib/net/Poll.cpp:186-205 | the last entry takes the place of the removed one; other positions change nothing |
| `PollTable.Poll.GetObject` | lib/net/Poll.cpp:221-234 | succeeds exactly at positions inside the table |
| `PollTable.PollErrMeans` | lib/net/Poll.cpp:294-303 | the error reported is one that is set, it is none exactly when none of the three is, and a hang-up is reported only when it is alone |
| `PollTable.Poll.ResetRevents` | lib/net/Poll.cpp:250-254 | clears the events of one entry only |
| `PollTable.Turn` | lib/httpd/HttpdSendStream.cpp:61-126 | one turn removes an entry that failed or completed and resets another; the lookup cannot fail |
| `PollTable.RunSweep` | lib/httpd/HttpdSendStream.cpp:54-128 | the descending loop while other threads append |
| `PollTable.SendPackets` | lib/httpd/HttpdSendStream.cpp:37-130 | the whole pass, with nothing to do, a poll error and no events |
| `PollTable.ExaminedIsInitial` | lib/httpd/HttpdSendStream.cpp:54-128 | each entry present at the start is looked at exactly once, from the last to the first, and no other |
| `PollTable.SweepBalance` | lib/httpd/HttpdSendStream.cpp:54-128 | as a bag of (fd, object) pairs the table is what was not reached, the survivors, and what was appended meanwhile |
| `PollTable.FullSweep` | lib/httpd/HttpdSendStream.cpp:54-128 | a pass that is not stopped keeps exactly the pairs without an error event that neither completed nor failed a send, and the new ones |
| `PollTable.SweepClears` | lib/httpd/HttpdSendStream.cpp:124-126 | after it every entry but the new ones has its events cleared |
| `Base64.EncodeText` | lib/util/Base64.cpp:127-167 | the encoding loop stays inside its buffer |
| `Base64.EncodedLength` | lib/util/Base64.cpp:137-141 | four characters for every three bytes begun, which is the computed length |
| `Base64.DecodeLen` | lib/util/Base64.cpp:38-55 | more than any decoding of the text needs |
| `Base64.DecodeBinary` | lib/util/Base64.cpp:58-106 | for every text writes exactly as many bytes as it returns, inside the buffer, and they are the decoding |
| `Base64.BytesLength` | lib/util/Base64.cpp:67-105 | the returned count for every number of characters |
| `Base64.DecodeEncode` | lib/util/Base64.cpp:58-167 | decoding an encoding gives back every byte sequence |
| `Base64.EncodeDecode` | lib/util/Base64.cpp:58-167 | encoding a decoded text of full quads gives back the text |
| `KnownAnswers.Base64Table` | lib/util/Base64.cpp:27-30 | the alphabet is Table 1 of RFC 4648 |
| `KnownAnswers.Base64Vectors` | lib/util/Base64.cpp:127-167 | the encodings of the beginnings of foobar (section 10 of RFC 4648) |

## Left out

- Sender.Socket.Send: only the form without waiting that `Socket::send` uses; the retry inside `send_raw` with waiting is not modelled.
- ResponseHead.Head: the lines that do not depend on the plan are parameters without CR and without those three names.
- Sender.Serve: multipart ranges, resizable files, module hooks and the poll-server mode are not modelled, and the file does not change while it is sent.
- Chunked.Decode: the receive window of `readBlocks` and its size limit are replaced by a list of pieces; the pull-style `readSub` is left out.
- Chunked.HttpChunked.ProcChunkedBlocks: needs a block size above zero; with zero the source passes pieces through and its last call does not end.  An empty last block is kept apart from the end mark, which in the source is the same call.
- Md5.Hash: pieces up to 2^32 - 64 bytes; `IndexWraps` says what happens to the loop index beyond.
- HttpDate.GetDateStringRfc822: years of four digits, as the source's own comment says; local time zones are left out.
- HttpDate.ExpGet: years 1900 to 9999, all that the formats can spell.
- RequestHead.HttpRequest.Keep: keeps the texts that are handed to `atoi` for Cache-Control and Upgrade-Insecure-Requests, not their values.
- RequestHead.HttpRequest.ParseRequest: the copy of all received bytes and the rewritten request line are not modelled; after a failure the fields are unspecified.
- RequestHead.ReceiveHead: the limits on size and time of the receive loop are left out.
- Csv.OutputCsv: one-character separators and fields that are not NULL, because only those can be imported.
- Csv.ImportCtx.CsvReadOneField: the growing buffer is a sequence; line numbers, warnings and interrupts are left out.
- XmlTree.Xml.Append: nodes are numbers in the order of their appending; lexing and attributes are left out.
- PollTable.Poll.Append: whether memory is available is a parameter, and entries appended during a sweep find it; the reference counts of the objects are left out.
- PollTable.SendPackets: handing a kept-alive client back to the worker and logging are left out.
- Base64.EncodeText: the 32-bit lengths of inputs near 2^29 bytes are not modelled.
- SafeObject.RunSafe: the abort on a negative reference count and 32-bit wrap-around of the counts are left out, as is the destruction of objects.
- Socket connection, DNS, SSH, database and regular expression calls, threads and signals: foreign code.
- URI parsing, content types, logging, directory and file wrappers, monitor classes: table lookups or thin wrappers.
- Sorted containers and the caches on top of them: they add no protocol of their own.
