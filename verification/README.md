# A model of cf-mssql-broker and its SQL Server drivers

This project models the hard parts of the broker and of the two database drivers it runs on, and proves what they
promise. `dafny verify dfyconfig.toml` checks all of it.

| file | what it models |
|---|---|
| `bytes.dfy` | bytes, little- and big-endian integers, results of reading |
| `framing.dfy` | `tdsBuffer`: one buffer that cuts messages into packets and puts packets together (`buf.go`) |
| `decimal_text.dfy` | decimal notation |
| `param_rewriter.dfy` | `parseParams`: `?`, `$n` and `:n` become `@pN` (`parser.go`) |
| `query_segments.dfy` | what a query is made of, and what becomes of each part |
| `unicode.dfy` | UTF-16 and UTF-8 conversions of both drivers |
| `datetime.dfy`, `decimal.dfy` | datetimeoffset arithmetic, exact decimal text |
| `calendar.dfy` | the Gregorian calendar, and the dates that day numbers stand for |
| `value_codec.dfy`, `param_stream.dfy` | TYPE_INFO and values: what the bytes mean, and the loops that write them |
| `prelogin.dfy`, `login7.dfy` | the PRELOGIN table and the LOGIN7 table |
| `wire_forms.dfy` | what the peer finds on the wire, byte by byte |
| `tokens.dfy` | tokens: what a response means, as functions of its bytes |
| `token_reader.dfy` | the readers and the token loop over the packet buffer, packet-size changes included |
| `server_bytes.dfy`, `server_tokens.dfy`, `cell_values.dfy` | what a server writes, byte by byte: column types, tokens, cells; and that it is understood |
| `odbc_lifetimes.dfy`, `odbc_guarantees.dfy` | lifetimes of ODBC handles: all interleavings as a state machine with its invariant, and what every run promises |
| `odbc.dfy` | the same objects with their methods, run by one thread |
| `long_column.dfy` | reading a long column in pieces |
| `broker.dfy`, `broker_guarantees.dfy` | the broker protocol: all interleavings with crashes as a state machine with its invariant, and what every run promises |
| `broker_requests.dfy` | one request at a time |
| `broker_order.dfy` | why any interleaving answers like requests served one after another |

Objects that the program updates in place are classes, its loops are loops, and each is proved against a function of
values; the properties below are proved about those functions. Two protocols are state machines over single steps,
and their theorems are about every run. For both, a lemma shows that the steps run without interference do what the
sequential methods do. For the broker, more holds: every run, interleaved and with crashes, answers as if the requests
had been served one after another (`BrokerOrder.Linearizable`).

What the bytes mean is said twice, independently. The functions of `tokens.dfy`, `value_codec.dfy` and the others follow
the code; `server_bytes.dfy`, `server_tokens.dfy`, `cell_values.dfy` and `wire_forms.dfy` write down the forms of MS-TDS
with their ids, offsets and bit weights as numbers, `calendar.dfy` counts the days of the Gregorian calendar, and
`query_segments.dfy` says what a query is made of. Theorems connect the two. So a response travels from the tokens a
server writes (`ServerTokens.ResponseIsAnswer`, its rows from SQL values by `CellValues.RowIsRead`) through any cut into
packets (`TokenReader.ProcessResponse`) to what the caller receives.

Several promises hold only under a condition. Where that is so, the model follows the code and the theorem says
exactly when:

- A value sent as a partially length-prefixed stream comes back exactly below 2^32 bytes: the chunk size wraps
  (`ValueCodec.PlpRoundTrip`). A stream from a server is put together exactly when its declared length is unknown or
  within the limit of what the Go runtime allocates, because a buffer of that length is made first
  (`ValueCodec.PlpReassembles`). That limit differs between platforms: it is a constant of the model, of which only
  the range from 2^32 to 2^63 is known.
- A TYPE_INFO comes back exactly when its type is not XML: the writer sends a size that the reader does not look for
  (`ValueCodec.TypeInfoRoundTrip`).
- A LOGIN7 string comes back exactly when it has no supplementary character: counts are in characters, data in
  UTF-16 units (`Login7.StringRead`).
- A time comes back exactly when the number of its day fits three bytes, which years 1 to 9999 do, and the minutes of
  its zone fit two (`DateTime.RoundTrip`).
- `divFloor` is floor division exactly but for the smallest int64 divided by -1 (`DateTime.DivFloorIsFloor`).
- A PRELOGIN map comes back exactly when it has no key 0xff, which ends the table (`Prelogin.RoundTrip`).
- A handle that was passed to SQLFreeHandle reaches another call exactly when that free failed, because the error is
  read from the same handle (`OdbcGuarantees.CalledAfterFreeIffItFailed`, with a run that shows it).
- Closing everything gives every statement handle back, except exactly those for which the run panicked while their
  parameters were described, before the release is deferred (`OdbcGuarantees.NothingLeaks`, with a run that shows it).
- `ReadByte` on an empty packet returns a stale byte of the buffer (`Framing.StaleByte`), so reading by it alone gets to
  the end of a message exactly when no later packet is empty (`Framing.ReadBytes`); the writer never sends an empty
  packet in a message that is not empty (`Framing.CanonicalShape`).
- After a packet-size change in the middle of a message the rest of it can be read exactly when the current packet fits
  the new buffer, or is used up and every later packet fits; otherwise a read panics (`Framing.ResizeInMessage`). So a
  response is delivered whole when each change in it leaves room for the packets that hold what is still to be read,
  and is cut short when one does not (`TokenReader.ProcessResponse`).
- The acknowledgement of a login is understood exactly when the program name of the server has at most 124 units: its
  end is computed in eight bits (`ServerTokens.ReadAck`).
- A change of language or character set, which the server announces as texts, is read as byte strings. It is read to
  its end exactly when the byte that is taken for the second length happens to be right (`ServerTokens.TextsReadAsBytes`,
  with one that cannot be read).
- Unbinding a missing binding is answered with 500, not 410: the broker returns the error for an existing binding
  (`BrokerGuarantees.UnknownErrorIsMissingBinding`).

## Model

| member | source | states |
|---|---|---|
| Framing.TdsBuffer.constructor | Godeps/_workspace/src/github.com/denisenkom/go-mssqldb/buf.go:27-35 | a new buffer has the asked size and is ready to begin a packet |
| Framing.TdsBuffer.BeginPacket | Godeps/_workspace/src/github.com/denisenkom/go-mssqldb/buf.go:79-87 | an empty message of the given type is begun, packet 1, nothing written |
| Framing.TdsBuffer.Flush | Godeps/_workspace/src/github.com/denisenkom/go-mssqldb/buf.go:37-49 | a full packet goes out with status 0, its true length and its number, and the next one is begun, exactly when the send succeeds; when it fails the peer holds a prefix of canonical packets |
| Framing.TdsBuffer.Fill | Godeps/_workspace/src/github.com/denisenkom/go-mssqldb/buf.go:54-56 | as much of the rest is copied as fits, and exactly that joins the message |
| Framing.TdsBuffer.Write | Godeps/_workspace/src/github.com/denisenkom/go-mssqldb/buf.go:51-66 | the loop ends and succeeds exactly when no send failed; then all bytes have joined the message, and otherwise the reported count says which; a full packet is sent only when more bytes follow |
| Framing.TdsBuffer.WriteByte | Godeps/_workspace/src/github.com/denisenkom/go-mssqldb/buf.go:68-77 | the byte joins the message, a full packet being sent first, exactly when no send failed |
| Framing.TdsBuffer.FinishPacket | Godeps/_workspace/src/github.com/denisenkom/go-mssqldb/buf.go:89-98 | exactly when no send failed it succeeds, and the peer then holds the canonical packets of everything written; it never holds more than a prefix of them |
| Framing.SealedIsCanonical | Godeps/_workspace/src/github.com/denisenkom/go-mssqldb/buf.go:37-98 | full packets of status 0 and a last packet of status 1 are the one canonical cut of their bytes: where the calls were cut does not show (section 2.2.3.1 of MS-TDS) |
| Framing.CanonicalShape | Godeps/_workspace/src/github.com/denisenkom/go-mssqldb/buf.go:37-98 | the canonical packets carry the message, all but the last are full, only the last has status 1, and none is empty unless the message is |
| Framing.CanonicalAt | Godeps/_workspace/src/github.com/denisenkom/go-mssqldb/buf.go:37-98 | packet i carries bytes i*cap to (i+1)*cap, with id 1+i modulo 256 |
| Framing.CanonicalReadable | Godeps/_workspace/src/github.com/denisenkom/go-mssqldb/buf.go:100-117 | a reader whose buffer is at least as large as the writer's can take every canonical packet |
| Framing.TdsBuffer.ReadNextPacket | Godeps/_workspace/src/github.com/denisenkom/go-mssqldb/buf.go:100-117 | the next packet of the peer is in the buffer, final exactly when it is the last, or part of it never arrived |
| Framing.TdsBuffer.BeginRead | Godeps/_workspace/src/github.com/denisenkom/go-mssqldb/buf.go:119-125 | the type of the message, and its first packet ready to read |
| Framing.TdsBuffer.ReadByte | Godeps/_workspace/src/github.com/denisenkom/go-mssqldb/buf.go:127-140 | the next byte; end of message exactly at its end; when the next packet is empty, the stale byte of the buffer that the code returns, and the bytes after it from then on; a panic when the byte or the next packet lies beyond the buffer |
| Framing.TdsBuffer.Byte | Godeps/_workspace/src/github.com/denisenkom/go-mssqldb/buf.go:142-148 | a byte of the message, or none at its end and where not all of it arrived or fits |
| Framing.ReadBytes | Godeps/_workspace/src/github.com/denisenkom/go-mssqldb/buf.go:127-140 | in a buffer below 65536 bytes, reading by ReadByte alone until there is no byte: that is the end, with the whole message read, exactly when no packet to come is empty, and an index panic otherwise |
| Framing.StaleByte | Godeps/_workspace/src/github.com/denisenkom/go-mssqldb/buf.go:127-140 | at the last byte of a packet that an empty one follows, ReadByte gives that byte and then the first payload byte of the buffer again |
| Framing.StaleEnd | Godeps/_workspace/src/github.com/denisenkom/go-mssqldb/buf.go:127-140 | so a one-byte message with an empty last packet is read as that byte twice, where the end should be |
| Framing.TdsBuffer.Read | Godeps/_workspace/src/github.com/denisenkom/go-mssqldb/buf.go:199-212 | a piece of what is left, never past it; end of message exactly at its end; empty only for an empty packet or an empty request; a panic when the packet, or the next one, lies beyond the buffer |
| Framing.TdsBuffer.ReadFull | Godeps/_workspace/src/github.com/denisenkom/go-mssqldb/buf.go:150-155 | exactly n bytes from as many packets as that takes, or failure, exactly because fewer were left, did not arrive or do not fit the buffer; at the end all that was left has been read |
| Framing.TdsBuffer.Resize | Godeps/_workspace/src/github.com/denisenkom/go-mssqldb/token.go:125-129 | for any size, the new buffer has it and the old contents, cut or filled up with zeros; all that is left of the message can still be read exactly when the current packet is used up or fits, and the packets to come fit |
| Framing.TdsBuffer.ReadAll | Godeps/_workspace/src/github.com/denisenkom/go-mssqldb/tds.go:197-200 | everything that is left of the message, exactly when the buffer can take it, and otherwise a panic |
| Framing.ResizeInMessage | Godeps/_workspace/src/github.com/denisenkom/go-mssqldb/token.go:125-129 | a packet-size change to any size in the middle of a canonical message: any sequence of reads that asks often enough reaches its end with nothing lost exactly when the current packet fits the new buffer, or is used up and every later one fits, and panics otherwise |
| Framing.WriteMessage | Godeps/_workspace/src/github.com/denisenkom/go-mssqldb/buf.go:51-98 | any sequence of Write and WriteByte calls sends the canonical packets of the concatenation, and reports failure exactly when a send failed |
| Framing.ReadMessage | Godeps/_workspace/src/github.com/denisenkom/go-mssqldb/buf.go:119-212 | any mix of reads, and of resizes that keep the current packet, yields a prefix of the message, reports its end only there, and once enough calls were made reaches it, or panics when not all of it can be read |
| Framing.RoundTrip | Godeps/_workspace/src/github.com/denisenkom/go-mssqldb/buf.go:37-212 | framing round trip: unless a send fails, which is reported, every way of writing against every way of reading, for every pair of buffer sizes with the reader's at least as large |
| ParamRewriter.ParseParams | Godeps/_workspace/src/github.com/denisenkom/go-mssqldb/parser.go:40-49 | the seven state functions with push-back always finish and compute the one-pass rewriting, whose effect on a query QuerySegments states without any of its contexts |
| ParamRewriter.Parser.Run | Godeps/_workspace/src/github.com/denisenkom/go-mssqldb/parser.go:38-227 | one state function keeps the outcome of the whole run and moves on by a character, or returns to normal text |
| ParamRewriter.Parser.ParseNormalText | Godeps/_workspace/src/github.com/denisenkom/go-mssqldb/parser.go:51-84 | normal text is copied up to a marker, a quotation, a bracket or a possible comment |
| ParamRewriter.Parser.ParseParameterNumber | Godeps/_workspace/src/github.com/denisenkom/go-mssqldb/parser.go:86-114 | a marker is replaced by its parameter and the counts are kept up |
| ParamRewriter.Parser.ParseBracketed | Godeps/_workspace/src/github.com/denisenkom/go-mssqldb/parser.go:142-161 | bracketed text is copied, a doubled closing bracket included |
| ParamRewriter.Parser.ParseCommentText | Godeps/_workspace/src/github.com/denisenkom/go-mssqldb/parser.go:185-227 | nested comments are copied; the slash that closes one level may open another |
| ParamRewriter.LexIsLossless | Godeps/_workspace/src/github.com/denisenkom/go-mssqldb/parser.go:51-227 | the tokens spell the query |
| ParamRewriter.RenderIsPiecewise | Godeps/_workspace/src/github.com/denisenkom/go-mssqldb/parser.go:51-114 | the output is the tokens rendered one after the other |
| ParamRewriter.PieceAt | Godeps/_workspace/src/github.com/denisenkom/go-mssqldb/parser.go:86-114 | every character stands as it was and every marker became its parameter; an unnumbered one is numbered one past those before it |
| ParamRewriter.NumbersAreWritten | Godeps/_workspace/src/github.com/denisenkom/go-mssqldb/parser.go:86-114 | every number that counts for the maximum was written for some marker |
| ParamRewriter.MaxOfIsMax | Godeps/_workspace/src/github.com/denisenkom/go-mssqldb/parser.go:40-49 | the returned count is the largest number written, 0 if none |
| ParamRewriter.OutputIsText | Godeps/_workspace/src/github.com/denisenkom/go-mssqldb/parser.go:40-227 | in every context the output reads as plain text: what is written in place of a marker opens no context |
| ParamRewriter.RewritingIsIdempotent | Godeps/_workspace/src/github.com/denisenkom/go-mssqldb/parser.go:40-227 | rewriting the output changes nothing and finds no parameter |
| QuerySegments.QueryRewritten | Godeps/_workspace/src/github.com/denisenkom/go-mssqldb/parser.go:38-227 | every query is made of plain text, markers, quotations, bracketed names, line comments and trees of block comments; all but the markers comes out unchanged, every marker as its parameter, and the count is the largest of their numbers |
| QuerySegments.SegmentsRewritten | Godeps/_workspace/src/github.com/denisenkom/go-mssqldb/parser.go:38-227 | the same for any list of such segments that fit together: a marker with a number not divisible by 2^64 gets that number as a 64-bit int, the others the next of their own count |
| QuerySegments.SegmentsLex | Godeps/_workspace/src/github.com/denisenkom/go-mssqldb/parser.go:51-227 | the tokens that the rewriter reads off the spelling of segments are those of the segments |
| QuerySegments.SegmentsSpell | Godeps/_workspace/src/github.com/denisenkom/go-mssqldb/parser.go:51-227 | every query has such segments |
| QuerySegments.ItemsWalk | Godeps/_workspace/src/github.com/denisenkom/go-mssqldb/parser.go:185-227 | a block comment and the comments inside it end where their tree says, a slash that closes one and opens another included |
| QuerySegments.AccumulateIsValue | Godeps/_workspace/src/github.com/denisenkom/go-mssqldb/parser.go:86-97 | the loop over the digits of a marker computes the number they denote, in a 64-bit int |
| ValueCodec.TypeInfoRoundTrip | Godeps/_workspace/src/github.com/denisenkom/go-mssqldb/types.go:83-191 | TYPE_INFO read back gives what was sent and leaves the rest (section 2.2.5.6 of MS-TDS), exactly for every type but XML, whose size the reader takes for a schema |
| ValueCodec.ParseCollationOf | Godeps/_workspace/src/github.com/denisenkom/go-mssqldb/collation.go:27-39 | a collation is read back as written |
| ValueCodec.ShortLenCell | Godeps/_workspace/src/github.com/denisenkom/go-mssqldb/types.go:339-375 | a value of 0 to 8000 bytes is read back through its two-byte length |
| ValueCodec.ByteLenCell | Godeps/_workspace/src/github.com/denisenkom/go-mssqldb/types.go:249-337 | a value of 1 to 255 bytes is read back through its one-byte length |
| ValueCodec.NullCellOf | Godeps/_workspace/src/github.com/denisenkom/go-mssqldb/types.go:339-375 | NULL is read back as NULL |
| ValueCodec.VariableCell | Godeps/_workspace/src/github.com/denisenkom/go-mssqldb/types.go:127-191 | across the length classes a value comes back whole below 2^32 bytes, and beyond that never |
| ValueCodec.ChunksReassemble | Godeps/_workspace/src/github.com/denisenkom/go-mssqldb/types.go:503-538 | the chunk loop collects any split into non-empty chunks and stops right after the terminator |
| ValueCodec.PlpReassembles | Godeps/_workspace/src/github.com/denisenkom/go-mssqldb/types.go:503-538 | the chunks are reassembled exactly when the declared length is unknown or one that the runtime allocates, whatever its limit between 2^32 and 2^63; NULL is NULL, and any other length ends the run (section 2.2.5.2.3 of MS-TDS) |
| ValueCodec.WriterChunks | Godeps/_workspace/src/github.com/denisenkom/go-mssqldb/types.go:540-557 | what the writer sends is such a split |
| ValueCodec.PlpWriterOutcome | Godeps/_workspace/src/github.com/denisenkom/go-mssqldb/types.go:540-557 | what is read back from the writer, for every length that a slice can have: the first part, of the length modulo 2^32 |
| ValueCodec.PlpRoundTrip | Godeps/_workspace/src/github.com/denisenkom/go-mssqldb/types.go:503-557 | read back as it was, exactly below 2^32 bytes |
| ValueCodec.ScalarRoundTrip | Godeps/_workspace/src/github.com/denisenkom/go-mssqldb/mssql.go:303-335 | every int64, bool and 64-bit float pattern comes back |
| ValueCodec.NullRoundTrip | Godeps/_workspace/src/github.com/denisenkom/go-mssqldb/mssql.go:303-335 | NULL comes back |
| ValueCodec.BinaryRoundTrip | Godeps/_workspace/src/github.com/denisenkom/go-mssqldb/mssql.go:303-335 | every byte string comes back, exactly below 2^32 bytes |
| ValueCodec.StrRoundTrip | Godeps/_workspace/src/github.com/denisenkom/go-mssqldb/mssql.go:303-335 | every Unicode string comes back, exactly when its UTF-16 form is below 2^32 bytes |
| ValueCodec.MomentRoundTrip | Godeps/_workspace/src/github.com/denisenkom/go-mssqldb/mssql.go:337-356 | every time comes back floored to 100 ns and in whole minutes of offset, exactly when its day fits three bytes and its offset in minutes two |
| ValueCodec.ParamRoundTrip | Godeps/_workspace/src/github.com/denisenkom/go-mssqldb/mssql.go:303-373 | parameter round trip: for every value makeParam takes, the value the wire can carry comes back and the following bytes stay, exactly when the driver can carry it |
| ParamStream.WritePlpType | Godeps/_workspace/src/github.com/denisenkom/go-mssqldb/types.go:540-557 | the chunk loop ends and writes the declared length, the chunk and the terminator |
| ParamStream.WriteTypeInfo | Godeps/_workspace/src/github.com/denisenkom/go-mssqldb/types.go:109-191 | the bytes of TYPE_INFO join the message |
| ParamStream.WriteCollation | Godeps/_workspace/src/github.com/denisenkom/go-mssqldb/collation.go:33-39 | the five bytes of the collation join the message |
| ParamStream.WriteValue | Godeps/_workspace/src/github.com/denisenkom/go-mssqldb/types.go:327-375 | the value joins the message in the form of its length class |
| ParamStream.WriteRpcParams | Godeps/_workspace/src/github.com/denisenkom/go-mssqldb/rpc.go:83-98 | the parameter loop writes name, flags, TYPE_INFO and value of every parameter in order, and succeeds exactly when no send failed |
| ParamStream.RpcRoundTrip | Godeps/_workspace/src/github.com/denisenkom/go-mssqldb/rpc.go:83-98 | a list of parameters read back gives the same names, flags and values, and the following bytes stay |
| DateTime.DivFloorIsFloor | Godeps/_workspace/src/github.com/denisenkom/go-mssqldb/types.go:741-748 | true floor division for all 64-bit operands, exactly but for the one quotient that overflows |
| DateTime.DateTime2Splits | Godeps/_workspace/src/github.com/denisenkom/go-mssqldb/types.go:750-760 | the number of the day, wrapped to an int32, and the exact time within the day |
| DateTime.NoOverflow | Godeps/_workspace/src/github.com/denisenkom/go-mssqldb/types.go:703-716 | at every legal scale, and for as many bytes as it allows or fewer, the multiplications stay below 2^64 |
| DateTime.ReadUint | Godeps/_workspace/src/github.com/denisenkom/go-mssqldb/types.go:703-710 | the byte loop accumulates the little-endian number |
| DateTime.DecodeTimeInt | Godeps/_workspace/src/github.com/denisenkom/go-mssqldb/types.go:703-716 | seconds and nanoseconds are the encoded number times 10^(9-scale), exactly |
| DateTime.DecodedFields | Godeps/_workspace/src/github.com/denisenkom/go-mssqldb/mssql.go:337-356 | what the ten bytes of a parameter hold: ticks in five bytes, the day wrapped to three, the offset in minutes wrapped to two |
| DateTime.RoundTrip | Godeps/_workspace/src/github.com/denisenkom/go-mssqldb/types.go:695-760 | decoding the ten bytes gives the same instant floored to 100 ns, in the same whole-minute zone, exactly when the day fits three bytes and the minutes of the zone fit two (section 2.2.5.5.1.8 of MS-TDS) |
| DateTime.CalendarRoundTrip | Godeps/_workspace/src/github.com/denisenkom/go-mssqldb/types.go:695-760 | so for every instant of the years 1 to 9999, exactly when the minutes of the zone fit two bytes |
| Calendar.TomorrowCounts | Godeps/_workspace/src/github.com/denisenkom/go-mssqldb/types.go:699-701 | in the Gregorian calendar, whose years and months have their usual lengths, the next day has the next number, counted from January 1 of year 1 |
| Calendar.OneDateEach | Godeps/_workspace/src/github.com/denisenkom/go-mssqldb/types.go:699-701 | a day number stands for one date |
| Calendar.NumbersFollowDates | Godeps/_workspace/src/github.com/denisenkom/go-mssqldb/types.go:750-754 | later dates have larger numbers |
| Calendar.YearsInClosedForm | Godeps/_workspace/src/github.com/denisenkom/go-mssqldb/types.go:754-754 | the days before a year, summed up over leap years and others, in the closed form that the driver uses |
| Calendar.KnownDays | Godeps/_workspace/src/github.com/denisenkom/go-mssqldb/types.go:754-754 | January 1, 1970 is day 719162, the constant of the driver, and December 31, 9999 is day 3652058 |
| Calendar.SentFields | Godeps/_workspace/src/github.com/denisenkom/go-mssqldb/mssql.go:341-356 | a parameter for any time of any date holds the time of day in units of 100 ns, the number of the date, and the minutes of its zone, rounded toward zero |
| Calendar.DateIsRead | Godeps/_workspace/src/github.com/denisenkom/go-mssqldb/types.go:699-701 | a DATE column holding the number of a date is read as midnight of that date |
| Calendar.TimeIsRead | Godeps/_workspace/src/github.com/denisenkom/go-mssqldb/types.go:718-721 | a TIME column counts units of its scale from midnight |
| Calendar.DateTime2IsRead | Godeps/_workspace/src/github.com/denisenkom/go-mssqldb/types.go:723-728 | a DATETIME2 column is read as that time of that date |
| Calendar.OffsetIsRead | Godeps/_workspace/src/github.com/denisenkom/go-mssqldb/types.go:730-739 | a DATETIMEOFFSET column is read as that time of that date in UTC, in the zone of its minutes |
| Calendar.CivilRoundTrip | Godeps/_workspace/src/github.com/denisenkom/go-mssqldb/types.go:695-760 | every time of every date of the years 1 to 9999 comes back, exactly when the minutes of the zone fit two bytes |
| Decimals.ScaleBytes | Godeps/_workspace/src/github.com/denisenkom/go-mssqldb/decimal.go:90-111 | the text with the point put in denotes the digits divided by 10^scale, with exactly scale digits after the point and at least one before |
| Decimals.Text | Godeps/_workspace/src/github.com/denisenkom/go-mssqldb/decimal.go:76-88 | the text of every 128-bit magnitude, sign and scale parses back to exactly that number |
| Decimals.ItoaParts | Godeps/_workspace/src/github.com/denisenkom/go-mssqldb/decimal.go:76-88 | decimal notation: a minus sign exactly for negative numbers, then digits of the magnitude |
| Decimals.DecodeDecimal | Godeps/_workspace/src/github.com/denisenkom/go-mssqldb/types.go:677-692 | the wire form yields the text of the encoded number, and more than four words are an error (section 2.2.5.5.1.6 of MS-TDS) |
| Unicode.Utf16ToUtf8 | Godeps/_workspace/src/code.google.com/p/odbc/utf16.go:25-55 | the loop gives the UTF-8 form of what the units before the first NUL decode to, whatever the units |
| Unicode.UTF16ToString | Godeps/_workspace/src/code.google.com/p/odbc/api/api.go:52-60 | the simple form gives the same |
| Unicode.CutAtNul | Godeps/_workspace/src/code.google.com/p/odbc/api/api.go:52-58 | the units before the first NUL |
| Unicode.MeaningOfUtf16 | Godeps/_workspace/src/code.google.com/p/odbc/utf16.go:25-55 | for every text without NUL, its UTF-16 form becomes its UTF-8 form |
| Unicode.DecodingIsLocal | Godeps/_workspace/src/code.google.com/p/odbc/utf16.go:34-49 | decoding is unit by unit: one character for a surrogate pair or a plain unit, one U+FFFD for an unpaired surrogate |
| Unicode.Utf16RoundTrip | Godeps/_workspace/src/code.google.com/p/odbc/api/api.go:62-64 | UTF-16 decoding undoes encoding (section 2.2 of RFC 2781) |
| Unicode.DecodingKeepsExtent | Godeps/_workspace/src/code.google.com/p/odbc/utf16.go:34-49 | the decoded characters take as many units as were decoded |
| Unicode.Utf8RoundTrip | Godeps/_workspace/src/code.google.com/p/odbc/utf16.go:50-54 | what is written is well-formed UTF-8 of the characters (section 3 of RFC 3629) |
| Unicode.RuneBytes | Godeps/_workspace/src/code.google.com/p/odbc/utf16.go:50-52 | a character takes one to four bytes, and the first byte and six bits of each of the others add up to it |
| Unicode.Ucs2RoundTrip | Godeps/_workspace/src/github.com/denisenkom/go-mssqldb/tds.go:298-316 | str2ucs2 and ucs22str are inverse on every text |
| Unicode.ShorterReadsAsOther | Godeps/_workspace/src/github.com/denisenkom/go-mssqldb/tds.go:298-316 | no shorter byte string reads as the same text |
| Prelogin.SortedKeys | Godeps/_workspace/src/github.com/denisenkom/go-mssqldb/tds.go:139-160 | the keys of a map, taken in any order and sorted, are always the same list |
| Prelogin.IncreasingIsUnique | Godeps/_workspace/src/github.com/denisenkom/go-mssqldb/tds.go:139-160 | there is only one sorted list of a set of keys |
| Prelogin.WritePrelogin | Godeps/_workspace/src/github.com/denisenkom/go-mssqldb/tds.go:146-190 | the bytes sent are a function of the map alone, in canonical packets, and it succeeds exactly when no send failed |
| Prelogin.ReadOptions | Godeps/_workspace/src/github.com/denisenkom/go-mssqldb/tds.go:192-219 | the read loop terminates with the options, or where indexing panics |
| Prelogin.ReadsRecord | Godeps/_workspace/src/github.com/denisenkom/go-mssqldb/tds.go:206-217 | one turn of the loop takes one record out of the table and its value out of the payload |
| Prelogin.RoundTrip | Godeps/_workspace/src/github.com/denisenkom/go-mssqldb/tds.go:146-219 | the written payload read back gives the map without key 0xff: the same map exactly when that key is absent (section 2.2.6.5 of MS-TDS) |
| Prelogin.ReadPrelogin | Godeps/_workspace/src/github.com/denisenkom/go-mssqldb/tds.go:192-219 | a whole message read from packets gives these options, or is rejected by its type, and a packet that the buffer cannot take ends in a panic |
| Login7.MangleIsInvertible | Godeps/_workspace/src/github.com/denisenkom/go-mssqldb/tds.go:318-324 | the mangling of a byte can be undone |
| Login7.UnmangleMangled | Godeps/_workspace/src/github.com/denisenkom/go-mssqldb/tds.go:318-324 | the mangling of a password can be undone |
| Login7.FillTable | Godeps/_workspace/src/github.com/denisenkom/go-mssqldb/tds.go:364-387 | the offset loop, in 16 bits, gives the table of the fields and the size of the message |
| Login7.FieldsTile | Godeps/_workspace/src/github.com/denisenkom/go-mssqldb/tds.go:327-438 | the fields tile the message after the fixed header without gap or overlap |
| Login7.EntriesAreRight | Godeps/_workspace/src/github.com/denisenkom/go-mssqldb/tds.go:351-387 | each table entry holds the place and count of its field, and Length is the size of the message (section 2.2.6.4 of MS-TDS) |
| Login7.SspiRead | Godeps/_workspace/src/github.com/denisenkom/go-mssqldb/tds.go:360-382 | the SSPI bytes are read back through their entry |
| Login7.StringRead | Godeps/_workspace/src/github.com/denisenkom/go-mssqldb/tds.go:351-386 | a string is read back through its own entry as it was sent, exactly when it has no supplementary character |
| Login7.SendLogin | Godeps/_workspace/src/github.com/denisenkom/go-mssqldb/tds.go:327-438 | the message goes out in canonical packets of type 16, exactly when no send failed |
| WireForms.PacketAt | Godeps/_workspace/src/github.com/denisenkom/go-mssqldb/buf.go:37-98 | each packet of a message byte by byte: type, 1 for the last and 0 for the others, length, number, and its stretch of the message (section 2.2.3.1 of MS-TDS) |
| WireForms.RecordAt | Godeps/_workspace/src/github.com/denisenkom/go-mssqldb/tds.go:146-190 | each PRELOGIN record byte by byte: key, offset and length, most significant byte first, and the value where they say |
| WireForms.LoginNumbers | Godeps/_workspace/src/github.com/denisenkom/go-mssqldb/tds.go:257-296 | every number of LOGIN7 at its place, and the unused entries |
| WireForms.LoginTexts | Godeps/_workspace/src/github.com/denisenkom/go-mssqldb/tds.go:327-438 | each text of LOGIN7 is announced at its place and read from there, exactly when it has no supplementary character |
| WireForms.LoginSspi | Godeps/_workspace/src/github.com/denisenkom/go-mssqldb/tds.go:360-382 | the SSPI bytes are announced at their place |
| WireForms.MangledBit | Godeps/_workspace/src/github.com/denisenkom/go-mssqldb/tds.go:321-321 | mangling swaps the halves of a byte and flips four of its bits |
| WireForms.ParamIsSent | Godeps/_workspace/src/github.com/denisenkom/go-mssqldb/mssql.go:303-373 | the bytes of every parameter: type id, size, collation, length and value |
| WireForms.ArgumentIsSent | Godeps/_workspace/src/github.com/denisenkom/go-mssqldb/rpc.go:83-98 | the bytes of an argument of a remote call: name, flags and parameter |
| Tokens.EffectsAreAnnounced | Godeps/_workspace/src/github.com/denisenkom/go-mssqldb/token.go:319-404 | the changes that a run makes to the session are the changes of the ENVCHANGE tokens that the run acts on, and what could be read of one that breaks off when the run gets that far: none after the end of the run |
| Tokens.ChangesCompose | Godeps/_workspace/src/github.com/denisenkom/go-mssqldb/token.go:92-184 | changes that can be read take effect in the same way whatever follows them, and then what follows does |
| Tokens.ChangesBeforeABadOne | Godeps/_workspace/src/github.com/denisenkom/go-mssqldb/token.go:92-184 | the changes before a bad one stay in force, and the bad one does what it does before it fails: the database is already replaced, or the transaction taken over |
| Tokens.LastChangeWins | Godeps/_workspace/src/github.com/denisenkom/go-mssqldb/token.go:108-182 | database, transaction and packet size are what their last change made them |
| Tokens.NothingAfterTerminal | Godeps/_workspace/src/github.com/denisenkom/go-mssqldb/token.go:319-404 | every run delivers exactly one terminal item and nothing after it |
| Tokens.RunPasses | Godeps/_workspace/src/github.com/denisenkom/go-mssqldb/token.go:331-404 | tokens the run goes past deliver their items, and the latest error is carried on |
| Tokens.ErrorIsSticky | Godeps/_workspace/src/github.com/denisenkom/go-mssqldb/token.go:358-395 | after an ERROR token the next DONE or DONEPROC ends the run with the latest error, whatever its own status, and no DONE comes in between |
| Tokens.RowsAreAsWideAsColumns | Godeps/_workspace/src/github.com/denisenkom/go-mssqldb/token.go:251-289 | every delivered row is as wide as the column layout delivered last before it |
| Tokens.CellRoundTrip | Godeps/_workspace/src/github.com/denisenkom/go-mssqldb/token.go:271-275 | a cell as a server encodes it is read back, in every length class |
| Tokens.RowRoundTrip | Godeps/_workspace/src/github.com/denisenkom/go-mssqldb/token.go:271-275 | a ROW encoding of nullable values is read as those values |
| Tokens.UnmarkedRoundTrip | Godeps/_workspace/src/github.com/denisenkom/go-mssqldb/token.go:278-289 | the columns that the bitmap does not mark are read, the others are NULL |
| Tokens.BitmapMarks | Godeps/_workspace/src/github.com/denisenkom/go-mssqldb/token.go:278-283 | bit i of the bitmap is the null mark of column i |
| Tokens.RowEncodingsAgree | Godeps/_workspace/src/github.com/denisenkom/go-mssqldb/token.go:271-289 | ROW and NBCROW encodings of the same nullable values give equal rows |
| ServerBytes.TextIs | Godeps/_workspace/src/github.com/denisenkom/go-mssqldb/tds.go:298-305 | str2ucs2 is UTF-16 with the less significant byte first |
| ServerBytes.ReadType | Godeps/_workspace/src/github.com/denisenkom/go-mssqldb/types.go:83-107 | every column type that a server announces is understood, by the ids and forms of section 2.2.5.6 of MS-TDS, and nothing beyond it is read |
| ServerTokens.ReadEnv | Godeps/_workspace/src/github.com/denisenkom/go-mssqldb/token.go:89-186 | a change of database, packet size, transaction or mirror partner, and any other given as bytes, has the effect of its new value, which comes before the old one |
| ServerTokens.TextsReadAsBytes | Godeps/_workspace/src/github.com/denisenkom/go-mssqldb/token.go:173-182 | a change of language or character set, which is announced as texts, is read to its end exactly when the byte taken for the second length happens to be right |
| ServerTokens.LanguageBreaks | Godeps/_workspace/src/github.com/denisenkom/go-mssqldb/token.go:173-182 | one that cannot be read |
| ServerTokens.ReadAck | Godeps/_workspace/src/github.com/denisenkom/go-mssqldb/token.go:234-248 | the acknowledgement of a login is understood exactly when its program name has at most 124 units |
| ServerTokens.ReadMetadata | Godeps/_workspace/src/github.com/denisenkom/go-mssqldb/token.go:251-268 | the columns that a server announces are the columns understood |
| ServerTokens.NullBit | Godeps/_workspace/src/github.com/denisenkom/go-mssqldb/token.go:278-283 | the bit of a compressed row that marks a column as NULL |
| ServerTokens.ReadToken | Godeps/_workspace/src/github.com/denisenkom/go-mssqldb/token.go:331-404 | every token that a server writes is read as that token, and nothing beyond it |
| ServerTokens.TraceIsSent | Godeps/_workspace/src/github.com/denisenkom/go-mssqldb/token.go:331-404 | the tokens found in what a server writes are those it wrote, rows being read with the columns announced last |
| ServerTokens.ResponseIsAnswer | Godeps/_workspace/src/github.com/denisenkom/go-mssqldb/token.go:319-404 | from the bytes of any list of tokens the caller receives exactly what they amount to, up to the one that ends the run, and the session undergoes exactly the changes announced up to there |
| CellValues.CellIsRead | Godeps/_workspace/src/github.com/denisenkom/go-mssqldb/types.go:210-325 | cells of integers of 1, 2, 4 and 8 bytes, bits, doubles, texts, byte strings, dates and times are read as those values |
| CellValues.RowIsRead | Godeps/_workspace/src/github.com/denisenkom/go-mssqldb/token.go:271-275 | so is a row of them |
| TokenReader.ReadTypeInfo | Godeps/_workspace/src/github.com/denisenkom/go-mssqldb/types.go:83-107 | TYPE_INFO is read from the packet buffer as its parsing function says, packets and their boundaries notwithstanding |
| TokenReader.ReadLongLenType | Godeps/_workspace/src/github.com/denisenkom/go-mssqldb/types.go:377-407 | the same for text and image values |
| TokenReader.ReadPlpType | Godeps/_workspace/src/github.com/denisenkom/go-mssqldb/types.go:503-538 | the same for the loop over chunks, the length that cannot be allocated included |
| TokenReader.ReadColMetadata | Godeps/_workspace/src/github.com/denisenkom/go-mssqldb/token.go:251-268 | the same for the columns of a result |
| TokenReader.ReadRow | Godeps/_workspace/src/github.com/denisenkom/go-mssqldb/token.go:271-275 | the same for a row |
| TokenReader.ReadNbcRow | Godeps/_workspace/src/github.com/denisenkom/go-mssqldb/token.go:278-289 | the same for a row with a null bitmap |
| TokenReader.ReadError | Godeps/_workspace/src/github.com/denisenkom/go-mssqldb/token.go:292-304 | the same for an error or a message |
| TokenReader.ReadLoginAck | Godeps/_workspace/src/github.com/denisenkom/go-mssqldb/token.go:234-248 | the same for the login acknowledgement, whose name ends where eight bits say |
| TokenReader.ReadTran | Godeps/_workspace/src/github.com/denisenkom/go-mssqldb/token.go:130-145 | a transaction is taken over from as many of the announced bytes as there are, if eight are announced |
| TokenReader.ReadSize | Godeps/_workspace/src/github.com/denisenkom/go-mssqldb/token.go:112-129 | a new packet size takes effect when both values were read, and what is still to be read can then be read exactly when the packets that hold it fit |
| TokenReader.FitsIs | Godeps/_workspace/src/github.com/denisenkom/go-mssqldb/token.go:125-129 | that condition, about the buffer in the middle of a message, is one about the message and the cut of its packets alone |
| TokenReader.EnvChanges | Godeps/_workspace/src/github.com/denisenkom/go-mssqldb/token.go:92-184 | the changes of a token are made in order, up to a bad one, or up to one that leaves no room for the rest of the message |
| TokenReader.ProcessEnvChg | Godeps/_workspace/src/github.com/denisenkom/go-mssqldb/token.go:89-186 | an ENVCHANGE token, read through a reader limited to the announced size, does what its parsing function says to the session |
| TokenReader.NextToken | Godeps/_workspace/src/github.com/denisenkom/go-mssqldb/token.go:337-402 | each turn of the loop takes one token from the packets |
| TokenReader.TokenLoop | Godeps/_workspace/src/github.com/denisenkom/go-mssqldb/token.go:337-403 | the loop delivers the response and makes its changes, or is cut short |
| TokenReader.ProcessResponse | Godeps/_workspace/src/github.com/denisenkom/go-mssqldb/token.go:319-404 | over any packets, changes of packet size replacing the buffer while the message is read: if everything arrives and every change leaves room for the packets still to be read, exactly the response is delivered and exactly its changes are made; if not, and packets do not grow, a beginning of it and then the error |
| TokenReader.WrittenIsCanonical | Godeps/_workspace/src/github.com/denisenkom/go-mssqldb/buf.go:51-98 | the packets of any writer with one buffer are of that kind |
| OdbcGuarantees.ReachableKeeps | Godeps/_workspace/src/code.google.com/p/odbc/odbcstmt.go:29-90 | the invariant of all shared statements, threads, handles, counts and of the call log holds in every interleaving, the library failing any call |
| OdbcGuarantees.FateMeaning | Godeps/_workspace/src/code.google.com/p/odbc/handle.go:33-44 | what the fold over the call log says about a handle, in terms of the log |
| OdbcGuarantees.FreedOnceThenSilent | Godeps/_workspace/src/code.google.com/p/odbc/odbcstmt.go:56-90 | in every interleaving a handle is freed at most once and reaches no other call afterwards, but for reading why a free failed |
| OdbcGuarantees.CalledAfterFreeIffItFailed | Godeps/_workspace/src/code.google.com/p/odbc/handle.go:33-44 | a handle reaches another call after its free exactly when the free failed |
| OdbcGuarantees.FailedFreeIsReadAfterwards | Godeps/_workspace/src/code.google.com/p/odbc/handle.go:39-41 | a run in which that happens |
| OdbcGuarantees.FreedByTheLastOwner | Godeps/_workspace/src/code.google.com/p/odbc/odbcstmt.go:56-84 | a shared handle is freed only when at most one side still claims it; with the mutex free, it has been exactly when neither does |
| OdbcGuarantees.NothingLeaks | Godeps/_workspace/src/code.google.com/p/odbc/stmt.go:36-97 | in every run, when every statement and result set is closed, a statement handle was given back, re-prepare and close-cursor failures included, exactly when the run did not panic while the parameters of that handle were described |
| OdbcGuarantees.LostByPanic | Godeps/_workspace/src/code.google.com/p/odbc/odbcstmt.go:44-48 | at every moment of every run the handles that nothing will give back are exactly those for which that panic has happened |
| OdbcGuarantees.PanicLosesHandle | Godeps/_workspace/src/code.google.com/p/odbc/odbcstmt.go:44-48 | a run that shows why: a panic while parameters are described comes before the release is deferred |
| OdbcGuarantees.CountsConserve | Godeps/_workspace/src/code.google.com/p/odbc/stats.go:20-33 | counts are never negative, and when no thread is between a call and its count they are the handles allocated and not successfully freed |
| Odbc.Stats.UpdateHandleCount | Godeps/_workspace/src/code.google.com/p/odbc/stats.go:20-33 | the count of one kind changes, the others stay |
| Odbc.Driver.ReleaseHandle | Godeps/_workspace/src/code.google.com/p/odbc/handle.go:33-44 | the count goes down exactly when the library freed the handle, and the reason is read exactly when the free failed |
| Odbc.Driver.Init | Godeps/_workspace/src/code.google.com/p/odbc/driver.go:21-59 | exactly when no call failed, an environment is allocated, counted and given three attributes; otherwise every handle allocated on the way was given back |
| Odbc.Driver.Close | Godeps/_workspace/src/code.google.com/p/odbc/driver.go:61-66 | the environment handle is cleared and given back |
| Odbc.Driver.Open | Godeps/_workspace/src/code.google.com/p/odbc/conn.go:18-36 | exactly when no call failed, a connection holds a new counted handle; otherwise every handle allocated on the way was given back |
| Odbc.Conn.Close | Godeps/_workspace/src/code.google.com/p/odbc/conn.go:38-46 | the handle stays exactly when the connection cannot be ended, and is cleared and given back otherwise |
| Odbc.Conn.PrepareODBCStmt | Godeps/_workspace/src/code.google.com/p/odbc/odbcstmt.go:29-54 | exactly when no call failed but those that describe a parameter, a statement with a new counted handle, used by the statement only; otherwise every handle allocated on the way was given back |
| Odbc.ODBCStmt.CloseByStmt | Godeps/_workspace/src/code.google.com/p/odbc/odbcstmt.go:56-66 | the statement lets go; the handle is given back exactly when no result set uses it |
| Odbc.ODBCStmt.CloseByRows | Godeps/_workspace/src/code.google.com/p/odbc/odbcstmt.go:68-84 | the result set lets go even when closing the cursor fails; the handle is given back exactly when the statement does not use it |
| Odbc.ODBCStmt.ReleaseHandle | Godeps/_workspace/src/code.google.com/p/odbc/odbcstmt.go:86-90 | the handle is cleared and given back |
| Odbc.Stmt.Close | Godeps/_workspace/src/code.google.com/p/odbc/stmt.go:36-43 | a closed statement changes nothing; an open one is closed, and its handle is freed, with that in the log, exactly when no result set uses it |
| Odbc.Stmt.Reprepare | Godeps/_workspace/src/code.google.com/p/odbc/stmt.go:51-59 | a statement whose result set is open leaves the handle to it and runs on a new one, or is left without any, exactly when a call failed |
| Odbc.ODBCStmt.Exec | Godeps/_workspace/src/code.google.com/p/odbc/odbcstmt.go:94-118 | every parameter is bound, whether binding the others failed or not, then the statement is executed, and success depends on the number of arguments and on that call alone |
| Odbc.Stmt.Exec | Godeps/_workspace/src/code.google.com/p/odbc/stmt.go:45-70 | executing frees no handle and shares none; it succeeds exactly when SQLExecute and SQLRowCount do, and makes no other calls than those, the bindings and the reading of errors |
| Odbc.Stmt.Query | Godeps/_workspace/src/code.google.com/p/odbc/stmt.go:72-97 | a query succeeds exactly when the statement is open, the arguments are as many as the parameters, no call but a binding failed, and every column could be used; it then shares its handle with the result set |
| Odbc.Rows.Next | Godeps/_workspace/src/code.google.com/p/odbc/rows.go:25-41 | fetching uses the shared handle only, and succeeds exactly when no call failed and no value was unusable |
| Odbc.Rows.Close | Godeps/_workspace/src/code.google.com/p/odbc/rows.go:43-45 | the result set lets go: the cursor is closed while the statement holds the handle, the handle is freed when it does not, and nothing happens a second time |
| Odbc.CloseByStmtRefined | Godeps/_workspace/src/code.google.com/p/odbc/odbcstmt.go:56-66 | run without interference, the steps of the interleaved model do what the method does to the statement and the log |
| Odbc.CloseByRowsRefined | Godeps/_workspace/src/code.google.com/p/odbc/odbcstmt.go:68-84 | the same for a result set |
| LongColumn.Value | Godeps/_workspace/src/code.google.com/p/odbc/column.go:253-299 | against any library that hands out truncated pieces, with or without a length, the loop ends with the whole column and no terminator, NULL for NULL, an error exactly when the library breaks, and at most one call after the first length |
| LongColumn.BaseValue | Godeps/_workspace/src/code.google.com/p/odbc/column.go:130-136 | wide data becomes UTF-8, the rest stays |
| LongColumn.WideColumnIsText | Godeps/_workspace/src/code.google.com/p/odbc/column.go:132-137 | a wide column holding a text without NUL is read as that text in UTF-8 |
| BrokerGuarantees.ReachableKeeps | mssql_service_broker.go:40-163 | the invariant of tables, transactions, requests and event log holds in every interleaving of processes that may stop at any time |
| BrokerGuarantees.AnswersAreTrue | Godeps/_workspace/src/github.com/pivotal-cf/brokerapi/api.go:63-205 | every 201 and 200 is backed by the request's own CREATE, DROP or committed user change, made since it arrived; every refusal is true of the tables at some moment since then, and a refused request has changed nothing |
| BrokerGuarantees.UnknownErrorIsMissingBinding | mssql_service_broker.go:148-155 | 500 is answered only for unbinding a binding that is missing from an existing database at some moment since arrival |
| BrokerGuarantees.OneChangeEach | provisioner/provisioner.go:95-109 | a request changes the server at most once and is answered at most once, after a change and then with success |
| BrokerGuarantees.DropBetweenCreates | provisioner/provisioner.go:95-101 | a database name is never created twice without a drop in between |
| BrokerGuarantees.ProvisionedOnce | mssql_service_broker.go:40-61 | two provisions of one instance never both succeed unless its database was dropped between their CREATEs |
| BrokerGuarantees.InstancesDoNotShare | mssql_service_broker.go:44-44 | databases created for distinct instances are distinct |
| BrokerGuarantees.UsersLieInDatabases | provisioner/provisioner.go:13-43 | every user lies in an existing database, and was added there and not removed since |
| BrokerGuarantees.UsersAreOwn | mssql_service_broker.go:93-93 | two requests mean the same user exactly when they name the same instance and the same binding |
| BrokerGuarantees.ConflictIsSameBinding | mssql_service_broker.go:105-112 | a bind answered with 409 found the user of a bind of the same instance and the same binding, added before and not removed |
| BrokerGuarantees.UsersLeaveByUnbinding | mssql_service_broker.go:132-163 | in any step of any run, the user of a binding goes only by unbinding that very binding or deprovisioning its instance |
| BrokerGuarantees.BindingsLast | mssql_service_broker.go:86-130 | a binding that was answered with 201 is there until a request unbinds that very binding or deprovisions its instance |
| BrokerGuarantees.InstancesLast | mssql_service_broker.go:40-61 | an instance that was answered with 201 is there until a request deprovisions it |
| BrokerOrder.Linearizable | mssql_service_broker.go:40-163 | any run, crashes included, is linearizable: all requests that changed something or were refused can be put in one order, each at one moment between arrival and answer, so that serving them one after another gives every answer and the tables |
| BrokerOrder.KeepsRealTime | mssql_service_broker.go:40-163 | in such an order a request answered before another arrived comes first |
| BrokerOrder.RefusedThen | mssql_service_broker.go:40-163 | a refusal that is true of the tables is what the sequential service answers, and it changes nothing |
| BrokerOrder.ChangedThen | mssql_service_broker.go:40-163 | every change in a run is what the sequential service makes of its request, with success |
| BrokerRequests.ExecuteTemplateWithTx | provisioner/provisioner.go:152-179 | all lines of the template take effect or none, no transaction stays open, and success is reported exactly when no call failed |
| BrokerRequests.ExecuteTemplateWithoutTx | provisioner/provisioner.go:181-194 | the lines up to the first that fails take effect, and success is reported exactly when none failed |
| BrokerRequests.Api.Provision | mssql_service_broker.go:40-61 | undisturbed, the tables and the status are those of the sequential service; the process stops exactly when a statement failed for reasons of its own, and leaves the tables before or after the request |
| BrokerRequests.Api.Deprovision | mssql_service_broker.go:63-84 | the same for deprovisioning |
| BrokerRequests.Api.Bind | mssql_service_broker.go:86-130 | the same for binding |
| BrokerRequests.Api.Unbind | mssql_service_broker.go:132-163 | the same for unbinding |
| BrokerRequests.AloneIsServed | mssql_service_broker.go:40-163 | the steps of the interleaved model, run without interference, answer and act as the sequential service |

## Left out

- Sockets, TLS, timeouts, SQL Browser lookup, SSPI and NTLM: the transport is a byte sequence that may fail, and the `afterFirst` hook of the buffer is not modelled.
- Writing from buffers of 8 bytes or fewer and of 65536 bytes or more: `Write` would loop or the 16-bit cursor wrap; the model covers 9 to 65535. Reading covers every size, but in a buffer of 65536 bytes or more not what follows the stale byte of an empty packet, where the cursor would wrap.
- Text is a sequence of Unicode scalar values; Go strings that are not valid UTF-8 are not modelled.
- Float64ToDecimal, ToFloat64, 32-bit floats, money, GUID and the legacy datetime types: a float is 64 opaque bits, the others are kept as raw bytes, and so are decimals inside a row, whose decoding is Decimals.DecodeDecimal. Times sent to servers older than TDS 7.3, which take the legacy type, are left out with it.
- The size of a TEXT, NTEXT, IMAGE or sql_variant column is kept without its sign; nothing uses it.
- Code-page tables: character data of non-Unicode columns stays raw bytes.
- sql_variant values and user-defined types: reading them fails in the model as for a type that is not known.
- Aliasing of a returned binary value to the reader's buffer: values are those at the moment of return.
- TokenReader.ProcessResponse: for packets that grow, what a change that leaves no room does is only stated as complete or cut short; a response with an empty packet after the first, which the code misreads (Framing.ReadBytes), is left out. The channel to the caller is the sequence of what is sent on it, and a recovered panic is the last item.
- A PRELOGIN value that reaches beyond the payload: the model treats it as the panic of an index out of range, although Go can extend a slice up to its capacity.
- The change-password field of LOGIN7 is sent as it is: the code does not mangle it, and the model follows the code.
- Overflow of the count of unnumbered markers, which would need 2^63 of them.
- Stmt.Close does not take Stmt.mu; the operations of one statement are assumed to follow one another, as are those of one result set, which is closed at most once and not used afterwards. A connection is used one operation at a time and is closed after its statements.
- A connection handle passed as the parent of an allocation is not entered in the call log; the theorem about calls after a free is about the calls an object makes with its own handle.
- Describing and binding the columns of a query, and fetching a row, are sequences of calls of any length on one handle; which library function comes when is not modelled there, nor are bound buffers and row counts.
- Panics are modelled in the interleaved statement machine; in the methods of module Odbc reading an error always succeeds, and binding a value of an unknown type or an empty byte string, which panics, is left out.
- Allocating a buffer within the runtime's limit always succeeds in the model, however little memory there is.
- A library that cuts a character in two, and so leaves the buffer of a truncated piece partly unfilled, is outside the contract of LongColumn.ColumnSource.
- Bindable columns, time, date and GUID columns of the ODBC driver: case expressions.
- SQL text, its formatting and the names inside it: each template line is one abstract server step. Names are compared exactly; a server whose collation ignores case would identify more of them.
- A transaction that changed a user counts as using its database until it ends, and is rolled back when the database is set to single-user; blocking, deadlocks and snapshot reads are abstracted to waiting and arbitrary failure.
- The random password, credentials, JSON bodies (a body that does not parse is answered with 422 before the broker is called), authentication, catalog and routing.
- The vendored web, logging and test libraries, configuration, the Windows service and codereview.py.
