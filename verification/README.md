# A verified model of libacvp's protocol and Monte Carlo code

This project models five parts of libacvp in Dafny and proves what they are for:

* **The resumable HTTP response parser** (`murl/http_parser.c`) and the driver that assembles a
  message with it (`murl/murl_http.c`). The byte loop is a class, `HttpParser.Parser`, with the
  source's marks, bulk body copies, flushes and saved fields. Its specification is a fold of one
  transition function over single bytes (`HttpMachine.Step` and `Run`). The method `Execute` is proved to do
  exactly what that fold says on every exit, including the byte and the fields at which a callback is refused. From there the proofs go to
  split independence, protocol and memory invariants over every run, header recognition as string
  comparison, message framing, chunked coding, whole responses and pipelines, the exact language that
  the parser takes, and finally what the return value of `murl_http_parse_response` means, and what it
  leaves to its caller in every case.
* **The AES Monte Carlo driver** (`src/acvp_aes.c`), as the class `AesMct.AesMct` with the test case's
  buffers and the four history tables, over an arbitrary stateful cipher. All mode-specific code is
  proved to implement one law: the inputs are the outputs behind a delay line, across all rounds; key
  and IV take in the end of the output stream. The laws are then proved to determine the whole run.
* **The TDES Monte Carlo driver** (`src/acvp_des.c`), as the class `TdesMct.TdesMct`, over an arbitrary
  cipher that reports its IV register; its 192-bit shift register, in place in an array; and the parity table.
  Its laws, too, are proved to determine the whole run.
* **The option parser** (`app/ketopt.h`), as the class `Ketopt.Ketopt`, permuting an array in place. It is
  proved to sort any command line into options, plain words and an untouched rest, as a pure scan
  of the original words says.
* **The Base64 decoder** (`app/app_utils.c`), as a method over an array, proved for every input string
  and inverse to the encoding of section 4 of RFC 4648 in both directions.

## Layout

| files | contents |
|---|---|
| `Octets`, `HttpEvents`, `HttpCut`, `HttpClient` | characters, callbacks, how byte-wise data joins into callbacks, the client that receives them |
| `HttpMachine`, `HttpInvariant`, `HttpBody` | the state machine, its invariant with the protocol of the callbacks, body conservation |
| `HttpHeaders`, `HttpLines`, `HttpHead`, `HttpMessages` | names and values, header lines, status line and framing, whole responses |
| `Numerals`, `MurlWriter` | digits, letters and numbers by their alphabets; responses written from a code and data alone, and handed back |
| `HttpGrammar`, `HttpLanguage`, `HttpStream` | texts that are taken, read back as lines, status lines, chunks, responses and streams |
| `HttpFraming`, `MurlFraming` | the framing rule of RFC 2616 beside the parser's, and what murl makes of the difference |
| `HttpMarks`, `HttpParser`, `HttpSplit` | marks, the buffered parser, feeding in pieces |
| `MurlHttp`, `MurlResponses`, `MurlTruncation`, `MurlStatus` | the message callbacks and the driver, what its answer means, responses that are cut off, and the status whatever the answer |
| `Bits`, `AesLaw`, `AesRun`, `AesMct`, `AesDetermined`, `AesFeedback` | bits of buffers; the laws of the AES test, how a run grows, the driver, uniqueness, the laws on bytes |
| `ShiftRegister`, `TdesParity`, `TdesLaw`, `TdesMct`, `TdesDetermined`, `TdesFeedback` | the shift register, key parity, the laws of the TDES test, the driver, uniqueness, the laws on inputs, outputs and keys alone |
| `OptionScan`, `Ketopt`, `OptionWords` | the reference scan of a command line, the permuting parser, command lines written and read back |
| `Base64` | decoder and encoding |

`dafny verify dfyconfig.toml` checks everything.

## What the code does that its documentation does not say

* `http_parser_execute` returns the full length when the callback for a mark is refused in the flush after the
  last byte, and does not save its state. The parser then still looks as if it stood before the first byte, so
  `murl_http_parse_response` returns 0 for a buffer that was cut off inside a header. `ParseResponse`
  states exactly when 0 is returned, `LostFlushGuard` gives the condition as a check on sizes and counts,
  and `TruncatedAccepted` gives inputs: a header name of more than 64 KiB cut off by the end of the buffer.
  In every other case 0 means that every header block has had its message completed (`CompleteMessages`).
* 0 does not mean that there was a message. An empty buffer and a buffer of line ends alone give 0 too, and
  `NothingReceived` shows that nothing else does without a header block, but for the lost flush. So a part of a response
  that murl would take as a whole gives 0 in exactly two cases (`TruncatedReturn`): nothing of it has come, or its body
  has no length and ends wherever the stream does.
* The parser does not follow section 4.4 of RFC 2616 in two respects. It does not look at the status, so that a 204 or
  304 with a Content-Length, or with chunked coding, waits for a body that will not come; and on a connection that is
  kept it takes a response without a length to have no body, and reads what follows as the next message.
  `HeadEndByRfc` gives the exact condition on status, headers and version under which the two rules agree, `BodylessWaits`
  and `CloseIgnored` what happens otherwise, `NotModifiedRefused` and `UntilCloseRefused` one input each. "Well-formed"
  in `ResponseRun` and after it means framed as the parser frames; `RfcResponses` and `RfcEndToEnd` carry that over to
  responses framed by the standard.
* murl's header table holds 63 complete headers, not 64: the value callback tests the table for room after
  the field callback has taken the last slot.
* A trailer that changes the keep-alive decision makes `message_complete_cb` refuse the message; `Fits` lists this.
* The answer of the callback at the end of the stream is not looked at: the call returns 0 either way.
* `unhex` has 128 initialisers for 256 entries, so bytes from 128 on count as the digit 0 in chunk sizes.
  The model keeps this: chunk sizes are what that table reads, `NoHexDigit` says which bytes are affected, and
  `HexReads` and `ChunkedBack` are about real hexadecimal digits.
* The parser takes more than the grammar of RFC 2616: blank lines between messages (counted towards the size limit of
  the head behind them), spaces before the status code, four separators in names (`TokenChars`), and lines without a
  colon (`BareLine`), which deliver a name without a value. But for the last, `Language` gives all it takes.
* The status is saved before the outcome is looked at, so it is that of the response even when the call fails
  (`StatusOfPart`); if several messages are in the buffer, it is that of the last status line (`StatusReplaced`).
* `ketopt` answers -1 and does not advance on several letters after one dash, it takes a following word as
  the argument of a long option with an optional argument, and it takes `-:` for an option whose argument is missing
  (`ReadsLetter`), because it looks the letter up in an option string that has colons in it.

## Model

| member | source | states |
|---|---|---|
| `HttpInvariant.RunSound` | `murl/http_parser.c:377-1554` | For every byte string from every sound state: no assert fires, the state invariant holds at the end (header sub-state allowed by the state, chunked flag in all chunk states, positive length in body states, at most 80*1024 header bytes counted), and the callbacks follow the protocol begin, field/value, headers complete, body, trailer, message complete, with no header block delivering more than 80*1024 bytes |
| `HttpInvariant.ObserveNorm` | `murl/http_parser.c:39-63` | Following the callback protocol does not depend on how data is cut into callbacks |
| `HttpInvariant.SwitchSound` | `murl/http_parser.c:386-1553` | One byte in any header or chunk state keeps invariant and protocol |
| `HttpInvariant.BodyByteSound` | `murl/http_parser.c:1437-1457` | One body byte keeps invariant and protocol |
| `HttpMachine.RunConcat` | `murl/http_parser.c:319-332` | Running over a concatenation is running over the first part and then the second, from the saved fields, for every outcome |
| `HttpCut.NormCut` | `murl/http_parser.c:39-63` | Joining byte-wise data into one callback per mark loses and reorders nothing |
| `HttpEvents.NormSpelled` | `murl/http_parser.c:39-63` | The merged form of a trace that split independence compares has every byte and callback of the trace, in order |
| `HttpEvents.NormMerged` | `murl/http_parser.c:39-63` | Nothing is left to merge in it |
| `HttpMarks.ByteTurn` | `murl/http_parser.c:386-1553` | One turn of the loop fits the marks: data is pending exactly between a mark and the current byte, and every mark macro finds the mark set or unset as it needs |
| `HttpMarks.BulkRun` | `murl/http_parser.c:1437-1457` | Copying body bytes in bulk is the same as taking them one by one |
| `HttpParser.Parser.Execute` | `murl/http_parser.c:319-1572` | A call on a buffer reports exactly what the byte-wise run says: return value, all fields and callbacks on success, on malformed input, on a protocol switch and on a refused callback, where the value is the offset of the byte that makes the callback; it is refused if and only if the client refuses one of those callbacks |
| `HttpMarks.MadeOnce` | `murl/http_parser.c:39-63` | The byte that makes a given callback is unique, so the offset returned on a refusal is determined |
| `HttpParser.Parser.LeaveRefused` | `murl/http_parser.c:1375-1400` | The fields when a callback is refused: a field or value before the byte has taken effect, the end of the head with the upgrade noted and the state remembered but no body skipped, a completion after its byte |
| `HttpParser.Parser.ExecuteEof` | `murl/http_parser.c:333-348` | The call with length 0: the completion it adds, and when it returns 1 |
| `HttpParser.Parser.constructor` | `murl/http_parser.c:1603-1612` | A fresh response parser is in the initial state |
| `HttpParser.Parser.TakeBody` | `murl/http_parser.c:1437-1457` | As much body as the buffer holds and no more than is due goes to the client in one callback, followed by the completion if it was the last; a refused completion stops the call at the last body byte |
| `HttpParser.Parser.TakeByte` | `murl/http_parser.c:386-1436` | One turn in any other state, with the marks kept in step and the exits that do not save the locals |
| `HttpParser.Parser.Finish` | `murl/http_parser.c:1556-1568` | The closing flush delivers what is marked and saves the locals; a refusal there keeps the full length and loses the state |
| `HttpSplit.Feed` | `murl/http_parser.c:350-375` | Any list of non-empty pieces: accepted if and only if one run over their concatenation is, and then in its fields and normalised callbacks; else stopped at its byte, with the flags, numbers and length of that run, and dead if the stream is malformed |
| `HttpSplit.SplitIndependence` | `murl/http_parser.c:319-1568` | Two parsers in the same state fed one stream cut in two ways agree on whether it is consumed whole; if it is, on all fields and on the callbacks after merging adjacent data of one kind; if it is not, on the byte at which they fail and on flags, numbers and length |
| `HttpBody.IdentityPrefix` | `murl/http_parser.c:1437-1457` | With N bytes of body due, any shorter string is delivered whole and what is due shrinks by its length |
| `HttpBody.IdentityWhole` | `murl/http_parser.c:1437-1457` | Exactly N bytes complete the message, once |
| `HttpBody.ChunkWhole` | `murl/http_parser.c:1519-1537` | Exactly the announced bytes of a chunk are delivered before its end is expected |
| `HttpBody.EofRun` | `murl/http_parser.c:1451-1457` | Without a length every byte up to the end of the stream is body |
| `HttpHeaders.NameStep` | `murl/http_parser.c:1076-1174` | The incremental name matcher is always in the sub-state that the name read so far calls for |
| `HttpLines.HeardIsName` | `murl/http_parser.c:1024-1198` | At the end of a name the sub-state is connection, content-length, transfer-encoding or upgrade exactly when the lower-cased name without trailing spaces is that word |
| `HttpLines.HeaderLine` | `murl/http_parser.c:1024-1361` | For every token name and plain value: the callbacks deliver exactly name and value, and flags and length change exactly as the header means (keep-alive, close, chunked, decimal length, upgrade, compared without case and surrounding spaces) |
| `HttpLines.HeaderLineRejected` | `murl/http_parser.c:1239-1242` | A Content-Length with anything but digits and spaces stops the parser |
| `HttpHead.StatusLineRun` | `murl/http_parser.c:425-570` | Every well-formed status line sets major, minor and status to the numbers it writes |
| `HttpHead.HeadEnd` | `murl/http_parser.c:1363-1435` | The end of the head decides where the parser takes the body to end: no body if the callback says so, else chunked before Content-Length, else no body on a connection that is kept, else the end of the stream; a completion is made exactly if there is no body |
| `HttpFraming.HeadEndByRfc` | `murl/http_parser.c:1402-1435` | The rule of section 4.4 of RFC 2616 as a function of HEAD, status, chunked coding and length: after the head the parser has made the callbacks and is in the state that this rule asks for if and only if it is a response to HEAD, or the status is bodyless and there is no chunked coding and the length is 0 or, on a connection that is kept, missing, or the status is another one and there is chunked coding, a length or a connection to be closed |
| `HttpFraming.RfcResponses` | `murl/http_parser.c:1402-1435` | Of the responses framed by the standard, the parser's well-formed ones are exactly those with such a head |
| `HttpFraming.ParserResponses` | `murl/http_parser.c:1402-1435` | Of the parser's well-formed responses, those framed by the standard are exactly those with such a head |
| `HttpFraming.BodylessWaits` | `murl/http_parser.c:1410-1432` | Every other bodyless response is consumed without a completion, and the parser waits for the body that the headers announce, or for the end of the stream |
| `HttpFraming.CloseIgnored` | `murl/http_parser.c:1422-1427` | Every other response with a body up to the end of the stream is completed at its head, and a body that does not start like a message is malformed at its first byte |
| `HttpHead.HeadEndUpgrade` | `murl/http_parser.c:1377-1406` | With an Upgrade header the call ends there with both completions, as a switch of protocols |
| `HttpHead.TrailerEnd` | `murl/http_parser.c:1363-1373` | The end of a trailer completes the message |
| `HttpMessages.ChunkRun` | `murl/http_parser.c:1459-1548` | One chunk in the coding of section 3.6.1 of RFC 2616, with any extension and line ends, delivers its data |
| `HttpMessages.ChunksRun` | `murl/http_parser.c:1459-1548` | Any list of chunks delivers the concatenation of their data |
| `Numerals.HexDigitIs` | `murl/http_parser.c:145-154` | The k-th character of "0123456789abcdef", and its capital form, are worth k in a chunk size |
| `Numerals.NoHexDigit` | `murl/http_parser.c:145-154` | Any other character is no digit, except that all from 128 on are worth 0 |
| `Numerals.HexReads` | `murl/http_parser.c:1459-1486` | What repeated division by 16 writes with those characters is read as the number |
| `Numerals.DecimalReads` | `murl/http_parser.c:1239-1242` | The same in base 10, with the characters "0123456789" |
| `Numerals.LowerCase` | `murl/http_parser.c:104-142` | The table turns capitals into the small letters in their places and nothing else |
| `Numerals.TokenChars` | `murl/http_parser.c:104-142` | The characters of a name are those of section 2.2 of RFC 2616 and four of its separators |
| `HttpMessages.ResponseRun` | `murl/http_parser.c:386-1568` | Round trip: every response, framed as the parser frames it, in every framing, is consumed and reported by exactly the callbacks its parts call for |
| `HttpMessages.PipelineRun` | `murl/http_parser.c:386-1568` | The same for any number of responses on one connection |
| `HttpStream.StreamRun` | `murl/http_parser.c:386-1568` | Every stream of blank lines and well-formed responses, each but the last keeping the connection, within the size limit, is consumed in a state in which it may end |
| `HttpStream.ReadStream` | `murl/http_parser.c:386-1568` | The converse: every text that is consumed in such a state, and whose fields all have values, is read back as such a stream |
| `HttpStream.Language` | `murl/http_parser.c:386-1568` | Both together: the texts that the parser takes are exactly those streams |
| `HttpLanguage.ReadStatus` | `murl/http_parser.c:425-570` | A status line that is taken is "HTTP/", two numbers and a code of at most 999, and optionally a reason, in one of two line ends |
| `HttpGrammar.ReadLine` | `murl/http_parser.c:1024-1361` | A header line that is taken is a name of token characters, a colon, spaces, a plain value and a line end |
| `HttpLanguage.ReadChunks` | `murl/http_parser.c:1459-1548` | A chunked body that is taken is a list of chunks as long as they announce, a last size of 0 and a trailer |
| `HttpStream.BareLine` | `murl/http_parser.c:1185-1195` | A line without a colon is taken, delivers its name and no value, and means nothing |
| `HttpStream.BlankLimit` | `murl/http_parser.c:380-384` | Of line ends alone, 80*1024 are taken and no more |
| `MurlHttp.HeaderTable` | `murl/murl_http.c:149-190` | For every accepted callback sequence: slots in use are counted by the field fragments that do not follow a field fragment, and each slot holds the concatenation of its own name and value fragments |
| `MurlHttp.AssembledNorm` | `murl/murl_http.c:149-203` | Regrouping the fragments of a field, value or body leaves the whole message unchanged |
| `MurlHttp.AssembledBody` | `murl/murl_http.c:192-203` | The message's body is the concatenation of all body callbacks |
| `MurlHttp.BodyFits` | `murl/murl_http.c:192-203` | The body delivered from a buffer is never longer than the buffer |
| `MurlResponses.BodyLimit` | `murl/murl_http.c:192-203` | Whatever callbacks come, the body stored stays below 64 MiB and its size is kept |
| `MurlResponses.HeaderLimits` | `murl/murl_http.c:149-190` | Headers fit if and only if there are at most 63 and no name or value is longer than 64 KiB |
| `MurlHttp.Outcome` | `murl/murl_http.c:287-342` | Full length returned in a state of rest, if and only if the buffer is a whole response or its closing flush is refused |
| `MurlHttp.Session.Parse` | `murl/murl_http.c:287-293` | The same for the wrapper that treats an empty buffer as the end of the stream |
| `MurlHttp.Session.ParseResponse` | `murl/murl_http.c:300-372` | 0 if and only if `GoodReturn`; on failure the receive buffer is untouched; on success, a lost flush included, it holds exactly the body bytes delivered, with their number; the status is in every case the one read up to the end of the buffer or up to the byte whose callback is the first to be refused |
| `MurlStatus.StatusKnown` | `murl/murl_http.c:336-346` | Whatever follows a status line, and whatever is returned, the status left is its number, unless another message begins |
| `MurlStatus.StatusOfPart` | `murl/murl_http.c:336-346` | For every part of a response that holds its status line, the status left is its number |
| `MurlStatus.StatusReplaced` | `murl/murl_http.c:336-346` | A status line behind a response that was taken replaces it |
| `MurlResponses.CompleteMessages` | `murl/murl_http.c:327-346` | A buffer accepted as a whole response has a completion for every completed header block and ends between messages |
| `MurlResponses.LostFlushGuard` | `murl/http_parser.c:1556-1568` | The other way to return 0, exactly: the buffer ends inside a header, all earlier callbacks are taken, and the piece cut off is too long or the table is full |
| `MurlResponses.TruncatedAccepted` | `murl/murl_http.c:327-346` | Inputs cut inside a header name for which 0 is returned although no header block was completed |
| `MurlTruncation.RestInside` | `murl/murl_http.c:327-346` | A proper part of a response leaves the parser where the stream may end, if and only if it is empty, or the response ends with the stream and its head is complete |
| `MurlTruncation.TruncatedIsNotWhole` | `murl/murl_http.c:327-346` | No other proper part is taken for a whole response |
| `MurlTruncation.NoLostFlush` | `murl/http_parser.c:1556-1568` | If murl takes all callbacks of a buffer, no beginning of it gets through by a refused closing flush |
| `MurlTruncation.TruncatedReturn` | `murl/murl_http.c:300-372` | For every response that fits and every proper part of it, 0 is returned if and only if the part is empty, or the response ends with the stream and its head is complete |
| `MurlTruncation.NothingReceived` | `murl/murl_http.c:287-346` | For every buffer: 0 is returned although no header block was completed if and only if it holds nothing but at most 80*1024 line end characters, or its closing flush is refused before any head is complete |
| `MurlResponses.CallsTaken` | `murl/murl_http.c:149-250` | murl takes the callbacks of a response exactly when it fits: element sizes, header count, body size, unchanged keep-alive |
| `MurlResponses.EndToEnd` | `murl/murl_http.c:300-372` | For every response in one buffer, framed as the parser frames it: accepted as whole if and only if it fits, and then body and status are those of the response |
| `MurlWriter.SizedBack` | `murl/murl_http.c:300-372` | Any data, written with a code of at most 999 and a Content-Length in decimal digits, is handed back: success, that code and that data |
| `MurlWriter.ChunkedBack` | `murl/murl_http.c:300-372` | The same for data written in pieces, each with its length in hexadecimal digits |
| `MurlWriter.OpenBack` | `murl/murl_http.c:300-372` | The same for data up to the end of the stream, with Connection: close |
| `MurlFraming.RfcEndToEnd` | `murl/murl_http.c:300-372` | The same for every response framed by the standard whose head is one of those in `HeadEndByRfc` |
| `MurlFraming.BodylessRefused` | `murl/murl_http.c:300-372` | Every bodyless response whose headers announce chunks or a length makes the call fail |
| `MurlFraming.CloseRefused` | `murl/murl_http.c:300-372` | On a connection that is kept, every response with a body up to the end of the stream that does not start like a message makes the call fail |
| `MurlFraming.NotModifiedRefused` | `murl/http_parser.c:1419-1421` | A 304 with `Content-Length: 5` is one of the first kind: the parser waits for five bytes |
| `MurlFraming.UntilCloseRefused` | `murl/http_parser.c:1422-1427` | A 200 under HTTP/1.1 without a length is one of the second: complete at its head, its body malformed |
| `AesMct.AesMct.Iterate` | `src/acvp_aes.c:79-176` | In all six modes and both directions the next input is the unit that stood `IvUnits` steps before this output, units of the IV coming first |
| `AesMct.AesMct.Process` | `app/app_aes.c:151-197` | The handler: set up on index 0, then one unit at a time |
| `AesMct.AesMct.Close` | `src/acvp_aes.c:317-437` | The buffer for the key holds the last key-length bits of this round's output stream, and the IV its last 128 bits, whatever tables and buffer held before |
| `AesMct.AesMct.Round` | `src/acvp_aes.c:278-447` | One round keeps the run lawful and appends its report |
| `AesMct.AesMct.Run` | `src/acvp_aes.c:258-451` | The whole test obeys `MonteCarlo`: the delay-line law over all rounds from the initial text and IV, every output the cipher's answer, next key = key xor end of the output stream, next IV = its last 128 bits; 100 reports give key, IV, first input and last output of every round |
| `AesRun.StepProgress` | `src/acvp_aes.c:296-315` | A step that feeds what the delay line asks for keeps the law |
| `AesRun.NextExpected` | `src/acvp_aes.c:79-176` | What the delay line asks for next, seen from inside a round |
| `AesRun.IvFromBits` | `src/acvp_aes.c:342-358` | The IV assembled by blocks, bytes or single bits is the last 128 bits of the output stream |
| `AesRun.KeyMade` | `src/acvp_aes.c:440-443` | The bytewise key change is the exclusive or with the last bits of the output stream |
| `AesDetermined.Determined` | `src/acvp_aes.c:258-451` | For a cipher that looks only at the bits that count, two runs that obey the laws from the same key, IV and text have the same outputs, keys and IVs, and the same inputs |
| `AesFeedback.OutputFeeds` | `src/acvp_aes.c:101-107` | On bytes: in ECB every output is the next input |
| `AesFeedback.OlderOutputFeeds` | `src/acvp_aes.c:108-126` | In CBC, OFB and CFB128 the second input is the IV and each later one the output two steps before |
| `AesFeedback.ByteFeeds` | `src/acvp_aes.c:127-141` | In CFB8 the sixteen bytes of the IV come after the first input, and then the output 17 steps before |
| `AesFeedback.BitFeeds` | `src/acvp_aes.c:142-157` | In CFB1 the 128 bits of the IV, and then the first bit of the output 129 steps before |
| `AesFeedback.BlockKey` | `src/acvp_aes.c:360-443` | On bytes: the next key is the key xor the end of the last two outputs of 1000, the next IV the last one |
| `AesFeedback.ByteKey` | `src/acvp_aes.c:337-443` | In CFB8: xor the last outputs, one for each key byte, and the last sixteen are the IV |
| `AesFeedback.BitKey` | `src/acvp_aes.c:348-443` | In CFB1: one of the last outputs for each bit of the key |
| `AesFeedback.BitIv` | `src/acvp_aes.c:348-358` | In CFB1: the first bits of the last 128 outputs are the next IV |
| `Bits.WithBitGet` | `src/acvp_aes.c:71-72` | Setting a bit changes that bit and no other |
| `ShiftRegister.ShiftIn` | `src/acvp_des.c:55-77` | In place, for every shift from 0 to 192 bits: the 192 bits move left and the leading bits of the source follow, so that the register as a number becomes (V * 2^n + leading bits) mod 2^192; at most one byte past the register is touched, none for whole bytes |
| `ShiftRegister.ShiftedValue` | `src/acvp_des.c:55-77` | The arithmetic of a shift, for bit strings of every length |
| `ShiftRegister.BitsMoved` | `src/acvp_des.c:71-76` | The byte loop is a bit shift of the whole register |
| `ShiftRegister.Forgets` | `src/acvp_des.c:397-424` | Two registers that are given the same shifts, of at least as many bits as they hold, become equal, and hold the end of what they were given |
| `TdesParity.TableIsParity` | `src/acvp_des.c:353-378` | Every entry of the table has an odd number of ones and the upper seven bits of its index |
| `TdesParity.ParityUnique` | `src/acvp_des.c:353-378` | It is the only byte with that property |
| `TdesMct.TdesMct.Process` | `app/app_des.c:120-185` | The handler: register before the operation reported except on index 0, one unit processed, register reported again |
| `TdesMct.TdesMct.Iterate` | `src/acvp_des.c:84-203` | The next text in every mode and direction, tables filed, output untouched |
| `TdesMct.TdesMct.ChangeKey` | `src/acvp_des.c:487-503` | The new key: odd parity, old bits xor the slices of the window, last slice first, third key equal to the first unless there are three |
| `TdesMct.TdesMct.Close` | `src/acvp_des.c:487-516` | The next round starts from that key, the register after the last step as IV, and in OFB the first text xor the register before the last step |
| `TdesMct.TdesMct.Run` | `src/acvp_des.c:397-566` | The whole test obeys `MonteCarlo` from an uninitialised window buffer: texts, answers, keys from the last 192 output bits of each round, IVs, OFB restart; 400 reports give the three keys, IV, first text and last output of every round |
| `TdesLaw.KeysWellMade` | `src/acvp_des.c:487-503` | Every key after the first has odd parity everywhere, and key 3 equals key 1 unless there are three keys |
| `TdesDetermined.Determined` | `src/acvp_des.c:386-568` | For a cipher that looks only at the bits that count, two runs that obey the laws from the same key, IV and text have the same outputs, keys and IVs, and the same texts, and leave the same start |
| `TdesFeedback.OutputFeeds` | `src/acvp_des.c:100-190` | Over any lawful run, on inputs and outputs alone: in ECB and in CBC decryption every output is the next input, also from round to round |
| `TdesFeedback.OlderOutputFeeds` | `src/acvp_des.c:100-133` | In CBC and CFB64 encryption it is the output before that, and the IV at first |
| `TdesFeedback.RegisterFeeds` | `src/acvp_des.c:145-175` | In OFB, and in CFB8 and CFB1 encryption, it is the register before the step, and the IV at first |
| `TdesFeedback.OfbRestarts` | `src/acvp_des.c:505-516` | After a round of OFB the first text returns, xor the register before the last step |
| `TdesFeedback.DifferenceFeeds` | `src/acvp_des.c:134-183` | In CFB decryption it is the input xor the output |
| `TdesFeedback.MaskFeeds` | `src/acvp_des.c:134-183` | For a cipher that xors a mask onto its input, that is the mask: its answer to zeros in the same state |
| `TdesFeedback.KeysTakeOutputs` | `src/acvp_des.c:487-503` | In the 64-bit modes, parity aside: next key 1 is key 1 xor the last output, key 2 xor the one before, key 3 (of three) xor the one before that |
| `TdesFeedback.KeysTakeUnits` | `src/acvp_des.c:487-503` | In CFB8 and CFB1: the last 64 output bits go into key 1, the 64 before into key 2, the 64 before those into key 3, unit by unit |
| `TdesLaw.EncryptionFeedsRegister` | `src/acvp_des.c:96-175` | For a cipher whose register behaves as in CBC and CFB64 (such a one is given in `EncryptionExample`), the next text of every encrypting mode with an IV is the head of the IV register before the step |
| `Ketopt.Permute` | `app/ketopt.h:35-42` | Moves one word left over n others, in place |
| `Ketopt.Ketopt.Next` | `app/ketopt.h:62-138` | One call: the value, argument and indices are those read from the remaining words, and what was read moves ahead of all plain words passed over |
| `Ketopt.ParseAll` | `app/app_cli.c:307-308` | The caller's loop leaves argv as options with their arguments, then plain words, then the untouched rest, each in original order, and reports the options the scan finds |
| `Ketopt.Rearranged` | `app/ketopt.h:44-61` | That result is a stable partition and a permutation of the original words |
| `OptionWords.ScanReadsBack` | `app/ketopt.h:62-138` | Round trip: for any list of things to say, each in any of its forms (`--name=arg`, `--name arg`, `--name`, `-c`, `-c arg`, plain words anywhere), the scan of the words tells exactly those values, arguments and places, and goes on behind them |
| `OptionWords.ReadBack` | `app/app_cli.c:307-308` | The caller's loop on such a line and a bare `--`: the values and arguments said, and argv as options, `--`, plain words, rest |
| `OptionWords.ReadsEquals` | `app/ketopt.h:93-106` | `--name=v` gives the option's value and the argument v, behind the equals sign, for one word |
| `OptionWords.ReadsName` | `app/ketopt.h:93-112` | `--name` takes no argument, or the next word, or if none is left and one is required, answers ':' |
| `OptionWords.ReadsStrange` | `app/ketopt.h:93-103` | A name that is no option gives '?' and is used up, one that may be several is not |
| `OptionWords.ReadsLetter` | `app/ketopt.h:113-131` | -s, -u, -r, -p take the next word or give ':', -v, -h, -a take none, every other letter but ':' gives '?' |
| `OptionWords.ScanDashes` | `app/ketopt.h:83-88` | A bare `--` ends the options and leaves everything behind it alone |
| `OptionScan.ScanPartitions` | `app/ketopt.h:74-137` | The scan of any command line is a shuffle of options and plain words, followed by the rest |
| `OptionScan.ChooseMeans` | `app/ketopt.h:91-103` | A long option is chosen if and only if it fits and nothing else does, or it alone fits exactly |
| `Base64.Decode` | `app/app_utils.c:85-127` | For every string: the number of bytes, which is 6/8 of the number of characters before the first '=' if all of those are letters of RFC 4648 and 0 otherwise, the bytes themselves, and nothing written behind the byte under way; with regular padding nothing behind the result |
| `Base64.AcceptedIsLettered` | `app/app_utils.c:93-98` | A text is accepted if and only if every character before the first '=' is in the alphabet, written out |
| `Base64.DecodedValue` | `app/app_utils.c:100-121` | Four letters as a number in base 64 are three bytes as a number in base 256; of a shorter last group the low bits are dropped |
| `Base64.RoundTrip` | `app/app_utils.c:41-127` | Decoding the padded encoding of any bytes gives exactly those bytes |
| `Base64.Reencode` | `app/app_utils.c:85-127` | A fully padded text without stray bits is the encoding of what it decodes to |
| `Base64.EncodedCanonical` | `app/app_utils.c:41-127` | Every encoding is of that form |
| `Base64.DigitLetter` | `app/app_utils.c:53-83` | The decoding table inverts the alphabet on every digit |

## Left out

- The request half of the HTTP parser, and parsers that find out the message type: only responses are modelled.
- HttpStream.ReadStream: texts with header lines without a colon are taken too (`BareLine`) but not written down as streams, because such names run together in murl's header table.
- Transfer codings other than chunked, and multipart ranges that delimit themselves, are no part of the framing rule in `HttpFraming`; the parser knows neither.
- `content_length` is an unbounded integer; the source's 64-bit length can overflow on long digit strings.
- The transition function of the parser is one pure function, cut up by state; the class around it has the source's loop, marks and fields.
- murl's message callbacks are functions on message values, because they only append; string capacities and embedded terminators of `strncat` are not modelled, nor is the flag for a completion at the end of the stream.
- MurlHttp.HeaderTable: a value callback before any field callback, which the parser never makes, does nothing here; the source would write in front of the table.
- Further calls after a refused callback: all fields of the parser are specified, but it is not fed again.
- Allocation failures, logging and JSON: results of a Monte Carlo round are a list of records.
- The buffers and history tables of the Monte Carlo drivers are fields that hold sequences, so that aliasing between them is excluded; the TDES window is an array. Eight-byte copy loops are written as one copy.
- A cipher handler is a state set up from key and IV and stepped by inputs, with outputs as long as the inputs; one that fails, where the drivers stop at once, is not modelled.
- AES modes without a Monte Carlo test and TDES interleaved modes.
- Ketopt.Ketopt.Next: words are strings without terminator, the option string is the one the application passes.
- The check that the option string matches its copy inside `ketopt`, for other option strings.
- Base64.Decode: the caller provides three bytes for every four characters, rounded up.
- URL parsing, sockets, TLS, capability registration and the OpenSSL handlers.
