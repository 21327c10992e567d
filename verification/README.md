# Verified models of six embedded-service cores

This project models the parts of the repository whose correctness is hardest to
see by reading, and proves what they promise:

- **Fixed point** (`FixSqrt`, `FixDiv`, `FixAtan`): Q16.16 square root, division,
  multiplication and the cached `atan2`, on explicit 32-bit words.
- **cJSON** (`JsonText`, `JsonPrint`, `JsonLayout`, `JsonStrings`, `JsonGrammar`,
  `JsonAccepts`, `JsonErrors`, `JsonMinify`, `JsonComments`, `JsonSqueeze`,
  `JsonBuffers`, `JsonTree`, `JsonParser`, `JsonPrinter`): the parser as functions,
  the texts it accepts as a grammar around section 2 of RFC 8259, where it gives up
  on the others, the printer with its layout and its output buffers, the in-place
  minifier and what it does to meaning, the parser, and the mutable linked tree.
- **Autofocus** (`FeedbackFlow`, `Autofocus`, `AutofocusLiveness`): main loop, motor
  and FPGA as one transition system interleaved at every access to the shared flag
  words, what every run keeps, and that every fair run ends.
- **LiteTalk** (`LiteTalk`, `LiteTalkSync`, `LiteTalkQueue`): frame matching,
  resynchronisation, the receiving loop, the eight-slot receive queue and the frame
  builders.
- **Micro-talk** (`MinPq`, `MtkChunks`, `MtkTransfer`, `MtkSessions`): cutting,
  sending, fetching and merging a file, the binary heap behind the merge, and the
  scheduling of sessions on one channel.
- **Scanners** (`Uri`, `UriRejects`, `Eots`): the URI state machine and the
  command-stream loop that shifts its buffer in place.

`dafny verify dfyconfig.toml` checks everything.

## How to read it

Code that updates a buffer, an object or a cursor is a method (or a class) whose
postcondition ties the new state to a function; the properties are then lemmas
about that function, for all inputs or all runs. Runs are sequences of events: a
lemma about `Run(acts)`, `RunPolls(polls)`, `SendRun(ci, es)` or `RecvRun(es)`
holds at every moment of every execution. `AutofocusLiveness` is about unending
schedules instead.

Where a property one would expect is false of the code, there is a concrete input
that shows it and an exact condition:

- `fix16_sqrt` is the floor root except when its large-remainder branch runs and
  v * 2^16 exceeds the square of the floor root by less than 2^14
  (`FixSqrt.SqrtExactIff`, `FixSqrt.SqrtInexactExample`).
- `fix16_div` is the truncated quotient except when the kick-start error carries
  (`FixDiv.DivExactIff`, `FixDiv.DivInexactExample`).
- the cold `atan2` cache answers 0 for (0, 0), unlike the computation
  (`FixAtan.AtanCache.Atan2`, `FixAtan.OriginDiffers`).
- chunk slices cover a file exactly when file, checksum and chunk size are not zero
  and the number and the size of the chunks fit their 16-bit fields
  (`MtkChunks.CoversIff`, `MtkChunks.UncoveredExample`).
- a sending session leaves the whole file at the server exactly when each message
  fits its 16-bit length, which means chunks of at most 65510 bytes, and each reply
  answers a request and accepts its chunk (`MtkChunks.SendComplete`,
  `MtkChunks.CutMessageExample`, `MtkChunks.RejectedExample`,
  `MtkChunks.UnaskedExample`).
- a run of sessions is safe, whether or not the next connect fails, exactly when no
  reply asks an attached session for more while a connect is pending and the work
  queue has room (`MtkSessions.SafeIff`, `MtkSessions.UnsafeRun`).
- a command stream makes `mem_rollback` move a negative number of bytes exactly
  when the bytes left at its last round boundary hold an internal header, or are a
  single 0xa5 with a stale 0x50 behind it (`Eots.OverrunIff`, `Eots.CutStream`,
  `Eots.OverrunExample`).
- the first bytes of a LiteTalk frame behind garbage survive a poll exactly when the
  memory shows their whole mark (`LiteTalk.CutFrame`, `LiteTalk.CutMarkLost`), and
  the length field 2^32 - 10 makes a poll remove nothing (`LiteTalk.PollRemoves`,
  `LiteTalk.StuckExample`).
- submitted LiteTalk frames are lost exactly when one completes while eight are held,
  and come out in order exactly when none is taken after one was taken while more
  than two were held (`LiteTalkQueue.LostIff`, `LiteTalkQueue.LossExample`,
  `LiteTalkQueue.OrderIff`, `LiteTalkQueue.TakenIff`, `LiteTalkQueue.ReorderExample`).
- a composed URI is taken apart into exactly its components if and only if it has a
  path, or neither a query nor a fragment; otherwise what follows the mark lands in
  the host, the port, the user or the path (`Uri.TakenApartIff`, `Uri.HostExample`,
  `Uri.PortExample`).
- a second `cJSON_Minify` changes nothing exactly when no slash has come to stand
  before a slash or a star (`JsonComments.MinifyTwiceIff`,
  `JsonComments.SlashesExample`), and minifying keeps the meaning of an accepted text
  except of a string cut by the end (`JsonSqueeze.MinifyMeaning`).
- an autofocus run that has begun ends, under every fair interleaving, exactly when
  the samples show a stop (`AutofocusLiveness.EndsIff`).

## Model

| member | source | states |
|---|---|---|
| FixSqrt.DigitLoop | application/fix_math/fix_math.c:60-77 | started on any state in which the digits found so far are right, one pass leaves the floor root of its number and the exact remainder |
| FixSqrt.Sqrt | application/fix_math/fix_math.c:38-110 | two passes over 32-bit words, none of which wraps, compute SqrtValue for every input but INT_MIN, negative ones included |
| FixSqrt.SecondPass | application/fix_math/fix_math.c:73-99 | what the second pass starts from in the small and in the large remainder branch is again a digit state, of the radicand that branch really computes |
| FixSqrt.SqrtExactIff | application/fix_math/fix_math.c:38-110 | the square never exceeds v * 2^16, and the result is the floor root if and only if the first remainder is at most 65535 or the true root leaves a remainder of at least 2^14 |
| FixSqrt.SqrtLargeRemainder | application/fix_math/fix_math.c:79-89 | in the other branch r^2 + 2^14 <= v * 2^16 < (r+1)^2 + 2^14, and the result is the floor root or one less |
| FixSqrt.SqrtOdd | application/fix_math/fix_math.c:40-41 | sqrt(-v) = -sqrt(v) |
| FixSqrt.SqrtInexactExample | application/fix_math/fix_math.c:79-89 | an input whose root comes out one too small |
| FixDiv.Clz | application/fix_math/fix_math.c:121-128 | the shift that brings the leading one of a word to the top, and 32 for zero |
| FixDiv.Estimate | application/fix_math/fix_math.c:148-153 | the kick-start conserves quotient and remainder up to a stated loss, and does nothing for divisors below 2^20 |
| FixDiv.StripFactors | application/fix_math/fix_math.c:156-160 | dropping factors of sixteen from the divider keeps the value it stands for |
| FixDiv.DivideLoop | application/fix_math/fix_math.c:162-181 | the shift-and-divide loop returns the integer quotient, or overflow exactly when it needs more than 32 bits |
| FixDiv.DivideWords | application/fix_math/fix_math.c:138-188 | on magnitudes: overflow exactly when n >= 2^15 d, otherwise the stated magnitude |
| FixDiv.Div | application/fix_math/fix_math.c:132-202 | the whole function equals DivValue for every pair of words but INT_MIN |
| FixDiv.DivOverflowIff | application/fix_math/fix_math.c:132-202 | the overflow sentinel is returned exactly for b = 0 or abs(a) >= 2^15 abs(b) |
| FixDiv.DivExactSmall | application/fix_math/fix_math.c:132-202 | below 2^20 the result is the sign times floor(abs(a) 2^16 / abs(b)) |
| FixDiv.DivBoundsLarge | application/fix_math/fix_math.c:148-153 | from 2^20 on the magnitude is more than exact - 1 and at most exact + 1/16 |
| FixDiv.DivExactIff | application/fix_math/fix_math.c:148-153 | the magnitude is the truncated quotient if and only if the remainder plus the kick-start loss stays below the divisor |
| FixDiv.DivInexactExample | application/fix_math/fix_math.c:148-153 | a pair of operands whose quotient comes out one too large |
| FixAtan.Mul | application/fix_math/fix_math.c:204-241 | the floor of the product over 2^16, or the sentinel when it does not fit |
| FixAtan.CubicBounds | application/fix_math/fix_math.c:262-276 | the cubic of a ratio in [-1, 1] stays within a quarter turn, on the right side |
| FixAtan.CubicAccuracy | application/fix_math/fix_math.c:263-264 | for every ratio in [-1, 1] the cubic is within two raw units of 0x3240 r^3 / 2^48 - 0xFB50 r / 2^16, in plain integers |
| FixAtan.Atan2Accuracy | application/fix_math/fix_math.c:255-276 | for every (x, y) but the origin with abs(x) + abs(y) < 2^31 the angle, with the sign of y, is within two raw units of 51471, or 154415 for negative x, plus that cubic of a ratio within one unit of the exact one |
| FixAtan.HashSlots | application/fix_math/fix_math.c:249-251 | the slot is the low twelve bits of x xor y, folded with its high twelve |
| FixAtan.AngleOctant | application/fix_math/fix_math.c:255-276 | for every (x, y) but the origin with abs(x) + abs(y) < 2^31 the angle before the sign flip lies in the octant of its argument, within one raw unit |
| FixAtan.Atan2Odd | application/fix_math/fix_math.c:257-276 | off the axis, negating y negates the angle |
| FixAtan.Compute | application/fix_math/fix_math.c:255-276 | the computation without the cache equals Atan2Value |
| FixAtan.AtanCache.constructor | application/fix_math/fix_math.c:112-115 | the zero-initialised cache |
| FixAtan.AtanCache.Atan2 | application/fix_math/fix_math.c:244-284 | a hit or a miss gives the computed angle and keeps every slot right; the origin gives 0 from a cold cache |
| FixAtan.Session | application/fix_math/fix_math.c:112-115 | over every sequence of calls from the initial cache, the origin excluded, each answer is the computed angle |
| FixAtan.OriginDiffers | application/fix_math/fix_math.c:252-276 | what the computation gives for the origin, which the cold cache does not |
| JsonPrint.StringInverse | application/http_client/cJSON.c:155-248 | parsing the printed form of any NUL-free string gives it back and stops after the closing quote |
| JsonPrint.NumberInverse | application/http_client/cJSON.c:96-115 | parsing the printed form of any int gives it back when no digit, point or exponent letter follows |
| JsonPrint.PrintParse | application/http_client/cJSON.c:287-507 | for every tree, depth, mode and admissible rest, parsing the printed text gives the tree and leaves exactly the rest |
| JsonPrint.ParsePrinted | application/http_client/cJSON.c:264-284 | cJSON_ParseWithOpts inverts cJSON_Print and cJSON_PrintUnformatted, with or without the end check |
| JsonLayout.FormattedPrint | application/http_client/cJSON.c:302-507 | the formatted print of any value, inside any open brackets, passes a scan of the text alone: each line feed with as many tabs as brackets are open, one fewer before a closing brace and in an empty object; a tab behind each colon, a line feed behind a comma in an object and a blank in an array, no other white space outside literals |
| JsonLayout.CompactPrint | application/http_client/cJSON.c:302-507 | the compact print of any value has no white space outside literals |
| JsonLayout.FormattedText | application/http_client/cJSON.c:283-284 | both for the print entry points |
| JsonLayout.EscapeLaw | application/http_client/cJSON.c:227-245 | which bytes are escaped and how: seven with a letter, other control bytes as four hexadecimal digits, nothing else |
| JsonLayout.IntLaw | application/http_client/cJSON.c:118-127 | a sign exactly for negative numbers, then digits without a leading zero |
| JsonGrammar.NumeralParse | application/http_client/cJSON.c:96-107 | every numeral the source takes, those of section 6 of RFC 8259 among them, is read as its mantissa and exponent |
| JsonGrammar.WriteParse | application/http_client/cJSON.c:287-439 | every text of a grammar that contains section 2 of RFC 8259, with any white space, number and escape, before any rest that ends a number, is read as its value and leaves the rest |
| JsonGrammar.DocParse | application/http_client/cJSON.c:264-278 | the same for the entry point, with white space around the text and with or without the check for the end |
| JsonGrammar.StandardAccepted | application/http_client/cJSON.c:287-439 | every text of section 2 of RFC 8259 is one of this grammar |
| JsonAccepts.NumeralRead | application/http_client/cJSON.c:96-107 | what parse_number takes is a numeral of the grammar, and its value that of the numeral |
| JsonAccepts.ValueRead | application/http_client/cJSON.c:287-439 | the converse: every text parse_value accepts is a text of the grammar with the rest behind it, read as its value, or a string cut by the end |
| JsonErrors.FaultFound | application/http_client/cJSON.c:287-439 | in a text of the grammar with one fault, however deep (no value, no comma or closing bracket, no name, no colon), the error position is the fault |
| JsonErrors.ParseFault | application/http_client/cJSON.c:264-272 | the same for the entry point |
| JsonErrors.TrailingText | application/http_client/cJSON.c:274-277 | text behind a whole document is an error at its first byte with the check for the end, and the rest without it |
| JsonMinify.MinifyPrint | application/http_client/cJSON.c:595-610 | minifying formatted text at any depth, before any rest, gives the compact text followed by the minified rest |
| JsonMinify.MinifyFormatted | application/http_client/cJSON.c:595-610 | minifying the formatted print of any value gives its compact print |
| JsonMinify.CopyLiteral | application/http_client/cJSON.c:606-606 | a string literal is copied down unchanged, escapes included |
| JsonMinify.MinifyInPlace | application/http_client/cJSON.c:595-610 | the in-place loop leaves exactly the minified text and its terminator |
| JsonComments.MinifyTokens | application/http_client/cJSON.c:595-610 | of every sequence of blanks, line comments, block comments, literals and other bytes exactly the literals and the other bytes are left |
| JsonComments.MinifyRead | application/http_client/cJSON.c:595-610 | the converse: a text that is minified without running past its end is such a sequence |
| JsonComments.MinifyTwiceIff | application/http_client/cJSON.c:595-610 | a second pass changes nothing if and only if no slash has come to stand before a slash or a star |
| JsonComments.SlashesExample | application/http_client/cJSON.c:604-605 | two slashes with a blank between them are kept by one pass and dropped by two |
| JsonSqueeze.MinifyDoc | application/http_client/cJSON.c:595-610 | minifying a text of the grammar, before any rest, gives the same document without blanks before the minified rest |
| JsonSqueeze.MinifyMeaning | application/http_client/cJSON.c:595-610 | every text the parser accepts up to its end is either a string cut by the end, on which the loop runs past the end, or is minified to a text with the same parse |
| JsonStrings.Utf8Inverse | application/http_client/cJSON.c:192-200 | the bytes stored for a code point are its shortest UTF-8 form |
| JsonStrings.CharParse | application/http_client/cJSON.c:166-206 | each production of a literal, surrogate pairs, lone surrogates and zero included, is decoded to its meaning |
| JsonStrings.LiteralParse | application/http_client/cJSON.c:155-212 | every literal is decoded as a whole and parsing stops just after its closing quote |
| JsonStrings.BodyRead | application/http_client/cJSON.c:155-212 | the converse: every body that is accepted is a sequence of these productions, closed by a quote or cut by the end |
| JsonStrings.CodeEscapeParse | application/http_client/cJSON.c:179-201 | the escape of every code point but zero and the surrogates, one unit or two of UTF-16, each digit in either case, is read as bytes whose UTF-8 decoding is the code point |
| JsonStrings.LetterMeanings | application/http_client/cJSON.c:172-202 | the eight letters of section 7 of RFC 8259 and the bytes they stand for |
| JsonStrings.EscapedLength | application/http_client/cJSON.c:220-220 | the first pass counts the bytes of the escaped string exactly |
| JsonStrings.PrintStringPtr | application/http_client/cJSON.c:215-248 | the second pass fills the allocated buffer exactly, terminator included |
| JsonStrings.CountBounds | application/http_client/cJSON.c:160-206 | the decoded string is never longer than the first-pass count |
| JsonStrings.CountLiteral | application/http_client/cJSON.c:160-160 | the counting loop computes that count |
| JsonStrings.CountSource | application/http_client/cJSON.c:160-160 | the count of a literal of the grammar, added up over its characters |
| JsonStrings.PutUtf8 | application/http_client/cJSON.c:192-200 | writing back to front stores the UTF-8 form |
| JsonStrings.ParseStringBuffer | application/http_client/cJSON.c:155-212 | the buffer has exactly the size the first pass counts and holds the decoded bytes and their terminator, and the cursor is where the grammar says |
| JsonBuffers.IntLength | application/http_client/cJSON.c:124-125 | every int prints in at most eleven characters |
| JsonBuffers.PrintNumber | application/http_client/cJSON.c:118-127 | the 21-byte buffer holds the decimal text |
| JsonBuffers.ItemsLengthCovers | application/http_client/cJSON.c:370-379 | the length added up for an array is that of its items and separators, and one more for each item and each byte of a separator |
| JsonBuffers.MembersLengthCovers | application/http_client/cJSON.c:469-479 | the length added up for an object is that of its members, tabs and line ends, and one more |
| JsonBuffers.ComposeArray | application/http_client/cJSON.c:391-402 | the second pass writes the array text and terminator within the buffer |
| JsonBuffers.ComposeObject | application/http_client/cJSON.c:490-506 | the second pass writes the object text and terminator within the buffer |
| JsonBuffers.PrintEmptyObject | application/http_client/cJSON.c:451-459 | the empty object fits the buffer of depth + 4 or 3 bytes |
| JsonPrinter.PrintValue | application/http_client/cJSON.c:302-317 | walking a linked tree prints exactly the text of its value into a fresh, sufficient buffer |
| JsonPrinter.PrintArray | application/http_client/cJSON.c:348-403 | the same for arrays, both passes together, with the exact size of the buffer |
| JsonPrinter.PrintObject | application/http_client/cJSON.c:442-507 | the same for objects, both passes together: the buffer has six bytes more than the text |
| JsonPrinter.PrintAndParse | application/http_client/cJSON.c:264-317 | printing a linked tree and parsing the buffer builds a fresh tree of the same value |
| JsonTree.GetArraySize | application/http_client/cJSON.c:510-510 | walking the chain counts the children |
| JsonTree.GetArrayItem | application/http_client/cJSON.c:511-511 | the child at the position, null past the end, the first for negative indices |
| JsonTree.TreeUnique | application/http_client/cJSON.c:509-535 | a well-linked tree stands for one value |
| JsonTree.AddItemToArray | application/http_client/cJSON.c:520-520 | append: the list becomes the old one plus the item, links consistent, nothing else changed |
| JsonTree.DetachItemFromArray | application/http_client/cJSON.c:525-526 | remove-at: the others keep their order, the removed subtree is intact and unlinked |
| JsonTree.ReplaceItemInArray | application/http_client/cJSON.c:532-534 | update-at; past the end nothing changes |
| JsonTree.Duplicate | application/http_client/cJSON.c:568-593 | the copy is fresh, shares no node and, when recursive, has the same value |
| JsonTree.CopyChildren | application/http_client/cJSON.c:583-591 | the loop rebuilds the chain of children with equal names and values |
| JsonParser.ReadNumber | application/http_client/cJSON.c:96-115 | the digit loops compute the mantissa and exponent of the grammar and stop where it stops |
| JsonParser.ReadArray | application/http_client/cJSON.c:320-345 | builds a fresh, well-linked tree for the parsed array, or reports the error position |
| JsonParser.ReadObject | application/http_client/cJSON.c:406-439 | the same for objects |
| JsonParser.ReadValue | application/http_client/cJSON.c:287-299 | the same for every value |
| JsonParser.ParseWithOpts | application/http_client/cJSON.c:264-278 | succeeds exactly when the grammar accepts, with a fresh tree of its value and the end position, or the position of the error |
| FeedbackFlow.FeedbackFlow.Wait | application/benchmark/bk_fbkflow.c:6-60 | the next state and whether an update is due; all pending events are dropped |
| FeedbackFlow.FeedbackFlow.Run | application/benchmark/bk_fbkflow.c:73-88 | a disabled flow does nothing, an enabled one waits |
| FeedbackFlow.FeedbackFlow.SetEnable | application/benchmark/bk_fbkflow.c:90-101 | disabling resets state and events |
| FeedbackFlow.FeedbackFlow.Notify | application/benchmark/bk_fbkflow.c:103-108 | an event is recorded only while enabled |
| FeedbackFlow.FeedbackFlow.constructor | application/benchmark/bk_fbkflow.c:110-122 | the initial flow |
| FeedbackFlow.RunProgress | application/benchmark/bk_fbkflow.c:6-60 | the state is exactly how much of the chain set, later exposure, later frame has been seen |
| FeedbackFlow.UpdateExactlyAfterChain | application/benchmark/bk_fbkflow.c:6-88 | the next update is due exactly when a set event, a strictly later exposure and a strictly later frame have been seen |
| FeedbackFlow.BeginsAnew | application/benchmark/bk_fbkflow.c:73-108 | whatever happened before a flow was disabled and while it was: enabled again it begins anew, and its first run updates at once |
| Autofocus.MotorKeeps | application/benchmark/autofocus.c:167-202 | each access of the motor thread keeps the system invariant |
| Autofocus.FpgaKeeps | application/benchmark/autofocus.c:140-165 | each access of the FPGA thread keeps it |
| Autofocus.StartKeeps | application/benchmark/autofocus.c:90-100 | starting keeps it |
| Autofocus.MainKeeps | application/benchmark/autofocus.c:38-88 | each access of the main thread keeps it |
| Autofocus.UpdatePeak | application/benchmark/autofocus.c:104-138 | one sample keeps gmax and fall describing the last largest sample, or stops at the first possible moment with its position |
| Autofocus.RunInv | application/benchmark/autofocus.c:22-202 | the invariant holds after every interleaving of the three threads and of restarts |
| Autofocus.UpdateInStep | application/benchmark/autofocus.c:38-138 | whenever a sample is read, the step counter equals the number of samples read so far in this run |
| Autofocus.FinalPosition | application/benchmark/autofocus.c:104-138 | a run that ends has read the fewest samples that show three smaller ones after the last largest, and aims at 576328 - 1280 k for its index k |
| Autofocus.SameFocus | application/benchmark/autofocus.c:38-202 | any two runs over the same samples, under any interleavings, end at the same position |
| Autofocus.RunCausalInv | application/benchmark/autofocus.c:54-71 | the time stamps behind the state of the flow form a causal chain at every moment |
| Autofocus.UpdateAfterChain | application/benchmark/autofocus.c:54-71 | each update after the first follows a motor step since the last update, an exposure raised after that step was seen and a frame raised after that exposure was seen, in strictly later runs of the flow |
| AutofocusLiveness.ActCloser | application/benchmark/autofocus.c:38-202 | every access brings the run closer to its end or leaves it waiting for the same thread, which has not moved |
| AutofocusLiveness.Stops | application/benchmark/autofocus.c:38-202 | when the samples show a stop, a run that has begun ends under every fair interleaving of the threads |
| AutofocusLiveness.EndsIff | application/benchmark/autofocus.c:38-202 | under every fair interleaving a run that has begun ends if and only if the samples show a stop, and then with the motor sent to 576328 - 1280 k, modulo 2^32, for the index k of the last largest sample |
| AutofocusLiveness.StartBegins | application/benchmark/autofocus.c:90-100 | after each start command a run is going |
| Autofocus.Focus.constructor | application/benchmark/autofocus.c:22-36 | the initial fields |
| Autofocus.Focus.Begin | application/benchmark/autofocus.c:90-100 | only a stopped device starts, with the start position commanded |
| Autofocus.Focus.Sample | application/benchmark/autofocus.c:104-138 | the fields after one sample, and exactly one command issued |
| LiteTalk.Scan | application/cmder/proto-litetalk.c:8-34 | the loop computes the scan length, including its look at two bytes beyond the received ones |
| LiteTalk.FirstMarkIs | application/cmder/proto-litetalk.c:21-32 | the scan stops at the first mark and takes everything when there is none |
| LiteTalk.MatchPrefix | application/cmder/proto-litetalk.c:36-71 | a buffer that begins a frame matches with its exact length once it holds all of it, and is unfinished before |
| LiteTalk.Conservation | application/cmder/cmder.c:429-476 | over any polls on any bytes, the submitted and dropped pieces followed by the buffer are exactly the bytes received |
| LiteTalk.PollReads | application/cmder/cmder.c:442-469 | on a stream of frames a poll submits the next frame exactly when the buffer holds all of it |
| LiteTalk.FramesInOrder | application/cmder/cmder.c:429-476 | however the stream is split into reads, at every moment the pieces are its first frames, whole and in order, and nothing is dropped |
| LiteTalk.FragmentationIndependence | application/cmder/cmder.c:429-476 | once all bytes are in and as many further polls have passed as there are frames, exactly the frames have been submitted and the buffer is empty |
| LiteTalk.Resynchronise | application/cmder/cmder.c:463-469 | garbage before a whole frame is dropped in one poll and the next submits the frame |
| LiteTalkSync.SearchEnds | application/cmder/cmder.c:463-469 | once the first mark is in, one poll drops exactly the garbage that is left |
| LiteTalkSync.SyncRun | application/cmder/cmder.c:429-476 | however garbage and frames are split into reads, none ending inside the first mark: at every moment the pieces are garbage, then the first frames, whole and in order |
| LiteTalkSync.ResyncEverySplit | application/cmder/cmder.c:429-476 | and after as many further polls as there are frames exactly the frames have been submitted, exactly the garbage dropped and the buffer is empty |
| LiteTalk.CutFrame | application/cmder/proto-litetalk.c:8-34 | garbage followed by any first bytes of a frame: the poll waits below four bytes, keeps the frame exactly when its mark is seen whole, stale bytes included, and drops it otherwise |
| LiteTalk.CutMarkLost | application/cmder/proto-litetalk.c:21-32 | an instance: one byte and three of a mark, all dropped |
| LiteTalk.PollRemoves | application/cmder/proto-litetalk.c:54-70 | a poll on anything but an unfinished frame removes a byte, exactly unless the length field wraps to zero |
| LiteTalk.StuckExample | application/cmder/proto-litetalk.c:54-70 | a header that every poll submits as an empty frame and never removes |
| LiteTalk.FrameMatches | application/cmder/proto-litetalk.c:36-71 | every built frame is matched with its exact length whatever follows |
| LiteTalk.Be16Weights | application/cmder/proto-litetalk.c:256-257 | the first byte of a 16-bit field is the most significant one |
| LiteTalk.Be32Inverse | application/cmder/proto-litetalk.c:224-225 | the same for 32 bits, and reading it back |
| LiteTalk.PackHeader | application/cmder/proto-litetalk.c:211-228 | mark, category, zero flag and big-endian length in front, the rest unchanged |
| LiteTalk.BuildCmderr | application/cmder/proto-litetalk.c:230-245 | a command frame with type, code, flag and four zero bytes; bytes beyond it unchanged |
| LiteTalk.BuildStreamAck | application/cmder/proto-litetalk.c:247-265 | a stream frame with subtype, id, big-endian index and code |
| LiteTalk.BuildLog | application/cmder/proto-litetalk.c:267-291 | a log frame with zero time, level, big-endian source and the context |
| LiteTalkQueue.Transceiver.constructor | application/cmder/cmder.c:948-948 | an empty buffer and an empty eight-slot queue |
| LiteTalkQueue.Transceiver.SubmitFrame | application/cmder/cmder.c:342-354 | the frame goes behind the queued ones, or is lost when eight are held |
| LiteTalkQueue.Transceiver.Poll | application/cmder/cmder.c:429-476 | one poll of the receiving loop, on the buffer and on the heap behind the queue |
| LiteTalkQueue.Transceiver.TakeFrame | application/cmder/cmder.c:2166-2193 | the frame in the first slot is handed on, and the last one takes its slot |
| LiteTalkQueue.RunAccounted | application/cmder/cmder.c:342-476 | over every run of polls and takes each submitted frame was taken, is held or was lost, once |
| LiteTalkQueue.LostIff | application/cmder/cmder.c:352-353 | in every run no frame is lost if and only if no poll completes a frame while eight are held |
| LiteTalkQueue.LossExample | application/cmder/cmder.c:456-458 | nine frames read one by one and none taken: the ninth leaves the buffer and is lost |
| LiteTalkQueue.OrderIff | application/cmder/cmder.c:353-353 | in every run in which no frame is taken while more than two are held the queue is in the order of submission at every moment, and over distinct frames in no other |
| LiteTalkQueue.TakenIff | application/cmder/cmder.c:2174-2178 | in every run frames come out in the order of submission if, and over distinct frames only if, none is taken after one was taken while more than two were held |
| LiteTalkQueue.ReorderExample | application/cmder/cmder.c:2174-2178 | three frames read one by one: the last comes out second |
| MinPq.SwimHeap | lib/libutil/src/awoke_queue.c:363-370 | swimming restores the heap order |
| MinPq.SinkHeap | lib/libutil/src/awoke_queue.c:348-361 | sinking restores the heap order |
| MinPq.RootLeast | lib/libutil/src/awoke_queue.c:306-315 | the root of a heap is a minimum |
| MinPq.PriorityQueue.constructor | lib/libutil/src/awoke_queue.c:473-500 | an empty queue of fixed capacity |
| MinPq.PriorityQueue.SwimUp | lib/libutil/src/awoke_queue.c:363-370 | the loop in place equals Swim |
| MinPq.PriorityQueue.SinkDown | lib/libutil/src/awoke_queue.c:348-361 | the loop in place equals Sink |
| MinPq.PriorityQueue.Insert | lib/libutil/src/awoke_queue.c:387-406 | adds exactly the node, or refuses when full |
| MinPq.PriorityQueue.DelMin | lib/libutil/src/awoke_queue.c:443-471 | removes exactly one node of least priority, or reports empty |
| MinPq.LevelInsert | lib/libutil/src/awoke_queue.c:387-406 | among nodes of one priority a new one goes behind the others |
| MinPq.LevelRemove | lib/libutil/src/awoke_queue.c:443-471 | among nodes of one priority the last takes the place of the removed first |
| MtkChunks.CoversIff | application/micro-talk-client/micro_talk.c:1053-1059 | for every file, checksum and chunk size: the slices are nonempty, at most a chunk, adjacent and cover the file if and only if none of the three is zero and number and size of the chunks fit 16 bits |
| MtkChunks.UncoveredExample | application/micro-talk-client/micro_talk.c:1053-1059 | 65536 chunks of one byte are counted as none |
| MtkChunks.MergeSlices | application/micro-talk-client/mtk_session.c:327-330 | the slices in index order give back the file |
| MtkChunks.MessageCut | application/micro-talk-client/mtk_protocol.c:40-49 | the 16-bit message length lets the whole message out, or stops it before the first byte of the chunk |
| MtkChunks.WholeIff | application/micro-talk-client/mtk_protocol.c:40-49 | all messages of a cut leave whole if and only if the file or the chunk size is at most 65510 bytes |
| MtkChunks.SendRun | application/micro-talk-client/mtk_session.c:271-422 | over every run of requests and replies the index stays below the number of chunks and each chunk sent or stored is its slice |
| MtkChunks.RunFollows | application/micro-talk-client/mtk_session.c:394-419 | over every run the reply codes follow the index: zero for every chunk passed, one more once finished |
| MtkChunks.PassedOver | application/micro-talk-client/mtk_session.c:394-412 | a reply to no request makes the session pass over a chunk for good |
| MtkChunks.SendComplete | application/micro-talk-client/mtk_session.c:394-419 | in every run the server holds all chunks, and so the file, if and only if each message leaves whole and each reply answered a request and accepted its chunk: 0 before the last, 1 at the last |
| MtkChunks.AckOutcome | application/micro-talk-client/mtk_session.c:365-422 | in every run a reply lets the session go on exactly for code 0 with chunks to come, and finishes it otherwise; a request sends the chunk that is next |
| MtkChunks.ExchangeCompletes | application/micro-talk-client/mtk_session.c:271-422 | requests answered one by one, each accepted, bring the whole file to the server |
| MtkChunks.CutMessageExample | application/micro-talk-client/mtk_client.c:278-280 | a chunk of 65535 bytes: 24 bytes leave, the reply accepts, nothing is stored |
| MtkChunks.RejectedExample | application/micro-talk-client/mtk_session.c:394-406 | a checksum error at the only chunk: finished, and nothing stored |
| MtkChunks.UnaskedExample | application/micro-talk-client/mtk_session.c:394-412 | an unasked reply: finished without the first of two chunks |
| MtkChunks.RecvFetches | application/micro-talk-client/mtk_session.c:149-269 | whatever the server answers: a living session has had only answers of code 0 with data, a finished one as many as the first announced and merged exactly these in order, a deleted one merged nothing |
| MtkChunks.ReplyOutcome | application/micro-talk-client/mtk_session.c:149-269 | in every run a reply deletes the session exactly for an error code, no data or no chunks announced, finishes it exactly at the last chunk announced, and lets it ask for the next otherwise |
| MtkChunks.FileRoundTrip | application/micro-talk-client/mtk_session.c:149-422 | a file cut and sent by one session in whole messages, each chunk accepted, comes back whole through another |
| MtkTransfer.Merge | application/micro-talk-client/micro_talk.c:1123-1136 | draining the heap writes the chunks in index order |
| MtkTransfer.ChunkReceiver.constructor | application/micro-talk-client/mtk_session.c:516-524 | a fresh session without a queue |
| MtkTransfer.ChunkReceiver.Request | application/micro-talk-client/mtk_session.c:76-147 | the session waits for a reply, or is deleted |
| MtkTransfer.ChunkReceiver.Response | application/micro-talk-client/mtk_session.c:149-269 | one reply, with the chunks in the heap, is one step of the run |
| MtkTransfer.ChunkSender.constructor | application/micro-talk-client/micro_talk.c:1053-1059 | a fresh session at index 0 |
| MtkTransfer.ChunkSender.Request | application/micro-talk-client/mtk_session.c:271-363 | the slice at the index is sent when its message leaves whole, or the session is deleted |
| MtkTransfer.ChunkSender.Response | application/micro-talk-client/mtk_session.c:365-422 | the reply codes finish, advance or end the session |
| MtkSessions.HazardFreeInv | application/micro-talk-client/mtk_session.c:18-39 | every hazard-free run keeps the invariant: no work or connection refers to a freed session, no session has two pending starts |
| MtkSessions.HazardBreaks | application/micro-talk-client/micro_talk.c:712-757 | in whatever state, a reply asking for more while a connect is pending lets a failing connect free a session that has work pending |
| MtkSessions.SafeIff | application/micro-talk-client/micro_talk.c:712-967 | for every run: safe at every moment, whether or not the next connect fails, if and only if it meets no such hazard |
| MtkSessions.SolicitedSafe | application/micro-talk-client/mtk_client.c:148-229 | a server that answers only requests causes no hazard, so every run with it is safe |
| MtkSessions.UnsafeRun | application/micro-talk-client/micro_talk.c:806-895 | a run that leaves work for a freed session |
| MtkSessions.AttachOnlyWhenFree | application/micro-talk-client/mtk_session.c:23-38 | in every run a step that attaches a session finds the channel empty |
| MtkSessions.AttachedUntilFreed | application/micro-talk-client/mtk_session.c:29-38 | in every run a session once attached holds the channel until it is freed |
| MtkSessions.SmoothKept | application/micro-talk-client/mtk_session.c:18-39 | over every run in which no work meets a full queue, no connection fails or breaks and no reply is ignored: each session added waits with exactly one start, or is attached with its start, a connect or a connection, or was freed |
| MtkSessions.FaultlessDriven | application/micro-talk-client/mtk_session.c:18-39 | when besides the server answers only requests and every request is sent, the attached session has exactly one of a start, a connect and a connection that awaits its reply, and a free channel none |
| MtkSessions.Accounted | application/micro-talk-client/micro_talk.c:712-967 | over every hazard-free run the sessions alive and freed are exactly those added, and one is freed for each reply that ends it or connect it is refused |
| MtkSessions.ChannelAndOthers | application/micro-talk-client/micro_talk.c:712-757 | over every run the channel is open exactly from a connect that reaches the server to the next reply or break, and works of other kinds are neither lost nor made |
| MtkSessions.Context.constructor | application/micro-talk-client/micro_talk.c:299-330 | an empty context |
| MtkSessions.Context.Insert | application/micro-talk-client/micro_talk.c:897-917 | work is scheduled unless the queue is full |
| MtkSessions.Context.SessionAdd | application/micro-talk-client/mtk_session.c:546-559 | a new session with its start work |
| MtkSessions.Context.SessionFree | application/micro-talk-client/micro_talk.c:960-967 | the attached session is freed and detached |
| MtkSessions.Context.SessionStart | application/micro-talk-client/mtk_session.c:18-39 | restart, wait or attach |
| MtkSessions.Context.DcConnect | application/micro-talk-client/mtk_client.c:73-97 | connect unless connected, then send the request of the attached session |
| MtkSessions.Context.ServiceWork | application/micro-talk-client/micro_talk.c:358-385 | one pending work is taken and handled |
| MtkSessions.Context.Release | application/micro-talk-client/micro_talk.c:712-757 | the connection goes down and a finished session is freed |
| MtkSessions.Context.Receive | application/micro-talk-client/micro_talk.c:118-130 | a reply is handled, then the connection released |
| Uri.ParseComponent | application/http_client/http_client.c:39-54 | the slice up to the first separator, and the cursor past it |
| Uri.StepDescends | application/http_client/http_client.c:83-182 | every step consumes text or moves to a later state |
| Uri.ParseUri | application/http_client/http_client.c:56-193 | terminates on every text and follows the state machine |
| Uri.PortDecimal | application/http_client/http_client.c:162-172 | the port loop computes the decimal value modulo 2^32 |
| Uri.ParseComposed | application/http_client/http_client.c:56-193 | scheme://[user@]host[:port][/path[?query][#fragment]] is taken apart into exactly its components and port |
| Uri.NothingBehind | application/http_client/http_client.c:173-180 | a parse that finds an empty path finds no query and no fragment |
| Uri.TakenApartIff | application/http_client/http_client.c:56-193 | for every user, plain or bracketed host, 16-bit port, path, query and fragment: the parse gives exactly these if and only if there is a path, or neither query nor fragment |
| Uri.PathlessHost | application/http_client/http_client.c:137-161 | marks without a path and free of separators end up in a plain host |
| Uri.PathlessBracket | application/http_client/http_client.c:137-161 | behind a bracketed host they take its place |
| Uri.PathlessPort | application/http_client/http_client.c:162-172 | behind a port they are read as further digits |
| Uri.HostExample | application/http_client/http_client.c:137-161 | http://h?q is parsed with the host h?q |
| Uri.PortExample | application/http_client/http_client.c:162-172 | http://h:80?q is parsed with the port 8215 |
| Uri.ParseSchemeless | application/http_client/http_client.c:85-122 | the same without a scheme |
| UriRejects.RejectedIff | application/http_client/http_client.c:56-193 | a text is rejected if and only if its host is any number of bracketed hosts and then a bracket that nothing closes, or a final @ with a bracket behind the text |
| UriRejects.HighDigit | application/http_client/http_client.c:162-172 | a byte from 128 on counts as a negative digit and wraps the port |
| Eots.GetCommand | application/benchmark/bk_eots_hd.c:819-836 | finds a command exactly when code and length are in the table |
| Eots.KnownIff | application/benchmark/bk_eots_hd.c:43-69 | which pairs of code and length are in the table, in literals |
| Eots.EcmdProcess | application/benchmark/bk_eots_hd.c:858-887 | the length of the external command at the front, or 0 |
| Eots.NextHeaderIs | application/benchmark/bk_eots_hd.c:889-910 | the scan stops at the first header at offset 1 or later, or takes everything |
| Eots.ScanNext | application/benchmark/bk_eots_hd.c:889-910 | the loop computes that offset |
| Eots.Rollback | application/benchmark/bk_eots_hd.c:912-915 | the remaining bytes move to the front, the others stay |
| Eots.SysconOne | application/benchmark/bk_eots_hd.c:982-1012 | one round removes at least one byte, or more than remain exactly at an internal header with fewer than six left |
| Eots.SysconLoop | application/benchmark/bk_eots_hd.c:1014-1031 | terminates on every buffer with the stated outcome |
| Eots.Conservation | application/benchmark/bk_eots_hd.c:982-1031 | the dispatched and skipped pieces, in order, are exactly the bytes of the buffer |
| Eots.FinishesWithout | application/benchmark/bk_eots_hd.c:973-1031 | no 0xa5 among the last five bytes is enough for a run to finish |
| Eots.CommandsDispatched | application/benchmark/bk_eots_hd.c:1014-1031 | a stream of valid commands is dispatched exactly, in order, with nothing left |
| Eots.SoundRun | application/benchmark/bk_eots_hd.c:973-1031 | on every buffer each piece dispatched is a command, each piece skipped begins where no command stands and ends at the next header, or at the end |
| Eots.ShortTail | application/benchmark/bk_eots_hd.c:973-1012 | fewer than six bytes overrun exactly when they hold an internal header, or begin one with a stale second byte |
| Eots.OverrunIff | application/benchmark/bk_eots_hd.c:973-1031 | on any buffer the run overruns if and only if the bytes left at the first round boundary below six hold an internal header, or begin one with a stale byte |
| Eots.OverrunExample | application/benchmark/bk_eots_hd.c:973-1012 | an internal command followed by the header of another |
| Eots.CutStream | application/benchmark/bk_eots_hd.c:973-1031 | commands followed by fewer than six bytes: all commands are dispatched, and the exact condition of an overrun |

## Left out

- cJSON numbers that are not ints: the double arithmetic of `pow`, the `%f`, `%e` and `%.0f` formats and the rounding of `n*10.0` are not modelled; a number is its decimal mantissa and exponent.
- JsonParser.ReadNumber: stops at the decimal mantissa and exponent; `pow`, the double product and the cast to int are not modelled.
- JsonParser.ParseWithOpts: excludes text that ends inside an escape or has malformed hex digits, which the grammar functions call Malformed; the two passes of the source then disagree on where the string ends.
- Allocation failure, `cJSON_Delete` and freeing in general, references (`cJSON_IsReference`) beyond the flag, and overflow of the int length counters.
- JsonTree.ReplaceItemInArray: does not free the replaced child, because deletion is not modelled.
- sprintf("%d") and sprintf("%04x"): taken as the functions that describe their output.
- JsonPrinter.PrintValue: requires every string node to have a string and every member a name, because `print_string_ptr` turns a null pointer into empty text; depth is a natural number.
- JsonMinify.MinifyInPlace: requires a text in which no comment or literal is cut by the end, because the source then reads past the terminator.
- FixSqrt.Sqrt: INT_MIN is excluded, because the source negates it in 32 bits.
- FixDiv.Div: INT_MIN operands are excluded, for the same reason.
- FixAtan.AngleOctant: excludes the origin, where the ratio is 0/0, and arguments whose sum of magnitudes overflows 31 bits.
- FixAtan.AtanCache.Atan2: excludes arguments whose sum of magnitudes overflows 31 bits.
- Autofocus: each bit set, clear or test of a flag word is one atomic step; a read-modify-write torn by another thread is not modelled. The ten-entry sample array is an arbitrary nonnegative sequence. Fairness, which AutofocusLiveness.Stops assumes, is that no thread is left out for ever. The interleaved accesses are steps on values, since they cut through the source's functions; Focus has the functions that run undisturbed as methods.
- The user-supplied `wait` callback of the flow and its test harness.
- LiteTalkQueue.Transceiver.Poll: the bound protocol is LiteTalk; without one `uart_rx` clears the buffer. The receive buffer is unbounded, and one transceiver has the queue to itself.
- LiteTalk stream reassembly, command handlers and the `*_rxpoll` loops.
- MinPq.PriorityQueue.Insert: the resizing flag and custom comparators are not modelled; the chunk queue uses neither.
- Micro-talk messages below nine bytes, file and socket errors inside the merge, checksums beyond the test for zero, the merge into a memory buffer, and 32-bit session numbers.
- Micro-talk scheduling: pending works may run in any order, which covers every timing; that sessions finish in the end is not claimed, since some replies leave one unfinished.
- Uri.PathlessHost: the marks are free of the separators that would end a host; where they are not, Uri.TakenApartIff still says that the components are not found.
- Uri.TakenApartIff: the byte beyond the text, which the scan reads after a final @, is not an opening bracket.
- LiteTalkQueue.Transceiver.TakeFrame: stops at the removal; the match and read of the frame, and the test of a result that is not set, are not modelled.
- MtkChunks.SendRun: the file does not change during a transfer, and a message that is written is written in one piece; `send` may take less and the source does not look.
- Eots: command handlers and responses; bytes are dispatched, not interpreted.
- Sockets, serial setup, logging, threads, quaternions, the leetcode lists, log rotation and the other applications: effects, or members that would only be easy.
