# A verified model of libscpi and of two raster routines

This project models libscpi, an instrument-side engine for SCPI-99 and
IEEE 488.2 messages, and the line and circle routines of the display code that
ships with the ESP32 project. It proves properties of whole runs, of whole
streams and of every input.

What is modelled, module by module:

- `Texts`, `StringHeap`: C strings, and the ring allocator that keeps
  error texts, possibly in two parts around the end of its buffer.
- `Fifo`, `ErrorSpec`, `ErrorQueue`, `ErrorRuns`, `ReportOrder`: the error
  queue over that allocator, the bits it keeps in the status registers, and
  runs of pushes, pops, clears and register writes.
- `Status`, `StatusRuns`, `Registers`: register tables, the cascade from
  condition to event to status byte, and runs of register writes. A table is
  any table whose groups have acyclic parents; the standard one is `STANDARD`.
- `StatusBits`, `Requests`, `ErrorEffects`: what writes and errors do, bit by bit and in bit
  numbers: latching, summaries, service requests, and the events of error classes.
- `Clearing`: what `*CLS` leaves, in flat and in nested tables.
- `LexSpec`, `Lexer`, `MessageUnit`: what each token recogniser finds, as
  functions of a text and a position, and the recognisers that move a position.
- `HeaderTokens`, `DataTokens`, `DataWritten`, `UnitTexts`: headers, parameters and whole
  units put together from their characters, found again by the recognisers; and back.
- `LexCut`, `DataCut`, `Framing`, `Streams`, `Forced`, `InputBuffer`: recognition on a
  text that is cut short, and the input buffer that cuts a byte stream,
  arriving in chunks, into lines; chunks without characters force the parser.
- `LexShift`, `UnitLaws`, `Stretch`: recognition from a moved pointer, the units of a line, and
  the stretch of a line that parameters are read from.
- `Compose`, `ParseSpec`, `ParseLine`, `Session`: relative headers, completed by writing
  backwards into the line that is being parsed; what the parser's loop over a line should
  look up, what it does look up, and both for whole streams.
- `RelativeHeaders`, `LineTexts`, `StreamTexts`: the same from the characters and words of the
  headers, for lines and streams that are put together from units.
- `HeaderSpec`, `HeaderText`, `HeaderNumbers`, `MatchCommand`, `PatternLanguage`: the language of
  a header pattern, the numbers of its `#` nodes, and the greedy walk over it.
- `LetterCase`, `HeaderForms`, `PatternTexts`: upper and lower case, short and long forms, and
  patterns put together from their nodes.
- `Numerals`, `Printer`, `Results`, `Parameters`, `RoundTrip`, `ErrorText`: printing
  integers, texts, blocks and error reports within their buffers, and reading them back.
- `ParameterTexts`: parameters of every kind, read from the text of their list and taken as integers.
- `ChannelList`, `ChannelText`: channel lists, scanned anew for every index.
- `Wrappers`, `Arithmetic`: an option type and the little arithmetic that several modules share.
- `Bytes`, `Frames`, `Ssd1306`, `Orientation`, `Gfx`: masked line drawing in a frame buffer
  against pixel by pixel drawing, the turned screen, Bresenham lines, filled circles.

Conventions. A `char` stands for a byte of text, and pointers are indices. A
register value is the set of its bit numbers, so that `&`, `|` and `& ~` are `*`, `+` and
`-`; frame buffer bytes are `bv8`. Callbacks do not call back into the library:
the error callback, the output, and the lines and headers that the parser has dealt with are
sequences that grow. Looking up a header is a function of its text. Machine integers
are written out where they can wrap or are cut: in `Printer`, in the conversions of
`Parameters`, whose `long` is the width of the platform's long type, in the channel lists and
header numbers that use them, in block lengths, and in `Ssd1306` and `Gfx`. Lengths of
texts and buffers stay in range.

Where the code falls short of the obvious claim, the code is kept and the
condition is stated:

- The event table has a row for positive error codes whose test can never
  succeed; `TableClass` gives the exact range of codes that set an event bit.
- Writing an enable register does not refresh the summary bit.
  `EnableWriteExact` says exactly when the bit is still right afterwards,
  `EnableNotRefreshed` gives a case where it is not, and `DisciplinedSummary` a
  discipline under which it always is.
- The reported length of a parameter list leaves out white space behind bare
  numbers: `CountFallsShort` gives the exact difference, `ShortOfOne` the text `1 ,2`.
  Parameters are read from that length only: `StretchExact` says exactly when they are still
  the same, `ReadShort` that `1 ,222` is read as 1 and 22, and `ReportedWhole` that nothing of
  what the result writers print is lost.
- A header that is completed and then not found has already overwritten bytes that the path
  of the next header may need. `ParseLine` says for every line what is then looked up and
  reported. `LookedExact` shows that this is what the original text resolves to if and only if
  the path is intact wherever a relative header follows, and `AfterUnknown` gives the
  condition for one unknown header in terms of the original text alone. Lines whose headers
  are all found meet it (`FoundIsIntact`); `PathOverwritten` is a line that does not, and
  `PathSpared` one that does although it is overwritten.
- The greedy walk over a pattern accepts only its language. `WalkDecides` shows that it accepts
  all of it if and only if no optional node shares a spelling with a mandatory node that it can
  be skipped to; `SharedSpelling` is the smallest pattern that fails.
- A `#` node in an optional tail that the walk does not reach gets no number, not even
  the default: `EveryNumber` gives the exact condition, `TailUnset` a case.
- A line feed that arrives in the chunk after its carriage return is parsed as one
  more line, which does nothing. A chunk without characters forces the parser on what waits in
  the buffer. `ChunksDoNotMatter` shows that the jobs of a stream are done if and only if no such
  chunk arrives while the buffer holds a part, not the whole, of the text of a line with commands (`Harmless`);
  `EmptyChunkMatters` is a case where one does. `SameLines` shows that the very lines are the same if
  and only if no chunk is empty and none ends inside a newline. A stream is well formed
  (`GoodStream`) when every message unit ends in a semicolon or a newline and no string holds
  a newline; blocks may hold anything.
- Clearing an event register can drop a summary bit in a condition register above it, whose
  negative filter latches the fall into an event register that was cleared before.
  `ClearingExact` says for which tables `*CLS` always ends with all event registers zero: those in
  which groups above such a group come later (`Ordered`); the standard table is one.
- A block length is printed through an area of ten bytes and then measured by its terminator,
  which is there exactly for lengths below `BLOCK_LIMIT` (`LimitIsExact`, `PrintLength`).
  Lengths are cut to 32 bits first.
- Texts with eight-bit characters can be written and not read, and a block is read as one only
  if its whole length is below the limit: `WrittenIsRead` holds exactly for what a parameter can hold.
- Integers out of the range of their type are read as another number: `ConvertedExact`, with
  `OutOfRange` and `LowBits` for which, and `EntryAsWritten` for the coordinates of channel lists.
- A decimal number taken as an integer is its sign and whole part: fraction and exponent are passed
  over, and a number that begins with its point has no digits (`Taken`).
- A slash alone behind a number is a unit suffix, and a letter E behind a number is one unless it
  begins an exponent with digits (`SuffixFormed`, `NoExponent`).
- A line of negative length draws nothing, unless its length overflows 16 bits when what lies in
  front of the display is taken off; then it crosses the display (`OverflowShows`).

## Model

| member | source | states |
|---|---|---|
| StringHeap.Heap.constructor | libscpi/src/utils.c:776-783 | an empty heap: every byte zero, all of it free |
| StringHeap.Heap.Strndup | libscpi/src/utils.c:792-832 | a text is kept exactly when it is not empty and fits with its terminator; then it is the newest live text, at the returned address, the others stay at theirs, and otherwise no byte changes; live texts stay one circular region that ends at `wr`, all else zero, free and used bytes adding up to the size |
| StringHeap.Heap.GetParts | libscpi/src/utils.c:843-864 | the one or two parts of any live text join to exactly the stored text, the second part only when the text runs into the end of the buffer |
| StringHeap.Heap.Free | libscpi/src/utils.c:873-902 | freeing the oldest text from the front, or rolling back the newest, leaves exactly the other texts, in order, at their addresses, and zero bytes where it was |
| StringHeap.FreedFront | libscpi/src/utils.c:873-902 | erasing the oldest text keeps the rest of the circular image, also across the end of the buffer |
| StringHeap.FreedBack | libscpi/src/utils.c:873-902 | the same for the newest text |
| StringHeap.TwoParts | libscpi/src/utils.c:843-864 | reading up to the end of the buffer and then from its start gives the text at any circular address |
| Fifo.Queue.Add | libscpi/src/fifo.c:78-91 | an entry goes behind the others unless the queue is full, which changes nothing |
| Fifo.Queue.Remove | libscpi/src/fifo.c:99-113 | the oldest entry leaves; an empty queue gives none |
| Fifo.Queue.RemoveLast | libscpi/src/fifo.c:121-135 | the newest entry leaves |
| ErrorSpec.TableClass | libscpi/src/error.c:152-168 | the event table gives every code the class of its hundred, and no class to any code outside -899 to -100, positive ones included |
| ErrorQueue.Context.ErrorAddInternal | libscpi/src/error.c:131-150 | on a queue with room the report goes to the end with its text if the heap has room; a full queue has its newest report replaced by -350 and keeps the others with their texts |
| ErrorQueue.Context.ErrorPushEx | libscpi/src/error.c:179-201 | queue, registers and announced codes after a push are those of the specification, the overflow announced as well |
| ErrorQueue.Context.ErrorPop | libscpi/src/error.c:108-116 | the oldest report leaves, code 0 when there is none, and its text stays readable until released |
| ErrorQueue.Context.NextError | libscpi/src/minimal.c:81-89 | the report that is answered is the oldest one with exactly the text it was pushed with, and its room in the heap is given back |
| ErrorQueue.Context.ErrorClear | libscpi/src/error.c:90-100 | the queue is empty, all of the heap is free, and the error-available bit is cleared |
| ErrorQueue.Context.CoreCls | libscpi/src/ieee488.c:266-276 | clearing empties the queue and then writes zero to every event register, through the cascade |
| ErrorEffects.PushSetsEvent | libscpi/src/error.c:179-201 | after any push in any table whose group 1 has the standard event register, that register has gained bit 5, 4, 3, 2, 7, 6, 1 or 0 for a code of the hundreds -1xx to -8xx, and nothing for another code; the codes announced are the earlier ones, the code, and -350 exactly if the queue was full; bit 2 of the status byte is set |
| ErrorEffects.PushShows | libscpi/src/error.c:179-201 | where a push changes the event register, the summary bit is set exactly if an enabled event bit is |
| ErrorEffects.PushSends | libscpi/src/error.c:179-201 | a push takes back no service request, and sends one whenever it turns the request bit on |
| ErrorEffects.CommandErrorCalls | libscpi/src/error.c:179-201 | on the standard table with the bits enabled, a command error sets bits 5 and 6 of the status byte and sends a service request |
| ErrorEffects.EmptyAnnounced | libscpi/src/error.c:63-116 | reading the last error, or clearing some, announces code 0 once and clears bit 2 of the status byte; reading another leaves the registers alone |
| ErrorRuns.RunKeepsQueue | libscpi/src/error.c:63-150 | after any run of pushes, pops, clears and register writes that leave the error-available bit alone, it is set exactly when the queue is not empty, and the queue is within its size |
| ErrorRuns.WriteKeepsQma | libscpi/src/ieee488.c:147-240 | no register write but one of the status byte itself touches the error-available bit, in any table whose summary bits leave it free |
| Clearing.ClsAfterRun | libscpi/src/ieee488.c:266-276 | in a table ordered as `ClearingExact` asks, after any run that leaves summary and error-available bits to the library, clearing ends with an empty queue and all event registers, summary bits and the error-available bit zero, and every enable and filter register as before; condition registers too where all groups report to the status byte |
| Clearing.ClearingExact | libscpi/src/ieee488.c:266-276 | for tables in which a negative filter comes with a positive one: clearing all event registers in turn leaves them zero from every state with quiet summary bits if and only if the groups above a group whose falling summary bit can be latched come later in the table |
| Clearing.ClearSpares | libscpi/src/ieee488.c:207-233 | in such a table, clearing an event register leaves the earlier ones alone |
| Clearing.StandardTableFits | libscpi/src/ieee488.c:45-112 | the standard register table meets the conditions of the results above |
| ErrorRuns.RunKeepsQuiet | libscpi/src/ieee488.c:187-206 | over such a run, a group whose event register is zero never has a summary bit set |
| ReportOrder.ReadInOrder | libscpi/src/error.c:108-150 | over every run, what was read followed by what waits stands for pushes in the order they were made: nothing is read twice, invented or out of order; -350 stands only for a push on a full queue, and a text is missing only where the heap had no room for it |
| ReportOrder.NothingLost | libscpi/src/error.c:108-150 | without clears and overflows the codes read and waiting are exactly the codes pushed |
| ReportOrder.TraceIsRun | libscpi/src/error.c:108-150 | the trace that these two speak of has the queue of the run |
| Registers.RegisterFile.RegSet | libscpi/src/ieee488.c:147-240 | the loop over condition, event and parent registers ends for every acyclic table and leaves exactly the registers, and the service requests, of the cascade |
| Registers.RegisterFile.RegSetBits | libscpi/src/ieee488.c:247-249 | setting bits is a write of old value or bits |
| Registers.RegisterFile.RegClearBits | libscpi/src/ieee488.c:256-258 | clearing bits is a write of old value without bits |
| Status.WriteReach | libscpi/src/ieee488.c:147-240 | a write changes only registers on the path from the written one over event and parent registers to the status byte |
| Status.PathClimbs | libscpi/src/ieee488.c:147-240 | every other register on that path is nearer the status byte than the written one, and none is an enable or filter register |
| Status.WriteStores | libscpi/src/ieee488.c:147-168 | the written register holds the value; the status byte, when its value changes, has its request bit recomputed |
| Status.WriteLatches | libscpi/src/ieee488.c:207-233 | whatever register is written, an event register ends as its old value or the transitions of its condition register: rising ones through the positive filter and falling ones through the negative, or all rising ones without filters |
| Status.WriteKeepsRequest | libscpi/src/ieee488.c:169-186 | every write keeps the service request bit equal to whether the enabled part of the status byte, that bit aside, is not zero |
| Status.WriteSummary | libscpi/src/ieee488.c:187-206 | how any write moves the summary bit of any group: by the event register's new value and the enable value at that time, and not otherwise |
| StatusBits.BitLatched | libscpi/src/ieee488.c:207-233 | bit by bit: an event bit is set after any write that does not name its register if and only if it was set before, or its condition bit rose through the positive filter, fell through the negative one, or rose without filters |
| StatusBits.SummaryShown | libscpi/src/ieee488.c:187-206 | bit by bit: a write of another register than the parent leaves the summary bit as it was, or, where the event register changes, set exactly if some event bit is enabled |
| Requests.StatusWriteSends | libscpi/src/ieee488.c:169-186 | a write of the status byte sends one request, the byte as it stands afterwards, if and only if it brings a new bit and an enabled bit other than bit 6 is set in it; the other bits are stored, and bit 6 says whether such a bit is set |
| Requests.EnableWriteSends | libscpi/src/ieee488.c:169-186 | a write of the service request enable register does so under the same condition on its own new bits |
| Requests.WriteSends | libscpi/src/ieee488.c:147-240 | a write of any other register does what the value that it brings to the status byte does there, or leaves byte and requests alone |
| Requests.OneRequest | libscpi/src/ieee488.c:174-179 | any write sends at most one request, the status byte as it stands afterwards with bit 6 set |
| Requests.RequestsExact | libscpi/src/ieee488.c:169-186 | in terms of the registers before and after: a request is sent if and only if the status byte has a new bit besides bit 6 and an enabled one is set |
| Requests.TurningOnSends | libscpi/src/ieee488.c:169-186 | whatever write turns the request bit on sends a request |
| StatusRuns.RunKeepsRequest | libscpi/src/ieee488.c:147-240 | in every state reached by register writes the service request bit is right, whatever was written |
| Requests.RunSends | libscpi/src/ieee488.c:147-240 | over every run of writes, requests are never taken back, and whenever the request bit turns on the status byte of that moment is the next request |
| StatusRuns.RunKeepsSummary | libscpi/src/ieee488.c:187-206 | if callers leave the summary bits alone, each one equals event and enable value at the event register's last change, in every reachable state |
| StatusRuns.DisciplinedSummary | libscpi/src/ieee488.c:187-206 | if enable registers are written only while their event register is zero, summary bits follow the present enable values |
| StatusRuns.EnableWriteExact | libscpi/src/ieee488.c:234-237 | after an enable write the summary bit is right if and only if old and new enable value select alike from the event register |
| StatusRuns.EnableNotRefreshed | libscpi/src/ieee488.c:234-237 | an event seen first and enabled later is not reported |
| Lexer.LexState.WhiteSpace | libscpi/src/lexer.c:331-345 | takes the longest run of white space |
| Lexer.LexState.ProgramHeader | libscpi/src/lexer.c:406-442 | the header token of the specification, incomplete headers and query marks included, and the position behind it |
| HeaderTokens.HeaderRead | libscpi/src/lexer.c:406-442 | every header that is put together from mnemonics, colons or an asterisk, and a query mark is found as one token of its whole length, a query exactly if it ends in the mark |
| HeaderTokens.HeaderWritten | libscpi/src/lexer.c:406-442 | every complete header token is the text of such a header, of the same kind |
| HeaderTokens.NoHeader | libscpi/src/lexer.c:406-442 | nothing else than a letter, a colon or an asterisk begins a header |
| Lexer.LexState.CharacterProgramData | libscpi/src/lexer.c:452-470 | a letter and the longest run of word characters, or nothing |
| Lexer.LexState.DecimalNumericProgramData | libscpi/src/lexer.c:509-531 | mantissa and exponent; an exponent without digits is given back, a mantissa without digits is no number |
| Lexer.LexState.SuffixProgramData | libscpi/src/lexer.c:534-561 | the unit suffix with its powers and divisions |
| Lexer.LexState.NondecimalNumericData | libscpi/src/lexer.c:597-627 | base letter and digits of that base, one at least, or nothing taken |
| Lexer.LexState.StringProgramData | libscpi/src/lexer.c:666-705 | up to the quote that is not doubled, or nothing taken when it is missing |
| Lexer.LexState.ArbitraryBlockProgramData | libscpi/src/lexer.c:718-774 | a complete block by its length; an incomplete one takes the rest of the text; anything else nothing |
| Lexer.LexState.ProgramExpression | libscpi/src/lexer.c:806-830 | a parenthesised expression, or nothing taken |
| Lexer.LexState.SpecificCharacter | libscpi/src/lexer.c:898-910 | one given character; commas, semicolons and colons are this recogniser with their own token |
| Lexer.LexState.NewLine | libscpi/src/lexer.c:918-935 | a carriage return, a line feed, or both in that order |
| DataTokens.BareRead | libscpi/src/lexer.c:452-829 | every parameter that is put together from its characters (numbers with signs, points and exponents, unit suffixes, based digits, quoted texts, words, expressions, blocks) is found as a token of its kind and length |
| DataWritten.DataIsText | libscpi/src/lexer.c:452-829 | whatever is found as a parameter is the text of one, and of that kind |
| MessageUnit.ParseProgramData | libscpi/src/parser.c:1360-1390 | the first recogniser that takes something gives the parameter; its reported length leaves out white space behind a bare number |
| MessageUnit.ParseAllProgramData | libscpi/src/parser.c:1399-1429 | all parameters with commas between, or a failure at the first that is missing |
| MessageUnit.DetectProgramMessageUnit | libscpi/src/parser.c:1438-1482 | header, parameters, terminator and end of the unit; the end is behind the start of any text that is not empty and never outside it |
| UnitTexts.DatumRead | libscpi/src/parser.c:1360-1390 | such a parameter with white space around it is found as it was written, with the length that the parser counts |
| UnitTexts.ListRead | libscpi/src/parser.c:1399-1429 | such parameters with commas between them are all found, and counted |
| UnitTexts.UnitRead | libscpi/src/parser.c:1438-1482 | a unit of white space, header and such a list, in front of a newline, a semicolon or the end, is found whole: header, parameters, their number, terminator and end |
| HeaderTokens.HeaderUnit | libscpi/src/parser.c:1438-1482 | the same for a header alone |
| HeaderTokens.StrayCharacter | libscpi/src/parser.c:1464-1476 | a header with a character behind it that neither continues it nor ends the unit makes an invalid unit, which ends behind that character |
| LexSpec.UnitEnds | libscpi/src/parser.c:1438-1482 | a unit ends in an end-of-line character, a semicolon or an invalid character, or with the text |
| UnitLaws.UnitsPartition | libscpi/src/parser.c:209-247 | successive units take the whole line, one character each at least, so that the parser's loop ends |
| UnitLaws.CountFallsShort | libscpi/src/parser.c:1373-1380 | the reported length of a parameter list is what was read less exactly the white space behind bare numbers |
| UnitLaws.ShortOfOne | libscpi/src/parser.c:1373-1380 | `1 ,2` is reported one character short |
| Stretch.StretchExact | libscpi/src/parser.c:221-223 | from the reported stretch of a parameter list the same parameters are read as from all of it if and only if the white space left out is not more than what stands behind the last parameter |
| Stretch.ListOfUnit | libscpi/src/parser.c:1399-1429 | the parameters of any unit that ends properly are such a list |
| Stretch.ReadShort | libscpi/src/parser.c:1373-1380 | `1 ,222` is read as 1 and 22 |
| LexCut.BlockCut | libscpi/src/lexer.c:718-774 | a block cut anywhere behind its first character is an incomplete block, whatever its content, and one that ends before the cut is unchanged |
| LexCut.DecimalCut | libscpi/src/lexer.c:509-531 | a number that ends before the cut is the same number on the shorter text |
| DataCut.DataSame | libscpi/src/parser.c:1399-1429 | a parameter list that ends before the cut is the same list on the shorter text |
| DataCut.DataLate | libscpi/src/parser.c:1399-1429 | a parameter list that reaches the cut leaves, on the shorter text, nothing behind that holds an end-of-line character, blocks with newlines included |
| Framing.UnitSame | libscpi/src/parser.c:1438-1482 | a unit that ends before the cut is the same unit on the shorter text |
| Framing.UnitLate | libscpi/src/parser.c:1438-1482 | a unit that the cut reaches loses only the line feed of its terminator, or leaves nothing to be taken for the end of a line |
| Framing.CommandsSame | libscpi/src/parser.c:209-247 | a line whose terminator loses its line feed has the same commands |
| Streams.DrainCut | libscpi/src/parser.c:341-355 | wherever a well-formed stream is cut, the lines parsed before the cut and the lines still to come do the same jobs as the whole; they are the same lines exactly when the cut does not fall into the newline that ends a line, and one more when it does |
| Forced.ChunksDoNotMatter | libscpi/src/parser.c:316-359 | in any chunking, a well-formed stream gives the parser the same sequence of lines with commands, text and tokens alike, as when it arrives whole, if and only if no empty chunk arrives while the buffer holds a part of the text of a line with commands; nothing stays in the buffer then |
| Forced.EmptyChunkMatters | libscpi/src/parser.c:321-324 | an empty chunk forces the parser, so that a header is parsed in two halves |
| Forced.ForcedJobs | libscpi/src/parser.c:321-324 | forced on an empty buffer, on a part of a line without commands or on the whole text of a line, the parser does the jobs of the stream |
| Streams.SameLines | libscpi/src/parser.c:316-359 | the very same lines are parsed if and only if no chunk is empty and none ends inside the newline that ends a line |
| Streams.DrainKeeps | libscpi/src/parser.c:341-355 | for every buffer content the parsed lines and the rest make up the content, and the rest holds no complete line |
| StreamTexts.StreamCut | libscpi/src/parser.c:341-355 | a stream of lines that are put together from units is cut into exactly those lines |
| StreamTexts.StreamOutcomes | libscpi/src/parser.c:195-253 | what the headers of such a stream resolve to is what their words say, each line from the root |
| Forced.NeverOverruns | libscpi/src/parser.c:328-336 | a buffer with room for the longest line and the longest chunk never overruns |
| Streams.LineFeed | libscpi/src/parser.c:341-355 | a line feed left over from a cut is a line without commands |
| InputBuffer.InputBuffer.Parse | libscpi/src/parser.c:346 | parsing the line at the front of the buffer does what its text determines, and leaves what follows it as it was |
| InputBuffer.InputBuffer.ParseLines | libscpi/src/parser.c:341-355 | every complete line at the front of the buffer is parsed in order with the events that its own text determines, although the parser overwrites the buffer it reads from, and the rest is moved to the front unchanged |
| InputBuffer.InputBuffer.Input | libscpi/src/parser.c:316-359 | a chunk is appended and its lines parsed; an empty one forces the parser on what waits; one that does not fit drops the buffer and reports an overrun |
| InputBuffer.InputBuffer.InputAll | libscpi/src/parser.c:316-359 | call after call on the chunks of a well-formed stream, none of which breaks a line, the parser looks up and reports what it does on the stream as a whole; that is what the stream resolves to if and only if paths stay intact on every line |
| LexShift.UnitShift | libscpi/src/parser.c:241-243 | the unit found behind a moved pointer is the unit of the whole line at that place |
| Session.SameHeaders | libscpi/src/parser.c:316-359 | in any chunking in which no empty chunk breaks a line, a well-formed stream has the same headers looked up in the same order with the same outcome and the same reported texts |
| Session.LineIsJob | libscpi/src/parser.c:195-253 | what the parser does with a line depends on its text in front of the newline and its commands only |
| Session.IntactLines | libscpi/src/parser.c:209-247 | for any lines, the parser does what the original texts resolve to if and only if the path stays intact on each of them |
| Compose.ComposeCompoundCommand | libscpi/src/utils.c:678-712 | the bytes in front of the header become the path of the previous one, no other byte changes, and the header grows by it |
| Compose.ComposedText | libscpi/src/utils.c:678-712 | the completed header reads as the resolved one; nothing at or behind the start of the original header is written, and nothing before the previous header |
| Compose.ResolveClimbs | libscpi/src/utils.c:694-711 | in terms of the command tree, a relative header is looked up one level above the previous one |
| RelativeHeaders.LookedUp | libscpi/src/utils.c:689-711 | on the characters: a header is looked up as written if it begins with an asterisk or a colon, or if the previous one is none or begins with an asterisk; otherwise behind the previous one up to and including its last colon |
| RelativeHeaders.WordsLead | libscpi/src/utils.c:689-711 | on the words: a relative header replaces the last word of the previous compound header, whose leading colon stays |
| ParseLine.ParseLine | libscpi/src/parser.c:195-253 | on every line the headers looked up, and the texts reported with undefined ones, are those that the original text determines, although it is overwritten in between; nothing behind the line is written |
| ParseSpec.LookedExact | libscpi/src/parser.c:209-247 | for every line, what is looked up and reported is what the original text resolves to if and only if the path is intact wherever a relative header follows |
| LineTexts.TwoUnits | libscpi/src/parser.c:209-247 | on the characters of a line of two units with any parameters: what both are looked up as, and with what outcome |
| LineTexts.LineOutcomes | libscpi/src/parser.c:209-247 | for a line of any number of units: every header is reached, and becomes what the words before it say; unknown headers are reported with their unit |
| LineTexts.ReportAsWritten | libscpi/src/parser.c:228-236 | without white space in front, that report is the text of the unit as written, its semicolon included |
| ParseSpec.AfterUnknown | libscpi/src/utils.c:694-711 | behind one unknown header a relative header resolves rightly if and only if there was room for what was borrowed, or the previous header with its end written over by its own start still has the same path |
| ParseSpec.FoundIsIntact | libscpi/src/parser.c:217-236 | a line whose headers are all found keeps every path intact |
| ParseSpec.PathOverwritten | libscpi/src/parser.c:217-236 | on `AAAA:B;C;D` the unknown `C` makes `D` resolve wrongly |
| ParseSpec.PathSpared | libscpi/src/parser.c:217-236 | an overwritten header can keep its path |
| MatchCommand.CompareStr | libscpi/src/utils.c:347-357 | equal length and equal but for case |
| LetterCase.SameTextExact | libscpi/src/utils.c:347-357 | two texts are taken for the same if and only if every character is the same, or the same letter in the other case |
| MatchCommand.CompareStrAndNum | libscpi/src/utils.c:367-401 | the text, but for case, and then digits only; where a number is wanted, the 32-bit conversion of the digits, if there are any |
| MatchCommand.MatchPattern | libscpi/src/utils.c:478-495 | long or short form, with digits where the node ends in `#`, and the number stored for them |
| MatchCommand.SkipOptionalTail | libscpi/src/utils.c:584-612 | true exactly when only optional nodes are left of the pattern |
| MatchCommand.MatchCommand | libscpi/src/utils.c:504-668 | exactly the decision of the greedy walk: an accepted header is in the pattern's language, and every header of the language is accepted when no optional node shares a spelling with a mandatory node it can be skipped to |
| MatchCommand.MatchNumbers | libscpi/src/utils.c:504-668 | with an array for numbers, the same decision, and on acceptance the array holds, as far as it reaches, one number for every `#` node that the walk looked at, in order, and is unchanged behind them |
| LetterCase.AcceptsAlike | libscpi/src/utils.c:504-668 | headers that differ only in the case of letters are accepted alike by every pattern |
| HeaderForms.FormsAccepted | libscpi/src/utils.c:478-495 | a header that writes the nodes, each in its short or long form, and leaves out only optional ones that what comes next does not spell, is accepted, and reports the digits behind numbered nodes, or the default where there are none |
| PatternTexts.PatternRead | libscpi/src/utils.c:504-545 | the text of a pattern, brackets, colons and query mark, stands for the nodes it was put together from |
| PatternTexts.LineAccepted | libscpi/src/utils.c:504-668 | the same for the texts of patterns and headers, in any case, with or without a leading colon |
| PatternTexts.LanguageExact | libscpi/src/utils.c:504-668 | a header is in the language of a pattern if and only if, but for case, it writes each node in its short (the characters before the first small letter) or long form, with digits only behind numbered nodes, and leaves out only optional ones; queries for queries |
| HeaderNumbers.EveryNumber | libscpi/src/utils.c:553-612 | every `#` node of the pattern gets a number if and only if none is in the optional tail that an accepted header leaves unread |
| HeaderNumbers.NumbersBack | libscpi/src/utils.c:367-401 | numbers written behind the nodes of a header are reported in their order, for every pattern and all numbers that fit 32 bits |
| HeaderNumbers.TailUnset | libscpi/src/utils.c:585-611 | `A` against `A[:B#]` leaves the number of `B` unset |
| MatchCommand.FindCommandHeader | libscpi/src/parser.c:174-186 | the first entry that the walk accepts for the header, or none when there is no such entry; its language holds the header, and that of no earlier unambiguous one does |
| HeaderSpec.GreedySound | libscpi/src/utils.c:545-664 | what the greedy walk accepts is spelled by some choice of optional nodes |
| HeaderSpec.GreedyComplete | libscpi/src/utils.c:545-664 | without spellings shared between an optional node and a mandatory one behind it every spelled header is accepted |
| HeaderSpec.WalkDecides | libscpi/src/utils.c:545-664 | the walk accepts the whole language of a pattern if and only if no optional node shares a spelling with a mandatory node that it can be skipped to |
| PatternLanguage.LanguageDecided | libscpi/src/utils.c:504-668 | the same for the texts of patterns and headers: every header of the language is accepted if and only if the pattern is unambiguous, for patterns whose nodes have a short form |
| HeaderSpec.SharedSpelling | libscpi/src/utils.c:545-664 | with a shared spelling the walk can reject a header of the language |
| Numerals.NumeralReadsBack | libscpi/src/utils.c:113-127 | a numeral evaluates to its value and has no leading zero |
| Numerals.NumeralsAreUnique | libscpi/src/utils.c:113-127 | there is only one such text for a value |
| Printer.ToStrBaseSign | libscpi/src/utils.c:80-132 | for every 32- or 64-bit value, base, sign flag and buffer length, exactly the first characters of the canonical text that fit are written, then a terminator if there is room, and nothing else |
| Printer.SignedText | libscpi/src/utils.c:141-143 | the text of a signed value is its sign and the numeral of its magnitude, the least value included |
| Printer.UnsignedText | libscpi/src/utils.c:239-241 | the text of an unsigned value is its numeral in the base |
| Results.Output.ResultInt | libscpi/src/parser.c:399-415 | appends a delimiter where due and the decimal text, which always fits its buffer |
| Results.Output.ResultUIntBase | libscpi/src/parser.c:425-441 | appends prefix and numeral of the base |
| Results.Output.ResultText | libscpi/src/parser.c:522-538 | appends the text, of any characters but the terminator, in quotes with every quote doubled |
| Results.Output.ResultBlockHeader | libscpi/src/parser.c:616-630 | for shown lengths below the limit, appends the header with its count of length digits |
| Results.Output.PrintLength | libscpi/src/parser.c:619-626 | the length in decimal, cut to 32 bits, with a terminator behind it in the ten bytes exactly below the limit |
| Results.LimitIsExact | libscpi/src/parser.c:619-626 | a length has at most nine digits if and only if it is below the limit, and ten from there on |
| Results.Output.ResultBlockData | libscpi/src/parser.c:639-653 | data beyond the announced length is refused and changes nothing; the block counts as a result when nothing remains |
| Results.Output.ResultBlock | libscpi/src/parser.c:662-667 | header and data are one result |
| Parameters.Reader.Parameter | libscpi/src/parser.c:699-749 | the next parameter, or which of the three errors it is |
| Parameters.Reader.ParamInt | libscpi/src/parser.c:1019-1041 | the value that a variable of the given width and sign holds after the conversion of a numeric parameter by its base, or why there is none |
| Parameters.ConvertedExact | libscpi/src/utils.c:273-313 | the variable holds the number as written if and only if its type has it, and some number of its type always |
| ParameterTexts.ListIsRead | libscpi/src/parser.c:699-749 | the text of a list of parameters of any kinds is read back parameter by parameter, each as its token, and then there is none |
| ParameterTexts.BrokenList | libscpi/src/parser.c:699-749 | behind a parameter anything but a comma is an invalid separator, and a comma with nothing behind it has no parameter |
| ParameterTexts.ItemTaken | libscpi/src/parser.c:1019-1041 | taken as an integer, a parameter of such a list gives the value of its digits in its base, or of sign and whole part, after the conversion; suffixes are not allowed, and other kinds are of the wrong type |
| ParameterTexts.OutOfRange | libscpi/src/utils.c:273-313 | what the variable holds for numbers beyond the range of the library: the nearest bound, -1 and 0 once cut to 32 bits, all ones without a sign |
| ParameterTexts.LowBits | libscpi/src/utils.c:273-313 | within that range, what it holds differs from the number by a multiple of the modulus of its type |
| Parameters.Reader.ParamCopyText | libscpi/src/parser.c:1187-1228 | the string with doubled quotes taken once, up to where the reading index reaches the length of the buffer, so that doubled quotes leave room unused; then a terminator if there is room |
| RoundTrip.WrittenIsRead | libscpi/src/parser.c:399-749 | a sequence of integers in the four bases, texts and blocks is read back value for value by successive parameters, and nothing follows, if and only if its texts are seven-bit and its blocks shorter than the limit |
| RoundTrip.ReadItem | libscpi/src/parser.c:1360-1390 | any result that a parameter can hold is read back where it stands |
| RoundTrip.NotRead | libscpi/src/parser.c:1360-1390 | any other one is refused or read as something else |
| RoundTrip.ReportedWhole | libscpi/src/parser.c:1399-1429 | of the results written one after the other the parser reports the whole length and number, so that nothing is left unread |
| RoundTrip.UndoubledBack | libscpi/src/parser.c:1207-1214 | copying undoes the doubling of quotes |
| ErrorText.ResultError | libscpi/src/parser.c:551-608 | number, comma and, in quotes, as much of description;information as fits into 255 places |
| ErrorText.FitIsPrefix | libscpi/src/parser.c:577-604 | that field is a prefix of the text with its quotes doubled, never half of a doubled quote, at most 255 long, and the longest such prefix |
| ErrorText.WritePart | libscpi/src/parser.c:585-603 | one part of the text is cut at the remaining room, whose counters never go below zero |
| ErrorText.PartsAreOne | libscpi/src/parser.c:577-604 | writing the text in the parts the heap hands out is writing it at once |
| ChannelList.ChannelSpec | libscpi/src/expression.c:192-214 | coordinates up to the last exclamation mark, converted to 32 bits, as many stored as there is room for |
| ChannelList.ChannelRange | libscpi/src/expression.c:226-254 | one channel, or two of equal dimension |
| ChannelList.ChannelListEntry | libscpi/src/expression.c:267-316 | flag, dimensions and converted values of the entry, no more, or an error, as a scan from the start finds them; a negative index makes no scan and stores nothing |
| ChannelList.RescanIsPass | libscpi/src/expression.c:291-304 | on any text, scanning anew for every index gives the entries of one pass and then always its outcome |
| ChannelText.EveryEntry | libscpi/src/expression.c:267-316 | for every well-formed list each index gives its entry, its coordinates converted to 32 bits, and every larger one no more |
| ChannelText.EntryAsWritten | libscpi/src/expression.c:192-214 | the values of an entry are the coordinates as written if and only if 32 bits hold each of them |
| Ssd1306.Screen.DrawPixel | esp32s3_scpi_async/lib/Adafruit SSD1306/Adafruit_SSD1306.cpp:659-690 | one pixel of the turned screen is coloured and clipped |
| Orientation.PixelBit | esp32s3_scpi_async/lib/Adafruit SSD1306/Adafruit_SSD1306.cpp:659-690 | unturned, a pixel is one bit of the byte of its column and page, which white sets, black clears and inverse flips; no other bit changes, and none outside the screen |
| Orientation.QuarterTurn | esp32s3_scpi_async/lib/Adafruit SSD1306/Adafruit_SSD1306.cpp:659-690 | each rotation is the one before it turned by a quarter, and four of them are none |
| Ssd1306.Screen.DrawFastHLineInternal | esp32s3_scpi_async/lib/Adafruit SSD1306/Adafruit_SSD1306.cpp:766-800 | exactly the pixels of the line that are on the display are coloured, for every position and length, its 16-bit overflow included |
| Ssd1306.Screen.DrawFastVLineInternal | esp32s3_scpi_async/lib/Adafruit SSD1306/Adafruit_SSD1306.cpp:865-958 | the same for vertical lines, by partial and whole bytes |
| Ssd1306.Screen.DrawFastHLine | esp32s3_scpi_async/lib/Adafruit SSD1306/Adafruit_SSD1306.cpp:717-750 | for every rotation, colour, 16-bit position and length that does not overflow, the buffer is the one that drawing each pixel once leaves; otherwise the overflowed line is drawn |
| Ssd1306.Screen.DrawFastVLine | esp32s3_scpi_async/lib/Adafruit SSD1306/Adafruit_SSD1306.cpp:817-850 | the same for vertical lines |
| Ssd1306.OverflowShows | esp32s3_scpi_async/lib/Adafruit SSD1306/Adafruit_SSD1306.cpp:766-800 | an overflow only happens to negative lengths, and inverts pixels wherever the line crosses the display |
| Ssd1306.LinePaints | esp32s3_scpi_async/lib/Adafruit SSD1306/Adafruit_SSD1306.cpp:659-690 | pixel by pixel drawing colours exactly the turned line and nothing else |
| Ssd1306.SameCells | esp32s3_scpi_async/lib/Adafruit SSD1306/Adafruit_SSD1306.cpp:817-850 | turning a line with 16-bit arithmetic gives the same cells of the display as turning it exactly |
| Frames.PaintedOnce | esp32s3_scpi_async/lib/Adafruit SSD1306/Adafruit_SSD1306.cpp:659-690 | a coloured rectangle determines every byte of the buffer |
| Frames.ByteWritten | esp32s3_scpi_async/lib/Adafruit SSD1306/Adafruit_SSD1306.cpp:884-915 | a masked write colours exactly the rows of its mask |
| Gfx.WriteLine | esp32s3_scpi_async/lib/Adafruit GFX Library/Adafruit_GFX.cpp:132-173 | one pixel for every step along the longer extent; up to an extent of 32767 each is within half a pixel of the true line and next to the one before it, both endpoints among them |
| Gfx.LoopEnds | esp32s3_scpi_async/lib/Adafruit GFX Library/Adafruit_GFX.cpp:160-172 | the 16-bit loop counter ever passes the larger end if and only if that is not 32767 |
| Gfx.Trace | esp32s3_scpi_async/lib/Adafruit GFX Library/Adafruit_GFX.cpp:160-172 | one pixel for every step; where the extents fit 16 bits, at minor offsets that stay within half a pixel of the true line, start at zero and grow by at most one |
| Gfx.FillCircleHelper | esp32s3_scpi_async/lib/Adafruit GFX Library/Adafruit_GFX.cpp:587-627 | each column offset from 1 to the radius is drawn exactly once on each side asked for, after the conversion of columns to 16 bits and whatever the decision variable does; lines reach as far below the centre row as above it, no farther than the radius, and none is longer than one nearer the centre; up to radius 16383 each ends on the circle: in the row nearest to it up to the diagonal, and in the last row it reaches half a column before beyond it |
| Gfx.FillCircle | esp32s3_scpi_async/lib/Adafruit GFX Library/Adafruit_GFX.cpp:567-573 | each of the columns of the circle is drawn exactly once and no other, wrapped columns included, so that inverting toggles no pixel twice; the lines end on the circle in the same way, and are drawn as they are where nothing overflows |

## Left out

- MatchCommand.MatchNumbers: what a rejected header leaves in the array is not stated, because the library asks for the numbers of found headers only; headers hold nothing that the number conversion would skip or take for a sign, as the lexer's headers do not; patterns have one node to a bracket.
- PatternLanguage.LanguageDecided: patterns with a node whose short form is empty are not covered on the level of texts, because no header consists of one empty segment; `WalkDecides` covers them.
- Clearing.ClearingExact: that unordered tables fail is stated for tables in which a negative filter comes with a positive one; that ordered tables clear holds for all.
- Parameters.Reader.ParamInt: the error that the library's conversions set aside when a number is out of range is not modelled, because the source does not look at it.
- ParseLine.ParseLine: does not model the callbacks of found headers, or the check that a callback has read all its parameters.
- InputBuffer.InputBuffer.Input: does not model the result value of the last line parsed, which callbacks decide.
- Results.Output.ResultBlockHeader: lengths from the limit on are not covered, because the source then measures a text without a terminator.
- Gfx.WriteLine: a larger end of 32767 along the longer extent is not covered, because the loop then never ends (`LoopEnds`); what the minor coordinate does for extents above 32767 is not stated.
- Gfx.FillCircle: for radii above 16383, where heights and the decision variable overflow, only the columns and that the outline bulges are stated.
- Ssd1306.Screen.DrawFastVLine: colours other than black, white and inverse are not covered.
- Output separators: the semicolon between answers and the newline behind them are written by the parser around the callbacks, which are not part of this model.
- Floating point printing and parsing, units and multipliers: the rounding of library functions is not part of this model.
- Numeric lists in expressions: the same scan as channel lists with a simpler entry.
- Choices, booleans, arrays of results and parameters, and byte swapping: easy members on top of those modelled.
- Dynamic allocation of error texts: the ring heap is the harder of the two configurations.
- Sockets, VXI-11, LwIP, firmware tasks, menus and pin handlers: plumbing around the engine.
- Other Adafruit routines: fonts, bitmaps, bus transfers and shapes drawn with the routines modelled here.
