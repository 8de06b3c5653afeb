# MultiCoder: a verified model

MultiCoder encodes audio for Icecast, HLS and SRT. A supervisor process serves the web API and launches one
worker process per encoder. This project models the parts of both, and of the original encoder kept in the
repository as reference, whose logic is hard, and proves what they are for. `dafny verify dfyconfig.toml` checks it.

Algorithms that the source runs step by step are methods with loops, and objects it updates are classes; each is
proved equal to a function on values, and the theorems are about those functions, over all inputs and all runs.

**Playlist rewrite.** `PlaylistLines`, `PdtAnchor`, `DateRange`, `Playlist` and `PlaylistServer` follow the worker's HLS
server: lines read, tags upgraded and inserted, dates normalised or synthesised from an anchor that lives across
requests, dates and EXTINF swapped, TARGETDURATION moved, the break line injected, lines written. `PlaylistMedia`,
`PlaylistShape`, `PlaylistTheorems`, `PlaylistOrder`, `PlaylistIdempotence`, `PlaylistTwice` and `PlaylistRuns` prove
that the media survive, that the order of RFC 8216 comes out, when a second rewrite changes nothing and that a segment
keeps its date over every run; `PlaylistDates` has the playlists with dates on some segments only. `Fallback` does
the same for the supervisor's own playlist with its anchor per encoder, and shows when it is already in the worker's
form. `PlaylistRange` says when the rewrite stays inside its vector, `BreakLine`, `PlaylistText` and `ServedText` what a
client finds in the served text, and `TextTwice` when that text is its own rewrite. `SegmentNames` and `MediaNumbers`
say which numbers are read from names and from both responses.

**SCTE-35 cues.** `CueFraming` cuts a TCP stream into messages, `CueGate` limits rate and replay, `BreakState` and
`BreakLifecycle` keep the break in memory and on disk. `AttributeList` prints and reads attribute lists, for a client
that follows RFC 8216 section 4.2, where a double quote always ends a quoted string, and for one that resolves the
backslashes the source writes; `BreakTexts` and `DateRangeClient` follow the texts of the cues into what each of the two
reads; `BreakFeeds` and `BreakQuotes` hold the inputs that go wrong, and `ScteCues` says which cue texts are announced
as SCTE-35. `CueExchange` is the state machine of one cue request between the supervisor and the worker's threads over
the shared file.

**Stored state.** `Text` and `Json` are the hand-written JSON parser and printer and the text helpers all stored state
goes through; `JsonExact` says exactly which objects survive them, `JsonSpaced` reads them with white space between the
tokens, and `JsonMeaning` compares their text with RFC 8259.

**Worker.** `SinkLifecycle` has the four sinks with their processes, `DispatchQueue` the queue of outbound tasks.

**Byte streams and codecs.** `Bytes`, `Icy` and `Adts` are the reference encoder's ICY interleaving and segment cutting;
`Rtp`, `Base64` and `MetaTemplate` are codecs of the worker.

Where the code does less than it seems to promise, the exact condition is proved:

- The rewritten lines keep RFC 8216's order if and only if dates stand on all segments or on none and the header does
  not end in VERSION (`RewriteInOrderIff`), and the reordering stays inside its vector if and only if the playlist does
  not (`ReorderInRangeIff`). A second rewrite changes nothing if and only if VERSION comes before TARGETDURATION or the
  line behind it is dropped (`RewriteTwiceIff`), and the text stays the same if and only if in addition no line ends in
  a carriage return (`TextTwiceIff`).
- The break line is written as it is. The client finds the URIs of the file if and only if no line feed in a text of a
  placed break brings one (`ServedUrisIff`, `FallbackUrisIff`). Unless the file tells the break already, the client is
  told if and only if the line was placed and no text holds a line feed, nor, unless the client resolves backslashes, a
  double quote or a backslash: RFC 8216 has no escapes in quoted strings (`ServedBreakIff`, `FallbackOrderIff`). Cues
  can carry both: with a line feed the client finds a URI that is not in the file (`TwoLinesHappens`), with double
  quotes a standard client reads END-ON-NEXT on a closed break (`QuotesBringEndOnNext`), which it does not as long as
  the quotes in every text pair up with no comma in between (`EndOnNextStandsAlone`).
- The supervisor's lines keep the .aac URIs if and only if none ends in a carriage return (`FallbackKeepsUrisIff`).
- The dates and the length of a break agree if and only if both looks at the clock do (`DatesAgreeIff`).
- As long as the stream is not reset (a first segment number more than 50 behind, or none), dates continue an anchor's
  mapping if and only if the first number has not gone back, even by one (`StampFollowsBaseIff`, `MarkFollowsIff`).
- An object survives the JSON printer and parser if and only if the parser's scan can cross all its unquoted values and
  all but that of the greatest key are self-delimiting (`RoundTripsIff`); an unquoted value is safe in every object if
  and only if it is self-delimiting (`SafeEverywhereIff`).
- Of the two-character escapes of RFC 8259 section 7 the parser reads all but those of backspace and form feed
  (`EscapeReadIff`), and of a unicode escape just what stands behind the backslash
  (`UnicodeEscapeIsNotRead`).
- How a length-prefixed cue stream is split on arrival makes no difference if and only if no length over 1 MiB is
  reached before its last four bytes (`ArrivalIsInvisibleIff`).
- The supervisor's final write keeps the break stored for its cue if and only if it had the worker's answer or the break
  was the same before (`FinalWriteKeepsBreakIff`); from every starting point there is a run that loses
  it (`LostAnswerLosesBreak`). The copy in memory still has it, and the next break action starts from there
  (`NextBreakActionRestores`).
- The destructor does not stop the SRT sink's process (`NothingOutlivesIff`, `SrtProcessOutlives`), and a poll, which
  holds no lock, forgets a process that was started while it looked (`ClearKeepsInvIff`, `InterruptedPollForgets`).
- The AAC writer gets through a frame if and only if the metadata interval is positive (`AacLoopEndsIff`). A client
  reads the title in force if and only if it has at most 255 bytes and no quote with a semicolon behind it
  (`ClientReadsTitleIff`). A stream of frames is filed whole if and only if the last is longer than its seven header
  bytes (`StreamIsFiledIff`).
- The comment on the RTP depth fallback says that it tolerates a wrong configured depth; the code hears a packet at its
  sender's depth if and only if that is tried first, or it is 16 bits and the payload shorter than six bytes
  (`SenderDepthHeardIff`).

## Model

| member | source | states |
|---|---|---|
| PlaylistLines.KindIff | src/worker/worker.cpp:4392-4398 | each line kind stands for exactly one prefix or equality test of the source; no line passes two of them |
| PlaylistLines.ReadLines | src/worker/worker.cpp:4377-4386 | the text as lines, one trailing carriage return dropped from each |
| PlaylistLines.WriteLines | src/worker/worker.cpp:4542-4548 | non-blank lines joined with newlines |
| PlaylistLines.SplitJoin | src/worker/worker.cpp:4377-4386 | lines free of breaks come back from their joined text unchanged |
| PlaylistLines.SplitMixed | src/worker/worker.cpp:4377-4386 | clean lines, blank ones too, come back whichever way each of them ends: newline, carriage return and newline, or nothing behind the last |
| PlaylistMedia.RewriteKeepsUris | src/worker/worker.cpp:4388-4541 | for every line vector at all, well-formed or not, the rewritten vector has the same URI elements, in order, none added; ServedUrisIff says when this holds of the text |
| PlaylistMedia.ArrangedKeeps | src/worker/worker.cpp:4388-4538 | the same for MEDIA-SEQUENCE, DATERANGE and tags the rewrite does not know, before the break line goes in |
| MediaNumbers.ResponseLinesOk | src/worker/worker.cpp:4388-4541 | for every line vector: in the response every VERSION reads 6, every TARGETDURATION the segment length, every EXTINF the same length, so that none exceeds the target (RFC 8216 section 4.3.3.1), and the metadata text; EXT-X-ALLOW-CACHE:YES is gone |
| MediaNumbers.InfReads | src/worker/worker.cpp:4505-4521 | the EXTINF written reads, up to its comma and behind it, as the segment length and the metadata text |
| MediaNumbers.StartReads | src/worker/worker.cpp:4404-4406 | EXT-X-START reads as TIME-OFFSET with the offset, and PRECISE=YES |
| MediaNumbers.TagsArePresent | src/worker/worker.cpp:4401-4409 | a file with a MEDIA-SEQUENCE gets INDEPENDENT-SEGMENTS and START if it has not |
| MediaNumbers.InsertedPlace | src/worker/worker.cpp:4401-4409 | missing tags stand right behind the last MEDIA-SEQUENCE; taken out again they leave the lines as they were |
| MediaNumbers.WorkerKeepsSequence | src/worker/worker.cpp:4388-4541 | for every line vector the media sequence read from the response is that of the file |
| PlaylistDates.RewriteInOrderIff | src/worker/worker.cpp:4388-4541 | for every playlist with segments, dates on any of them, other tags behind any URI, any metadata and any break: in the rewritten line vector every URI comes right after its EXTINF and that right after exactly one date (RFC 8216 sections 4.3.2.1, 4.3.2.6) if and only if dates stand on all segments or on none and the header does not end in VERSION behind the other two tags; ServedOrderIff has the condition for the text |
| PlaylistOrder.InOrderIff | src/worker/worker.cpp:4507-4521 | this order rule, stated for each line, is the grammar of date, EXTINF and URI in threes with any other lines between the threes |
| PlaylistDates.RewriteKeepsCounts | src/worker/worker.cpp:4388-4538 | for every line vector with a date: the rewrite neither loses nor adds a date or an EXTINF, so segments without a date stay without |
| ServedText.ServedLinesIff | src/worker/worker.cpp:4388-4548 | for every file: a client that splits the served text finds the lines that were written if and only if none of those written without a break ends in a carriage return, and no break line was placed or no text of the break holds a line feed |
| ServedText.ServedUrisIff | src/worker/worker.cpp:4377-4548 | for every file: the client finds the URIs it would find in the file, in order and none added, if and only if the break line is not placed or no line feed in it is followed by a line that is neither blank nor a tag; they are the URIs the worker read, where no line is a lone carriage return, if and only if in addition none of them ends in one |
| ServedText.ServedOrderIff | src/worker/worker.cpp:4388-4548 | for every playlist: the client finds the media lines in order if and only if no line is a lone carriage return, dates stand on all segments or on none, the header does not end in VERSION, and the text of a placed break line, line by line, is in the grammar of the order rule, as it is when no text of the break holds a line feed |
| ServedText.ServedBreakIff | src/worker/worker.cpp:4093-4149 | for every file: some line of the served text tells a client the break, every text under its own name, if and only if a line of the file does so already, or the break line was placed, no text of the break holds a line feed, and the client resolves backslashes or no text holds a double quote or a backslash |
| ServedText.DateRangesStay | src/worker/worker.cpp:4388-4538 | the rewrite keeps every DATERANGE line of the file and makes none but the break line |
| BreakFeeds.TwoLinesBringUri | src/worker/worker.cpp:4613-4628 | a valid cue whose event id has two lines: wherever its break line is placed the client finds more URIs than the file has, and its lines are not in order |
| BreakFeeds.TwoLinesHappens | src/worker/worker.cpp:4123-4149 | and a playlist with one dated segment in which it is placed |
| ServedText.OpenBreakPlacedIff | src/worker/worker.cpp:4123-4149 | in a playlist whose last segment has a date that can be read, the line of an open break is placed if and only if that date is not earlier than the start |
| PlaylistText.PiecesHaveUriIff | src/worker/worker.cpp:4542-4548 | the lines into which a break line is cut include a URI if and only if one of its line feeds is followed by a line that is neither blank nor a tag |
| BreakLine.LineFeedIff | src/worker/worker.cpp:4038-4046 | quoting leaves line feeds as they are: the break line holds one if and only if a text of the record does |
| PlaylistOrder.MediaInOrder | src/worker/worker.cpp:4507-4521 | date, EXTINF, URI entries satisfy the order rule |
| PlaylistOrder.ClosingVersionGivesStray | src/worker/worker.cpp:4533-4538 | a header that ends in VERSION gets its TARGETDURATION put between the first date and its EXTINF |
| PlaylistTheorems.RewriteShape | src/worker/worker.cpp:4388-4548 | the response is the reordered header, then date, EXTINF, URI and the tags behind it for each segment, with at most one break line, right before a date |
| PlaylistTheorems.OutSegmentAt | src/worker/worker.cpp:4411-4521 | segment by segment: URI and the tags behind it kept, EXTINF rewritten, its own date in UTC or else the first date plus a whole number of segment lengths |
| PlaylistTheorems.InjectedShape | src/worker/worker.cpp:4123-4149 | a break line goes between entries, never inside one |
| PlaylistShape.ArrangedShape | src/worker/worker.cpp:4388-4538 | the rewrite without the break line acts on header and segments separately |
| PlaylistShape.InsertedDoc | src/worker/worker.cpp:4401-4409 | missing tags go into the header, never among the segments |
| PlaylistShape.StampedMedia | src/worker/worker.cpp:4495-4503 | inserting dates into a line vector gives each segment its own date before EXTINF |
| PlaylistShape.SwappedMedia | src/worker/worker.cpp:4507-4521 | the swap puts every date in front of its EXTINF, wherever it stood |
| PlaylistShape.ReorderedDoc | src/worker/worker.cpp:4523-4538 | moving TARGETDURATION stays inside the header unless that ends in VERSION |
| PlaylistShape.ReorderedBehindMedia | src/worker/worker.cpp:4533-4538 | and goes behind the first media line when it does |
| PlaylistIdempotence.RewriteIdempotent | src/worker/worker.cpp:4388-4548 | with no break, fixed settings and VERSION before TARGETDURATION, rewriting a rewritten playlist changes nothing, whatever the clock says |
| PlaylistTwice.RewriteTwiceIff | src/worker/worker.cpp:4388-4548 | for every playlist with at most one TARGETDURATION and no break: rewriting the response changes nothing if and only if VERSION comes before TARGETDURATION, or the line behind the last VERSION is one the rewrite drops, or one of the three tags is missing |
| PlaylistTwice.HeaderSettlesIff | src/worker/worker.cpp:4523-4547 | the same for the header of a response, blank lines dropped |
| PlaylistTwice.ClosedChanges | src/worker/worker.cpp:4533-4538 | a header that ends in VERSION never settles |
| PlaylistIdempotence.ReorderTwiceIff | src/worker/worker.cpp:4523-4538 | the tag reordering as a step of its own, with one TARGETDURATION line: twice equals once iff VERSION comes before it |
| PlaylistIdempotence.HeaderStays | src/worker/worker.cpp:4388-4409 | a header that has been rewritten is a fixed point of upgrade, insertion and reordering |
| PlaylistIdempotence.SegmentsStay | src/worker/worker.cpp:4411-4521 | so are rewritten segments |
| TextTwice.TextTwiceIff | src/worker/worker.cpp:4377-4548 | the same for texts: the response, read again as a file and rewritten, is the same text if and only if the header settles so and no line of the response ends in a carriage return |
| TextTwice.TextRewriteIdempotentIff | src/worker/worker.cpp:4377-4548 | with VERSION before TARGETDURATION, any number of these tags: if and only if no line of the response ends in a carriage return |
| PlaylistRuns.DatesAreStable | src/worker/worker.cpp:4452-4504 | over every run of requests with a fixed segment length, consecutive numbers and a first number that never goes back, whatever the metadata and the other settings do, one mapping from numbers to dates serves all responses |
| PlaylistRuns.SameNumberSameDate | src/worker/worker.cpp:4452-4504 | so a segment number has the same date line in every two responses |
| PlaylistRuns.DatesRiseByStep | src/worker/worker.cpp:4495-4503 | inside a response the dates rise by exactly the segment length |
| PlaylistRuns.ResponsesDatedByNumber | src/worker/worker.cpp:4388-4548 | the whole response of each request of such a run, dates given by number |
| SegmentNames.SegmentNumberReads | src/worker/worker.cpp:4437-4447 | the number read from a URI is the whole run of digits behind the last "segment-", whatever stands in front and behind, leading zeros or not, if it fits into 32 bits, and none otherwise |
| SegmentNames.NoSegmentNumber | src/worker/worker.cpp:4437-4447 | without "segment-" there is no number |
| SegmentNames.NoDigitNoNumber | src/worker/worker.cpp:4437-4447 | nor without a digit behind the last one |
| SegmentNames.NamedRequestOk | src/worker/worker.cpp:4420-4451 | a playlist without dates whose names are numbered one after the other is one of those whose dates are stable |
| SegmentNames.NameGivesDate | src/worker/worker.cpp:4452-4504 | in every response of a run the segment named n has the date that one mapping gives to n, a segment length for each number |
| PlaylistDates.AnchorMovesIff | src/worker/worker.cpp:4421-4488 | the anchor is consulted exactly for files that have segments and no date at all; otherwise it stays |
| PdtAnchor.NextKeepsBase | src/worker/worker.cpp:4464-4481 | without a reset the anchor moves but the date it gives to any number does not |
| PdtAnchor.StampFollowsBaseIff | src/worker/worker.cpp:4464-4488 | without a reset the response follows the mapping if and only if its first number is not behind the anchor |
| PdtAnchor.ResetsIff | src/worker/worker.cpp:4464-4464 | a number up to 50 behind the anchor is no reset, one further behind is |
| PdtAnchor.ResetDates | src/worker/worker.cpp:4464-4494 | after a reset the first segment is dated half a segment before the clock, and the others one segment length apart from it |
| PdtAnchor.PdtAnchorCell.Advance | src/worker/worker.cpp:4463-4488 | the static variables follow the anchor function; result is the first date |
| PlaylistServer.UpgradeHeader | src/worker/worker.cpp:4388-4399 | in-place upgrade of each line, with the insertion point and the two flags |
| PlaylistServer.InsertTags | src/worker/worker.cpp:4401-4409 | only the missing tags, right behind the last MEDIA-SEQUENCE |
| PlaylistServer.NormalizeDates | src/worker/worker.cpp:4413-4419 | every date line in UTC, and whether there was one |
| PlaylistServer.CollectSegments | src/worker/worker.cpp:4423-4451 | indices of the EXTINF lines and the number of the URI behind each |
| PlaylistServer.SynthesizeDates | src/worker/worker.cpp:4495-4503 | inserting at shifting indices equals stamping line by line |
| PlaylistServer.SwapDates | src/worker/worker.cpp:4510-4521 | the swap loop with its extra step equals the recursive swap |
| PlaylistServer.LastTags | src/worker/worker.cpp:4527-4532 | the last line of each of the three tags |
| PlaylistServer.ReorderHeader | src/worker/worker.cpp:4527-4538 | erase and re-insert of TARGETDURATION |
| PlaylistRange.ReorderInRangeIff | src/worker/worker.cpp:4533-4538 | for every playlist: the place where TARGETDURATION is put back is inside the vector if and only if the playlist does not end in VERSION behind the other two tags |
| PlaylistServer.Serve | src/worker/worker.cpp:4377-4548 | one request: response text and new anchor are the rewrite of the text under the old anchor |
| AttributeList.ReadsBackIff | src/worker/worker.cpp:4093-4121 | for every attribute list: a client reads the attributes that were printed if and only if it resolves backslashes, or it follows RFC 8216 section 4.2, where a double quote always ends a quoted string, and no text holds a double quote or a backslash |
| AttributeList.ReadsAsWrittenIff | src/worker/worker.cpp:4038-4046 | a client of RFC 8216 section 4.2 reads one attribute for each that was printed, its text with the backslashes as they stand, if and only if in every text the double quotes pair up with no comma in between |
| AttributeList.NoneIsLost | src/worker/worker.cpp:4038-4046 | in a list of different names the first text that such a client cannot read is not found under its name |
| DateRange.ClientReadsIff | src/worker/worker.cpp:4093-4121 | both conditions for the break line: on the texts of the break record |
| DateRange.TimingAttrs | src/worker/worker.cpp:4099-4119 | END-ON-NEXT iff active, END-DATE iff there is an end date, DURATION iff both times are known and in order |
| DateRange.EndOnNextStandsAlone | src/worker/worker.cpp:4093-4121 | an open break is read with END-ON-NEXT and without END-DATE and DURATION, a closed one without END-ON-NEXT (RFC 8216 section 4.3.2.7): by a client that resolves backslashes always, by one of section 4.2 if the double quotes in every text pair up with no comma in between |
| BreakQuotes.QuotesBringEndOnNext | src/worker/worker.cpp:4882-4892 | a valid start and end with double quotes in the event id: a client of section 4.2 reads END-ON-NEXT, twice, and END-DATE from the line of the closed break |
| DateRange.ReachableEndOnNextStandsAlone | src/worker/worker.cpp:4151-4217 | the same for every break any run of cues can leave in the file, with the condition on the texts of the cues |
| DateRange.InsertIndexIff | src/worker/worker.cpp:4123-4148 | a line is inserted iff the record has one, a date can be read and the break is not outside the dates shown; then at the first date not earlier than the start, the first of all when the start is unset |
| DateRange.InjectPlacement | src/worker/worker.cpp:4123-4149 | the inserted line stands right before that date line, and erasing it restores the playlist |
| DateRange.CollectDated | src/worker/worker.cpp:4128-4133 | the date lines that can be read, with their times |
| DateRange.InjectDateRange | src/worker/worker.cpp:4123-4149 | the loops implement the placement |
| DateRangeClient.NamesAreDistinct | src/worker/worker.cpp:4093-4121 | no attribute name comes twice (RFC 8216 section 4.2): for a client that resolves backslashes always, for one of section 4.2 if the double quotes in every text pair up with no comma in between |
| DateRangeClient.RecordIsTold | src/worker/worker.cpp:4096-4119 | the printed attributes hold, each under its own name, exactly the id, dates, length, open mark, event, actions and cues of the record; optional ones exactly when they are not empty, the two SCTE35 names only for texts that look like SCTE-35 |
| DateRangeClient.ClientIsToldIff | src/worker/worker.cpp:4093-4121 | a client finds all of this in the line if and only if it resolves backslashes or no text of the record holds a double quote or a backslash |
| ScteCues.LooksLikeScte35Iff | src/worker/worker.cpp:4049-4073 | which cue texts count as SCTE-35: trimmed, 16 characters or more, and behind "0x" hexadecimal digits only, or whole bytes in hexadecimal, or letters of Base64 with a plus, a slash or padding among them |
| ScteCues.HexIsAccepted | src/worker/worker.cpp:4057-4064 | eight bytes or more printed in hexadecimal do, in either case |
| ScteCues.Base64IsAccepted | src/worker/worker.cpp:4065-4072 | ten bytes or more in Base64 do if a plus, slash or padding sign comes up and the text does not begin like a hexadecimal one |
| ScteCues.SectionIsAccepted | src/worker/worker.cpp:4049-4073 | every splice section (first byte 0xFC) of ten bytes or more does, printed in hexadecimal, with 0x or without, or in Base64 |
| ScteCues.SectionIsAnnounced | src/worker/worker.cpp:4108-4117 | a break that such a cue opens is announced with SCTE35-OUT equal to the cue, one that it closes with SCTE35-IN |
| DateRangeClient.FeedIsNotTold | src/worker/worker.cpp:4038-4046 | no line without line feeds tells any client of a record that has one |
| AttributeList.UnslashedEscape | src/worker/worker.cpp:4038-4046 | resolving the backslashes undoes the quoting for every text |
| DateRangeClient.ClientSeesTheBreakIff | src/worker/worker.cpp:4093-4217 | after any run that ends with a start, any other actions and an end, the line of the record in the file tells a client of exactly that start and end if and only if it resolves backslashes or no text of the two cues holds a double quote or a backslash |
| ServedText.ServedBreakTells | src/worker/worker.cpp:4093-4548 | from cues to client: in the text served after such a run, some line tells a client of exactly that start and end if and only if a line of the file does, or the break line was placed, the texts of the two cues hold no line feed, and the client resolves backslashes or they hold no double quote or backslash |
| ServedText.ServedOpenBreakTells | src/worker/worker.cpp:4093-4548 | the same after a run that ends with a start and any other actions; what is told of the open break has END-ON-NEXT and neither END-DATE nor DURATION |
| DateRangeClient.DatesAgreeIff | src/worker/worker.cpp:4158-4159 | the dates and the length that a client is told agree (RFC 8216 section 4.3.2.7) if and only if the dates of the two cues are as far apart as their times, which are two looks at the clock |
| Fallback.FallbackShape | src/supervisor/supervisor_api.cpp:2661-2745 | whatever lines are read: a header and, for every .aac URI in order, date, EXTINF and the URI without one carriage return at its end, dates one segment length apart, at most one break line before a date |
| Fallback.FallbackKeepsUrisIff | src/supervisor/supervisor_api.cpp:2641-2745 | the lines of the answer keep every .aac URI, in order and none added, if and only if none ends in a carriage return |
| MediaNumbers.MediaSeqReads | src/supervisor/supervisor_api.cpp:2641-2644 | the number of a playlist is that of its last MEDIA-SEQUENCE, with white space in front, leading zeros and anything but a digit behind it; none if it does not fit into 32 bits |
| MediaNumbers.AnswerSequence | src/supervisor/supervisor_api.cpp:2661-2674 | the media sequence read from the answer is that of the listing; without a readable one the number of the first segment, or 0; dates count from the first segment's number, or else from that one |
| MediaNumbers.SequenceCountsSegments | src/supervisor/supervisor_api.cpp:2661-2727 | where the names are numbered one after the other from the listing's number on, the k-th segment's own number is the media sequence of the answer plus k, at every request (RFC 8216 section 6.2.2) |
| MediaNumbers.AnswerEntry | src/supervisor/supervisor_api.cpp:2716-2727 | the k-th entry has its own URI, the segment length and metadata text, and a date k segment lengths behind the first |
| MediaNumbers.SameNumberSameLine | src/supervisor/supervisor_api.cpp:2668-2727 | over every interleaving the same number of an encoder has the same date line in any two answers |
| MediaNumbers.IsAacIff | src/supervisor/supervisor_api.cpp:2645-2646 | a segment of the listing is any line but a tag that holds ".aac" |
| ServedText.FallbackUrisIff | src/supervisor/supervisor_api.cpp:2641-2746 | in the text of the answer the client finds them if and only if, in addition, a placed break line brings no URI |
| ServedText.FallbackOrderIff | src/supervisor/supervisor_api.cpp:2708-2746 | its lines are in order iff the text of a placed break line, line by line, is in the grammar of the order rule, and some line tells a client the break iff the line was placed, no text of it holds a line feed, and the client resolves backslashes or no text holds a double quote or a backslash |
| PlaylistText.PiecesInOrder | src/worker/worker.cpp:4542-4548 | the lines into which a break line is cut are in order if and only if its text, scanned line by line, is in that grammar |
| Fallback.WorkerKeepsFallbackIff | src/supervisor/supervisor_api.cpp:2708-2728 | with no break, the answer is a fixed point of the worker's rewrite if and only if the two agree on segment length and metadata text: both processes produce one format |
| Fallback.MarkFollowsIff | src/supervisor/supervisor_api.cpp:2674-2690 | without a reset a date continues the encoder's mapping if and only if the first number is not behind the anchor |
| Fallback.MarkAfterReset | src/supervisor/supervisor_api.cpp:2677-2682 | a first number more than 50 behind, or the first request, is dated half a segment before the clock |
| Fallback.MarkKeepsBase | src/supervisor/supervisor_api.cpp:2668-2690 | an encoder's mapping stays the same over any run, whatever is asked of other encoders |
| Fallback.SameNumberSameFallbackDate | src/supervisor/supervisor_api.cpp:2668-2727 | over every interleaving of requests for many encoders, a segment number of one has a single date |
| Fallback.ReadBackIff | src/supervisor/supervisor_api.cpp:2728-2738 | what is read back before the break line goes in is what was written if and only if no .aac URI ends in a carriage return |
| Fallback.ReadListing | src/supervisor/supervisor_api.cpp:2638-2661 | last readable MEDIA-SEQUENCE, the .aac URIs and their numbers |
| Fallback.WritePlaylist | src/supervisor/supervisor_api.cpp:2708-2728 | the text written entry by entry, with the running clock |
| Fallback.FallbackClock.Advance | src/supervisor/supervisor_api.cpp:2673-2690 | the two static maps behave as one map of marks; other encoders' marks are untouched |
| Fallback.ServeFallback | src/supervisor/supervisor_api.cpp:2615-2746 | one request: unchanged text without .aac URIs, else the generated playlist and the new mark |
| CueFraming.ChunkingIsInvisible | src/worker/worker.cpp:4825-4859 | however a stream is split on arrival, messages and left-over bytes are those of the stream fed at once (length-prefixed: all lengths at most 1 MiB) |
| CueFraming.ArrivalIsInvisibleIff | src/worker/worker.cpp:4840-4858 | for every length-prefixed stream: all ways of splitting it on arrival give the same if and only if no length over 1 MiB is reached in it, or one is and the stream ends right there |
| CueFraming.OversizedLengthSplits | src/worker/worker.cpp:4848-4852 | behind a first length over 1 MiB, bytes that arrive with it are lost and bytes that arrive later are read as frames; all splits agree iff there are no such bytes |
| CueFraming.DecodeLines | src/worker/worker.cpp:4827-4838 | decoding encoded lines gives the trimmed non-blank messages in order |
| CueFraming.DecodeFrames | src/worker/worker.cpp:4840-4858 | decoding encoded length-prefixed frames likewise |
| CueFraming.MessageReads | src/worker/worker.cpp:4827-4858 | a message is handed on without the blanks round it, and not at all if there is nothing else |
| CueFraming.BlankByteIff | src/worker/worker.cpp:168-173 | the blanks of a message are those the worker strips everywhere: space, tab, carriage return and line feed |
| CueFraming.SentIsDelivered | src/worker/worker.cpp:4825-4859 | any message list sent in any pieces is delivered in order with nothing left over |
| CueFraming.SessionsAgree | src/worker/worker.cpp:5069-5101 | two connections with the same bytes hand on the same messages |
| CueFraming.UnfinishedLineIsDelivered | src/worker/worker.cpp:5095-5101 | a last line without newline counts when the connection closes |
| CueFraming.CutLinesResume | src/worker/worker.cpp:4827-4838 | cutting what has arrived and going on later equals cutting everything at once (lines) |
| CueFraming.CutFramesResume | src/worker/worker.cpp:4840-4858 | the same for frames |
| CueFraming.CueBuffer.ParseLines | src/worker/worker.cpp:4827-4838 | the search loop and the erase implement the cut |
| CueFraming.CueBuffer.ParseFrames | src/worker/worker.cpp:4840-4858 | the offset loop, the guard and the erase implement the cut |
| CueFraming.CueBuffer.ParseFramedMessages | src/worker/worker.cpp:4825-4859 | the buffer method for both framings |
| CueFraming.CueBuffer.Receive | src/worker/worker.cpp:5079-5084 | one read from the socket: append, then cut |
| CueGate.StepIsIdeal | src/worker/worker.cpp:4942-4961 | one decision equals the one asked for over the full history, and the deque is again that history restricted to the window |
| CueGate.RunRepresents | src/worker/worker.cpp:4942-4961 | the same over every run with fixed settings and a non-decreasing clock |
| CueGate.WindowBound | src/worker/worker.cpp:4947-4952 | at most rateCount passes in any closed window of rateWindowSec |
| CueGate.PassesAreSpread | src/worker/worker.cpp:4947-4952 | any pass is more than rateWindowSec behind the one rateCount before it |
| CueGate.ReplayGap | src/worker/worker.cpp:4953-4958 | two passes of one cue are at least dedupeSec apart |
| CueGate.LimitsOf | src/worker/worker.cpp:4938-4940 | clamped settings always satisfy what the gate needs |
| CueGate.LimitsAreNearest | src/worker/worker.cpp:4938-4940 | each setting is used as it is if in range, and otherwise the nearest that is |
| CueGate.CueGateCell.Admit | src/worker/worker.cpp:4942-4961 | the critical section: verdict, deque and map |
| BreakState.ReadStored | src/worker/worker.cpp:4075-4091 | a record read from the store, or produced from one, is read back exactly as it was written |
| BreakState.ReadIsNormal | src/worker/worker.cpp:4075-4091 | reading produces only such records |
| BreakState.EffectIsNormal | src/worker/worker.cpp:4169-4193 | and so does every action |
| BreakState.PersistStep | src/worker/worker.cpp:4151-4217 | one call: copy in memory and file agree again, the break changed as the action says, all other keys of the file kept |
| BreakState.UpdateStep | src/worker/worker.cpp:4161-4211 | the mutation alone, on the object read |
| BreakState.RunFollowsFold | src/worker/worker.cpp:4151-4217 | over every run of actions the break in effect is the pure fold of the actions, and the memory copy never disagrees with the file, although other actions blank it |
| BreakState.FoldKeepsOpenHasNoEnd | src/worker/worker.cpp:4169-4193 | no action leaves an open break with an end |
| BreakState.ReachableOpenHasNoEnd | src/worker/worker.cpp:4151-4217 | so no open break reachable from an empty store has one |
| BreakState.ResolveEventId | src/worker/worker.cpp:4613-4616 | the event id handed over is never empty and is trimmed |
| BreakState.GivenIdIsKept | src/worker/worker.cpp:4613-4616 | an event id that is not blank is kept, trimmed |
| BreakState.MadeIdTells | src/worker/worker.cpp:4613-4616 | one made for a blank id tells encoder and moment: two are equal iff both are |
| BreakState.FreshIdTells | src/worker/worker.cpp:4169-4171 | the id of a break tells its encoder and its event |
| BreakState.EndAgain | src/worker/worker.cpp:4181-4193 | an end on a break that has ended moves its end; the closing cue is replaced only by another |
| BreakState.KeyNames | src/worker/worker.cpp:4198-4209 | the names of the keys |
| BreakState.BreakStore.StoreRecord | src/worker/worker.cpp:4198-4209 | the twelve setter calls change exactly the twelve keys |
| BreakState.BreakStore.NextRecord | src/worker/worker.cpp:4169-4196 | field by field assignment equals the action's effect |
| BreakState.BreakStore.Persist | src/worker/worker.cpp:4151-4217 | one call: new file text and new copy in memory |
| BreakLifecycle.StartThenEnd | src/worker/worker.cpp:4169-4193 | after any earlier actions, a start, any other actions and an end leave exactly one closed record: id, event and opening cue of the start, action, cue and date of the end |
| BreakLifecycle.StoredBreakIsAnnounced | src/worker/worker.cpp:4075-4217 | after any run that ends so, the file reads back as that record; a client reads the record from its line iff it resolves backslashes or the texts of the two cues hold no double quote or backslash; END-DATE, no END-ON-NEXT, and DURATION iff the end is later than the start, for a client of RFC 8216 section 4.2 if the double quotes in those texts pair up with no comma in between |
| BreakLifecycle.StoredBreakIsOpen | src/worker/worker.cpp:4075-4217 | after any run that ends with a start and any other actions it reads back as the open break |
| BreakLifecycle.EndAlone | src/worker/worker.cpp:4181-4193 | an end without a break makes one of no length, announced without DURATION, to a client of RFC 8216 section 4.2 if the double quotes in its texts pair up with no comma in between |
| CueExchange.NextInv | src/supervisor/supervisor_api.cpp:3476-3524 | every step of the supervisor, the control thread and the other threads that update the file keeps: since the control thread stored, the file and every copy still to be written hold the stored break fields |
| CueExchange.RunInv | src/supervisor/supervisor_api.cpp:3476-3524 | over every interleaving of one request |
| CueExchange.AnsweredBreakIsKept | src/supervisor/supervisor_api.cpp:3476-3524 | once the worker has answered OK, the break fields it stored are in the file at every later moment |
| CueExchange.AnsweredCueTookEffect | src/worker/worker.cpp:4758-4765 | and they are the effect of this cue on the break before the request |
| CueExchange.FinalWriteKeepsBreakIff | src/supervisor/supervisor_api.cpp:3495-3524 | in every run, the final write leaves the break stored for the cue if and only if the supervisor had the answer, or the break of before the request was the same one |
| CueExchange.LostAnswerLosesBreak | src/supervisor/supervisor_api.cpp:3491-3514 | the losing case occurs: from every starting point there is a run where the answer is lost and the old break fields come back |
| CueExchange.NextBreakActionRestores | src/worker/worker.cpp:4164-4167 | at every later moment of every run, answered or not, the next break action starts from the copy in memory: the file reads back as the effect of both cues, even after a lost break |
| CueExchange.OtherThreadsKeepBreak | src/worker/worker.cpp:5614-5623 | what dispatch thread and metadata listener write into the same file touches no break field, so both are covered by the step of the other threads |
| CueExchange.CountersHold | src/worker/worker.cpp:2288-2294 | storing the counters changes nothing but the five counters, and each holds its own number |
| CueExchange.UpdateDispatchMetrics | src/worker/worker.cpp:2288-2294 | parse, five setter calls and print are that update |
| CueExchange.AnsweredRunKeepsBreak | src/supervisor/supervisor_api.cpp:3491-3524 | from every starting point there is a run through to the final write with the answer in time; the file then holds the stored object with only the note of the command sent added |
| CueExchange.CountedRunKeepsBreak | src/supervisor/supervisor_api.cpp:3491-3524 | so is there one in which another thread updates the file and the worker counts its queued work before the answer: the file then holds the counted object with only the note added, and the break of the cue |
| DispatchQueue.DepthIsCount | src/worker/worker.cpp:2297-2396 | in every run each depth counter is the number of queued tasks of its kind |
| DispatchQueue.GuardsNeverNeeded | src/worker/worker.cpp:2362-2366 | the `> 0` guards never decide anything |
| DispatchQueue.DepthWithinCapacity | src/worker/worker.cpp:2297-2314 | no depth exceeds the capacities its tasks were offered with |
| DispatchQueue.FirstInFirstOut | src/worker/worker.cpp:2304-2366 | what was handed over, followed by what is queued, is what was accepted, in order, across both kinds |
| DispatchQueue.SubmittedSplits | src/worker/worker.cpp:2304-2315 | submitted = accepted + dropped, per kind |
| DispatchQueue.NothingIsLost | src/worker/worker.cpp:2297-2396 | submitted = handed over + queued + dropped, per kind |
| DispatchQueue.LoopEndsDrained | src/worker/worker.cpp:2358-2359 | when the loop ends everything accepted has been handed over in order |
| DispatchQueue.Deliver | src/worker/worker.cpp:2376-2394 | delivered iff one of the retries + 1 attempts succeeds, none after the first success |
| DispatchQueue.DispatchQueueCell.EnqueueTask | src/worker/worker.cpp:2297-2315 | queue and counters after an offer; queued iff there was room |
| DispatchQueue.DispatchQueueCell.TakeNext | src/worker/worker.cpp:2355-2367 | the front task leaves with its counter; no task only when stopped and empty |
| DispatchQueue.DispatchQueueCell.Drain | src/worker/worker.cpp:2353-2396 | after a stop, the loop hands over exactly what was queued, in order, and ends |
| DispatchQueue.DispatchQueueCell.RequestStop | src/worker/worker.cpp:2207-2211 | the stop flag, nothing else |
| SinkLifecycle.RunInv | src/worker/worker.cpp:2545-2599 | every reachable state of the four sinks is consistent with the processes outside |
| SinkLifecycle.SinksAgree | src/worker/worker.cpp:2545-2599 | running flag iff handle iff state Running, else Stopped or Failed; at most one live process a sink; every process launched is held, killed or seen exited |
| SinkLifecycle.PollTellsTheTruth | src/worker/worker.cpp:2545-2582 | after a poll exactly the sinks whose process has exited are failed |
| SinkLifecycle.PollIsCheckThenClear | src/worker/worker.cpp:2548-2555 | uninterrupted, asking for the process and clearing the sink are the poll |
| SinkLifecycle.ClearKeepsInvIff | src/worker/worker.cpp:2548-2555 | interrupted between the two, clearing keeps the invariant iff the sink by then holds no process or one already seen or killed |
| SinkLifecycle.InterruptedPollForgets | src/worker/worker.cpp:2548-2555 | with a stop and a start in between, the new process runs and is neither held nor killed nor seen |
| SinkLifecycle.StartInv | src/worker/worker.cpp:3259-3359 | start, refused start and failed launch keep the invariant |
| SinkLifecycle.StopInv | src/worker/worker.cpp:3361-3370 | stop keeps it |
| SinkLifecycle.RestartInv | src/worker/worker.cpp:2696-2702 | so does a restart for a gain change |
| SinkLifecycle.StartOutcome | src/worker/worker.cpp:3259-3359 | a sink that runs stays as it is; any other runs afterwards with the new process iff it is configured and launched, and has failed otherwise; the other sinks are untouched |
| SinkLifecycle.StopOutcome | src/worker/worker.cpp:3361-3370 | a stop leaves the sink stopped without a process, the one it had killed |
| SinkLifecycle.RestartOutcome | src/worker/worker.cpp:2696-2702 | a restart leaves a running sink running with a new process and the old one killed, or failed if it cannot be launched; a sink that does not run is left alone |
| SinkLifecycle.LastEventDecides | src/worker/worker.cpp:2545-2702 | after every run: what a start, a stop, an exit, a poll or a restart as its last event makes of each sink, given what it was before |
| SinkLifecycle.NothingOutlivesIff | src/worker/worker.cpp:2205-2232 | the destructor leaves exactly the SRT sink's process alive: nothing outlives the worker iff that one is not alive |
| SinkLifecycle.SrtProcessOutlives | src/worker/worker.cpp:2205-2232 | it happens: after one start of the SRT sink its process outlives the worker |
| SinkLifecycle.SinkBank.StartSink | src/worker/worker.cpp:3259-3359 | the branches of a start, field by field |
| SinkLifecycle.SinkBank.StopSink | src/worker/worker.cpp:3361-3370 | kill, flag and state |
| SinkLifecycle.SinkBank.PollSinkProcesses | src/worker/worker.cpp:2545-2582 | four checks, each on its own sink only |
| SinkLifecycle.SinkBank.RestartForGain | src/worker/worker.cpp:2698-2701 | only a running sink is restarted |
| SinkLifecycle.SinkBank.KillProc | src/worker/worker.cpp:3201-3230 | the process is gone and the handle null |
| Json.UnescapeEscape | src/common/SimpleJson.cpp:18-56 | unescape undoes escape for every text |
| Json.RoundTrip | src/common/SimpleJson.cpp:60-215 | parsing the serialisation of an object whose unquoted values are self-delimiting succeeds and gives back the same keys, values and quoted flags, for arbitrary characters |
| JsonSpaced.SpacedParses | src/common/SimpleJson.cpp:60-128 | any text that prints an object with arbitrary white space round braces, keys, colons, values and commas, members in any order, parses to that object |
| JsonSpaced.SerializedIsSpaced | src/common/SimpleJson.cpp:202-215 | what serialise prints is that text without white space, the members in the order of their keys |
| JsonSpaced.ParsedIsMember | src/common/SimpleJson.cpp:77-123 | whatever is read as a member is a quoted key, a colon and a value with nothing but white space between |
| JsonSpaced.ParsedIsBraced | src/common/SimpleJson.cpp:61-66 | text without braces at its two ends is refused and leaves an empty object |
| JsonSpaced.JunkEndsParse | src/common/SimpleJson.cpp:70-76 | where something else than a quoted key follows a comma the parse fails and keeps the members before it |
| Json.SafeEverywhereIff | src/common/SimpleJson.cpp:102-123 | an unquoted value survives in every such object if and only if it is self-delimiting under the parser's own scan |
| JsonExact.RoundTripsIff | src/common/SimpleJson.cpp:60-215 | for every object: it survives being printed and parsed if and only if the scan can cross each unquoted value and all but that of the greatest key are self-delimiting |
| JsonExact.TextCoversEntries | src/common/SimpleJson.cpp:60-128 | text that brings entries to a parse weighs at least as much as those entries printed, so no entry can be made of swallowed text |
| Json.ParsedIsScannable | src/common/SimpleJson.cpp:60-128 | whatever the text, parsing stores only unquoted values the scan can cross |
| Json.NumberIsSelfDelimiting | src/common/SimpleJson.cpp:190-192 | what setInt stores is self-delimiting |
| Json.StringSurvives | src/common/SimpleJson.cpp:186-188 | setString, serialise, parse, getString gives the string back |
| Json.IntSurvives | src/common/SimpleJson.cpp:137-145 | setInt, serialise, parse, getInt gives the 32-bit number back |
| Json.BoolSurvives | src/common/SimpleJson.cpp:157-165 | setBool, serialise, parse, getBool gives the flag back |
| JsonMeaning.NestedIsSelfDelimiting | src/common/SimpleJson.cpp:102-123 | any nested JSON value can be stored unquoted as long as no string in it ends in a backslash |
| JsonMeaning.BackslashAtEndIsNot | src/common/SimpleJson.cpp:106-107 | the array of one string that is a backslash cannot |
| JsonMeaning.EscapeReadIff | src/common/SimpleJson.cpp:18-40 | a standard two-character escape reads as RFC 8259 section 7 says if and only if it is not that of backspace or form feed |
| JsonMeaning.UnicodeEscapeIsNotRead | src/common/SimpleJson.cpp:18-40 | of a unicode escape, what stands behind the backslash is read as it stands |
| JsonMeaning.EscapedHasNoBreaks | src/common/SimpleJson.cpp:42-56 | no tab, line feed or carriage return stands in a printed string |
| JsonMeaning.KeysAreSorted | src/common/SimpleJson.cpp:202-215 | members are printed in the lexical order of their keys |
| JsonMeaning.MissingKey | src/common/SimpleJson.cpp:130-165 | without the key each getter gives its fallback |
| JsonMeaning.UnquotedIsNoText | src/common/SimpleJson.cpp:130-135 | an unquoted value is not handed out as a string |
| JsonMeaning.GetIntReads | src/common/SimpleJson.cpp:137-145 | a number may have white space in front, a sign, leading zeros and anything but a digit behind it, and counts if it fits into 32 bits |
| JsonMeaning.GetBoolReads | src/common/SimpleJson.cpp:157-165 | three words for each truth value, quoted or not; any other text gives the fallback |
| Json.JsonObject.Parse | src/common/SimpleJson.cpp:60-128 | the index loops compute the parse, for every text; every index is in range and every loop ends |
| Json.JsonObject.Serialize | src/common/SimpleJson.cpp:202-215 | members in key order, separated by single commas |
| Json.Escape | src/common/SimpleJson.cpp:42-56 | the loop computes the escaped text that unescape inverts |
| Json.Unescape | src/common/SimpleJson.cpp:18-40 | the loop with its escape flag computes the unescaped text |
| Json.TrimText | src/common/SimpleJson.cpp:10-16 | the two index loops trim both ends |
| Json.JsonObject.SetRaw | src/common/SimpleJson.cpp:198-200 | a raw value is stored trimmed, other keys untouched |
| Text.ParseIntOfIntToString | src/common/SimpleJson.cpp:190-192 | a printed integer in range is read back as the same integer |
| Text.ParseIntReads | src/common/SimpleJson.cpp:137-145 | white space, a sign or none and a decimal number, leading zeros or not and anything but a digit behind it, read as that number if it is in range |
| Text.ParseIntFails | src/common/SimpleJson.cpp:137-145 | without a digit there, nothing is read |
| Text.DigitsCanonical | src/common/SimpleJson.cpp:190-192 | a printed number has no leading zero |
| Text.TrimBetween | src/common/SimpleJson.cpp:10-16 | trimming takes off exactly what is trimmable at the two ends |
| Text.SpaceIff | src/common/SimpleJson.cpp:10-16 | white space by character codes, and what the worker strips: the same without vertical tab and form feed |
| Icy.BlockIsComplete | ToSendForPrompt/OriginalEncoder.Main.cpp.txt:2919-2940 | every metadata block has length 1 + 16 L for its length byte L, holds the whole payload and is padded with zeros; the cap of 255 units is never reached |
| Icy.PayloadDeterminesTitle | ToSendForPrompt/OriginalEncoder.Main.cpp.txt:2921-2922 | different titles of at most 255 bytes give different payloads |
| Icy.ClientRecovers | ToSendForPrompt/OriginalEncoder.Main.cpp.txt:3291-3329 | for every audio, interval and sequence of title changes, a client that reads `interval` bytes, a length byte and 16 L bytes recovers exactly the audio and exactly the blocks sent |
| Icy.FramesArrive | ToSendForPrompt/OriginalEncoder.Main.cpp.txt:3265-3336 | for any frames, the concatenation arrives |
| Icy.ClientReadsTitleIff | ToSendForPrompt/OriginalEncoder.Main.cpp.txt:2919-2940 | at every moment a client, which reads a title up to the first quote with a semicolon behind it, has the title in force at the last metadata point with metadata on if and only if that title has at most 255 bytes and no quote with a semicolon behind it |
| Icy.ClientShowsTitle | ToSendForPrompt/OriginalEncoder.Main.cpp.txt:3304-3328 | at every moment the last block with content that it holds is the one built of that title |
| Icy.DemuxPrefix | ToSendForPrompt/OriginalEncoder.Main.cpp.txt:3295-3299 | a connection that broke off still delivered a prefix of the audio |
| Icy.MuxConcat | ToSendForPrompt/OriginalEncoder.Main.cpp.txt:3291-3329 | how audio is split into frames and chunks makes no difference on the wire |
| Icy.AacLoopEndsIff | ToSendForPrompt/OriginalEncoder.Main.cpp.txt:3291-3329 | from every count a frame can start with, the AAC send loop gets through the frame if and only if the interval is positive |
| Icy.AacStep | ToSendForPrompt/OriginalEncoder.Main.cpp.txt:3293-3328 | one turn of that loop, for any interval: the chunk, the block if due, the bytes lost, and count and position of the turn |
| Icy.BuildIcyMetadata | ToSendForPrompt/OriginalEncoder.Main.cpp.txt:2919-2940 | the padding loop builds the block |
| Icy.AacFrame | ToSendForPrompt/OriginalEncoder.Main.cpp.txt:3291-3329 | one frame: audio and blocks go out as interleaved, every byte a short or failed send swallowed is accounted for, and count and position are those of its turns |
| Icy.AacWriterLoop | ToSendForPrompt/OriginalEncoder.Main.cpp.txt:3265-3336 | the wire is the interleaved stream iff no byte was lost; after a failed send it is a beginning of it |
| Icy.Mp3Frame | ToSendForPrompt/OriginalEncoder.Main.cpp.txt:3170-3221 | the same with partial sends repeated, also for a non-positive interval |
| Icy.Mp3WriterLoop | ToSendForPrompt/OriginalEncoder.Main.cpp.txt:3131-3222 | the wire is always a beginning of the interleaved stream, all of it when no send failed |
| Icy.Socket.SendAll | ToSendForPrompt/OriginalEncoder.Main.cpp.txt:3141-3149 | all bytes, or a proper beginning of them |
| Adts.FindIff | ToSendForPrompt/OriginalEncoder.Main.cpp.txt:2286-2319 | a frame is found iff the first header (sync bits, non-zero length) is followed by all its bytes; a first header that lacks some blocks the search |
| Adts.FindAdtsFrame | ToSendForPrompt/OriginalEncoder.Main.cpp.txt:2286-2319 | the search loop, for any bytes |
| Adts.NextFrameIsFound | ToSendForPrompt/OriginalEncoder.Main.cpp.txt:2286-2319 | at a frame boundary of a stream of frames, exactly the next frame is found, as soon as it and eight bytes are there |
| Adts.WholeFrames | ToSendForPrompt/OriginalEncoder.Main.cpp.txt:2324-2396 | however a stream of frames is split on arrival and whenever the thread looks, every file is the same least number of whole frames reaching the target, in order, and files, open segment and buffer are the bytes that arrived |
| Adts.NothingIsLost | ToSendForPrompt/OriginalEncoder.Main.cpp.txt:2324-2432 | conservation of bytes at every moment |
| Adts.StreamIsFiledIff | ToSendForPrompt/OriginalEncoder.Main.cpp.txt:2324-2421 | for every stream of frames: after enough turns behind the last arrival and the final flush the files are the whole stream if and only if its last frame is longer than the seven header bytes; otherwise exactly that frame is missing |
| Adts.PerSegment | ToSendForPrompt/OriginalEncoder.Main.cpp.txt:2354-2355 | the number of frames per file is the least positive one whose samples reach the target |
| Adts.FileSeconds | ToSendForPrompt/OriginalEncoder.Main.cpp.txt:2280-2281 | a file holds at least two seconds, or the segment length if that is more, and less than one frame beyond |
| Adts.LengthReads | ToSendForPrompt/OriginalEncoder.Main.cpp.txt:2298-2305 | a frame length put into its thirteen bits is read back, whatever the other bits are |
| Adts.FirstFileNumber | ToSendForPrompt/OriginalEncoder.Main.cpp.txt:2321-2322 | files are numbered from the number given, from 0 if that is negative |
| Adts.HlsThread.OnEncodedFrame | ToSendForPrompt/OriginalEncoder.Main.cpp.txt:2427-2432 | bytes are appended to the buffer |
| Adts.HlsThread.Poll | ToSendForPrompt/OriginalEncoder.Main.cpp.txt:2334-2392 | one turn of the thread: take a frame, cut at the target |
| Adts.HlsThread.WriteSegment | ToSendForPrompt/OriginalEncoder.Main.cpp.txt:2354-2388 | the segment becomes the file with the next number |
| Adts.HlsThread.Finish | ToSendForPrompt/OriginalEncoder.Main.cpp.txt:2398-2421 | a partial segment is flushed on stop |
| Rtp.AcceptsIff | src/worker/worker.cpp:681-722 | accepted are exactly the type 96 packets of RFC 3550 sections 5.1 and 5.3.1 that carry at least one stereo frame |
| Rtp.LocateBuild | src/worker/worker.cpp:681-717 | for every packet (CSRC list, extension, padding) the payload is isolated exactly |
| Rtp.LocatedIsPacket | src/worker/worker.cpp:681-717 | whatever is located is a packet: rebuilding it from its fields gives the same bytes |
| Rtp.SampleRoundTrip | src/worker/worker.cpp:667-678 | 16- and 24-bit samples and byte patterns correspond one to one |
| Rtp.FramesRoundTrip | src/worker/worker.cpp:718-734 | encoded stereo samples come back, whatever incomplete frame follows |
| Rtp.MeterHearsTheSender | src/worker/worker.cpp:681-749 | any packet around at least one encoded frame is accepted and decodes to the samples sent |
| Rtp.ParseRtpStereoLevels | src/worker/worker.cpp:681-739 | the loop stays in bounds and sums the squares of the left and right samples of all whole frames |
| Rtp.ParseWithFallback | src/worker/worker.cpp:753-777 | the first depth that is accepted with its sums, and the configured depth reported when none is |
| Rtp.SenderDepthHeardIff | src/worker/worker.cpp:751-777 | a packet round frames of depth d is always heard, and at depth d if and only if d is tried first, or d is 16 bits and the payload is shorter than a frame of 24 |
| Rtp.DepthChangesIff | src/worker/worker.cpp:759-773 | the depth tried first is given up only for a payload of four or five bytes under 24 bits |
| Rtp.ConfiguredFirst | src/worker/worker.cpp:759-760 | the configured depth is tried first, the other one next |
| Rtp.EnergyAdds | src/worker/worker.cpp:718-734 | the energy of a channel is the sum of its squares |
| Rtp.ChannelsOfOne | src/worker/worker.cpp:718-734 | left and right samples go to their own channel |
| Base64.DecodesIff | src/worker/worker.cpp:1430-1440 | a text decodes (RFC 4648 section 4, strict) to some bytes if and only if it is their encoding |
| Base64.EncodedLength | src/worker/worker.cpp:1430-1440 | output length 4 * ceil(n / 3) |
| Base64.DecodeEncode | src/worker/worker.cpp:1430-1440 | a standard decoder returns the input, for every byte string |
| Base64.OnlyLowBitsMatter | src/worker/worker.cpp:1434-1439 | two accumulators that agree in the low four bits emit the same letters: what wraps away above cannot reach the output |
| Base64.AccumulatorSextets | src/worker/worker.cpp:1434-1439 | the shifts of the wrapping accumulator yield the four sextets of each group |
| Base64.EmitLetters | src/worker/worker.cpp:1437-1437 | the inner loop |
| Base64.PadToFour | src/worker/worker.cpp:1440-1440 | padding to a multiple of four |
| Base64.EncodeCredentials | src/worker/worker.cpp:1430-1440 | the streaming loop outputs the encoding and decodes back to the credentials |
| MetaTemplate.ExpandIsRender | src/worker/worker.cpp:1100-1134 | expansion is one pass over the pieces of the original template, for every source of values |
| MetaTemplate.ExpandMeaning | src/worker/worker.cpp:1100-1134 | every template has such pieces, so this determines the result of all of them |
| MetaTemplate.ParseOk | src/worker/worker.cpp:1106-1112 | the pieces of a template write out as the template |
| MetaTemplate.UnknownStaysLiteral | src/worker/worker.cpp:1126-1131 | tokens without a value, and empty ones, stay as written |
| MetaTemplate.ExpandTwice | src/worker/worker.cpp:1126-1128 | expanding twice is expanding once when no value in use holds an opening brace |
| MetaTemplate.FieldsShow | src/worker/worker.cpp:1113-1128 | the four names expand to the value of the XML block where it has one, and to the known field otherwise |
| MetaTemplate.OtherNames | src/worker/worker.cpp:1114-1126 | any other name has the value of the XML block, or none |
| MetaTemplate.ApplyMetaTemplate | src/worker/worker.cpp:1100-1134 | the in-place replace loop computes the expansion and ends by its shrinking unread suffix |

## Left out

- PlaylistServer.Serve: requires that the playlist does not end in VERSION behind the other two tags. There the source inserts past the end of its vector, which is undefined; ReorderInRangeIff says that it happens there and nowhere else.
- PlaylistTwice.RewriteTwiceIff: leaves out the same undefined case, a header that ends in VERSION without any segment.
- PlaylistIdempotence.RewriteIdempotent: needs VERSION before TARGETDURATION, the order FFmpeg writes; PlaylistTwice.RewriteTwiceIff has the exact condition for playlists with at most one TARGETDURATION line (RFC 8216 allows no more).
- PlaylistRuns.DatesAreStable: times are whole milliseconds; the rounding of the source's double seconds is not modelled.
- PlaylistTheorems.RewriteShape: date conversion is abstract; assumed is only that text ending in Z is left alone, that converted text ends in Z or is unchanged, and that no conversion adds a line break. Nothing is said of the text for a zero offset, where the source repeats the fraction.
- Fallback.FallbackShape: speaks of lines without a line feed, which all lines read by getline are, and of metadata text whose line breaks the supervisor has replaced.
- Fallback.ServeFallback: settings, metadata and break record are parameters; reading them from files is not part of it.
- Fallback.WorkerKeepsFallbackIff: the metadata text is given to each process ready for one line; the two make it so differently (the worker sanitises it, the supervisor only replaces line breaks), so for some payloads the texts differ and the condition fails.
- ServedText.ServedUrisIff: its second part leaves out files with a line of a lone carriage return, which a client drops as blank; the first part has them.
- PlaylistServer.ReorderHeader: as Serve.
- AttributeList.ReadsBackIff: a standard client reads on behind a quoted string that ends too early, up to the next comma outside quotes, and stops at quotes that never close; RFC 8216 leaves open what a client does with such a line.
- DateRange.EndOnNextStandsAlone: for a client of RFC 8216 section 4.2 the condition is exact for reading one attribute for each printed (ReadsAsWrittenIff), and sufficient for END-ON-NEXT; other texts can happen to leave it alone.
- DateRangeClient.NamesAreDistinct: likewise.
- PlaylistDates.RewriteInOrderIff: the tags behind a URI are ones the rewrite does not know; blank lines and EXT-X-ALLOW-CACHE stand in the header only, and tags between EXTINF and its URI, which break the order rule, are not in its playlists.
- BreakState.BreakStore.Persist: clock and formatted clock are inputs of a cue; file errors and a byte-order mark are not modelled.
- CueExchange.RunInv: one supervisor request at a time, and updates under the file lock only; the unlocked counters of the TCP cue thread and concurrent requests are outside.
- CueExchange.AnsweredBreakIsKept: says nothing of lastScteReceived, which the re-read replaces.
- CueGate.WindowBound: settings are fixed over the run; the supervisor's own gate, which checks and records in two critical sections, is not modelled.
- DispatchQueue.NothingIsLost: counters are unbounded integers.
- SinkLifecycle.SinksAgree: every step is atomic and process ids are not reused; polling takes no lock in the source, and ClearKeepsInvIff says when an interrupted poll keeps the invariant. The SRT input relay, HLS monitor and playback threads are not modelled.
- Icy.AacFrame: the whole loop is for a positive interval, since otherwise it never ends; AacStep is one turn for any interval, and AacLoopEndsIff says when the turns end. A send that succeeds takes at least one byte, and the MP3 counter without an interval does not overflow.
- Icy.AacWriterLoop: for a positive interval, as AacFrame.
- Adts.HlsThread.WriteSegment: the playlist files rebuilt after each segment and the metadata snapshot kept for it are not modelled.
- Rtp.ParseRtpStereoLevels: integer sums of squares stand for the RMS and decibel values; depths other than 16 and 24 are never passed by the callers.
- Base64.EncodeCredentials: the letters are given by ranges instead of the source's table string; shifting a negative or overflowing int is taken as two's complement wrap-around.
- MetaTemplate.ApplyMetaTemplate: the XML field lookup with its aliases is a parameter.
- Json.RoundTrip: getDouble and getSubObject are not modelled; characters are those of the text, without an encoding.
- Sockets, HTTP, select loops, logs, log rotation, FFmpeg arguments, signals and audio devices: input and output without a deep invariant.
- The web user interface and the HTML of the original encoder.
- Livewire channel mapping: finite and easy.
- The cue message formats (JSON, XML, allow list, command rows) ahead of the gate: plain lookups.
- The template mode of the original encoder's metadata parser: another algorithm than the worker's.
- The playlist helpers inside the unit tests: copies of the code modelled here.
