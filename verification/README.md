# Realtime translation: the transcript reconciliation engine

This project models the part of the live-translation page (`src/app/page.tsx`) that turns the
realtime service's events into two ordered transcripts. One column holds the spoken language
("nl"). The other holds the English translation ("en").

- **Timestamp** models `formatTimestamp`: the `m:ss` label a final segment receives. JavaScript's
  floor division and truncating `%` are written out.
- **Payload** models `extractTextFromObj`, which pulls the best text out of a JSON fragment. It is
  a structural recursion over a `Json` datatype.
- **Strings** models `String.prototype.trim`, with the ECMAScript whitespace set.
- **SegmentStore** models the `Segment` record and the updater `addSegment` hands to the column's
  state setter. The updater replaces the segment with the same id where it stands, or appends.
- **Reconcile** gives the whole per-session state as a value (`State`). It describes `addSegment`
  and every branch of `handleMessage` as functions of the state before the call. All properties
  are proved here:
  - the invariant every reachable state keeps (`Valid`);
  - the finalize-once guard and the shared finalized-id set;
  - the buffer fallbacks;
  - the translation trigger, including the count of triggers over any message sequence;
  - whole phrase exchanges.
- **Engine** holds the class `Session`. Its fields are the component's state: `nl`, `en`,
  `partialNl`, `partialEn`, `seen` and `sessionStart`. Its methods `AddSegment`, `HandleMessage`,
  `Reset` and `MarkStarted` update those fields in place. `AddSegment` and `HandleMessage` are
  proved to produce exactly the state `Reconcile.AddSegment` and `Reconcile.Handle` give. `Reset` and
  `MarkStarted` have no Reconcile counterpart: their contracts state the new fields directly. Every
  method keeps `Valid`. `HandleMessage` takes the
  data channel's state (`dcOpen`) and the clock (`now`) as parameters. It returns whether
  `response.create` was sent.

An inbound message is the datatype `Event`, one constructor per branch of `handleMessage`, plus
`Unrecognised`. Most constructors stand for one `type`. `ResponseTranscriptDelta` stands for both
`response.audio_transcript.delta` and `response.output_audio_transcript.delta`, and
`ResponseTranscriptDone` for both `response.audio_transcript.done` and
`response.output_audio_transcript.done`, because the source handles each pair in one branch
(lines 183 and 195). A message that `JSON.parse` rejects is `None`, and handling it
changes nothing. An item id is `Option<string>`. `!itemRef` rejects both `None` and `Some("")`.

In these places the model follows the code as written:

- One finalized-id set serves both columns (`seenIdsRef`). A final write in the English column for
  an id already final in the spoken column is therefore ignored (`FinalBlockedAcrossColumns`).
- Only final writes are guarded. A partial write for a finalized id replaces the final segment with
  a partial one again (`PartialOverwritesFinal`).
- `response.create` is sent for every spoken-language completion that has an item id while the
  channel is open. This includes completions for items already final and completions with no text
  (`Reconcile.Handle`, `SecondCompletionKeepsFirstText`).
- `conversation.item.created` sets both buffers to "". This discards text already accumulated
  (`CreationResetsBuffers`).
- The reset clears the lists, buffers and finalized ids at the start of a session. It does not
  clear the session start. A label is only produced once the start is known, because
  `sessionStartRef.current` is tested for truthiness (`Reconcile.Label`).

## Model

| member | source | states |
|---|---|---|
| Strings.Trim | src/app/page.tsx:127 | the trimmed text is no longer than the input; it is empty exactly when the input is all whitespace; neither of its ends is whitespace |
| Strings.TrimSplits | src/app/page.tsx:127 | the input is the trimmed text with a whitespace prefix and a whitespace suffix |
| Strings.TrimmedIsFixed | src/app/page.tsx:138 | text with no whitespace at either end is its own trim |
| Strings.TrimIdempotent | src/app/page.tsx:138 | trimming twice equals trimming once, so stored text is already trimmed |
| Timestamp.NatToString | src/app/page.tsx:16 | `toString` of a non-negative number is a non-empty digit string, one digit exactly below 10, with no leading zero except for 0 itself |
| Timestamp.IntToString | src/app/page.tsx:16 | `toString` of an integer starts with a minus sign exactly when it is negative; the digits after any sign read back as its magnitude and have no leading zero (a lone "0" only for 0) |
| Timestamp.DecimalRoundTrip | src/app/page.tsx:16 | reading back the digits `toString` writes for a non-negative number gives that number |
| Timestamp.PadStart | src/app/page.tsx:16 | `padStart` yields at least the width, ends with the input and is fill before it |
| Timestamp.TruncatedRemainder | src/app/page.tsx:15 | JavaScript `%` lies strictly between minus and plus the divisor, takes the dividend's sign, and equals the Euclidean remainder for a non-negative dividend |
| Timestamp.FormatTimestamp | src/app/page.tsx:12-17 | the label is non-empty, contains the colon, and starts with a minus sign exactly when the elapsed time is negative |
| Timestamp.FormatTimestampRoundTrip | src/app/page.tsx:12-17 | for any non-negative elapsed time the label parses as digits, a colon and exactly two digits, with seconds below 60 and minutes*60+seconds the whole seconds elapsed; the minutes field has no leading zero (a label starting with "0" has the colon at index 1) |
| Timestamp.FormatSevenSeconds | src/app/page.tsx:12-17 | 7000 ms gives `0:07` |
| Timestamp.FormatTimestampNegative | src/app/page.tsx:13-16 | -1000 ms gives `-1:-1`, since floor division and the truncating remainder both keep the sign |
| Payload.FieldIndex | src/app/page.tsx:25-27 | the `key in o` lookup finds the first member with that name, or reports that none has it |
| Payload.Concat | src/app/page.tsx:22-28 | `join("")` of no parts is "", of one part is that part; every part's characters, with multiplicity, occur in the joined text; with ConcatAppend these fix the in-order concatenation |
| Payload.ConcatAppend | src/app/page.tsx:22-28 | joining the parts of `a + b` gives the join of `a` followed by the join of `b` |
| Payload.ExtractText | src/app/page.tsx:19-31 | the extractor's definition; its properties are the `ExtractText*` lemmas below |
| Payload.ExtractTextScalars | src/app/page.tsx:19-22 | null, numbers and booleans give "", a string gives itself, an empty array gives "", a one-element array gives its element's text |
| Payload.ExtractTextArraySplit | src/app/page.tsx:22 | an array's text is the concatenation of its parts' texts, in order |
| Payload.ExtractTextPrecedence | src/app/page.tsx:25-28 | a string `text` member wins; otherwise a string `transcript` member; otherwise the text of `content`, whatever its type; with none of these, the texts of all values joined in order |
| Payload.ExtractTextUnmarked | src/app/page.tsx:28 | with no `text`, `transcript` or `content` member anywhere, the result is every string value joined in document order |
| Payload.ExtractTextFromLeaves | src/app/page.tsx:19-31 | every character of the result, with multiplicity, comes from a string value in the payload |
| Payload.ExtractTextPrefersText | src/app/page.tsx:25 | `{transcript: "B", text: "A", content: "C"}` gives "A" |
| Payload.ExtractTextContentParts | src/app/page.tsx:27 | for any strings a and b, `{content: [{text: a}, {text: b}]}` gives a + b (so "Hel" and "lo" give "Hello") |
| SegmentStore.IndexOf | src/app/page.tsx:137 | `findIndex` gives the first position holding the id, and -1 exactly when no segment has it |
| SegmentStore.Upsert | src/app/page.tsx:136-145 | a shown id is replaced in place (same length, same index); a new id is appended; every other segment is untouched; ids stay unique |
| SegmentStore.UpsertIsFound | src/app/page.tsx:136-145 | after an upsert the column shows the new segment under its id |
| SegmentStore.UpsertKeepsOrder | src/app/page.tsx:136-145 | any upsert keeps two shown ids in their relative order |
| SegmentStore.UpdateAfterLaterIdKeepsPlace | src/app/page.tsx:136-145 | writing ids a, b, then a again leaves a before b, holding its last text |
| Reconcile.Label | src/app/page.tsx:134 | a label exists exactly for a final segment once the session start is non-zero, and it is `formatTimestamp` of the time elapsed since the start (so the FormatTimestamp lemmas apply to it); for a non-negative elapsed time it parses back to minutes and seconds with seconds below 60 and minutes*60+seconds the whole seconds elapsed; for a negative one it starts with a minus sign |
| Reconcile.AddSegment | src/app/page.tsx:119-148 | `addSegment` never touches the buffers, the session start or the other column; it adds the id to the finalized ids exactly for a final write of non-blank text |
| Reconcile.Handle | src/app/page.tsx:150-240 | a trigger is sent if and only if the message is a spoken completion with an item id and the channel is open; no message changes the session start |
| Reconcile.OnInputDelta | src/app/page.tsx:156-166 | a spoken delta leaves the English column and buffer, the finalized ids and the session start alone; without an id or with an empty delta it changes nothing |
| Reconcile.OnInputCompleted | src/app/page.tsx:168-181 | a spoken completion with an id drops that item's spoken buffer and nothing else of the buffers, and leaves the English column alone; without an id it changes nothing |
| Reconcile.OnResponseDelta | src/app/page.tsx:183-193 | an English delta leaves the spoken column and buffer, the finalized ids and the session start alone; without an id or text it changes nothing |
| Reconcile.OnResponseDone | src/app/page.tsx:195-203 | an English done event with an id drops that item's English buffer and nothing else of the buffers, and leaves the spoken column alone; without an id it changes nothing |
| Reconcile.OnFallbackDone | src/app/page.tsx:205-219 | the fallback events touch neither buffer, the spoken column nor the session start; without an id or text they change nothing |
| Reconcile.OnItemCreated | src/app/page.tsx:222-229 | item creation sets both buffers of the item to "", leaves every other item's buffers, both columns and the finalized ids alone |
| Reconcile.OnOutputItemAdded | src/app/page.tsx:231-234 | `response.output_item.added` sets the item's English buffer to "" and leaves everything else alone |
| Reconcile.AddSegmentKeepsValid | src/app/page.tsx:119-148 | `addSegment` keeps the invariant: unique ids, non-blank trimmed text, no label on partial segments, final ids recorded |
| Reconcile.AddSegmentIgnoresBlank | src/app/page.tsx:127 | text that trims to nothing leaves the whole state unchanged |
| Reconcile.AddSegmentFinalizesOnce | src/app/page.tsx:130-132 | a final write for a finalized id changes nothing; the first effective final write records the id |
| Reconcile.AddSegmentShape | src/app/page.tsx:130-145 | an effective write upserts the trimmed, labelled segment into its column and changes only that column and the finalized ids |
| Reconcile.AddSegmentShows | src/app/page.tsx:134-145 | after an effective write the column shows the segment with the trimmed text and the label the session start gives |
| Reconcile.PartialOverwritesFinal | src/app/page.tsx:130-132 | a partial write for an id whose segment is final replaces it with a partial segment |
| Reconcile.FinalBlockedAcrossColumns | src/app/page.tsx:130-132 | once an id is final in the spoken column, a final write for it in the English column changes nothing |
| Reconcile.HandleKeepsValid | src/app/page.tsx:150-240 | every message keeps the invariant |
| Reconcile.AddSegmentKeepsOrder | src/app/page.tsx:136-145 | `addSegment` keeps any two shown ids of either column in their relative order |
| Reconcile.HandleKeepsOrder | src/app/page.tsx:150-240 | no message moves a shown segment relative to another in either column, so display order is first-appearance order |
| Reconcile.InputDeltaAccumulates | src/app/page.tsx:156-166 | a spoken delta appends to the buffer (starting from "") and upserts the trimmed buffer as a partial segment into the spoken column (in place or appended, every other segment untouched), or leaves the column alone when the buffer is blank; the English side is untouched; without an id or with an empty delta nothing changes |
| Reconcile.InputCompletedFinalizes | src/app/page.tsx:168-181 | a spoken completion upserts the final, labelled segment holding the trimmed transcript or else the buffer and records the id, drops the buffer, leaves an already final item or blank text alone, and triggers exactly when the channel is open |
| Reconcile.ResponseDeltaAccumulates | src/app/page.tsx:183-193 | an English delta appends the extracted text to the English buffer and upserts the trimmed buffer as a partial segment into the English column, or leaves the column alone when the buffer is blank; the spoken side is untouched; without an id or text nothing changes |
| Reconcile.ResponseDoneFinalizes | src/app/page.tsx:195-203 | an English done event upserts the final, labelled segment holding the trimmed extracted transcript or else the buffer and records the id, drops the buffer and never triggers; an already final item, or blank final text, leaves the column and the finalized ids alone |
| Reconcile.FallbacksFinalizeDirectly | src/app/page.tsx:205-219 | `response.content_part.done` and `response.output_item.done` finalize only with non-empty extracted text and leave both buffers alone |
| Reconcile.CreationResetsBuffers | src/app/page.tsx:222-234 | item creation sets both buffers of the item to ""; `response.output_item.added` sets only the English one; no segment changes |
| Reconcile.IgnoredMessages | src/app/page.tsx:152-237 | an unparsed message, an unknown type, or a known type without an item id changes nothing and sends nothing |
| Reconcile.TriggersCountCompletions | src/app/page.tsx:168-181 | over any message sequence, the triggers sent equal the spoken completions with an id delivered while the channel was open |
| Reconcile.RunKeepsValid | src/app/page.tsx:150-240 | any message sequence keeps the invariant |
| Reconcile.SecondCompletionKeepsFirstText | src/app/page.tsx:168-181 | after a first completion with text, a second completion for the same id leaves the spoken column as it was, and both trigger |
| Reconcile.SpokenPhraseExchange | src/app/page.tsx:156-181 | two deltas for a fresh item show their concatenation as partial; the completion shows the final labelled transcript, drops the buffer and is the only message that triggers |
| Reconcile.TranslatedPhraseExchange | src/app/page.tsx:183-203 | two English deltas show their extracted concatenation as partial; a done event with no text finalizes that buffered text and drops the buffer |
| Engine.Session.constructor | src/app/page.tsx:77-104 | the component starts with empty columns, empty buffers, nothing finalized and a start of 0 |
| Engine.Session.Reset | src/app/page.tsx:259-265 | columns, buffers and finalized ids are emptied; the session start is kept |
| Engine.Session.MarkStarted | src/app/page.tsx:357 | the session start becomes the current time; nothing else changes |
| Engine.Session.AddSegment | src/app/page.tsx:119-148 | the fields after the call are `Reconcile.AddSegment` of the fields before it, and the invariant holds |
| Engine.Session.HandleMessage | src/app/page.tsx:150-240 | the fields after the call and the returned trigger flag are `Reconcile.Handle` of the fields before it, and the invariant holds |

## Left out

- Everything in `start` and `stop` except the reset and the recorded start time is left out. This
  covers media capture, the peer connection, the SDP exchange and `fetchWithTimeout`. The data
  channel appears only as the `dcOpen` input, and the send only as the returned flag.
- The token and session routes under `src/app/api/realtime/` are HTTP plumbing to the remote
  service and are not part of this model.
- `addSegment`'s generated-id branch (line 128) is left out because it uses `Date.now` and
  `Math.random`. Every call from `handleMessage` passes a non-empty id, so the id is a required
  argument.
- `addSegment`'s `timestamp` argument is left out because no caller passes it. The label is always
  computed.
- The clock is the parameter `now`, an integer number of milliseconds. Fractional times are left
  out.
- `JSON.parse` and the catch-all are represented by the `None` message. A message that parses to
  `null` makes the source throw at `msg.type` (line 154) before any change. A message that parses
  to a number, string or boolean has an undefined `type`, matches no branch and changes nothing
  without throwing. Both are the same no-op as `None`.
- `itemToNlRef` and `itemToEnRef` are written but never read, so they are left out.
- Rendering, scrolling, `localStorage`, the language table and status messages are left out.
- React's batched `setState` is modelled as an immediate update. Updaters queued for one column run
  in call order, so the column ends up the same.
- Message members of the wrong JSON type are left out. The item ids and the spoken `delta` and
  `transcript` are taken to be strings. A missing `delta` or `transcript` is "", and a missing id is
  `None`. JavaScript would coerce a number or object there. For example, an object-valued spoken
  `transcript` makes `addSegment` throw after the buffer was dropped and before the trigger.
- Object members are listed in the order `Object.values` visits them. The rule that integer-like
  keys come first is left out.
- Strings are sequences of Unicode characters, while JavaScript strings are sequences of UTF-16
  code units. A delta that ends in half of a surrogate pair, whose other half arrives in the next
  delta, has no counterpart in the model. The source joins the halves when it appends to a buffer
  (lines 162 and 189).
- A parsed object is taken to have distinct keys. A repeated key does not occur in what `JSON.parse`
  returns, which keeps the last value; `FieldIndex` on such a member list would take the first.
- Timestamp.TruncatedRemainder: for a negative dividend the contract gives only the sign and the
  bound of the remainder. It does not state that the remainder differs from the dividend by a
  multiple of the divisor; the definition computes it exactly.
