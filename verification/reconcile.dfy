/**
 * What `addSegment` and `handleMessage` (src/app/page.tsx) do to the session state, as functions of
 * the state before the call. The `Session` class in module Engine performs these updates in place
 * and is proved to agree with them; the properties of the reconciliation are proved here.
 */
module Reconcile {
  import opened Wrappers
  import opened Strings
  import opened Timestamp
  import opened Payload
  import opened SegmentStore

  /** The two transcript columns: the spoken language ("nl") and the English translation ("en"). */
  datatype Column = Nl | En

  /**
   * An inbound message after `JSON.parse`, one constructor per branch of `handleMessage`. A member
   * the message lacks is `None` (ids), "" (the string members of transcription events, which the
   * source defaults with `?? ""`) or `Null` (payloads that go through the extractor).
   */
  datatype Event =
      /** conversation.item.input_audio_transcription.delta */
    | InputTranscriptionDelta(itemId: Option<string>, delta: string)
      /** conversation.item.input_audio_transcription.completed */
    | InputTranscriptionCompleted(itemId: Option<string>, transcript: string)
      /** response.audio_transcript.delta or response.output_audio_transcript.delta */
    | ResponseTranscriptDelta(itemId: Option<string>, deltaPayload: Json)
      /** response.audio_transcript.done or response.output_audio_transcript.done */
    | ResponseTranscriptDone(itemId: Option<string>, transcriptPayload: Json)
      /** response.content_part.done, with its `part` */
    | ContentPartDone(itemId: Option<string>, part: Json)
      /** response.output_item.done, with its `output` */
    | OutputItemDone(itemId: Option<string>, output: Json)
      /** conversation.item.created, carrying `item.id` */
    | ItemCreated(itemId: Option<string>)
      /** response.output_item.added */
    | OutputItemAdded(itemId: Option<string>)
      /** any other `type` */
    | Unrecognised(eventType: string)

  /**
   * The per-session state: the two columns, the partial-text buffers by item id, the one set of
   * finalized ids both columns share, and the session start time in milliseconds (0 until the
   * connection is up).
   */
  datatype State = State(
    nl: seq<Segment>,
    en: seq<Segment>,
    partialNl: map<string, string>,
    partialEn: map<string, string>,
    seen: set<string>,
    sessionStart: nat)

  /** The state after one message, and whether `response.create` was sent for it. */
  datatype Outcome = Outcome(state: State, triggered: bool)

  function SegmentsOf(s: State, column: Column): seq<Segment> {
    if column == Nl then s.nl else s.en
  }

  /** `!itemRef` rejects a missing id and the empty string alike. */
  predicate HasRef(itemId: Option<string>) {
    itemId.Some? && itemId.value != ""
  }

  /** `buffers.get(id) ?? ""`. */
  function Buffered(buffers: map<string, string>, id: string): string {
    if id in buffers then buffers[id] else ""
  }

  /**
   * The label a segment gets: only a final one, and only once the session start is known (the
   * source tests `sessionStartRef.current` for truthiness, so a start of 0 means no label).
   */
  function Label(sessionStart: nat, isPartial: bool, now: int): (r: Option<string>)
    ensures r.Some? <==> !isPartial && sessionStart != 0
    ensures r.Some? ==> r.value == FormatTimestamp(now - sessionStart)
    ensures r.Some? && now >= sessionStart ==>
              ParseTimestamp(r.value).Some? &&
              var (m, sec) := ParseTimestamp(r.value).value;
              sec < 60 && m * 60 + sec == (now - sessionStart) / 1000
    ensures r.Some? && now < sessionStart ==> r.value != [] && r.value[0] == '-'
  {
    if isPartial || sessionStart == 0 then None
    else if now >= sessionStart then
      FormatTimestampRoundTrip(now - sessionStart);
      Some(FormatTimestamp(now - sessionStart))
    else Some(FormatTimestamp(now - sessionStart))
  }

  /**
   * `addSegment(text, isPartial, column, id)`: blank text and a second final write for an id are
   * ignored; a final write records the id as finalized; the segment, holding the trimmed text, is
   * then upserted into the column.
   */
  function AddSegment(s: State, text: string, isPartial: bool, column: Column, id: string, now: int): (r: State)
    ensures r.partialNl == s.partialNl && r.partialEn == s.partialEn && r.sessionStart == s.sessionStart
    ensures SegmentsOf(r, if column == Nl then En else Nl) == SegmentsOf(s, if column == Nl then En else Nl)
    ensures r.seen == if isPartial || AllWhitespace(text) then s.seen else s.seen + {id}
  {
    if Trim(text) == "" then s
    else if id in s.seen && !isPartial then s
    else
      var seen := if isPartial then s.seen else s.seen + {id};
      var seg := Segment(id, Trim(text), isPartial, Label(s.sessionStart, isPartial, now));
      if column == Nl then s.(nl := Upsert(s.nl, seg), seen := seen)
      else s.(en := Upsert(s.en, seg), seen := seen)
  }

  /** `handleMessage`: one inbound message; `None` is a message `JSON.parse` rejected. */
  function Handle(s: State, ev: Option<Event>, dcOpen: bool, now: int): (r: Outcome)
    ensures r.triggered <==> dcOpen && ev.Some? && ev.value.InputTranscriptionCompleted? && HasRef(ev.value.itemId)
    ensures r.state.sessionStart == s.sessionStart
  {
    match ev
    case None => Outcome(s, false)
    case Some(InputTranscriptionDelta(itemId, delta)) => Outcome(OnInputDelta(s, itemId, delta, now), false)
    case Some(InputTranscriptionCompleted(itemId, transcript)) =>
      Outcome(OnInputCompleted(s, itemId, transcript, now), HasRef(itemId) && dcOpen)
    case Some(ResponseTranscriptDelta(itemId, payload)) =>
      Outcome(OnResponseDelta(s, itemId, ExtractText(payload), now), false)
    case Some(ResponseTranscriptDone(itemId, payload)) =>
      Outcome(OnResponseDone(s, itemId, ExtractText(payload), now), false)
    case Some(ContentPartDone(itemId, part)) => Outcome(OnFallbackDone(s, itemId, ExtractText(part), now), false)
    case Some(OutputItemDone(itemId, output)) => Outcome(OnFallbackDone(s, itemId, ExtractText(output), now), false)
    case Some(ItemCreated(itemId)) => Outcome(OnItemCreated(s, itemId), false)
    case Some(OutputItemAdded(itemId)) => Outcome(OnOutputItemAdded(s, itemId), false)
    case Some(Unrecognised(_)) => Outcome(s, false)
  }

  /** The transcription delta branch: append to the spoken-language buffer and show it as partial. */
  function OnInputDelta(s: State, itemId: Option<string>, delta: string, now: int): (r: State)
    ensures r.en == s.en && r.partialEn == s.partialEn && r.seen == s.seen && r.sessionStart == s.sessionStart
    ensures !HasRef(itemId) || delta == "" ==> r == s
  {
    if !HasRef(itemId) || delta == "" then s
    else
      var id := itemId.value;
      var partial := Buffered(s.partialNl, id) + delta;
      AddSegment(s.(partialNl := s.partialNl[id := partial]), partial, true, Nl, id, now)
  }

  /**
   * The transcription completed branch, apart from the trigger: finalize with the transcript or,
   * when it is empty, the buffer; the buffer is dropped either way.
   */
  function OnInputCompleted(s: State, itemId: Option<string>, transcript: string, now: int): (r: State)
    ensures r.en == s.en && r.partialEn == s.partialEn && r.sessionStart == s.sessionStart
    ensures HasRef(itemId) ==> itemId.value !in r.partialNl && r.partialNl == s.partialNl - {itemId.value}
    ensures !HasRef(itemId) ==> r == s
  {
    if !HasRef(itemId) then s
    else
      var id := itemId.value;
      var final := if transcript != "" then transcript else Buffered(s.partialNl, id);
      var s1 := s.(partialNl := s.partialNl - {id});
      if final != "" then AddSegment(s1, final, false, Nl, id, now) else s1
  }

  /**
   * The translated-transcript delta branch, on the English buffer and column, given the text the
   * extractor found in the `delta` payload.
   */
  function OnResponseDelta(s: State, itemId: Option<string>, delta: string, now: int): (r: State)
    ensures r.nl == s.nl && r.partialNl == s.partialNl && r.seen == s.seen && r.sessionStart == s.sessionStart
    ensures !HasRef(itemId) || delta == "" ==> r == s
  {
    if !HasRef(itemId) || delta == "" then s
    else
      var id := itemId.value;
      var partial := Buffered(s.partialEn, id) + delta;
      AddSegment(s.(partialEn := s.partialEn[id := partial]), partial, true, En, id, now)
  }

  /**
   * The translated-transcript done branch, on the English buffer and column, given the text the
   * extractor found in the `transcript` payload.
   */
  function OnResponseDone(s: State, itemId: Option<string>, transcript: string, now: int): (r: State)
    ensures r.nl == s.nl && r.partialNl == s.partialNl && r.sessionStart == s.sessionStart
    ensures HasRef(itemId) ==> itemId.value !in r.partialEn && r.partialEn == s.partialEn - {itemId.value}
    ensures !HasRef(itemId) ==> r == s
  {
    if !HasRef(itemId) then s
    else
      var id := itemId.value;
      var final := if transcript != "" then transcript else Buffered(s.partialEn, id);
      var s1 := s.(partialEn := s.partialEn - {id});
      if final != "" then AddSegment(s1, final, false, En, id, now) else s1
  }

  /**
   * The `response.content_part.done` and `response.output_item.done` branches, which behave alike:
   * finalize the English segment with the text extracted from `part` or `output` if there is any;
   * no buffer is touched.
   */
  function OnFallbackDone(s: State, itemId: Option<string>, text: string, now: int): (r: State)
    ensures r.nl == s.nl && r.partialNl == s.partialNl && r.partialEn == s.partialEn
    ensures r.sessionStart == s.sessionStart
    ensures !HasRef(itemId) || text == "" ==> r == s
  {
    if !HasRef(itemId) || text == "" then s
    else AddSegment(s, text, false, En, itemId.value, now)
  }

  /** The item-created branch: both buffers of the item are set to "". */
  function OnItemCreated(s: State, itemId: Option<string>): (r: State)
    ensures r.nl == s.nl && r.en == s.en && r.seen == s.seen && r.sessionStart == s.sessionStart
    ensures HasRef(itemId) ==> Buffered(r.partialNl, itemId.value) == "" && Buffered(r.partialEn, itemId.value) == ""
    ensures forall id :: !HasRef(itemId) || id != itemId.value ==>
              Buffered(r.partialNl, id) == Buffered(s.partialNl, id) && Buffered(r.partialEn, id) == Buffered(s.partialEn, id)
  {
    if !HasRef(itemId) then s
    else s.(partialNl := s.partialNl[itemId.value := ""], partialEn := s.partialEn[itemId.value := ""])
  }

  /** The output-item-added branch: the English buffer of the item is set to "". */
  function OnOutputItemAdded(s: State, itemId: Option<string>): (r: State)
    ensures r.nl == s.nl && r.en == s.en && r.partialNl == s.partialNl && r.seen == s.seen
    ensures r.sessionStart == s.sessionStart
    ensures HasRef(itemId) ==> Buffered(r.partialEn, itemId.value) == ""
    ensures forall id :: !HasRef(itemId) || id != itemId.value ==> Buffered(r.partialEn, id) == Buffered(s.partialEn, id)
  {
    if !HasRef(itemId) then s
    else s.(partialEn := s.partialEn[itemId.value := ""])
  }

  // ---------------------------------------------------------------------------------------------
  // The invariant every reachable state keeps

  /**
   * A shown segment holds non-blank text with no whitespace at either end (so it is its own trim); a partial one has no label; a final one
   * has its id among the finalized ids.
   */
  predicate SegmentOk(seg: Segment, seen: set<string>) {
    && seg.text != ""
    && Trimmed(seg.text)
    && (seg.isPartial ==> seg.timestamp == None)
    && (!seg.isPartial ==> seg.id in seen)
  }

  predicate ColumnOk(segs: seq<Segment>, seen: set<string>) {
    && UniqueIds(segs)
    && forall k :: 0 <= k < |segs| ==> SegmentOk(segs[k], seen)
  }

  predicate Valid(s: State) {
    ColumnOk(s.nl, s.seen) && ColumnOk(s.en, s.seen)
  }

  lemma ColumnOkMonotone(segs: seq<Segment>, seen: set<string>, more: set<string>)
    requires ColumnOk(segs, seen) && seen <= more
    ensures ColumnOk(segs, more)
  {
  }

  lemma UpsertKeepsColumnOk(segs: seq<Segment>, seg: Segment, seen: set<string>)
    requires ColumnOk(segs, seen) && SegmentOk(seg, seen)
    ensures ColumnOk(Upsert(segs, seg), seen)
  {
    var r := Upsert(segs, seg);
    forall k | 0 <= k < |r| ensures SegmentOk(r[k], seen) {
      if k < |segs| && segs[k].id != seg.id {
        assert r[k] == segs[k];
      } else {
        assert Ids(r)[k] == r[k].id;
        if k < |segs| {
          assert Ids(segs)[k] == seg.id;
        }
        assert k == IndexOf(r, seg.id);
      }
    }
  }

  /** `addSegment` keeps the invariant. */
  lemma AddSegmentKeepsValid(s: State, text: string, isPartial: bool, column: Column, id: string, now: int)
    requires Valid(s)
    ensures Valid(AddSegment(s, text, isPartial, column, id, now))
  {
    if Trim(text) != "" && (id !in s.seen || isPartial) {
      var seen := if isPartial then s.seen else s.seen + {id};
      var seg := Segment(id, Trim(text), isPartial, Label(s.sessionStart, isPartial, now));
      assert SegmentOk(seg, seen);
      ColumnOkMonotone(s.nl, s.seen, seen);
      ColumnOkMonotone(s.en, s.seen, seen);
      if column == Nl {
        UpsertKeepsColumnOk(s.nl, seg, seen);
      } else {
        UpsertKeepsColumnOk(s.en, seg, seen);
      }
    }
  }

  /** Every message keeps the invariant. */
  lemma HandleKeepsValid(s: State, ev: Option<Event>, dcOpen: bool, now: int)
    requires Valid(s)
    ensures Valid(Handle(s, ev, dcOpen, now).state)
  {
    match ev
    case Some(InputTranscriptionDelta(Some(id), delta)) =>
      var partial := Buffered(s.partialNl, id) + delta;
      AddSegmentKeepsValid(s.(partialNl := s.partialNl[id := partial]), partial, true, Nl, id, now);
    case Some(InputTranscriptionCompleted(Some(id), transcript)) =>
      var final := if transcript != "" then transcript else Buffered(s.partialNl, id);
      AddSegmentKeepsValid(s.(partialNl := s.partialNl - {id}), final, false, Nl, id, now);
    case Some(ResponseTranscriptDelta(Some(id), payload)) =>
      var partial := Buffered(s.partialEn, id) + ExtractText(payload);
      AddSegmentKeepsValid(s.(partialEn := s.partialEn[id := partial]), partial, true, En, id, now);
    case Some(ResponseTranscriptDone(Some(id), payload)) =>
      var t := ExtractText(payload);
      var final := if t != "" then t else Buffered(s.partialEn, id);
      AddSegmentKeepsValid(s.(partialEn := s.partialEn - {id}), final, false, En, id, now);
    case Some(ContentPartDone(Some(id), part)) =>
      AddSegmentKeepsValid(s, ExtractText(part), false, En, id, now);
    case Some(OutputItemDone(Some(id), output)) =>
      AddSegmentKeepsValid(s, ExtractText(output), false, En, id, now);
    case _ =>
  }

  // ---------------------------------------------------------------------------------------------
  // addSegment

  /** Text that trims to nothing changes nothing: no segment, no order change, no finalized id. */
  lemma AddSegmentIgnoresBlank(s: State, text: string, isPartial: bool, column: Column, id: string, now: int)
    requires AllWhitespace(text)
    ensures AddSegment(s, text, isPartial, column, id, now) == s
  {
  }

  /**
   * An id is finalized once: a final write for an id already finalized, in either column, changes
   * nothing; the first final write with non-blank text records the id.
   */
  lemma AddSegmentFinalizesOnce(s: State, text: string, column: Column, id: string, now: int)
    ensures id in s.seen ==> AddSegment(s, text, false, column, id, now) == s
    ensures id !in s.seen && !AllWhitespace(text) ==> AddSegment(s, text, false, column, id, now).seen == s.seen + {id}
  {
  }

  /**
   * An effective write upserts the segment holding the trimmed text into its column (so the shape
   * of the column is Upsert's: same place for a shown id, the end for a new one, all other segments
   * untouched); the other column and the buffers are unchanged.
   */
  lemma AddSegmentShape(s: State, text: string, isPartial: bool, column: Column, id: string, now: int)
    requires !AllWhitespace(text) && (isPartial || id !in s.seen)
    ensures var s' := AddSegment(s, text, isPartial, column, id, now);
            SegmentsOf(s', column) == Upsert(SegmentsOf(s, column), Segment(id, Trim(text), isPartial, Label(s.sessionStart, isPartial, now)))
    ensures var s' := AddSegment(s, text, isPartial, column, id, now);
            SegmentsOf(s', if column == Nl then En else Nl) == SegmentsOf(s, if column == Nl then En else Nl)
    ensures var s' := AddSegment(s, text, isPartial, column, id, now);
            s'.partialNl == s.partialNl && s'.partialEn == s.partialEn && s'.sessionStart == s.sessionStart
    ensures AddSegment(s, text, isPartial, column, id, now).seen == if isPartial then s.seen else s.seen + {id}
  {
  }

  /** After an effective write, the column shows the written segment under its id. */
  lemma AddSegmentShows(s: State, text: string, isPartial: bool, column: Column, id: string, now: int)
    requires !AllWhitespace(text) && (isPartial || id !in s.seen)
    ensures Find(SegmentsOf(AddSegment(s, text, isPartial, column, id, now), column), id)
            == Some(Segment(id, Trim(text), isPartial, Label(s.sessionStart, isPartial, now)))
  {
    var seg := Segment(id, Trim(text), isPartial, Label(s.sessionStart, isPartial, now));
    AddSegmentShape(s, text, isPartial, column, id, now);
    UpsertIsFound(SegmentsOf(s, column), seg);
  }

  /**
   * Only final writes are guarded: a partial write for an id whose segment is final replaces it
   * with a partial segment again.
   */
  lemma PartialOverwritesFinal(s: State, text: string, column: Column, id: string, now: int)
    requires Find(SegmentsOf(s, column), id).Some? && !Find(SegmentsOf(s, column), id).value.isPartial
    requires !AllWhitespace(text)
    ensures Find(SegmentsOf(AddSegment(s, text, true, column, id, now), column), id)
            == Some(Segment(id, Trim(text), true, None))
  {
    AddSegmentShows(s, text, true, column, id, now);
  }

  /**
   * The finalized ids are shared by both columns: once an item is final in the spoken column, a
   * final write for the same id in the English column is ignored.
   */
  lemma FinalBlockedAcrossColumns(s: State, spoken: string, english: string, id: string, now: int)
    requires !AllWhitespace(spoken)
    ensures var s1 := AddSegment(s, spoken, false, Nl, id, now);
            AddSegment(s1, english, false, En, id, now) == s1
  {
  }

  // ---------------------------------------------------------------------------------------------
  // handleMessage

  /**
   * A spoken-language delta appends to the item's buffer, starting from "" when the item has none,
   * and shows the buffer as a partial segment; without an id or with an empty delta it changes
   * nothing.
   */
  lemma InputDeltaAccumulates(s: State, itemId: Option<string>, delta: string, dcOpen: bool, now: int)
    ensures var o := Handle(s, Some(InputTranscriptionDelta(itemId, delta)), dcOpen, now);
            && !o.triggered && o.state.en == s.en && o.state.partialEn == s.partialEn && o.state.seen == s.seen
            && o.state.sessionStart == s.sessionStart
    ensures !HasRef(itemId) || delta == "" ==>
            Handle(s, Some(InputTranscriptionDelta(itemId, delta)), dcOpen, now).state == s
    ensures HasRef(itemId) && delta != "" ==>
            var o := Handle(s, Some(InputTranscriptionDelta(itemId, delta)), dcOpen, now);
            var partial := Buffered(s.partialNl, itemId.value) + delta;
            && o.state.partialNl == s.partialNl[itemId.value := partial]
            && (!AllWhitespace(partial) ==>
                  o.state.nl == Upsert(s.nl, Segment(itemId.value, Trim(partial), true, None)))
            && (!AllWhitespace(partial) ==>
                  Find(o.state.nl, itemId.value) == Some(Segment(itemId.value, Trim(partial), true, None)))
            && (AllWhitespace(partial) ==> o.state.nl == s.nl)
  {
    if HasRef(itemId) && delta != "" {
      var id := itemId.value;
      var partial := Buffered(s.partialNl, id) + delta;
      if !AllWhitespace(partial) {
        AddSegmentShape(s.(partialNl := s.partialNl[id := partial]), partial, true, Nl, id, now);
        AddSegmentShows(s.(partialNl := s.partialNl[id := partial]), partial, true, Nl, id, now);
      }
    }
  }

  /**
   * A spoken-language completion that names an item finalizes it with the transcript, or with the
   * buffered text when the transcript is empty, and drops the buffer. An item already final keeps
   * its segment. The message triggers a translation exactly when the channel is open.
   */
  lemma InputCompletedFinalizes(s: State, id: string, transcript: string, dcOpen: bool, now: int)
    requires id != ""
    ensures var o := Handle(s, Some(InputTranscriptionCompleted(Some(id), transcript)), dcOpen, now);
            o.triggered == dcOpen
    ensures var o := Handle(s, Some(InputTranscriptionCompleted(Some(id), transcript)), dcOpen, now);
            o.state.partialNl == s.partialNl - {id} && o.state.partialEn == s.partialEn && o.state.en == s.en
    ensures var o := Handle(s, Some(InputTranscriptionCompleted(Some(id), transcript)), dcOpen, now);
            id in s.seen ==> o.state.nl == s.nl && o.state.seen == s.seen
    ensures var o := Handle(s, Some(InputTranscriptionCompleted(Some(id), transcript)), dcOpen, now);
            var final := if transcript != "" then transcript else Buffered(s.partialNl, id);
            id !in s.seen && !AllWhitespace(final) ==>
              && id in o.state.seen
              && o.state.nl == Upsert(s.nl, Segment(id, Trim(final), false, Label(s.sessionStart, false, now)))
              && Find(o.state.nl, id) == Some(Segment(id, Trim(final), false, Label(s.sessionStart, false, now)))
    ensures var o := Handle(s, Some(InputTranscriptionCompleted(Some(id), transcript)), dcOpen, now);
            var final := if transcript != "" then transcript else Buffered(s.partialNl, id);
            AllWhitespace(final) ==> o.state.nl == s.nl && o.state.seen == s.seen
  {
    var final := if transcript != "" then transcript else Buffered(s.partialNl, id);
    var s1 := s.(partialNl := s.partialNl - {id});
    var s' := OnInputCompleted(s, Some(id), transcript, now);
    assert Handle(s, Some(InputTranscriptionCompleted(Some(id), transcript)), dcOpen, now) == Outcome(s', dcOpen);
    if final == "" {
      assert s' == s1;
    } else {
      assert s' == AddSegment(s1, final, false, Nl, id, now);
      if id !in s.seen && !AllWhitespace(final) {
        AddSegmentShape(s1, final, false, Nl, id, now);
        AddSegmentShows(s1, final, false, Nl, id, now);
        assert SegmentsOf(s', Nl) == s'.nl;
      }
    }
  }

  /**
   * A translated-transcript delta appends the text extracted from its payload to the item's English
   * buffer and shows it as a partial segment; a missing id or a payload without text changes
   * nothing.
   */
  lemma ResponseDeltaAccumulates(s: State, itemId: Option<string>, payload: Json, dcOpen: bool, now: int)
    ensures var o := Handle(s, Some(ResponseTranscriptDelta(itemId, payload)), dcOpen, now);
            && !o.triggered && o.state.nl == s.nl && o.state.partialNl == s.partialNl && o.state.seen == s.seen
            && o.state.sessionStart == s.sessionStart
    ensures !HasRef(itemId) || ExtractText(payload) == "" ==>
            Handle(s, Some(ResponseTranscriptDelta(itemId, payload)), dcOpen, now).state == s
    ensures HasRef(itemId) && ExtractText(payload) != "" ==>
            var o := Handle(s, Some(ResponseTranscriptDelta(itemId, payload)), dcOpen, now);
            var partial := Buffered(s.partialEn, itemId.value) + ExtractText(payload);
            && o.state.partialEn == s.partialEn[itemId.value := partial]
            && (!AllWhitespace(partial) ==>
                  o.state.en == Upsert(s.en, Segment(itemId.value, Trim(partial), true, None)))
            && (!AllWhitespace(partial) ==>
                  Find(o.state.en, itemId.value) == Some(Segment(itemId.value, Trim(partial), true, None)))
            && (AllWhitespace(partial) ==> o.state.en == s.en)
  {
    if HasRef(itemId) && ExtractText(payload) != "" {
      var id := itemId.value;
      var partial := Buffered(s.partialEn, id) + ExtractText(payload);
      if !AllWhitespace(partial) {
        AddSegmentShape(s.(partialEn := s.partialEn[id := partial]), partial, true, En, id, now);
        AddSegmentShows(s.(partialEn := s.partialEn[id := partial]), partial, true, En, id, now);
      }
    }
  }

  /**
   * A translated-transcript done event finalizes the English segment with the extracted transcript,
   * or the buffer when that is empty, drops the buffer and never triggers.
   */
  lemma ResponseDoneFinalizes(s: State, id: string, payload: Json, dcOpen: bool, now: int)
    requires id != ""
    ensures var o := Handle(s, Some(ResponseTranscriptDone(Some(id), payload)), dcOpen, now);
            !o.triggered && o.state.partialEn == s.partialEn - {id}
    ensures var o := Handle(s, Some(ResponseTranscriptDone(Some(id), payload)), dcOpen, now);
            o.state.partialNl == s.partialNl && o.state.nl == s.nl
    ensures var o := Handle(s, Some(ResponseTranscriptDone(Some(id), payload)), dcOpen, now);
            id in s.seen ==> o.state.en == s.en && o.state.seen == s.seen
    ensures var o := Handle(s, Some(ResponseTranscriptDone(Some(id), payload)), dcOpen, now);
            var t := ExtractText(payload);
            var final := if t != "" then t else Buffered(s.partialEn, id);
            id !in s.seen && !AllWhitespace(final) ==>
              && id in o.state.seen
              && o.state.en == Upsert(s.en, Segment(id, Trim(final), false, Label(s.sessionStart, false, now)))
              && Find(o.state.en, id) == Some(Segment(id, Trim(final), false, Label(s.sessionStart, false, now)))
    ensures var o := Handle(s, Some(ResponseTranscriptDone(Some(id), payload)), dcOpen, now);
            var t := ExtractText(payload);
            var final := if t != "" then t else Buffered(s.partialEn, id);
            AllWhitespace(final) ==> o.state.en == s.en && o.state.seen == s.seen
  {
    var t := ExtractText(payload);
    var final := if t != "" then t else Buffered(s.partialEn, id);
    var s1 := s.(partialEn := s.partialEn - {id});
    var s' := OnResponseDone(s, Some(id), t, now);
    assert Handle(s, Some(ResponseTranscriptDone(Some(id), payload)), dcOpen, now) == Outcome(s', false);
    if final == "" {
      assert s' == s1;
    } else {
      assert s' == AddSegment(s1, final, false, En, id, now);
      if id !in s.seen && !AllWhitespace(final) {
        AddSegmentShape(s1, final, false, En, id, now);
        AddSegmentShows(s1, final, false, En, id, now);
        assert SegmentsOf(s', En) == s'.en;
      }
    }
  }

  /**
   * The two fallback events finalize the English segment only with non-empty extracted text, and
   * leave every buffer as it was.
   */
  lemma FallbacksFinalizeDirectly(s: State, id: string, payload: Json, dcOpen: bool, now: int)
    requires id != ""
    ensures var o := Handle(s, Some(ContentPartDone(Some(id), payload)), dcOpen, now);
            && o.state.partialNl == s.partialNl && o.state.partialEn == s.partialEn && !o.triggered
            && o.state == (if ExtractText(payload) == "" then s else AddSegment(s, ExtractText(payload), false, En, id, now))
    ensures var o := Handle(s, Some(OutputItemDone(Some(id), payload)), dcOpen, now);
            && o.state.partialNl == s.partialNl && o.state.partialEn == s.partialEn && !o.triggered
            && o.state == (if ExtractText(payload) == "" then s else AddSegment(s, ExtractText(payload), false, En, id, now))
  {
    var t := ExtractText(payload);
    var s' := OnFallbackDone(s, Some(id), t, now);
    assert s' == (if t == "" then s else AddSegment(s, t, false, En, id, now)) by {
    }
    assert s'.partialNl == s.partialNl && s'.partialEn == s.partialEn;
    assert Handle(s, Some(ContentPartDone(Some(id), payload)), dcOpen, now) == Outcome(s', false) by {
    }
    assert Handle(s, Some(OutputItemDone(Some(id), payload)), dcOpen, now) == Outcome(s', false) by {
    }
  }

  /**
   * Item creation resets both buffers of the item to "", discarding text already accumulated;
   * `response.output_item.added` resets only the English one. Neither touches a segment.
   */
  lemma CreationResetsBuffers(s: State, id: string, dcOpen: bool, now: int)
    requires id != ""
    ensures var o := Handle(s, Some(ItemCreated(Some(id))), dcOpen, now);
            && o.state == s.(partialNl := s.partialNl[id := ""], partialEn := s.partialEn[id := ""])
            && Buffered(o.state.partialNl, id) == "" && Buffered(o.state.partialEn, id) == ""
    ensures var o := Handle(s, Some(OutputItemAdded(Some(id))), dcOpen, now);
            && o.state == s.(partialEn := s.partialEn[id := ""])
            && Buffered(o.state.partialEn, id) == ""
  {
  }

  /** Messages that fail to parse, have an unknown type, or name no item change nothing. */
  lemma IgnoredMessages(s: State, dcOpen: bool, now: int, eventType: string, e: Event)
    ensures Handle(s, None, dcOpen, now) == Outcome(s, false)
    ensures Handle(s, Some(Unrecognised(eventType)), dcOpen, now) == Outcome(s, false)
    ensures !e.Unrecognised? && !HasRef(e.itemId) ==> Handle(s, Some(e), dcOpen, now) == Outcome(s, false)
  {
  }

  /** `addSegment` never reorders a column: two ids shown in some order stay in that order. */
  lemma AddSegmentKeepsOrder(s: State, text: string, isPartial: bool, column: Column, id: string, now: int,
                             c: Column, a: string, b: string)
    requires 0 <= IndexOf(SegmentsOf(s, c), a) < IndexOf(SegmentsOf(s, c), b)
    ensures var segs := SegmentsOf(AddSegment(s, text, isPartial, column, id, now), c);
            0 <= IndexOf(segs, a) < IndexOf(segs, b)
  {
    if !AllWhitespace(text) && (isPartial || id !in s.seen) {
      AddSegmentShape(s, text, isPartial, column, id, now);
      if c == column {
        UpsertKeepsOrder(SegmentsOf(s, c), Segment(id, Trim(text), isPartial, Label(s.sessionStart, isPartial, now)), a, b);
      }
    }
  }

  /**
   * Display order is first-appearance order for the whole handler: no message moves a shown segment
   * relative to another in either column.
   */
  lemma HandleKeepsOrder(s: State, ev: Option<Event>, dcOpen: bool, now: int, c: Column, a: string, b: string)
    requires 0 <= IndexOf(SegmentsOf(s, c), a) < IndexOf(SegmentsOf(s, c), b)
    ensures var segs := SegmentsOf(Handle(s, ev, dcOpen, now).state, c);
            0 <= IndexOf(segs, a) < IndexOf(segs, b)
  {
    if ev.Some? {
      var e := ev.value;
      if e.InputTranscriptionDelta? {
        InputDeltaKeepsOrder(s, e.itemId, e.delta, now, c, a, b);
      } else if e.InputTranscriptionCompleted? {
        InputCompletedKeepsOrder(s, e.itemId, e.transcript, now, c, a, b);
      } else if e.ResponseTranscriptDelta? {
        ResponseDeltaKeepsOrder(s, e.itemId, ExtractText(e.deltaPayload), now, c, a, b);
      } else if e.ResponseTranscriptDone? {
        ResponseDoneKeepsOrder(s, e.itemId, ExtractText(e.transcriptPayload), now, c, a, b);
      } else if e.ContentPartDone? {
        FallbackKeepsOrder(s, e.itemId, ExtractText(e.part), now, c, a, b);
      } else if e.OutputItemDone? {
        FallbackKeepsOrder(s, e.itemId, ExtractText(e.output), now, c, a, b);
      }
    }
  }

  /** The branches of HandleKeepsOrder that write a segment, one branch function each. */
  lemma InputDeltaKeepsOrder(s: State, itemId: Option<string>, delta: string, now: int, c: Column, a: string, b: string)
    requires 0 <= IndexOf(SegmentsOf(s, c), a) < IndexOf(SegmentsOf(s, c), b)
    ensures var segs := SegmentsOf(OnInputDelta(s, itemId, delta, now), c);
            0 <= IndexOf(segs, a) < IndexOf(segs, b)
  {
    if HasRef(itemId) && delta != "" {
      var partial := Buffered(s.partialNl, itemId.value) + delta;
      AddSegmentKeepsOrder(s.(partialNl := s.partialNl[itemId.value := partial]), partial, true, Nl, itemId.value, now, c, a, b);
    }
  }

  lemma InputCompletedKeepsOrder(s: State, itemId: Option<string>, transcript: string, now: int,
                                 c: Column, a: string, b: string)
    requires 0 <= IndexOf(SegmentsOf(s, c), a) < IndexOf(SegmentsOf(s, c), b)
    ensures var segs := SegmentsOf(OnInputCompleted(s, itemId, transcript, now), c);
            0 <= IndexOf(segs, a) < IndexOf(segs, b)
  {
    if HasRef(itemId) {
      var final := if transcript != "" then transcript else Buffered(s.partialNl, itemId.value);
      AddSegmentKeepsOrder(s.(partialNl := s.partialNl - {itemId.value}), final, false, Nl, itemId.value, now, c, a, b);
    }
  }

  lemma ResponseDeltaKeepsOrder(s: State, itemId: Option<string>, delta: string, now: int, c: Column, a: string, b: string)
    requires 0 <= IndexOf(SegmentsOf(s, c), a) < IndexOf(SegmentsOf(s, c), b)
    ensures var segs := SegmentsOf(OnResponseDelta(s, itemId, delta, now), c);
            0 <= IndexOf(segs, a) < IndexOf(segs, b)
  {
    if HasRef(itemId) && delta != "" {
      var partial := Buffered(s.partialEn, itemId.value) + delta;
      AddSegmentKeepsOrder(s.(partialEn := s.partialEn[itemId.value := partial]), partial, true, En, itemId.value, now, c, a, b);
    }
  }

  lemma ResponseDoneKeepsOrder(s: State, itemId: Option<string>, transcript: string, now: int,
                               c: Column, a: string, b: string)
    requires 0 <= IndexOf(SegmentsOf(s, c), a) < IndexOf(SegmentsOf(s, c), b)
    ensures var segs := SegmentsOf(OnResponseDone(s, itemId, transcript, now), c);
            0 <= IndexOf(segs, a) < IndexOf(segs, b)
  {
    if HasRef(itemId) {
      var final := if transcript != "" then transcript else Buffered(s.partialEn, itemId.value);
      AddSegmentKeepsOrder(s.(partialEn := s.partialEn - {itemId.value}), final, false, En, itemId.value, now, c, a, b);
    }
  }

  lemma FallbackKeepsOrder(s: State, itemId: Option<string>, text: string, now: int, c: Column, a: string, b: string)
    requires 0 <= IndexOf(SegmentsOf(s, c), a) < IndexOf(SegmentsOf(s, c), b)
    ensures var segs := SegmentsOf(OnFallbackDone(s, itemId, text, now), c);
            0 <= IndexOf(segs, a) < IndexOf(segs, b)
  {
    if HasRef(itemId) && text != "" {
      AddSegmentKeepsOrder(s, text, false, En, itemId.value, now, c, a, b);
    }
  }

  // ---------------------------------------------------------------------------------------------
  // Sequences of messages

  /** One message as it reaches the handler, with the channel state and the clock at that moment. */
  datatype Delivery = Delivery(ev: Option<Event>, dcOpen: bool, now: nat)

  datatype Replay = Replay(state: State, triggers: nat)

  /** Handles the messages in delivery order, counting the `response.create` commands sent. */
  function Run(s: State, msgs: seq<Delivery>): Replay
    decreases msgs
  {
    if msgs == [] then Replay(s, 0)
    else
      var o := Handle(s, msgs[0].ev, msgs[0].dcOpen, msgs[0].now);
      var rest := Run(o.state, msgs[1..]);
      Replay(rest.state, rest.triggers + if o.triggered then 1 else 0)
  }

  /** The spoken-language completions that name an item and arrive while the channel is open. */
  function OpenCompletions(msgs: seq<Delivery>): nat {
    if msgs == [] then 0
    else
      var m := msgs[0];
      OpenCompletions(msgs[1..]) +
        if m.dcOpen && m.ev.Some? && m.ev.value.InputTranscriptionCompleted? && HasRef(m.ev.value.itemId)
        then 1 else 0
  }

  /** One translation request per completion event delivered while the channel is open. */
  lemma {:induction false} TriggersCountCompletions(s: State, msgs: seq<Delivery>)
    ensures Run(s, msgs).triggers == OpenCompletions(msgs)
    decreases msgs
  {
    if msgs != [] {
      TriggersCountCompletions(Handle(s, msgs[0].ev, msgs[0].dcOpen, msgs[0].now).state, msgs[1..]);
    }
  }

  /** Any sequence of messages keeps the invariant. */
  lemma {:induction false} RunKeepsValid(s: State, msgs: seq<Delivery>)
    requires Valid(s)
    ensures Valid(Run(s, msgs).state)
    decreases msgs
  {
    if msgs != [] {
      HandleKeepsValid(s, msgs[0].ev, msgs[0].dcOpen, msgs[0].now);
      RunKeepsValid(Handle(s, msgs[0].ev, msgs[0].dcOpen, msgs[0].now).state, msgs[1..]);
    }
  }

  /**
   * Two completions for the same item: the first, with non-blank text, finalizes it; the second,
   * whatever its transcript, leaves the spoken column as the first left it, and still triggers.
   */
  lemma SecondCompletionKeepsFirstText(s: State, id: string, first: string, second: string, now1: int, now2: int)
    requires id != "" && id !in s.seen && !AllWhitespace(first)
    ensures var o1 := Handle(s, Some(InputTranscriptionCompleted(Some(id), first)), true, now1);
            var o2 := Handle(o1.state, Some(InputTranscriptionCompleted(Some(id), second)), true, now2);
            && Find(o1.state.nl, id) == Some(Segment(id, Trim(first), false, Label(s.sessionStart, false, now1)))
            && o2.state.nl == o1.state.nl
            && o1.triggered && o2.triggered
  {
    InputCompletedFinalizes(s, id, first, true, now1);
    var o1 := Handle(s, Some(InputTranscriptionCompleted(Some(id), first)), true, now1);
    InputCompletedFinalizes(o1.state, id, second, true, now2);
  }

  // ---------------------------------------------------------------------------------------------
  // Whole exchanges

  /**
   * A spoken phrase as it arrives: two deltas for a fresh item, then its completion. After the
   * deltas the column shows their concatenation as a partial segment (the buffer starts empty even
   * without a creation event); the completion replaces it with the final, labelled transcript,
   * drops the buffer and is the one message that requests a translation.
   */
  lemma SpokenPhraseExchange(s: State, id: string, d1: string, d2: string, transcript: string,
                             now1: int, now2: int, now3: int)
    requires id != "" && id !in s.seen && id !in s.partialNl
    requires d1 != "" && d2 != "" && !AllWhitespace(d1 + d2) && !AllWhitespace(transcript)
    ensures var o1 := Handle(s, Some(InputTranscriptionDelta(Some(id), d1)), true, now1);
            var o2 := Handle(o1.state, Some(InputTranscriptionDelta(Some(id), d2)), true, now2);
            var o3 := Handle(o2.state, Some(InputTranscriptionCompleted(Some(id), transcript)), true, now3);
            && Find(o2.state.nl, id) == Some(Segment(id, Trim(d1 + d2), true, None))
            && Find(o3.state.nl, id) == Some(Segment(id, Trim(transcript), false, Label(s.sessionStart, false, now3)))
            && id !in o3.state.partialNl
            && !o1.triggered && !o2.triggered && o3.triggered
  {
    var o1 := Handle(s, Some(InputTranscriptionDelta(Some(id), d1)), true, now1);
    InputDeltaAccumulates(s, Some(id), d1, true, now1);
    assert "" + d1 == d1;
    assert Buffered(o1.state.partialNl, id) == d1;
    InputDeltaAccumulates(o1.state, Some(id), d2, true, now2);
    var o2 := Handle(o1.state, Some(InputTranscriptionDelta(Some(id), d2)), true, now2);
    InputCompletedFinalizes(o2.state, id, transcript, true, now3);
  }

  /**
   * A translated phrase as it arrives: two deltas for a fresh item, then a done event whose payload
   * holds no text. The done event falls back to the buffered concatenation and finalizes it.
   */
  lemma TranslatedPhraseExchange(s: State, id: string, p1: Json, p2: Json, done: Json,
                                 now1: int, now2: int, now3: int)
    requires id != "" && id !in s.seen && id !in s.partialEn
    requires ExtractText(p1) != "" && ExtractText(p2) != "" && ExtractText(done) == ""
    requires !AllWhitespace(ExtractText(p1) + ExtractText(p2))
    ensures var o1 := Handle(s, Some(ResponseTranscriptDelta(Some(id), p1)), true, now1);
            var o2 := Handle(o1.state, Some(ResponseTranscriptDelta(Some(id), p2)), true, now2);
            var o3 := Handle(o2.state, Some(ResponseTranscriptDone(Some(id), done)), true, now3);
            var text := ExtractText(p1) + ExtractText(p2);
            && Find(o2.state.en, id) == Some(Segment(id, Trim(text), true, None))
            && Find(o3.state.en, id) == Some(Segment(id, Trim(text), false, Label(s.sessionStart, false, now3)))
            && id !in o3.state.partialEn
  {
    var t1, t2 := ExtractText(p1), ExtractText(p2);
    var o1 := Handle(s, Some(ResponseTranscriptDelta(Some(id), p1)), true, now1);
    ResponseDeltaAccumulates(s, Some(id), p1, true, now1);
    assert "" + t1 == t1;
    assert Buffered(o1.state.partialEn, id) == t1;
    var o2 := Handle(o1.state, Some(ResponseTranscriptDelta(Some(id), p2)), true, now2);
    ResponseDeltaAccumulates(o1.state, Some(id), p2, true, now2);
    assert Buffered(o2.state.partialEn, id) == t1 + t2;
    ResponseDoneFinalizes(o2.state, id, done, true, now3);
  }
}
