/**
 * The page's reconciliation state as it lives in the component (src/app/page.tsx): the two segment
 * lists, the two partial-text buffers, the finalized-id set and the session start, updated in place
 * by `addSegment`, `handleMessage` and the reset at the top of `start`. `AddSegment` and
 * `HandleMessage` are proved to perform exactly the update `Reconcile.AddSegment` and
 * `Reconcile.Handle` describe, so the properties proved there hold of the object. The constructor,
 * `Reset` and `MarkStarted` have no counterpart in Reconcile; their contracts state the new fields
 * directly.
 */
module Engine {
  import opened Wrappers
  import opened Strings
  import opened Payload
  import opened SegmentStore
  import opened Reconcile

  class Session {
    /** The spoken-language column (`nlSegments`). */
    var nl: seq<Segment>
    /** The English column (`enSegments`). */
    var en: seq<Segment>
    /** `partialNlByItemRef`: the spoken-language text received so far, by item id. */
    var partialNl: map<string, string>
    /** `partialEnByItemRef`: the English text received so far, by item id. */
    var partialEn: map<string, string>
    /** `seenIdsRef`: the ids already finalized, shared by both columns. */
    var seen: set<string>
    /** `sessionStartRef`: when the connection came up, in milliseconds; 0 before that. */
    var sessionStart: nat

    /** The fields as one value of the specification's state type. */
    function Snapshot(): State
      reads this
    {
      State(nl, en, partialNl, partialEn, seen, sessionStart)
    }

    ghost predicate Valid()
      reads this
    {
      Reconcile.Valid(Snapshot())
    }

    /** The component mounts with empty columns, empty buffers, nothing finalized and no start time. */
    constructor()
      ensures Valid()
      ensures Snapshot() == State([], [], map[], map[], {}, 0)
    {
      nl, en := [], [];
      partialNl, partialEn := map[], map[];
      seen := {};
      sessionStart := 0;
    }

    /**
     * The reset `start` performs before connecting: both columns, both buffers and the finalized ids
     * are cleared. The start time is left as it was; it is overwritten once the connection is up.
     */
    method Reset()
      modifies this
      ensures Valid()
      ensures Snapshot() == State([], [], map[], map[], {}, old(sessionStart))
    {
      nl := [];
      en := [];
      partialNl := map[];
      partialEn := map[];
      seen := {};
    }

    /** The connection is up: the session start becomes `now`. */
    method MarkStarted(now: nat)
      requires Valid()
      modifies this
      ensures Valid()
      ensures Snapshot() == old(Snapshot()).(sessionStart := now)
    {
      sessionStart := now;
    }

    /** `addSegment(text, isPartial, column, id)` at time `now`. */
    method AddSegment(text: string, isPartial: bool, column: Column, id: string, now: int)
      requires Valid()
      modifies this
      ensures Valid()
      ensures Snapshot() == Reconcile.AddSegment(old(Snapshot()), text, isPartial, column, id, now)
    {
      ghost var target := Reconcile.AddSegment(Snapshot(), text, isPartial, column, id, now);
      AddSegmentKeepsValid(Snapshot(), text, isPartial, column, id, now);
      var trimmed := Trim(text);
      if trimmed == "" {
        return;
      }
      if id in seen && !isPartial {
        return;
      }
      var seg := Segment(id, trimmed, isPartial, Label(sessionStart, isPartial, now));
      if !isPartial {
        seen := seen + {id};
      }
      if column == Nl {
        nl := Upsert(nl, seg);
      } else {
        en := Upsert(en, seg);
      }
      assert Snapshot() == target;
    }

    /**
     * `handleMessage` for one inbound message (`None` when it did not parse), with the data channel's
     * state and the clock at that moment. Returns whether `response.create` was sent.
     */
    method HandleMessage(ev: Option<Event>, dcOpen: bool, now: nat) returns (sent: bool)
      requires Valid()
      modifies this
      ensures Valid()
      ensures Outcome(Snapshot(), sent) == Handle(old(Snapshot()), ev, dcOpen, now)
    {
      ghost var s0 := Snapshot();
      HandleKeepsValid(s0, ev, dcOpen, now);
      sent := false;
      if ev.None? {
        return;
      }
      match ev.value
      case InputTranscriptionDelta(itemId, delta) =>
        if !HasRef(itemId) || delta == "" {
          return;
        }
        var ref := itemId.value;
        partialNl := partialNl[ref := Buffered(partialNl, ref) + delta];
        AddSegment(partialNl[ref], true, Nl, ref, now);
      case InputTranscriptionCompleted(itemId, transcript) =>
        if !HasRef(itemId) {
          return;
        }
        var ref := itemId.value;
        var final := if transcript != "" then transcript else Buffered(partialNl, ref);
        partialNl := partialNl - {ref};
        if final != "" {
          AddSegment(final, false, Nl, ref, now);
        }
        if dcOpen {
          sent := true;
        }
      case ResponseTranscriptDelta(itemId, payload) =>
        var delta := ExtractText(payload);
        if !HasRef(itemId) || delta == "" {
          return;
        }
        var ref := itemId.value;
        partialEn := partialEn[ref := Buffered(partialEn, ref) + delta];
        AddSegment(partialEn[ref], true, En, ref, now);
      case ResponseTranscriptDone(itemId, payload) =>
        var transcript := ExtractText(payload);
        if !HasRef(itemId) {
          return;
        }
        var ref := itemId.value;
        var final := if transcript != "" then transcript else Buffered(partialEn, ref);
        partialEn := partialEn - {ref};
        if final != "" {
          AddSegment(final, false, En, ref, now);
        }
      case ContentPartDone(itemId, part) =>
        var text := ExtractText(part);
        if !HasRef(itemId) || text == "" {
          return;
        }
        AddSegment(text, false, En, itemId.value, now);
      case OutputItemDone(itemId, output) =>
        if !HasRef(itemId) {
          return;
        }
        var text := ExtractText(output);
        if text != "" {
          AddSegment(text, false, En, itemId.value, now);
        }
      case ItemCreated(itemId) =>
        if HasRef(itemId) {
          partialNl := partialNl[itemId.value := ""];
          partialEn := partialEn[itemId.value := ""];
        }
      case OutputItemAdded(itemId) =>
        if HasRef(itemId) {
          partialEn := partialEn[itemId.value := ""];
        }
      case Unrecognised(_) =>
    }
  }
}
