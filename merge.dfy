/**
 * The event store and the merge of a freshly fetched event list into it:
 * an event is stored, together with what its two detail requests return,
 * only when no stored event already carries its uuid.
 */
module Merge {
  import opened Seqs
  import opened Viewers

  /** One entry of the customer's web-event list. */
  datatype FetchedEvent = FetchedEvent(uuid: string, startTime: string, name: string)

  /** The public status counters the notification quotes. */
  datatype PublicInfo = PublicInfo(totalViewers: int, views: int)

  /** One entry of `data["events"]`. */
  datatype StoredEvent = StoredEvent(
    eventId: string,
    startTime: string,
    name: string,
    publicInfo: PublicInfo,
    viewerInfo: seq<ViewerRecord>)

  /** The public status request for an event uuid. */
  type StatusSource = string -> PublicInfo

  /** The viewer export request for an event uuid. */
  type ExportSource = string -> seq<ViewerRecord>

  /** `[e["event_id"] for e in data["events"]]`. */
  function EventIds(es: seq<StoredEvent>): (r: seq<string>)
    ensures |r| == |es| && forall j :: 0 <= j < |es| ==> r[j] == es[j].eventId
  {
    seq(|es|, j requires 0 <= j < |es| => es[j].eventId)
  }

  /** The uuids of the fetched events, in fetch order. */
  function Uuids(fs: seq<FetchedEvent>): (r: seq<string>)
    ensures |r| == |fs| && forall j :: 0 <= j < |fs| ==> r[j] == fs[j].uuid
  {
    seq(|fs|, j requires 0 <= j < |fs| => fs[j].uuid)
  }

  /** The stored form of a fetched event, with its two detail requests answered. */
  function Fetch(f: FetchedEvent, status: StatusSource, detail: ExportSource): StoredEvent {
    StoredEvent(f.uuid, f.startTime, f.name, status(f.uuid), detail(f.uuid))
  }

  /** The store after considering one fetched event. */
  function MergeOne(es: seq<StoredEvent>, f: FetchedEvent, status: StatusSource, detail: ExportSource): seq<StoredEvent> {
    if f.uuid in EventIds(es) then es else es + [Fetch(f, status, detail)]
  }

  /** The store after considering every fetched event, in fetch order. */
  function Merged(stored: seq<StoredEvent>, fs: seq<FetchedEvent>, status: StatusSource, detail: ExportSource): seq<StoredEvent> {
    if |fs| == 0 then stored
    else MergeOne(Merged(stored, fs[..|fs| - 1], status, detail), fs[|fs| - 1], status, detail)
  }

  lemma EventIdsSnoc(es: seq<StoredEvent>, e: StoredEvent)
    ensures EventIds(es + [e]) == EventIds(es) + [e.eventId]
  {
  }

  lemma UuidsPrefix(fs: seq<FetchedEvent>, i: nat)
    requires i < |fs|
    ensures Uuids(fs[..i + 1]) == Uuids(fs[..i]) + [fs[i].uuid]
    ensures Uuids(fs[..i + 1])[..i] == Uuids(fs[..i])
  {
  }

  lemma UuidsInit(fs: seq<FetchedEvent>)
    requires |fs| > 0
    ensures Uuids(fs)[..|fs| - 1] == Uuids(fs[..|fs| - 1])
  {
  }

  /**
   * The ids of the merged store are the stored ids followed by the fetched
   * uuids that were not stored yet, each once, in fetch order.
   */
  lemma {:induction false} MergedIds(stored: seq<StoredEvent>, fs: seq<FetchedEvent>, status: StatusSource, detail: ExportSource)
    ensures EventIds(Merged(stored, fs, status, detail)) == EventIds(stored) + Fresh(EventIds(stored), Uuids(fs))
  {
    if |fs| > 0 {
      var n := |fs| - 1;
      var known := EventIds(stored);
      var prev := Merged(stored, fs[..n], status, detail);
      MergedIds(stored, fs[..n], status, detail);
      UuidsInit(fs);
      var f := fs[n];
      assert Uuids(fs)[n] == f.uuid;
      if f.uuid !in EventIds(prev) {
        EventIdsSnoc(prev, Fetch(f, status, detail));
      }
    }
  }

  /** Stored events are never changed or reordered: the old store is a prefix of the new. */
  lemma {:induction false} MergedKeepsStored(stored: seq<StoredEvent>, fs: seq<FetchedEvent>, status: StatusSource, detail: ExportSource)
    ensures |stored| <= |Merged(stored, fs, status, detail)|
    ensures Merged(stored, fs, status, detail)[..|stored|] == stored
  {
    if |fs| > 0 {
      MergedKeepsStored(stored, fs[..|fs| - 1], status, detail);
    }
  }

  /**
   * After the merge every fetched uuid is stored, no uuid is stored twice
   * if none was before, and every event added was not stored before.
   */
  lemma MergedIdsProperties(stored: seq<StoredEvent>, fs: seq<FetchedEvent>, status: StatusSource, detail: ExportSource)
    ensures var ids := EventIds(Merged(stored, fs, status, detail));
      && (forall f :: f in fs ==> f.uuid in ids)
      && (Distinct(EventIds(stored)) ==> Distinct(ids))
      && (forall j :: |stored| <= j < |ids| ==> ids[j] !in EventIds(stored))
  {
    var known := EventIds(stored);
    var novel := Fresh(known, Uuids(fs));
    var ids := EventIds(Merged(stored, fs, status, detail));
    MergedIds(stored, fs, status, detail);
    assert ids == known + novel;
    forall f | f in fs ensures f.uuid in ids {
      var j :| 0 <= j < |fs| && fs[j] == f;
      assert Uuids(fs)[j] == f.uuid;
    }
    forall j | |stored| <= j < |ids| ensures ids[j] !in known {
      assert ids[j] == novel[j - |stored|];
    }
    if Distinct(known) {
      forall i, j | 0 <= i < j < |ids| ensures ids[i] != ids[j] {
        if j >= |known| && i < |known| {
          assert ids[j] == novel[j - |known|];
        } else if j >= |known| {
          assert ids[i] == novel[i - |known|] && ids[j] == novel[j - |known|];
        }
      }
    }
  }

  /** Each added event is the first fetched event with its uuid, with its details fetched. */
  lemma {:induction false} MergedAdded(stored: seq<StoredEvent>, fs: seq<FetchedEvent>, status: StatusSource, detail: ExportSource, e: StoredEvent)
    requires e in Merged(stored, fs, status, detail) && e !in stored
    ensures e.eventId in Uuids(fs)
    ensures e == Fetch(fs[FirstIndex(Uuids(fs), e.eventId)], status, detail)
  {
    var n := |fs| - 1;
    var prev := Merged(stored, fs[..n], status, detail);
    var f := fs[n];
    UuidsInit(fs);
    assert Uuids(fs) == Uuids(fs[..n]) + [f.uuid];
    if e in prev {
      MergedAdded(stored, fs[..n], status, detail, e);
      FirstIndexSnoc(Uuids(fs[..n]), f.uuid, e.eventId);
    } else {
      assert e == Fetch(f, status, detail) && f.uuid !in EventIds(prev);
      MergedIds(stored, fs[..n], status, detail);
      assert f.uuid !in Uuids(fs[..n]);
      FirstIndexIsFirst(Uuids(fs), f.uuid, n);
    }
  }

  /**
   * The merge loop: each fetched event whose uuid is not yet among the
   * stored ids is appended, its uuid recorded in `newUuids`; the membership
   * test reads the store as it grows, so a uuid fetched twice is added once.
   */
  method MergeEvents(stored: seq<StoredEvent>, fetched: seq<FetchedEvent>, status: StatusSource, detail: ExportSource)
    returns (events: seq<StoredEvent>, newUuids: seq<string>)
    ensures events == Merged(stored, fetched, status, detail)
    ensures newUuids == Fresh(EventIds(stored), Uuids(fetched))
  {
    events := stored;
    newUuids := [];
    var i := 0;
    while i < |fetched|
      invariant 0 <= i <= |fetched|
      invariant events == Merged(stored, fetched[..i], status, detail)
      invariant newUuids == Fresh(EventIds(stored), Uuids(fetched[..i]))
    {
      var event := fetched[i];
      var uuid := event.uuid;
      MergedIds(stored, fetched[..i], status, detail);
      UuidsPrefix(fetched, i);
      assert fetched[..i + 1][..i] == fetched[..i];
      if uuid in EventIds(events) {
        i := i + 1;
        continue;
      }
      newUuids := newUuids + [uuid];
      events := events + [StoredEvent(uuid, event.startTime, event.name, status(uuid), detail(uuid))];
      i := i + 1;
    }
    assert fetched[..i] == fetched;
  }

  /** The events whose reports are produced: those whose id is among the new uuids. */
  function NewOnly(es: seq<StoredEvent>, newUuids: seq<string>): seq<StoredEvent> {
    if |es| == 0 then []
    else
      var p := NewOnly(es[..|es| - 1], newUuids);
      var e := es[|es| - 1];
      if e.eventId in newUuids then p + [e] else p
  }

  /** The filter keeps exactly the events whose id is new. */
  lemma {:induction false} NewOnlyMembers(es: seq<StoredEvent>, newUuids: seq<string>)
    ensures forall e :: e in NewOnly(es, newUuids) <==> e in es && e.eventId in newUuids
  {
    if |es| > 0 {
      NewOnlyMembers(es[..|es| - 1], newUuids);
      assert es == es[..|es| - 1] + [es[|es| - 1]];
    }
  }

  lemma {:induction false} NewOnlyNone(es: seq<StoredEvent>, newUuids: seq<string>)
    requires forall j :: 0 <= j < |es| ==> es[j].eventId !in newUuids
    ensures NewOnly(es, newUuids) == []
  {
    if |es| > 0 {
      NewOnlyNone(es[..|es| - 1], newUuids);
    }
  }

  lemma {:induction false} NewOnlyAll(es: seq<StoredEvent>, newUuids: seq<string>)
    requires forall j :: 0 <= j < |es| ==> es[j].eventId in newUuids
    ensures NewOnly(es, newUuids) == es
  {
    if |es| > 0 {
      NewOnlyAll(es[..|es| - 1], newUuids);
    }
  }

  lemma {:induction false} NewOnlyConcat(a: seq<StoredEvent>, b: seq<StoredEvent>, newUuids: seq<string>)
    ensures NewOnly(a + b, newUuids) == NewOnly(a, newUuids) + NewOnly(b, newUuids)
  {
    if |b| == 0 {
      assert a + b == a;
    } else {
      var n := |b| - 1;
      var ab := a + b;
      assert ab[..|ab| - 1] == a + b[..n] && ab[|ab| - 1] == b[n];
      NewOnlyConcat(a, b[..n], newUuids);
    }
  }

  /**
   * The report loop visits exactly the events this merge added, in the
   * order they were added.
   */
  lemma MergedNewOnly(stored: seq<StoredEvent>, fs: seq<FetchedEvent>, status: StatusSource, detail: ExportSource)
    ensures var es := Merged(stored, fs, status, detail);
      |stored| <= |es| &&
      NewOnly(es, Fresh(EventIds(stored), Uuids(fs))) == es[|stored|..]
  {
    var es := Merged(stored, fs, status, detail);
    var known := EventIds(stored);
    var novel := Fresh(known, Uuids(fs));
    MergedKeepsStored(stored, fs, status, detail);
    MergedIds(stored, fs, status, detail);
    var added := es[|stored|..];
    assert es == stored + added;
    assert EventIds(es) == known + novel;
    forall j | 0 <= j < |stored| ensures stored[j].eventId !in novel {
      assert known[j] == stored[j].eventId;
    }
    NewOnlyNone(stored, novel);
    forall j | 0 <= j < |added| ensures added[j].eventId in novel {
      assert added[j] == es[|stored| + j];
      assert EventIds(es)[|stored| + j] == novel[j];
    }
    NewOnlyAll(added, novel);
    NewOnlyConcat(stored, added, novel);
  }
}
