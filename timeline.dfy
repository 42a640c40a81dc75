/**
 * The timeline reconciler: `addMessageToTimeline` (app.js:1147-1292) and
 * `loadRoomMessages` (app.js:1113-1145). The messages container is a
 * sequence of rendered entries in document order; the DOM lookups
 * `[data-event-id=...]` and `[data-txn-id=...]` become "the first entry
 * whose attribute holds the value".
 */
module Timeline {
  import opened Wrappers
  import opened Media
  import Members

  const MessageType: string := "m.room.message"
  const EncryptedType: string := "m.room.encrypted"

  /**
   * A protocol event as the SDK hands it over. `eventId` and `txnId`
   * (`unsigned.transaction_id`) are "" when absent: the source only ever
   * tests them for truthiness. `eventType` is `getType()`, which is the
   * clear type once the SDK has decrypted the event.
   */
  datatype Event = Event(
    eventId: string,
    txnId: string,
    roomId: string,
    sender: string,
    eventType: string,
    content: Content,
    decryptionFailure: bool,  // isDecryptionFailure()
    decryptionReason: string) // getDecryptionError()

  /** What the client reads from `getRoom(event.getRoomId())`: the joined count and each member's power level. */
  datatype RoomInfo = RoomInfo(joinedCount: nat, memberPower: map<string, int>)

  /** One element of the messages container. */
  datatype Entry = Entry(
    eventId: string,     // data-event-id, "" when not set
    txnId: string,       // data-txn-id, "" when not set
    placeholder: bool,   // data-placeholder="true"
    body: string,        // the text of .message-body
    isAdmin: bool,       // the ADMIN badge
    attachment: Attachment)

  function LockedBody(reason: string): string {
    "\U{1F512} [Зашифровано: " + reason + "]"
  }

  /** The ADMIN badge: a room of more than two joined members and a sender of power 50 or more. */
  predicate IsAdminSender(sender: string, room: Option<RoomInfo>) {
    && room.Some?
    && room.value.joinedCount > 2
    && sender in room.value.memberPower
    && room.value.memberPower[sender] >= 50
  }

  /** `content.body || ''`, or the lock notice for an event that is still encrypted. */
  function BodyOf(ev: Event): string {
    if ev.eventType == EncryptedType then LockedBody(ev.decryptionReason) else ev.content.body
  }

  /** The element the source builds: placeholder only when decryption has failed. */
  function RenderAsWritten(ev: Event, room: Option<RoomInfo>): Entry {
    Entry(ev.eventId, ev.txnId, ev.eventType == EncryptedType && ev.decryptionFailure,
          BodyOf(ev), IsAdminSender(ev.sender, room), AttachmentOf(ev.content))
  }

  /**
   * The element as the reconciler needs it: every event still of type
   * `m.room.encrypted`, pending or failed, is a placeholder.
   */
  function Render(ev: Event, room: Option<RoomInfo>): Entry {
    Entry(ev.eventId, ev.txnId, ev.eventType == EncryptedType,
          BodyOf(ev), IsAdminSender(ev.sender, room), AttachmentOf(ev.content))
  }

  /** A rendered entry carries the event's identity, and its badge matches the members dialog's Mod or Admin role. */
  lemma RenderedEntry(ev: Event, room: Option<RoomInfo>)
    ensures Render(ev, room).eventId == ev.eventId && Render(ev, room).txnId == ev.txnId
    ensures Render(ev, room).placeholder <==> ev.eventType == EncryptedType
    ensures RenderAsWritten(ev, room).placeholder <==> ev.eventType == EncryptedType && ev.decryptionFailure
    ensures Render(ev, room).isAdmin ==>
      room.value.joinedCount > 2 && Members.RoleOf(room.value.memberPower[ev.sender]) != Members.Member
    ensures room.Some? && room.value.joinedCount <= 2 ==> !Render(ev, room).isAdmin
  {
  }

  datatype Attr = EventIdAttr | TxnIdAttr

  function Attribute(e: Entry, a: Attr): string {
    match a
    case EventIdAttr => e.eventId
    case TxnIdAttr => e.txnId
  }

  /** `querySelector('[data-...="value"]')` from position `from` on: the first entry holding `value`. */
  function QuerySelectorFrom(es: seq<Entry>, a: Attr, value: string, from: nat): (r: Option<nat>)
    requires from <= |es|
    ensures r.Some? ==> from <= r.value < |es| && Attribute(es[r.value], a) == value
    ensures r.Some? ==> forall j | from <= j < r.value :: Attribute(es[j], a) != value
    ensures r.None? ==> forall j | from <= j < |es| :: Attribute(es[j], a) != value
    decreases |es| - from
  {
    if from == |es| then None
    else if Attribute(es[from], a) == value then Some(from)
    else QuerySelectorFrom(es, a, value, from + 1)
  }

  function QuerySelector(es: seq<Entry>, a: Attr, value: string): Option<nat> {
    QuerySelectorFrom(es, a, value, 0)
  }

  /** The existing element: by event id when there is one, else by transaction id (app.js:1154-1156). */
  function FindExisting(es: seq<Entry>, ev: Event): (r: Option<nat>)
    ensures r.Some? ==> r.value < |es|
  {
    var byId := if ev.eventId != "" then QuerySelector(es, EventIdAttr, ev.eventId) else None;
    if byId.None? && ev.txnId != "" then QuerySelector(es, TxnIdAttr, ev.txnId) else byId
  }

  /**
   * The early return of app.js:1162-1163: the element already shows this
   * event id, is not a placeholder, and the event is not still encrypted.
   * A missing `data-event-id` reads as null, which never equals an id.
   */
  predicate IsNoOp(existing: Entry, ev: Event) {
    existing.eventId != "" && existing.eventId == ev.eventId && !existing.placeholder && ev.eventType != EncryptedType
  }

  function RemoveAt(es: seq<Entry>, i: nat): (r: seq<Entry>)
    requires i < |es|
    ensures |r| == |es| - 1
    ensures forall j | 0 <= j < |r| :: r[j] == if j < i then es[j] else es[j + 1]
  {
    es[..i] + es[i + 1..]
  }

  /** The container after `addMessageToTimeline(ev)`. */
  function Upserted(es: seq<Entry>, ev: Event, room: Option<RoomInfo>): seq<Entry> {
    match FindExisting(es, ev)
    case None => es + [Render(ev, room)]
    case Some(i) =>
      if IsNoOp(es[i], ev) then es else RemoveAt(es, i) + [Render(ev, room)]
  }

  /** No two entries show the same event id: the identity invariant of the view. */
  ghost predicate UniqueEventIds(es: seq<Entry>) {
    forall i, j | 0 <= i < j < |es| :: es[i].eventId != "" ==> es[i].eventId != es[j].eventId
  }

  ghost predicate ShowsEventId(es: seq<Entry>, id: string) {
    exists k | 0 <= k < |es| :: es[k].eventId == id
  }

  lemma AppendKeepsUnique(es: seq<Entry>, e: Entry)
    requires UniqueEventIds(es)
    requires e.eventId == "" || forall j | 0 <= j < |es| :: es[j].eventId != e.eventId
    ensures UniqueEventIds(es + [e])
  {
    var r := es + [e];
    forall a, b | 0 <= a < b < |r| && r[a].eventId != ""
      ensures r[a].eventId != r[b].eventId
    {
      assert r[a] == es[a];
    }
  }

  lemma RemoveAtKeepsUnique(es: seq<Entry>, i: nat)
    requires i < |es| && UniqueEventIds(es)
    ensures UniqueEventIds(RemoveAt(es, i))
    ensures es[i].eventId != "" ==> forall j | 0 <= j < |es| - 1 :: RemoveAt(es, i)[j].eventId != es[i].eventId
  {
    var rest := RemoveAt(es, i);
    forall a, b | 0 <= a < b < |rest| && rest[a].eventId != ""
      ensures rest[a].eventId != rest[b].eventId
    {
      var ka := if a < i then a else a + 1;
      var kb := if b < i then b else b + 1;
      assert rest[a] == es[ka] && rest[b] == es[kb] && ka < kb;
    }
    if es[i].eventId != "" {
      forall j | 0 <= j < |rest| ensures rest[j].eventId != es[i].eventId {
        var k := if j < i then j else j + 1;
        assert rest[j] == es[k] && k != i;
      }
    }
  }

  /**
   * Upsert keeps event ids unique, and afterwards the event's id is shown:
   * together, exactly one entry carries it.
   */
  lemma UpsertKeepsIdentity(es: seq<Entry>, ev: Event, room: Option<RoomInfo>)
    requires UniqueEventIds(es)
    ensures UniqueEventIds(Upserted(es, ev, room))
    ensures ev.eventId != "" ==> ShowsEventId(Upserted(es, ev, room), ev.eventId)
  {
    var r := Upserted(es, ev, room);
    var rendered := Render(ev, room);
    match FindExisting(es, ev)
    case None =>
      assert r == es + [rendered];
      AppendKeepsUnique(es, rendered);
      assert r[|es|].eventId == ev.eventId;
    case Some(i) =>
      if IsNoOp(es[i], ev) {
        assert r == es;
      } else {
        var rest := RemoveAt(es, i);
        assert r == rest + [rendered];
        RemoveAtKeepsUnique(es, i);
        if ev.eventId != "" && QuerySelector(es, EventIdAttr, ev.eventId).None? {
          assert forall j | 0 <= j < |rest| :: rest[j].eventId != ev.eventId by {
            forall j | 0 <= j < |rest| ensures rest[j].eventId != ev.eventId {
              assert rest[j] == es[if j < i then j else j + 1];
            }
          }
        }
        AppendKeepsUnique(rest, rendered);
        assert r[|rest|].eventId == ev.eventId;
      }
  }

  /**
   * The matched entry leaves its place and the new rendering is appended
   * last; every other entry keeps its relative order. A no-op leaves the
   * container as it was.
   */
  lemma UpsertReplacesMatch(es: seq<Entry>, ev: Event, room: Option<RoomInfo>)
    ensures var r := Upserted(es, ev, room);
      match FindExisting(es, ev)
      case None => |r| == |es| + 1 && r[|es|] == Render(ev, room) && r[..|es|] == es
      case Some(i) =>
        if IsNoOp(es[i], ev) then r == es
        else
          && |r| == |es| && r[|es| - 1] == Render(ev, room)
          && (forall j | 0 <= j < i :: r[j] == es[j])
          && (forall j | i < j < |es| :: r[j - 1] == es[j])
  {
    match FindExisting(es, ev)
    case None =>
    case Some(i) =>
      if !IsNoOp(es[i], ev) {
        var rest := RemoveAt(es, i);
        var r := rest + [Render(ev, room)];
        assert forall j | i < j < |es| :: r[j - 1] == rest[j - 1] == es[j];
      }
  }

  /** The lookup prefers the event id: a transaction id is consulted only when no entry shows the event id. */
  lemma FindExistingPrefersEventId(es: seq<Entry>, ev: Event)
    ensures ev.eventId != "" && ShowsEventId(es, ev.eventId) ==>
      FindExisting(es, ev).Some? && es[FindExisting(es, ev).value].eventId == ev.eventId
    ensures FindExisting(es, ev).None? <==>
      (ev.eventId == "" || !ShowsEventId(es, ev.eventId)) && (ev.txnId == "" || forall j | 0 <= j < |es| :: es[j].txnId != ev.txnId)
  {
    if ev.txnId != "" && exists j | 0 <= j < |es| :: es[j].txnId == ev.txnId {
      var j :| 0 <= j < |es| && es[j].txnId == ev.txnId;
      assert Attribute(es[j], TxnIdAttr) == ev.txnId;
    }
    if ev.eventId != "" && ShowsEventId(es, ev.eventId) {
      var k :| 0 <= k < |es| && es[k].eventId == ev.eventId;
      assert Attribute(es[k], EventIdAttr) == ev.eventId;
    }
  }

  /** Delivering the same decrypted event twice leaves one rendering: the second delivery is a no-op. */
  lemma UpsertIdempotent(es: seq<Entry>, ev: Event, room: Option<RoomInfo>)
    requires UniqueEventIds(es)
    requires ev.eventId != "" && ev.eventType != EncryptedType
    ensures Upserted(Upserted(es, ev, room), ev, room) == Upserted(es, ev, room)
  {
    var r := Upserted(es, ev, room);
    UpsertKeepsIdentity(es, ev, room);
    UpsertReplacesMatch(es, ev, room);
    var m := FindExisting(es, ev);
    if m.Some? && IsNoOp(es[m.value], ev) {
      assert r == es;
    } else {
      var last := |r| - 1;
      assert r[last] == Render(ev, room);
      assert forall j | 0 <= j < last :: r[j].eventId != ev.eventId;
      assert QuerySelector(r, EventIdAttr, ev.eventId) == Some(last);
      assert IsNoOp(r[last], ev);
    }
  }

  /**
   * Local echo: the echo (transaction id only) is appended; the server's
   * copy (event id and the same transaction id) then replaces it, leaving
   * one rendering keyed by the event id.
   */
  lemma LocalEchoResolves(es: seq<Entry>, echo: Event, remote: Event, room: Option<RoomInfo>)
    requires echo.eventId == "" && echo.txnId != "" && remote.txnId == echo.txnId
    requires remote.eventId != "" && !ShowsEventId(es, remote.eventId)
    requires forall j | 0 <= j < |es| :: es[j].txnId != echo.txnId
    ensures Upserted(es, echo, room) == es + [Render(echo, room)]
    ensures Upserted(Upserted(es, echo, room), remote, room) == es + [Render(remote, room)]
  {
    FindExistingPrefersEventId(es, echo);
    var r1 := es + [Render(echo, room)];
    assert forall j | 0 <= j < |r1| :: r1[j].eventId != remote.eventId;
    assert QuerySelector(r1, EventIdAttr, remote.eventId).None?;
    assert Attribute(r1[|es|], TxnIdAttr) == remote.txnId;
    assert forall j | 0 <= j < |es| :: Attribute(r1[j], TxnIdAttr) != remote.txnId;
    assert QuerySelector(r1, TxnIdAttr, remote.txnId) == Some(|es|);
    assert RemoveAt(r1, |es|) == es;
  }

  /**
   * Delayed decryption: an encrypted rendering (pending or failed) is a
   * placeholder, so the decrypted event with the same id replaces it; one
   * entry remains, showing the decrypted body, and nothing else moves.
   */
  lemma DecryptionReplacesPlaceholder(es: seq<Entry>, encrypted: Event, decrypted: Event, room: Option<RoomInfo>)
    requires UniqueEventIds(es)
    requires encrypted.eventType == EncryptedType && encrypted.eventId != ""
    requires decrypted.eventId == encrypted.eventId && decrypted.eventType == MessageType
    ensures var r1 := Upserted(es, encrypted, room);
      var r2 := Upserted(r1, decrypted, room);
      && r1[|r1| - 1].placeholder
      && |r2| == |r1| && r2[..|r2| - 1] == r1[..|r1| - 1]
      && r2[|r2| - 1] == Render(decrypted, room)
      && !r2[|r2| - 1].placeholder && r2[|r2| - 1].body == decrypted.content.body
      && UniqueEventIds(r2)
  {
    var r1 := Upserted(es, encrypted, room);
    UpsertKeepsIdentity(es, encrypted, room);
    UpsertReplacesMatch(es, encrypted, room);
    var last := |r1| - 1;
    assert r1[last] == Render(encrypted, room);
    assert forall j | 0 <= j < last :: r1[j].eventId != decrypted.eventId;
    assert FindExisting(r1, decrypted) == Some(last);
    assert RemoveAt(r1, last) == r1[..last];
    UpsertKeepsIdentity(r1, decrypted, room);
  }

  /**
   * As written, an event rendered while its decryption is still pending
   * (type `m.room.encrypted`, no failure yet) is not marked as a
   * placeholder, so the decrypted event that `Event.decrypted` delivers
   * later is taken for a duplicate and the lock notice stays.
   */
  lemma PendingDecryptionStaysLocked(pending: Event, decrypted: Event, room: Option<RoomInfo>)
    requires pending.eventType == EncryptedType && !pending.decryptionFailure && pending.eventId != ""
    requires decrypted.eventId == pending.eventId && decrypted.eventType == MessageType
    requires decrypted.content.body != LockedBody(pending.decryptionReason)
    ensures var stale := RenderAsWritten(pending, room);
      && Upserted([stale], decrypted, room) == [stale]
      && stale.body != decrypted.content.body
  {
    var stale := RenderAsWritten(pending, room);
    assert QuerySelector([stale], EventIdAttr, decrypted.eventId) == Some(0);
  }

  /** `loadRoomMessages` keeps only these two event types. */
  predicate IsTimelineMessage(ev: Event) {
    ev.eventType == MessageType || ev.eventType == EncryptedType
  }

  /** The container after clearing it and upserting the room's timeline events in order. */
  function Loaded(events: seq<Event>, room: Option<RoomInfo>): seq<Entry> {
    if events == [] then []
    else
      var prev := Loaded(events[..|events| - 1], room);
      var ev := events[|events| - 1];
      if IsTimelineMessage(ev) then Upserted(prev, ev, room) else prev
  }

  lemma {:induction false} LoadedUnique(events: seq<Event>, room: Option<RoomInfo>)
    ensures UniqueEventIds(Loaded(events, room))
    ensures (forall j | 0 <= j < |events| :: events[j].txnId == "") ==>
      forall ev | ev in events && IsTimelineMessage(ev) && ev.eventId != "" :: ShowsEventId(Loaded(events, room), ev.eventId)
  {
    if events != [] {
      var pre := events[..|events| - 1];
      var ev := events[|events| - 1];
      LoadedUnique(pre, room);
      var prev := Loaded(pre, room);
      if IsTimelineMessage(ev) {
        UpsertKeepsIdentity(prev, ev, room);
      }
      if forall j | 0 <= j < |events| :: events[j].txnId == "" {
        forall e | e in events && IsTimelineMessage(e) && e.eventId != ""
          ensures ShowsEventId(Loaded(events, room), e.eventId)
        {
          if e != ev {
            assert e in pre;
            assert forall j | 0 <= j < |pre| :: pre[j].txnId == "" by {
              forall j | 0 <= j < |pre| ensures pre[j].txnId == "" { assert pre[j] == events[j]; }
            }
            assert ShowsEventId(prev, e.eventId);
            if IsTimelineMessage(ev) {
              UpsertKeepsWithoutTxn(prev, ev, room, e.eventId);
            }
          }
        }
      }
    }
  }

  /** Without a transaction id an upsert can only displace the entry showing its own event id. */
  lemma UpsertKeepsWithoutTxn(es: seq<Entry>, ev: Event, room: Option<RoomInfo>, id: string)
    requires ev.txnId == "" && id != "" && ShowsEventId(es, id)
    ensures ShowsEventId(Upserted(es, ev, room), id)
  {
    var k :| 0 <= k < |es| && es[k].eventId == id;
    UpsertReplacesMatch(es, ev, room);
    var r := Upserted(es, ev, room);
    match FindExisting(es, ev)
    case None =>
      assert r[k] == es[k];
    case Some(i) =>
      if !IsNoOp(es[i], ev) {
        assert es[i].eventId == ev.eventId;
        if k == i {
          assert r[|r| - 1].eventId == id;
        } else if k < i {
          assert r[k] == es[k];
        } else {
          assert r[k - 1] == es[k];
        }
      }
  }

  /**
   * A timeline whose messages have distinct event ids and no transaction
   * ids renders each message once, in timeline order.
   */
  lemma {:induction false} LoadedCleanTimeline(events: seq<Event>, room: Option<RoomInfo>)
    requires forall j | 0 <= j < |events| :: events[j].eventId != "" && events[j].txnId == ""
    requires forall i, j | 0 <= i < j < |events| :: events[i].eventId != events[j].eventId
    ensures Loaded(events, room) == RenderAll(Messages(events), room)
  {
    if events != [] {
      var pre := events[..|events| - 1];
      var ev := events[|events| - 1];
      LoadedCleanTimeline(pre, room);
      assert events == pre + [ev];
      MessagesAppend(pre, ev);
      if IsTimelineMessage(ev) {
        var prev := Loaded(pre, room);
        RenderAllIds(Messages(pre), room);
        MessagesFrom(pre);
        assert prev == RenderAll(Messages(pre), room);
        assert forall k | 0 <= k < |prev| :: prev[k].eventId != ev.eventId by {
          forall k | 0 <= k < |prev| ensures prev[k].eventId != ev.eventId {
            assert Messages(pre)[k] in pre;
            var j :| 0 <= j < |pre| && pre[j] == Messages(pre)[k];
            assert events[j] == pre[j];
            assert prev[k].eventId == pre[j].eventId;
          }
        }
        assert QuerySelector(prev, EventIdAttr, ev.eventId).None?;
        assert FindExisting(prev, ev).None?;
        assert Loaded(events, room) == prev + [Render(ev, room)];
        RenderAllAppend(Messages(pre), ev, room);
        assert Messages(events) == Messages(pre) + [ev];
      } else {
        assert Messages(events) == Messages(pre) + [] == Messages(pre);
      }
    }
  }

  function Messages(events: seq<Event>): (r: seq<Event>)
    ensures |r| <= |events|
  {
    if events == [] then []
    else Messages(events[..|events| - 1]) + (if IsTimelineMessage(events[|events| - 1]) then [events[|events| - 1]] else [])
  }

  lemma MessagesAppend(pre: seq<Event>, ev: Event)
    ensures Messages(pre + [ev]) == Messages(pre) + (if IsTimelineMessage(ev) then [ev] else [])
  {
    assert (pre + [ev])[..|pre|] == pre;
  }

  lemma {:induction false} MessagesFrom(events: seq<Event>)
    ensures forall k | 0 <= k < |Messages(events)| :: Messages(events)[k] in events
  {
    if events != [] {
      var pre := events[..|events| - 1];
      MessagesFrom(pre);
      var last := events[|events| - 1];
      assert Messages(events) == Messages(pre) + (if IsTimelineMessage(last) then [last] else []);
      assert forall x | x in pre :: x in events;
    }
  }

  function RenderAll(events: seq<Event>, room: Option<RoomInfo>): (r: seq<Entry>)
    ensures |r| == |events|
  {
    if events == [] then [] else RenderAll(events[..|events| - 1], room) + [Render(events[|events| - 1], room)]
  }

  lemma RenderAllAppend(events: seq<Event>, ev: Event, room: Option<RoomInfo>)
    ensures RenderAll(events + [ev], room) == RenderAll(events, room) + [Render(ev, room)]
  {
    assert (events + [ev])[..|events|] == events;
  }

  lemma {:induction false} RenderAllIds(events: seq<Event>, room: Option<RoomInfo>)
    ensures forall k | 0 <= k < |events| :: RenderAll(events, room)[k].eventId == events[k].eventId
  {
    if events != [] {
      RenderAllIds(events[..|events| - 1], room);
    }
  }

  /**
   * The messages container of the open room. Its invariant is the
   * identity rule: no event id is shown twice.
   */
  class Timeline {
    var entries: seq<Entry>

    ghost predicate Valid()
      reads this
    {
      UniqueEventIds(entries)
    }

    constructor ()
      ensures Valid() && entries == []
    {
      entries := [];
    }

    method AddMessageToTimeline(ev: Event, room: Option<RoomInfo>)
      requires Valid()
      modifies this
      ensures Valid()
      ensures entries == Upserted(old(entries), ev, room)
    {
      UpsertKeepsIdentity(entries, ev, room);
      var existing := FindExisting(entries, ev);
      if existing.Some? && IsNoOp(entries[existing.value], ev) {
        return;
      }
      var element := Render(ev, room);
      if existing.Some? {
        entries := RemoveAt(entries, existing.value);
      }
      entries := entries + [element];
    }

    /** `room` is None when `getRoom` finds nothing: the source returns before clearing. */
    method LoadRoomMessages(room: Option<RoomInfo>, timeline: seq<Event>)
      requires Valid()
      modifies this
      ensures Valid()
      ensures room.None? ==> entries == old(entries)
      ensures room.Some? ==> entries == Loaded(timeline, room)
    {
      if room.None? {
        return;
      }
      entries := [];
      for i := 0 to |timeline|
        invariant entries == Loaded(timeline[..i], room)
        invariant Valid()
      {
        assert timeline[..i + 1][..i] == timeline[..i];
        if IsTimelineMessage(timeline[i]) {
          AddMessageToTimeline(timeline[i], room);
        }
      }
      assert timeline[..|timeline|] == timeline;
    }
  }
}
