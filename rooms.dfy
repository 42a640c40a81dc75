/**
 * Room classification and the room list: `isDMRoom` (app.js:1467-1496),
 * which follows the Direct Messaging module of the Matrix Client-Server
 * API (the `m.direct` account data maps each counterpart user to room
 * ids); `markRoomAsDirect` (app.js:1671-1685); `findExistingDM`
 * (app.js:1658-1669); the room-list filters and badge (app.js:911-931,
 * app.js:971-976); `getLastMessage` (app.js:1000-1015); and the
 * notification gate of `showNotification` (app.js:2585-2595).
 */
module Rooms {
  import opened Wrappers
  import opened Timeline

  /** The content of `m.direct`: counterpart user id to room ids; `{}` when the account has none. */
  type DirectIndex = map<string, seq<string>>

  /** The parts of an SDK room the client reads. */
  datatype Room = Room(
    roomId: string,
    membership: string,          // getMyMembership()
    joinedCount: nat,            // getJoinedMemberCount()
    invitedCount: nat,           // getInvitedMemberCount()
    nameState: Option<string>,   // the m.room.name state event's content.name ("" when unset); None without the event
    joinedMembers: seq<string>,  // user ids of getJoinedMembers()
    unread: int,                 // getUnreadNotificationCount('total')
    timeline: seq<Event>)

  predicate InDirectIndex(direct: DirectIndex, roomId: string) {
    exists u | u in direct :: roomId in direct[u]
  }

  predicate IsUnnamed(room: Room) {
    room.nameState.None? || room.nameState.value == ""
  }

  /**
   * First match wins: a room listed under any user in `m.direct` is a DM;
   * otherwise a room of at most two joined or invited members without a
   * name is one; everything else is a group.
   */
  function IsDMRoom(direct: DirectIndex, room: Room): (dm: bool)
    ensures InDirectIndex(direct, room.roomId) ==> dm
    ensures !InDirectIndex(direct, room.roomId) ==>
      (dm <==> room.joinedCount + room.invitedCount <= 2 && IsUnnamed(room))
  {
    if InDirectIndex(direct, room.roomId) then true
    else room.joinedCount + room.invitedCount <= 2 && IsUnnamed(room)
  }

  /**
   * The classifications the heuristic is meant to give: an unnamed pair is
   * a DM, the same room once named is a group, five members make a group
   * whatever the name, and an unnamed room of one joined member and one
   * invitee is a DM; none of it applies to a room listed in `m.direct`.
   */
  lemma ClassifierCases(direct: DirectIndex, room: Room, name: string)
    requires !InDirectIndex(direct, room.roomId)
    ensures room.joinedCount == 2 && room.invitedCount == 0 && IsUnnamed(room) ==> IsDMRoom(direct, room)
    ensures room.joinedCount == 2 && name != "" ==> !IsDMRoom(direct, room.(nameState := Some(name)))
    ensures room.joinedCount >= 5 ==> !IsDMRoom(direct, room)
    ensures room.joinedCount == 1 && room.invitedCount == 1 && IsUnnamed(room) ==> IsDMRoom(direct, room)
  {
  }

  /** The index `markRoomAsDirect` sends: `roomId` added under `userId` unless it is already there. */
  function MarkedDirect(direct: DirectIndex, roomId: string, userId: string): (r: DirectIndex)
    ensures r.Keys == direct.Keys + {userId}
    ensures forall u | u in direct && u != userId :: r[u] == direct[u]
    ensures roomId in r[userId]
    ensures userId in direct && roomId in direct[userId] ==> r[userId] == direct[userId]
    ensures userId in direct && roomId !in direct[userId] ==> r[userId] == direct[userId] + [roomId]
    ensures userId !in direct ==> r[userId] == [roomId]
  {
    var rooms := if userId in direct then direct[userId] else [];
    direct[userId := if roomId in rooms then rooms else rooms + [roomId]]
  }

  method MarkRoomAsDirect(direct: DirectIndex, roomId: string, userId: string) returns (dmRooms: DirectIndex)
    ensures dmRooms == MarkedDirect(direct, roomId, userId)
  {
    dmRooms := direct;
    if userId !in dmRooms {
      dmRooms := dmRooms[userId := []];
    }
    if roomId !in dmRooms[userId] {
      dmRooms := dmRooms[userId := dmRooms[userId] + [roomId]];
    }
  }

  /**
   * Once marked, the room classifies as a DM whatever its members and name,
   * rooms that were DMs stay DMs, and marking again changes nothing.
   */
  lemma MarkedRoomIsDM(direct: DirectIndex, room: Room, userId: string, other: Room)
    ensures IsDMRoom(MarkedDirect(direct, room.roomId, userId), room)
    ensures IsDMRoom(direct, other) ==> IsDMRoom(MarkedDirect(direct, room.roomId, userId), other)
    ensures MarkedDirect(MarkedDirect(direct, room.roomId, userId), room.roomId, userId) == MarkedDirect(direct, room.roomId, userId)
  {
    var m := MarkedDirect(direct, room.roomId, userId);
    assert room.roomId in m[userId];
    if InDirectIndex(direct, other.roomId) {
      var u :| u in direct && other.roomId in direct[u];
      if u == userId {
        assert other.roomId in m[userId];
      } else {
        assert m[u] == direct[u];
      }
    }
  }

  /** `findExistingDM`: the id of the first DM room, in `getRooms()` order, that `userId` has joined. */
  method FindExistingDM(direct: DirectIndex, rooms: seq<Room>, userId: string) returns (found: Option<string>)
    ensures found.None? <==> forall i | 0 <= i < |rooms| :: !(IsDMRoom(direct, rooms[i]) && userId in rooms[i].joinedMembers)
    ensures found.Some? ==> exists i | 0 <= i < |rooms| ::
      && IsDMRoom(direct, rooms[i]) && userId in rooms[i].joinedMembers && found.value == rooms[i].roomId
      && forall j | 0 <= j < i :: !(IsDMRoom(direct, rooms[j]) && userId in rooms[j].joinedMembers)
  {
    for i := 0 to |rooms|
      invariant forall j | 0 <= j < i :: !(IsDMRoom(direct, rooms[j]) && userId in rooms[j].joinedMembers)
    {
      if IsDMRoom(direct, rooms[i]) && userId in rooms[i].joinedMembers {
        return Some(rooms[i].roomId);
      }
    }
    return None;
  }

  /** The rooms the list shows at all: joined or invited. */
  predicate IsListed(room: Room) {
    room.membership == "join" || room.membership == "invite"
  }

  /** The rooms of the current tab, in `getRooms()` order: DMs on the 'dms' tab, the rest elsewhere. */
  function TabRooms(direct: DirectIndex, rooms: seq<Room>, tab: string): (r: seq<Room>)
    ensures |r| <= |rooms|
    ensures forall x | x in r :: x in rooms && IsListed(x) && (IsDMRoom(direct, x) <==> tab == "dms")
  {
    if rooms == [] then []
    else
      var rest := TabRooms(direct, rooms[1..], tab);
      if IsListed(rooms[0]) && (IsDMRoom(direct, rooms[0]) <==> tab == "dms") then [rooms[0]] + rest else rest
  }

  function CountListed(rooms: seq<Room>): nat {
    if rooms == [] then 0 else (if IsListed(rooms[0]) then 1 else 0) + CountListed(rooms[1..])
  }

  /** The 'dms' tab and any other tab split the listed rooms between them: each listed room is on exactly one. */
  lemma {:induction false} TabsPartition(direct: DirectIndex, rooms: seq<Room>, other: string)
    requires other != "dms"
    ensures |TabRooms(direct, rooms, "dms")| + |TabRooms(direct, rooms, other)| == CountListed(rooms)
    ensures forall x | x in rooms && IsListed(x) :: x in TabRooms(direct, rooms, "dms") || x in TabRooms(direct, rooms, other)
  {
    if rooms != [] {
      TabsPartition(direct, rooms[1..], other);
      assert forall x | x in rooms :: x == rooms[0] || x in rooms[1..];
    }
  }

  /** `String(roomId) === String(this.currentRoomId)`: with no room open the comparison is against "null". */
  predicate IsActive(roomId: string, currentRoomId: Option<string>) {
    roomId == currentRoomId.GetOr("null")
  }

  /** The sidebar badge: unread messages in a room that is not the open one. */
  predicate ShowBadge(room: Room, currentRoomId: Option<string>) {
    room.unread > 0 && !IsActive(room.roomId, currentRoomId)
  }

  /** The open room never shows a badge, and another room shows one exactly when it has unread messages. */
  lemma BadgeRule(room: Room, current: string, other: string)
    requires other != room.roomId
    ensures !ShowBadge(room, Some(room.roomId))
    ensures ShowBadge(room, Some(other)) <==> room.unread > 0
  {
  }

  const NoMessages: string := "Нет сообщений"
  const MessageFallback: string := "Сообщение"
  const EncryptedFallback: string := "\U{1F512} [Зашифровано]"

  /** The preview line of one message or encrypted event: its body, or a fallback. */
  function PreviewOf(ev: Event): string
    requires IsTimelineMessage(ev)
  {
    if ev.content.body != "" then ev.content.body
    else if ev.eventType == MessageType then MessageFallback
    else EncryptedFallback
  }

  /** `getLastMessage`: scans the room's timeline from the end for a message or encrypted event. */
  method GetLastMessage(timeline: seq<Event>) returns (preview: string)
    ensures (forall i | 0 <= i < |timeline| :: !IsTimelineMessage(timeline[i])) ==> preview == NoMessages
    ensures forall k | 0 <= k < |timeline| && IsTimelineMessage(timeline[k]) ::
      (forall j | k < j < |timeline| :: !IsTimelineMessage(timeline[j])) ==> preview == PreviewOf(timeline[k])
  {
    if |timeline| == 0 {
      return NoMessages;
    }
    var i := |timeline|;
    while i > 0
      invariant 0 <= i <= |timeline|
      invariant forall j | i <= j < |timeline| :: !IsTimelineMessage(timeline[j])
    {
      i := i - 1;
      var ev := timeline[i];
      if ev.eventType == MessageType {
        return if ev.content.body != "" then ev.content.body else MessageFallback;
      } else if ev.eventType == EncryptedType {
        return if ev.content.body != "" then ev.content.body else EncryptedFallback;
      }
    }
    return NoMessages;
  }

  /**
   * The gate of `showNotification`: nothing for one's own events, nothing
   * for the open room while the window has focus, otherwise notify.
   */
  function ShouldNotify(sender: string, myUserId: string, eventRoomId: string,
                        currentRoomId: Option<string>, hasFocus: bool): (notify: bool)
    ensures sender == myUserId ==> !notify
    ensures sender != myUserId ==> (notify <==> !(currentRoomId == Some(eventRoomId) && hasFocus))
  {
    if sender == myUserId then false
    else if currentRoomId == Some(eventRoomId) && hasFocus then false
    else true
  }

  /**
   * The gate on the cases it exists for: an event of the open, focused room
   * stays silent; the same event while another room is open, or while the
   * window is in the background, notifies; one's own events never do.
   */
  lemma NotificationCases(sender: string, me: string, r: string, s: string)
    requires sender != me && r != s
    ensures !ShouldNotify(sender, me, r, Some(r), true)
    ensures ShouldNotify(sender, me, r, Some(s), true)
    ensures ShouldNotify(sender, me, r, Some(r), false)
    ensures ShouldNotify(sender, me, r, None, true)
    ensures forall room, cur, focus :: !ShouldNotify(me, me, room, cur, focus)
  {
  }
}
