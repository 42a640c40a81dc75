/**
 * The recently opened rooms shown on the summary screen:
 * `trackRecentRoom` (app.js:2725-2728) keeps a most-recently-used list of
 * at most five room ids.
 */
module Recent {
  const MaxRecent: nat := 5

  /** `list.filter(id => id !== roomId)` */
  function Without(list: seq<string>, roomId: string): (r: seq<string>)
    ensures forall x :: x in r <==> x in list && x != roomId
    ensures |r| <= |list|
  {
    if list == [] then []
    else if list[0] == roomId then Without(list[1..], roomId)
    else [list[0]] + Without(list[1..], roomId)
  }

  /** Filtering works piecewise, so the ids that stay keep their relative order. */
  lemma {:induction false} WithoutConcat(a: seq<string>, b: seq<string>, roomId: string)
    ensures Without(a + b, roomId) == Without(a, roomId) + Without(b, roomId)
  {
    if a == [] {
      assert a + b == b;
    } else {
      assert (a + b)[1..] == a[1..] + b;
      WithoutConcat(a[1..], b, roomId);
    }
  }

  lemma {:induction false} WithoutAbsent(list: seq<string>, roomId: string)
    requires roomId !in list
    ensures Without(list, roomId) == list
  {
    if list != [] {
      WithoutAbsent(list[1..], roomId);
    }
  }

  function Min(a: nat, b: nat): nat {
    if a < b then a else b
  }

  /** The list after `trackRecentRoom(roomId)`; an empty id is ignored. */
  function Tracked(list: seq<string>, roomId: string): (r: seq<string>)
    ensures roomId == "" ==> r == list
    ensures roomId != "" ==> |r| == Min(MaxRecent, |Without(list, roomId)| + 1)
    ensures roomId != "" ==> |r| <= MaxRecent && r != [] && r[0] == roomId && roomId !in r[1..]
    ensures roomId != "" ==> r[1..] == Without(list, roomId)[..|r| - 1]
  {
    if roomId == "" then list
    else
      var moved := [roomId] + Without(list, roomId);
      var r := moved[..Min(MaxRecent, |moved|)];
      assert r[1..] == Without(list, roomId)[..|r| - 1];
      assert forall x | x in r[1..] :: x in Without(list, roomId);
      r
  }

  predicate NoDuplicates(list: seq<string>) {
    forall i, j | 0 <= i < j < |list| :: list[i] != list[j]
  }

  lemma {:induction false} WithoutKeepsDistinct(list: seq<string>, roomId: string)
    requires NoDuplicates(list)
    ensures NoDuplicates(Without(list, roomId))
  {
    if list != [] {
      WithoutKeepsDistinct(list[1..], roomId);
      assert list[0] !in list[1..];
    }
  }

  /** Tracking keeps the list free of repeated ids. */
  lemma TrackedKeepsDistinct(list: seq<string>, roomId: string)
    requires NoDuplicates(list)
    ensures NoDuplicates(Tracked(list, roomId))
  {
    if roomId != "" {
      var w := Without(list, roomId);
      WithoutKeepsDistinct(list, roomId);
      var r := Tracked(list, roomId);
      forall i, j | 0 <= i < j < |r|
        ensures r[i] != r[j]
      {
        if i == 0 {
          assert r[j] == r[1..][j - 1];
        } else {
          assert r[i] == w[i - 1] && r[j] == w[j - 1];
        }
      }
    }
  }

  /** Opening the same room again changes nothing. */
  lemma TrackedIdempotent(list: seq<string>, roomId: string)
    ensures Tracked(Tracked(list, roomId), roomId) == Tracked(list, roomId)
  {
    if roomId != "" {
      var r := Tracked(list, roomId);
      assert r == [r[0]] + r[1..];
      WithoutConcat([r[0]], r[1..], roomId);
      WithoutAbsent(r[1..], roomId);
      assert Without([r[0]], roomId) == [];
      assert Without(r, roomId) == r[1..];
    }
  }

  /** The list held by the client, newest first. */
  class RecentRooms {
    var recentRooms: seq<string>

    predicate Valid()
      reads this
    {
      |recentRooms| <= MaxRecent && NoDuplicates(recentRooms)
    }

    constructor()
      ensures Valid() && recentRooms == []
    {
      recentRooms := [];
    }

    method TrackRecentRoom(roomId: string)
      modifies this
      requires Valid()
      ensures recentRooms == Tracked(old(recentRooms), roomId)
      ensures Valid()
    {
      if roomId == "" {
        return;
      }
      var moved := [roomId] + Without(recentRooms, roomId);
      recentRooms := moved[..Min(MaxRecent, |moved|)];
      TrackedKeepsDistinct(old(recentRooms), roomId);
    }
  }
}
