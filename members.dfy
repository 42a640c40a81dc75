/**
 * The members dialog's permission rules (app.js:1809-1827): the viewer's
 * power level and the room's kick, ban and state thresholds come from the
 * `m.room.power_levels` state event, each with its default when absent.
 */
module Members {
  import opened Wrappers

  /** The fields of `m.room.power_levels` the dialog reads; `None` stands for `undefined`. */
  datatype PowerLevels = PowerLevels(
    users: map<string, int>,
    usersDefault: Option<int>,
    kick: Option<int>,
    ban: Option<int>,
    stateDefault: Option<int>)

  /** A room without a power-levels event reads as `{}`. */
  const NoPowerLevels: PowerLevels := PowerLevels(map[], None, None, None, None)

  datatype Role = Admin | Mod | Member

  /** The threshold every absent level falls back to. */
  const DefaultThreshold: int := 50

  /**
   * The viewer's level: their own entry in `users`, else `users_default`,
   * else 0 (`users_default || 0` also turns an explicit 0 into 0).
   */
  function MyPowerLevel(pl: PowerLevels, me: string): (r: int)
    ensures me in pl.users ==> r == pl.users[me]
    ensures me !in pl.users && pl.usersDefault.Some? ==> r == pl.usersDefault.value
    ensures me !in pl.users && pl.usersDefault.None? ==> r == 0
  {
    if me in pl.users then pl.users[me] else pl.usersDefault.GetOr(0)
  }

  function KickLevel(pl: PowerLevels): int { pl.kick.GetOr(DefaultThreshold) }
  function BanLevel(pl: PowerLevels): int { pl.ban.GetOr(DefaultThreshold) }
  function StateLevel(pl: PowerLevels): int { pl.stateDefault.GetOr(DefaultThreshold) }

  /** The badge shown next to a member: 100 and up is Admin, 50 and up Mod. */
  function RoleOf(powerLevel: int): (r: Role)
    ensures r == Admin <==> powerLevel >= 100
    ensures r == Mod <==> 50 <= powerLevel < 100
    ensures r == Member <==> powerLevel < 50
  {
    if powerLevel >= 100 then Admin else if powerLevel >= 50 then Mod else Member
  }

  function RoleRank(r: Role): nat {
    match r
    case Member => 0
    case Mod => 1
    case Admin => 2
  }

  /** A higher power level never shows a lower role. */
  lemma RoleMonotone(a: int, b: int)
    requires a <= b
    ensures RoleRank(RoleOf(a)) <= RoleRank(RoleOf(b))
  {
  }

  /** The actions offered on one member of the list. */
  datatype Actions = Actions(kick: bool, ban: bool, promote: bool)

  /**
   * No action on oneself; otherwise each action needs the viewer to reach
   * its threshold and to outrank the member, and promotion also needs the
   * member to be below 100.
   */
  function MemberActions(pl: PowerLevels, me: string, memberId: string, memberLevel: int): (a: Actions)
    ensures memberId == me ==> a == Actions(false, false, false)
    ensures a.kick <==> memberId != me && MyPowerLevel(pl, me) >= KickLevel(pl) && MyPowerLevel(pl, me) > memberLevel
    ensures a.ban <==> memberId != me && MyPowerLevel(pl, me) >= BanLevel(pl) && MyPowerLevel(pl, me) > memberLevel
    ensures a.promote <==> memberId != me && MyPowerLevel(pl, me) >= StateLevel(pl) && MyPowerLevel(pl, me) > memberLevel && memberLevel < 100
  {
    if memberId == me then Actions(false, false, false)
    else
      var my := MyPowerLevel(pl, me);
      Actions(
        my >= KickLevel(pl) && my > memberLevel,
        my >= BanLevel(pl) && my > memberLevel,
        my >= StateLevel(pl) && my > memberLevel && memberLevel < 100)
  }

  /** Nobody is offered an action on a member of equal or higher power. */
  lemma NoActionOnPeers(pl: PowerLevels, me: string, memberId: string, memberLevel: int)
    requires memberLevel >= MyPowerLevel(pl, me)
    ensures MemberActions(pl, me, memberId, memberLevel) == Actions(false, false, false)
  {
  }

  /** Promotion is never offered on a member who already shows as Admin. */
  lemma NoPromotionOfAdmins(pl: PowerLevels, me: string, memberId: string, memberLevel: int)
    requires RoleOf(memberLevel) == Admin
    ensures !MemberActions(pl, me, memberId, memberLevel).promote
  {
  }

  /** Without a power-levels event nobody can act on anyone of level 0 or more. */
  lemma DefaultsOfferNothing(me: string, memberId: string, memberLevel: int)
    requires memberLevel >= 0
    ensures MemberActions(NoPowerLevels, me, memberId, memberLevel) == Actions(false, false, false)
  {
  }
}
