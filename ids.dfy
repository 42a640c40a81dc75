/**
 * Matrix user ids and room aliases as the client builds them from what the
 * user types: the `@localpart:server` completion of the invite and search
 * forms, the localpart taken for registration, the fallback display name of
 * a sender, and the alias a public room is given from its name.
 */
module Ids {
  import opened Wrappers
  import opened Text

  /** The homeserver the client completes bare user names with. */
  const HomeServer: string := "type-c-kmr.duckdns.org"

  /** Prefixes `@` and appends `:server` where they are missing; `id` is already trimmed. */
  function CompleteUserId(id: string): (r: string)
    ensures StartsWith(r, "@") && Includes(r, ":")
  {
    var withAt := if StartsWith(id, "@") then id else "@" + id;
    assert OccursAt(withAt + ":" + HomeServer, ":", |withAt|);
    if Includes(withAt, ":") then
      assert withAt[..1] == "@";
      withAt
    else
      assert (withAt + ":" + HomeServer)[..1] == withAt[..1];
      withAt + ":" + HomeServer
  }

  /**
   * The id the invite form sends (app.js:1768-1772): the trimmed input,
   * completed; nothing when the trimmed input is empty.
   */
  function NormaliseUserId(raw: string): (r: Option<string>)
    ensures r.None? <==> Trim(raw) == ""
    ensures r.Some? ==> StartsWith(r.value, "@") && Includes(r.value, ":")
  {
    var t := Trim(raw);
    if t == "" then None else Some(CompleteUserId(t))
  }

  lemma CompletedIsTrimmed(t: string)
    requires t != [] && Trim(t) == t
    ensures Trim(CompleteUserId(t)) == CompleteUserId(t)
  {
    TrimShape(t);
    var withAt := if StartsWith(t, "@") then t else "@" + t;
    assert withAt[0] == '@' && withAt[|withAt| - 1] == t[|t| - 1];
    if Includes(withAt, ":") {
      TrimOfTrimmed(withAt);
    } else {
      var r := withAt + ":" + HomeServer;
      assert r[0] == '@' && r[|r| - 1] == 'g';
      TrimOfTrimmed(r);
    }
  }

  /** Completing an id that is already complete changes nothing. */
  lemma {:induction false} NormaliseUserIdIdempotent(raw: string)
    requires NormaliseUserId(raw).Some?
    ensures NormaliseUserId(NormaliseUserId(raw).value) == NormaliseUserId(raw)
  {
    var t := Trim(raw);
    TrimIdempotent(raw);
    CompletedIsTrimmed(t);
    var r := CompleteUserId(t);
    assert r[..1] == "@";
  }

  /** `s.split(':')[0]`: everything before the first colon. */
  function BeforeColon(s: string): (r: string)
    ensures ':' !in r && StartsWith(s, r)
    ensures r == s <==> ':' !in s
    ensures r == s || (|r| < |s| && s[|r|] == ':')
  {
    match IndexOf(s, ":")
    case Some(i) =>
      assert s[i..i + 1] == ":";
      assert s[i] == s[i..i + 1][0];
      assert ':' in s;
      assert forall j | 0 <= j < i :: !OccursAt(s, ":", j) && s[j..j + 1] == [s[j]];
      s[..i]
    case None =>
      assert forall j | 0 <= j < |s| :: !OccursAt(s, ":", j) && s[j..j + 1] == [s[j]];
      s
  }

  /** The localpart registration sends (app.js:496-498): drop one leading `@`, keep what precedes the first colon. */
  function Localpart(userName: string): (r: string)
    ensures ':' !in r
    ensures !StartsWith(userName, "@") && ':' !in userName ==> r == userName
  {
    var s := if StartsWith(userName, "@") then userName[1..] else userName;
    IncludesChar(s, ':');
    if Includes(s, ":") then BeforeColon(s) else s
  }

  /** The display name used when the sender has none (app.js:1979): `userId.split(':')[0].substring(1)`. */
  function SenderFallbackName(userId: string): (r: string)
    ensures ':' !in r
  {
    var head := BeforeColon(userId);
    if head == [] then [] else head[1..]
  }

  /** A colon-free prefix that ends at a colon or at the end of `u` is `BeforeColon(u)`. */
  lemma BeforeColonUnique(u: string, a: string)
    requires StartsWith(u, a) && ':' !in a
    requires a == u || (|a| < |u| && u[|a|] == ':')
    ensures BeforeColon(u) == a
  {
    var b := BeforeColon(u);
    if |a| != |b| {
      assert false;
    }
    assert a == u[..|a|] && b == u[..|b|];
  }

  /** For an id starting with `@` the fallback name is its localpart. */
  lemma FallbackNameIsLocalpart(userId: string)
    requires StartsWith(userId, "@")
    ensures SenderFallbackName(userId) == Localpart(userId)
  {
    var s := userId[1..];
    var b := BeforeColon(s);
    IncludesChar(s, ':');
    assert Localpart(userId) == b;
    assert userId == "@" + s;
    var a := "@" + b;
    assert s[..|b|] == b;
    assert userId[..|a|] == a;
    if b != s {
      assert userId[|a|] == s[|b|];
    }
    BeforeColonUnique(userId, a);
    assert SenderFallbackName(userId) == a[1..];
  }

  /** The localpart of a completed user name is the name the user typed. */
  lemma LocalpartOfNormalised(name: string)
    requires Trim(name) == name && name != []
    requires !StartsWith(name, "@") && ':' !in name
    ensures Localpart(NormaliseUserId(name).value) == name
  {
    var withAt := "@" + name;
    assert withAt[1..] == name;
    IncludesChar(withAt, ':');
    var r := withAt + ":" + HomeServer;
    assert NormaliseUserId(name).value == r;
    assert r[..1] == "@";
    var s := r[1..];
    assert s == name + ":" + HomeServer;
    assert s[..|name|] == name && s[|name|] == ':';
    IncludesChar(s, ':');
    BeforeColonUnique(s, name);
  }

  predicate IsAliasChar(c: char) {
    'a' <= c <= 'z' || '0' <= c <= '9'
  }

  /** `name.toLowerCase().replace(/[^a-z0-9]/g, '')` over ASCII letters. */
  function SanitiseAlias(name: string): (r: string)
    ensures forall i | 0 <= i < |r| :: IsAliasChar(r[i])
    ensures |r| <= |name|
  {
    if name == [] then []
    else
      var c := LowerAsciiChar(name[0]);
      (if IsAliasChar(c) then [c] else []) + SanitiseAlias(name[1..])
  }

  /** Sanitising keeps exactly the letters and digits of the name: a second pass finds nothing to remove. */
  lemma {:induction false} SanitiseAliasIdempotent(name: string)
    ensures SanitiseAlias(SanitiseAlias(name)) == SanitiseAlias(name)
  {
    if name != [] {
      var c := LowerAsciiChar(name[0]);
      var rest := SanitiseAlias(name[1..]);
      SanitiseAliasIdempotent(name[1..]);
      if IsAliasChar(c) {
        var r := [c] + rest;
        assert r[0] == c && r[1..] == rest;
        assert LowerAsciiChar(c) == c;
        assert SanitiseAlias(r) == [c] + SanitiseAlias(rest);
        assert SanitiseAlias(name) == r;
      } else {
        assert SanitiseAlias(name) == [] + rest == rest;
      }
    }
  }

  /** Every ASCII letter or digit of the name survives, lower-cased and in order. */
  lemma {:induction false} SanitiseAliasKeepsAlnum(name: string)
    requires forall i | 0 <= i < |name| :: IsAliasChar(LowerAsciiChar(name[i]))
    ensures SanitiseAlias(name) == LowerAscii(name)
  {
    if name != [] {
      SanitiseAliasKeepsAlnum(name[1..]);
      assert LowerAscii(name) == [LowerAsciiChar(name[0])] + LowerAscii(name[1..]);
    }
  }

  /** The alias asked for when creating a public room (app.js:1727-1730): only when it is longer than 3. */
  function PublicRoomAlias(roomName: string): (r: Option<string>)
    ensures r.Some? <==> |SanitiseAlias(roomName)| > 3
    ensures r.Some? ==> r.value == SanitiseAlias(roomName)
  {
    var alias := SanitiseAlias(roomName);
    if |alias| > 3 then Some(alias) else None
  }
}
