/**
 * The PIN lock (app.js:3066-3234): a four-key buffer fed by the on-screen
 * keypad, the four modes of the lock screen, and the stored hash of the
 * PIN (`app_passcode_hash` in local storage, kept here as a field).
 */
module Passcode {
  import opened Wrappers
  import opened Text

  const Two31: int := 0x8000_0000
  const Two32: int := 0x1_0000_0000

  /** ECMAScript ToInt32: the integer modulo 2^32, read as a signed 32-bit value. */
  function ToInt32(x: int): (r: int)
    ensures -Two31 <= r < Two31
    ensures (r - x) % Two32 == 0
  {
    var m := x % Two32;
    if m >= Two31 then m - Two32 else m
  }

  lemma ToInt32Congruent(x: int, y: int)
    requires (x - y) % Two32 == 0
    ensures ToInt32(x) == ToInt32(y)
  {
    var k := (x - y) / Two32;
    assert x == y + k * Two32;
    ShiftedByMultiple(y, k);
  }

  /** Adding a multiple of 2^32 does not change the 32-bit value. */
  lemma ShiftedByMultiple(y: int, k: int)
    ensures ToInt32(y + k * Two32) == ToInt32(y)
  {
    assert (y + k * Two32) % Two32 == y % Two32;
  }

  /** One step of the fold commutes with the wrap-around of the accumulator. */
  lemma WrapStep(p: int, c: int)
    ensures ToInt32(31 * ToInt32(p) + c) == ToInt32(31 * p + c)
  {
    var t := ToInt32(p);
    var d := (t - p) / Two32;
    assert t == p + d * Two32;
    assert 31 * t + c == (31 * p + c) + (31 * d) * Two32;
    ShiftedByMultiple(31 * p + c, 31 * d);
  }

  /** The polynomial `hashPasscode` computes before any wrap-around: code units in base 31. */
  function Poly(s: string): int {
    if s == [] then 0 else 31 * Poly(s[..|s| - 1]) + s[|s| - 1] as int
  }

  /** The accumulator of `hashPasscode` after the characters of `s`: `hash = 31 * hash + code`, kept to 32 bits. */
  function HashValue(s: string): (h: int)
    ensures -Two31 <= h < Two31
  {
    if s == [] then 0 else ToInt32(31 * HashValue(s[..|s| - 1]) + s[|s| - 1] as int)
  }

  /** The fold equals the polynomial taken modulo 2^32 once, at the end. */
  lemma {:induction false} HashIsWrappedPoly(s: string)
    ensures HashValue(s) == ToInt32(Poly(s))
  {
    if s != [] {
      var pre := s[..|s| - 1];
      HashIsWrappedPoly(pre);
      WrapStep(Poly(pre), s[|s| - 1] as int);
    }
  }

  function HexDigit(d: nat): (c: char)
    requires d < 16
  {
    "0123456789abcdef"[d]
  }

  predicate IsHexDigit(c: char) {
    '0' <= c <= '9' || 'a' <= c <= 'f'
  }

  function HexValue(c: char): (d: nat)
    requires IsHexDigit(c)
    ensures d < 16 && HexDigit(d) == c
  {
    if c <= '9' then (c as int - '0' as int) as nat else (c as int - 'a' as int + 10) as nat
  }

  /** `n.toString(16)`: lowercase hexadecimal digits, no leading zeros. */
  function Hex(n: nat): (r: string)
    ensures 1 <= |r| && forall i | 0 <= i < |r| :: IsHexDigit(r[i])
  {
    if n < 16 then [HexDigit(n)] else Hex(n / 16) + [HexDigit(n % 16)]
  }

  function ParseHex(s: string): nat
    requires forall i | 0 <= i < |s| :: IsHexDigit(s[i])
  {
    if s == [] then 0 else ParseHex(s[..|s| - 1]) * 16 + HexValue(s[|s| - 1])
  }

  lemma {:induction false} HexRoundTrip(n: nat)
    ensures ParseHex(Hex(n)) == n
  {
    if n >= 16 {
      var r := Hex(n);
      assert r[..|r| - 1] == Hex(n / 16);
      HexRoundTrip(n / 16);
    }
  }

  function Abs(x: int): nat {
    if x < 0 then -x else x
  }

  /** `hashPasscode(pin)` */
  function PinHash(pin: string): string {
    "PIN_" + Hex(Abs(HashValue(pin)))
  }

  /** `hashPasscode`: the accumulator loop over the UTF-16 code units of the PIN. */
  method HashPasscode(pin: string) returns (hashed: string)
    ensures hashed == PinHash(pin)
  {
    var hash := 0;
    for i := 0 to |pin|
      invariant hash == HashValue(pin[..i])
    {
      var code := pin[i] as int;
      assert pin[..i + 1][..i] == pin[..i];
      ToInt32Congruent(ToInt32(hash * 32) - hash + code, 31 * hash + code);
      hash := ToInt32(ToInt32(hash * 32) - hash + code);
    }
    assert pin[..|pin|] == pin;
    hashed := "PIN_" + Hex(Abs(hash));
  }

  /** A PIN the keypad can produce: four digits. */
  predicate IsPin(p: string) {
    |p| == 4 && AllDigits(p)
  }

  lemma PinHashValue(p: string)
    requires IsPin(p)
    ensures HashValue(p) == 29791 * (p[0] as int) + 961 * (p[1] as int) + 31 * (p[2] as int) + p[3] as int
  {
    assert IsDigit(p[0]) && IsDigit(p[1]) && IsDigit(p[2]) && IsDigit(p[3]);
    assert p[..1][..0] == [];
    assert HashValue(p[..1]) == p[0] as int;
    assert p[..2][..1] == p[..1];
    assert HashValue(p[..2]) == 31 * (p[0] as int) + p[1] as int;
    assert p[..3][..2] == p[..2];
    assert HashValue(p[..3]) == 961 * (p[0] as int) + 31 * (p[1] as int) + p[2] as int;
    assert p[..4] == p;
  }

  lemma BaseStep(a: int, b: int, x: int, y: int)
    requires 48 <= x <= 57 && 48 <= y <= 57 && a * 31 + x == b * 31 + y
    ensures a == b && x == y
  {
  }

  /** Different four-digit PINs never share a stored hash. */
  lemma PinHashInjective(p: string, q: string)
    requires IsPin(p) && IsPin(q) && PinHash(p) == PinHash(q)
    ensures p == q
  {
    PinHashValue(p);
    PinHashValue(q);
    assert PinHash(p)[4..] == Hex(Abs(HashValue(p)));
    assert PinHash(q)[4..] == Hex(Abs(HashValue(q)));
    HexRoundTrip(Abs(HashValue(p)));
    HexRoundTrip(Abs(HashValue(q)));
    assert IsDigit(p[0]) && IsDigit(p[1]) && IsDigit(p[2]) && IsDigit(p[3]);
    assert IsDigit(q[0]) && IsDigit(q[1]) && IsDigit(q[2]) && IsDigit(q[3]);
    var p0, p1, p2, p3 := p[0] as int, p[1] as int, p[2] as int, p[3] as int;
    var q0, q1, q2, q3 := q[0] as int, q[1] as int, q[2] as int, q[3] as int;
    BaseStep(961 * p0 + 31 * p1 + p2, 961 * q0 + 31 * q1 + q2, p3, q3);
    BaseStep(31 * p0 + p1, 31 * q0 + q1, p2, q2);
    BaseStep(p0, q0, p1, q1);
  }

  datatype Mode = Unlock | Setup | Confirm | Disable

  /** The lock screen's state: the fields of the client plus the stored hash, the overlay and the settings toggle. */
  datatype Lock = Lock(buffer: string, mode: Mode, temp: string, stored: Option<string>,
                       overlayShown: bool, toggleChecked: bool)

  /** A stored hash counts as set when it is a non-empty string. */
  predicate LockEnabled(s: Lock) {
    s.stored.Some? && s.stored.value != ""
  }

  function StartSetup(s: Lock): Lock {
    s.(mode := Setup, buffer := "", temp := "", overlayShown := true)
  }

  function StartDisable(s: Lock): Lock {
    s.(mode := Disable, buffer := "", overlayShown := true)
  }

  /** A keypad digit: ignored once four are entered. */
  function Input(s: Lock, digit: char): Lock {
    if |s.buffer| >= 4 then s else s.(buffer := s.buffer + [digit])
  }

  function Delete(s: Lock): Lock {
    if |s.buffer| > 0 then s.(buffer := s.buffer[..|s.buffer| - 1]) else s
  }

  function Hidden(s: Lock): Lock {
    s.(overlayShown := false, buffer := "", mode := Unlock)
  }

  function Shaken(s: Lock): Lock {
    s.(buffer := "")
  }

  function Cancelled(s: Lock): Lock {
    Hidden(s).(toggleChecked := LockEnabled(s))
  }

  function AppLocked(s: Lock): Lock {
    if LockEnabled(s) then s.(mode := Unlock, buffer := "", overlayShown := true, toggleChecked := true) else s
  }

  /** `checkPasscode` as written, whatever the length of the buffer when its timer fires. */
  function CheckAsWritten(s: Lock): Lock {
    match s.mode
    case Unlock => if s.stored == Some(PinHash(s.buffer)) then Hidden(s) else Shaken(s)
    case Setup => s.(temp := s.buffer, buffer := "", mode := Confirm)
    case Confirm =>
      if s.buffer == s.temp then Hidden(s.(stored := Some(PinHash(s.buffer)), toggleChecked := true))
      else s.(buffer := "", mode := Setup)
    case Disable =>
      if s.stored == Some(PinHash(s.buffer)) then Hidden(s.(stored := None, toggleChecked := false)) else Shaken(s)
  }

  /** `checkPasscode` acting only on a full buffer: a check whose buffer was shortened or emptied meanwhile does nothing. */
  function Check(s: Lock): Lock {
    if |s.buffer| == 4 then CheckAsWritten(s) else s
  }

  /** The digits typed one after another. */
  function TypeKeys(s: Lock, keys: string): Lock
    decreases |keys|
  {
    if keys == [] then s else TypeKeys(Input(s, keys[0]), keys[1..])
  }

  /** The buffer never holds more than four digits, and the keypad only ever adds digits. */
  predicate BufferOk(s: Lock) {
    |s.buffer| <= 4 && AllDigits(s.buffer)
  }

  /** The stored hash, if any, is the hash of some four-digit PIN. */
  ghost predicate StoredIsPin(s: Lock) {
    s.stored.None? || exists p :: IsPin(p) && s.stored.value == PinHash(p)
  }

  ghost predicate Consistent(s: Lock) {
    BufferOk(s) && (s.temp == "" || IsPin(s.temp)) && StoredIsPin(s)
  }

  /** The keypad and the delete key keep the buffer within four digits. */
  lemma KeysKeepBuffer(s: Lock, digit: char)
    requires BufferOk(s) && IsDigit(digit)
    ensures BufferOk(Input(s, digit)) && BufferOk(Delete(s))
    ensures |s.buffer| < 4 ==> Input(s, digit).buffer == s.buffer + [digit]
    ensures |s.buffer| > 0 ==> Delete(s).buffer + [s.buffer[|s.buffer| - 1]] == s.buffer
  {
  }

  /** Every operation keeps the lock consistent; in particular only four-digit PINs are ever stored. */
  lemma OperationsKeepConsistent(s: Lock, digit: char)
    requires Consistent(s) && IsDigit(digit)
    ensures Consistent(Input(s, digit)) && Consistent(Delete(s)) && Consistent(Check(s))
    ensures Consistent(StartSetup(s)) && Consistent(StartDisable(s)) && Consistent(Hidden(s))
    ensures Consistent(Shaken(s)) && Consistent(Cancelled(s)) && Consistent(AppLocked(s))
  {
    KeysKeepBuffer(s, digit);
    SameStoredConsistent(s, Input(s, digit));
    SameStoredConsistent(s, Delete(s));
    SameStoredConsistent(s, StartDisable(s));
    SameStoredConsistent(s, Hidden(s));
    SameStoredConsistent(s, Shaken(s));
    SameStoredConsistent(s, Cancelled(s));
    SameStoredConsistent(s, AppLocked(s));
    assert Consistent(StartSetup(s)) by {
      assert StartSetup(s).stored == s.stored;
    }
    CheckKeepsConsistent(s);
  }

  lemma SameStoredConsistent(s: Lock, t: Lock)
    requires Consistent(s) && t.stored == s.stored && BufferOk(t) && (t.temp == s.temp || t.temp == "")
    ensures Consistent(t)
  {
  }

  lemma CheckKeepsConsistent(s: Lock)
    requires Consistent(s)
    ensures Consistent(Check(s))
  {
    var t := Check(s);
    if |s.buffer| == 4 {
      match s.mode
      case Unlock => SameStoredConsistent(s, t);
      case Setup => assert t.stored == s.stored && IsPin(t.temp);
      case Confirm =>
        if s.buffer == s.temp {
          assert IsPin(s.buffer) && t.stored == Some(PinHash(s.buffer));
        } else {
          SameStoredConsistent(s, t);
        }
      case Disable =>
        if s.stored == Some(PinHash(s.buffer)) {
          assert t.stored.None?;
        } else {
          SameStoredConsistent(s, t);
        }
    }
  }

  lemma {:induction false} TypeKeysAppends(s: Lock, keys: string)
    requires |s.buffer| + |keys| <= 4
    ensures TypeKeys(s, keys) == s.(buffer := s.buffer + keys)
    decreases |keys|
  {
    if keys != [] {
      TypeKeysAppends(Input(s, keys[0]), keys[1..]);
      assert s.buffer + [keys[0]] + keys[1..] == s.buffer + keys;
    }
  }

  /**
   * Setting a PIN: typed twice after `startPasscodeSetup`, it is stored
   * and the overlay closes; once the app locks, the same PIN opens it and
   * any other four-digit PIN leaves it locked with the buffer cleared.
   */
  lemma EnrolThenUnlock(s0: Lock, pin: string, other: string)
    requires IsPin(pin) && IsPin(other) && other != pin
    ensures var enrolled := Check(TypeKeys(Check(TypeKeys(StartSetup(s0), pin)), pin));
      && enrolled.stored == Some(PinHash(pin)) && enrolled.mode == Unlock && enrolled.buffer == ""
      && !enrolled.overlayShown && enrolled.toggleChecked
      && !Check(TypeKeys(AppLocked(enrolled), pin)).overlayShown
      && Check(TypeKeys(AppLocked(enrolled), other)).overlayShown
      && Check(TypeKeys(AppLocked(enrolled), other)).buffer == ""
  {
    var enrolled := Enrol(s0, pin);
    var locked := AppLocked(enrolled);
    assert locked == enrolled.(overlayShown := true);
    UnlockAttempt(locked, pin, pin);
    UnlockAttempt(locked, pin, other);
  }

  /** In unlock mode, the four digits typed open the lock exactly when they are the stored PIN. */
  lemma UnlockAttempt(locked: Lock, pin: string, typed: string)
    requires IsPin(pin) && IsPin(typed)
    requires locked.mode == Unlock && locked.buffer == "" && locked.stored == Some(PinHash(pin))
    ensures typed == pin ==> Check(TypeKeys(locked, typed)) == Hidden(locked)
    ensures typed != pin ==> Check(TypeKeys(locked, typed)) == locked
  {
    TypeKeysAppends(locked, typed);
    var t := TypeKeys(locked, typed);
    assert t == locked.(buffer := typed);
    if typed != pin && PinHash(typed) == PinHash(pin) {
      PinHashInjective(typed, pin);
    }
  }

  lemma Enrol(s0: Lock, pin: string) returns (enrolled: Lock)
    requires IsPin(pin)
    ensures enrolled == Check(TypeKeys(Check(TypeKeys(StartSetup(s0), pin)), pin))
    ensures enrolled == s0.(stored := Some(PinHash(pin)), mode := Unlock, buffer := "", temp := pin,
                            overlayShown := false, toggleChecked := true)
  {
    var s1 := StartSetup(s0);
    TypeKeysAppends(s1, pin);
    assert TypeKeys(s1, pin) == s1.(buffer := pin);
    var s2 := Check(TypeKeys(s1, pin));
    assert s2 == s1.(temp := pin, buffer := "", mode := Confirm);
    TypeKeysAppends(s2, pin);
    assert TypeKeys(s2, pin) == s2.(buffer := pin);
    enrolled := Check(TypeKeys(s2, pin));
  }

  /**
   * The stale timer: in setup, four digits schedule a check, a delete
   * shortens the buffer before it fires, and the check takes the three
   * digits as the new PIN; the same in confirm mode stores the hash of a
   * three-digit PIN, which no four-digit entry can match.
   */
  lemma StaleCheckStoresShortPin(s0: Lock)
    ensures var s1 := CheckAsWritten(Delete(TypeKeys(StartSetup(s0), "1234")));
            var s2 := CheckAsWritten(Delete(TypeKeys(s1, "1234")));
            && s1.temp == "123" && s1.mode == Confirm
            && s2.stored == Some(PinHash("123")) && !StoredIsPin(s2)
  {
    var s1 := StartSetup(s0);
    TypeKeysAppends(s1, "1234");
    assert Delete(TypeKeys(s1, "1234")).buffer == "123";
    var s2 := CheckAsWritten(Delete(TypeKeys(s1, "1234")));
    TypeKeysAppends(s2, "1234");
    assert Delete(TypeKeys(s2, "1234")).buffer == "123";
    var s3 := CheckAsWritten(Delete(TypeKeys(s2, "1234")));
    assert s3.stored == Some(PinHash("123"));
    ShortPinHashUnmatched();
  }

  lemma ShortPinHashUnmatched()
    ensures forall p | IsPin(p) :: PinHash(p) != PinHash("123")
  {
    var short := "123";
    assert short[..1][..0] == [] && short[..2][..1] == short[..1] && short[..3] == short;
    assert HashValue(short[..1]) == 49;
    assert HashValue(short[..2]) == 1569;
    assert HashValue(short) == 48690;
    forall p | IsPin(p)
      ensures PinHash(p) != PinHash(short)
    {
      PinHashValue(p);
      assert IsDigit(p[0]) && IsDigit(p[1]) && IsDigit(p[2]) && IsDigit(p[3]);
      if PinHash(p) == PinHash(short) {
        assert PinHash(p)[4..] == Hex(Abs(HashValue(p)));
        assert PinHash(short)[4..] == Hex(Abs(HashValue(short)));
        HexRoundTrip(Abs(HashValue(p)));
        HexRoundTrip(Abs(HashValue(short)));
        assert false;
      }
    }
  }

  /** The lock fields of the client. */
  class PasscodeLock {
    var buffer: string
    var mode: Mode
    var temp: string
    var stored: Option<string>
    var overlayShown: bool
    var toggleChecked: bool

    function State(): Lock
      reads this
    {
      Lock(buffer, mode, temp, stored, overlayShown, toggleChecked)
    }

    /** The field initialisers, with whatever hash local storage holds and the overlay hidden. */
    constructor(stored: Option<string>)
      ensures State() == Lock("", Unlock, "", stored, false, false)
    {
      buffer := "";
      mode := Unlock;
      temp := "";
      this.stored := stored;
      overlayShown := false;
      toggleChecked := false;
    }

    method StartPasscodeSetup()
      modifies this
      ensures State() == StartSetup(old(State()))
    {
      mode := Setup;
      buffer := "";
      temp := "";
      overlayShown := true;
    }

    method DisablePasscode()
      modifies this
      ensures State() == StartDisable(old(State()))
    {
      mode := Disable;
      buffer := "";
      overlayShown := true;
    }

    /** Returns whether this digit completed the buffer, which schedules `checkPasscode` on a timer. */
    method HandlePasscodeInput(digit: char) returns (checkScheduled: bool)
      modifies this
      ensures State() == Input(old(State()), digit)
      ensures checkScheduled <==> |old(buffer)| == 3
    {
      if |buffer| >= 4 {
        return false;
      }
      buffer := buffer + [digit];
      checkScheduled := |buffer| == 4;
    }

    method HandlePasscodeDelete()
      modifies this
      ensures State() == Delete(old(State()))
    {
      if |buffer| > 0 {
        buffer := buffer[..|buffer| - 1];
      }
    }

    method HidePasscodeOverlay()
      modifies this
      ensures State() == Hidden(old(State()))
    {
      overlayShown := false;
      buffer := "";
      mode := Unlock;
    }

    method ShakePasscode()
      modifies this
      ensures State() == Shaken(old(State()))
    {
      buffer := "";
    }

    method UnlockApp()
      modifies this
      ensures State() == Hidden(old(State()))
    {
      HidePasscodeOverlay();
    }

    method CancelPasscodeSetup()
      modifies this
      ensures State() == Cancelled(old(State()))
    {
      HidePasscodeOverlay();
      toggleChecked := stored.Some? && stored.value != "";
    }

    method CheckAppLock()
      modifies this
      ensures State() == AppLocked(old(State()))
    {
      if stored.Some? && stored.value != "" {
        mode := Unlock;
        buffer := "";
        overlayShown := true;
        toggleChecked := true;
      }
    }

    /** `checkPasscode`, run when its timer fires. */
    method CheckPasscode()
      modifies this
      ensures State() == Check(old(State()))
    {
      if |buffer| != 4 {
        return;
      }
      var inputHash := HashPasscode(buffer);
      match mode
      case Unlock =>
        if stored == Some(inputHash) {
          UnlockApp();
        } else {
          ShakePasscode();
        }
      case Setup =>
        temp := buffer;
        buffer := "";
        mode := Confirm;
      case Confirm =>
        if buffer == temp {
          var hashed := HashPasscode(buffer);
          stored := Some(hashed);
          toggleChecked := true;
          HidePasscodeOverlay();
        } else {
          ShakePasscode();
          buffer := "";
          mode := Setup;
        }
      case Disable =>
        if stored == Some(inputHash) {
          stored := None;
          toggleChecked := false;
          HidePasscodeOverlay();
        } else {
          ShakePasscode();
        }
    }
  }
}
