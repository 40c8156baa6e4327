/**
 * The hotkey listener: every 10 ms it polls F7, F8, F9 and F10 and raises a
 * key's event at the moment the key is let go. Each key has its own flag
 * recording that it was seen down and has not been released since.
 *
 * The polling thread and the 10 ms sleep are not modelled; a poll is a call
 * with the keys' current readings.
 */
module Hotkeys {

  datatype HotKey = F7 | F8 | F9 | F10

  /**
   * GetAsyncKeyState's "down now" test: bit 15 of the 16-bit state. For the
   * signed short the call returns, that bit is set exactly for negative values.
   */
  function IsDownNow(state: int): (down: bool)
    requires -0x8000 <= state < 0x8000
    ensures down <==> state < 0
  {
    var bits := (state + 0x10000) % 0x10000;
    bits / 0x8000 % 2 == 1
  }

  // ---------------------------------------------------------------------------
  // One key over a sequence of readings
  // ---------------------------------------------------------------------------

  /** How many events one key raises over a sequence of readings, starting from flag wasDown. */
  function Events(wasDown: bool, readings: seq<bool>): nat
    decreases |readings|
  {
    if readings == [] then 0
    else (if wasDown && !readings[0] then 1 else 0) + Events(readings[0], readings[1..])
  }

  /** The key's flag after a sequence of readings. */
  function FlagAfter(wasDown: bool, readings: seq<bool>): bool {
    if readings == [] then wasDown else readings[|readings| - 1]
  }

  function Ups(n: nat): (r: seq<bool>)
    ensures |r| == n && forall i | 0 <= i < n :: !r[i]
  {
    seq(n, _ => false)
  }

  function Downs(n: nat): (r: seq<bool>)
    ensures |r| == n && forall i | 0 <= i < n :: r[i]
  {
    seq(n, _ => true)
  }

  /** A trace made of press-and-release blocks: (n, m) is n down readings followed by m up readings. */
  function Expand(blocks: seq<(nat, nat)>): seq<bool> {
    if blocks == [] then [] else Downs(blocks[0].0) + Ups(blocks[0].1) + Expand(blocks[1..])
  }

  /** Events over two consecutive stretches of readings add up. */
  lemma {:induction false} EventsAppend(wasDown: bool, a: seq<bool>, b: seq<bool>)
    ensures Events(wasDown, a + b) == Events(wasDown, a) + Events(FlagAfter(wasDown, a), b)
    decreases |a|
  {
    if a != [] {
      assert (a + b)[0] == a[0];
      assert (a + b)[1..] == a[1..] + b;
      EventsAppend(a[0], a[1..], b);
      if a[1..] == [] {
        assert FlagAfter(a[0], a[1..]) == a[0] == FlagAfter(wasDown, a);
      } else {
        assert FlagAfter(a[0], a[1..]) == a[|a| - 1];
      }
    } else {
      assert a + b == b;
    }
  }

  /** Up readings after a release (or with the key never pressed) raise nothing. */
  lemma {:induction false} RepeatedUpsSilent(n: nat)
    ensures Events(false, Ups(n)) == 0
  {
    if n > 0 {
      assert Ups(n)[1..] == Ups(n - 1);
      RepeatedUpsSilent(n - 1);
    }
  }

  /** Holding a key down raises nothing, however long. */
  lemma {:induction false} HeldDownSilent(wasDown: bool, n: nat)
    ensures Events(wasDown, Downs(n)) == 0
    decreases n
  {
    if n > 0 {
      assert Downs(n)[1..] == Downs(n - 1);
      HeldDownSilent(true, n - 1);
    }
  }

  /** One press held for n readings, then m up readings: exactly one event. */
  lemma OnePressOneEvent(wasDown: bool, n: nat, m: nat)
    requires n >= 1 && m >= 1
    ensures Events(wasDown, Downs(n) + Ups(m)) == 1
  {
    EventsAppend(wasDown, Downs(n), Ups(m));
    HeldDownSilent(wasDown, n);
    assert FlagAfter(wasDown, Downs(n)) == true;
    assert Ups(m)[1..] == Ups(m - 1);
    RepeatedUpsSilent(m - 1);
  }

  /** Each press-and-release block raises exactly one event. */
  lemma {:induction false} BlocksCount(blocks: seq<(nat, nat)>)
    requires forall i | 0 <= i < |blocks| :: blocks[i].0 >= 1 && blocks[i].1 >= 1
    ensures Events(false, Expand(blocks)) == |blocks|
    ensures FlagAfter(false, Expand(blocks)) == false
  {
    if blocks != [] {
      var head := Downs(blocks[0].0) + Ups(blocks[0].1);
      assert Expand(blocks) == head + Expand(blocks[1..]);
      EventsAppend(false, head, Expand(blocks[1..]));
      OnePressOneEvent(false, blocks[0].0, blocks[0].1);
      assert FlagAfter(false, head) == false;
      BlocksCount(blocks[1..]);
      if Expand(blocks[1..]) == [] {
        assert Expand(blocks) == head;
      } else {
        assert Expand(blocks)[|Expand(blocks)| - 1] == Expand(blocks[1..])[|Expand(blocks[1..])| - 1];
      }
    }
  }

  /**
   * Any trace of readings is some up readings, then press-and-release blocks,
   * then a final stretch of down readings; it raises one event per block, that
   * is one per maximal run of down readings that an up reading follows.
   */
  lemma TraceEvents(ups: nat, blocks: seq<(nat, nat)>, downs: nat)
    requires forall i | 0 <= i < |blocks| :: blocks[i].0 >= 1 && blocks[i].1 >= 1
    ensures Events(false, Ups(ups) + Expand(blocks) + Downs(downs)) == |blocks|
  {
    var u, e, d := Ups(ups), Expand(blocks), Downs(downs);
    assert u + e + d == u + (e + d);
    EventsAppend(false, u, e + d);
    RepeatedUpsSilent(ups);
    assert FlagAfter(false, u) == false;
    EventsAppend(false, e, d);
    BlocksCount(blocks);
    HeldDownSilent(false, downs);
  }

  // ---------------------------------------------------------------------------
  // The listener object
  // ---------------------------------------------------------------------------

  class InputListener {
    var isF7Down: bool
    var isF8Down: bool
    var isF9Down: bool
    var isF10Down: bool

    constructor ()
      ensures forall k: HotKey :: !WasDown(k)
    {
      isF7Down, isF8Down, isF9Down, isF10Down := false, false, false, false;
    }

    /** The flag of one key: seen down and not yet released. */
    function WasDown(k: HotKey): bool
      reads this
    {
      match k
      case F7 => isF7Down
      case F8 => isF8Down
      case F9 => isF9Down
      case F10 => isF10Down
    }

    method SetFlag(k: HotKey, value: bool)
      modifies this
      ensures WasDown(k) == value
      ensures forall other: HotKey | other != k :: WasDown(other) == old(WasDown(other))
    {
      match k
      case F7 => isF7Down := value;
      case F8 => isF8Down := value;
      case F9 => isF9Down := value;
      case F10 => isF10Down := value;
    }

    /**
     * One poll of one key: a down reading only sets the flag; an up reading
     * with the flag set raises the event and clears the flag. The flag ends up
     * equal to the reading, and no other key's flag changes.
     */
    method CheckKey(k: HotKey, isDownNow: bool) returns (fired: bool)
      modifies this
      ensures fired <==> old(WasDown(k)) && !isDownNow
      ensures WasDown(k) == isDownNow
      ensures forall other: HotKey | other != k :: WasDown(other) == old(WasDown(other))
    {
      fired := false;
      if isDownNow {
        SetFlag(k, true);
      } else {
        if WasDown(k) {
          fired := true;
          SetFlag(k, false);
        }
      }
    }

    /** One round of the listening loop: F7, F8, F9, F10 in that order; the keys that fired, in that order. */
    method PollOnce(f7: bool, f8: bool, f9: bool, f10: bool) returns (fired: seq<HotKey>)
      modifies this
      ensures WasDown(F7) == f7 && WasDown(F8) == f8 && WasDown(F9) == f9 && WasDown(F10) == f10
      ensures fired ==
        (if old(WasDown(F7)) && !f7 then [F7] else []) +
        (if old(WasDown(F8)) && !f8 then [F8] else []) +
        (if old(WasDown(F9)) && !f9 then [F9] else []) +
        (if old(WasDown(F10)) && !f10 then [F10] else [])
    {
      var e7 := CheckKey(F7, f7);
      var e8 := CheckKey(F8, f8);
      var e9 := CheckKey(F9, f9);
      var e10 := CheckKey(F10, f10);
      fired := (if e7 then [F7] else []) + (if e8 then [F8] else []) + (if e9 then [F9] else []) + (if e10 then [F10] else []);
    }

    /** Polls one key over a sequence of readings; the count of events it raises. */
    method Listen(k: HotKey, readings: seq<bool>) returns (events: nat)
      modifies this
      ensures events == Events(old(WasDown(k)), readings)
      ensures WasDown(k) == FlagAfter(old(WasDown(k)), readings)
      ensures forall other: HotKey | other != k :: WasDown(other) == old(WasDown(other))
    {
      events := 0;
      var i := 0;
      while i < |readings|
        invariant 0 <= i <= |readings|
        invariant WasDown(k) == FlagAfter(old(WasDown(k)), readings[..i])
        invariant events + Events(WasDown(k), readings[i..]) == Events(old(WasDown(k)), readings)
        invariant forall other: HotKey | other != k :: WasDown(other) == old(WasDown(other))
      {
        assert readings[i..][1..] == readings[i + 1..];
        var fired := CheckKey(k, readings[i]);
        if fired {
          events := events + 1;
        }
        i := i + 1;
      }
    }
  }
}
