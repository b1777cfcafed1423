/**
 * The `kbrd` crate: expanding a raw key code into the key events its table
 * entry lists, while folding each event's modifier bits into a register, and
 * the bit predicates on a key's `State`. Its modifier layout is its own and
 * is unrelated to the register of the `Modifiers` module.
 *
 * The mapping table is a parameter, the `&mut` register is passed in and
 * handed back, and the callback is recorded as the sequence of calls it
 * would receive.
 */
module Kbrd {
  import Wrappers
  import opened Bytes

  /** One entry of a table row: the key to report and the modifier bits it brings. */
  datatype Pair = Pair(key: Byte, delta: bv8)

  /** A table row: the pairs, in the order they are reported. */
  type Entry = seq<Pair>

  /** `MAPPINGS`: one optional row per key code. */
  type Mappings = t: seq<Wrappers.Option<Entry>> | |t| == 256 witness seq(256, _ => Wrappers.None)

  /** One call of the callback: the register as it then is, and the key. */
  datatype Call = Call(mods: bv8, key: Byte)

  /** The union of the modifier bits of a row's first pairs. */
  function Deltas(e: Entry): (d: bv8)
    ensures forall i :: 0 <= i < |e| ==> e[i].delta & d == e[i].delta
  {
    if e == [] then 0 else Deltas(e[..|e| - 1]) | e[|e| - 1].delta
  }

  /** The union over one more pair. */
  lemma DeltasSnoc(e: Entry, i: nat)
    requires i < |e|
    ensures Deltas(e[..i + 1]) == Deltas(e[..i]) | e[i].delta
  {
    assert e[..i + 1][..i] == e[..i];
  }

  /** `Mod::set` of the unseen key-code module: turn the bits of `d` on, keep the rest. */
  function Set(m: bv8, d: bv8): (r: bv8)
    ensures r & d == d && r & !d == m & !d
  {
    m | d
  }

  /** `Mod::clear` of the unseen key-code module: turn the bits of `d` off, keep the rest. */
  function Clear(m: bv8, d: bv8): (r: bv8)
    ensures r & d == 0 && r & !d == m & !d
  {
    m & !d
  }

  /** Setting two masks one after the other sets their union. */
  lemma SetTwice(m: bv8, d: bv8, x: bv8)
    ensures Set(Set(m, d), x) == Set(m, d | x)
  {
  }

  /** Clearing two masks one after the other clears their union. */
  lemma ClearTwice(m: bv8, d: bv8, x: bv8)
    ensures Clear(Clear(m, d), x) == Clear(m, d | x)
  {
  }

  /** All the modifier bits the row for `keycode` brings: none when it has no row. */
  function RowDeltas(mappings: Mappings, keycode: Byte): (d: bv8)
    ensures mappings[keycode as int].None? ==> d == 0
  {
    var row := mappings[keycode as int];
    if row.Some? then Deltas(row.value) else 0
  }

  /**
   * `press`: for each pair of the row, in order, set its bits in the register
   * and report its key with the register as it now is.
   */
  method Press(mappings: Mappings, mods: bv8, keycode: Byte) returns (mods': bv8, calls: seq<Call>)
    ensures mappings[keycode as int].None? ==> mods' == mods && calls == []
    ensures mappings[keycode as int].Some? ==> var e := mappings[keycode as int].value;
      |calls| == |e| &&
      forall i :: 0 <= i < |e| ==> calls[i] == Call(Set(mods, Deltas(e[..i + 1])), e[i].key)
    ensures mods' == Set(mods, RowDeltas(mappings, keycode))
  {
    mods' := mods;
    calls := [];
    var row := mappings[keycode as int];
    if row.Some? {
      var events := row.value;
      var i := 0;
      assert events[..0] == [];
      while i < |events|
        invariant 0 <= i <= |events|
        invariant mods' == Set(mods, Deltas(events[..i]))
        invariant |calls| == i
        invariant forall j :: 0 <= j < i ==> calls[j] == Call(Set(mods, Deltas(events[..j + 1])), events[j].key)
      {
        var Pair(key, modifiers) := events[i];
        DeltasSnoc(events, i);
        SetTwice(mods, Deltas(events[..i]), modifiers);
        mods' := Set(mods', modifiers);
        calls := calls + [Call(mods', key)];
        i := i + 1;
      }
      assert events[..i] == events;
    }
  }

  /**
   * `release`: for each pair of the row, in order, clear its bits in the
   * register and report its key with the register as it now is.
   */
  method Release(mappings: Mappings, mods: bv8, keycode: Byte) returns (mods': bv8, calls: seq<Call>)
    ensures mappings[keycode as int].None? ==> mods' == mods && calls == []
    ensures mappings[keycode as int].Some? ==> var e := mappings[keycode as int].value;
      |calls| == |e| &&
      forall i :: 0 <= i < |e| ==> calls[i] == Call(Clear(mods, Deltas(e[..i + 1])), e[i].key)
    ensures mods' == Clear(mods, RowDeltas(mappings, keycode))
  {
    mods' := mods;
    calls := [];
    var row := mappings[keycode as int];
    if row.Some? {
      var events := row.value;
      var i := 0;
      assert events[..0] == [];
      while i < |events|
        invariant 0 <= i <= |events|
        invariant mods' == Clear(mods, Deltas(events[..i]))
        invariant |calls| == i
        invariant forall j :: 0 <= j < i ==> calls[j] == Call(Clear(mods, Deltas(events[..j + 1])), events[j].key)
      {
        var Pair(key, modifiers) := events[i];
        DeltasSnoc(events, i);
        ClearTwice(mods, Deltas(events[..i]), modifiers);
        mods' := Clear(mods', modifiers);
        calls := calls + [Call(mods', key)];
        i := i + 1;
      }
      assert events[..i] == events;
    }
  }

  /**
   * Pressing and then releasing the same key code gives the register back,
   * provided none of the row's bits were set to begin with.
   */
  lemma PressThenReleaseRestores(mappings: Mappings, mods: bv8, keycode: Byte)
    requires mods & RowDeltas(mappings, keycode) == 0
    ensures Clear(Set(mods, RowDeltas(mappings, keycode)), RowDeltas(mappings, keycode)) == mods
  {
  }

  /** A bit that no pair of the row brings is outside their union. */
  lemma {:induction false} DeltasDisjoint(e: Entry, b: bv8)
    requires forall i :: 0 <= i < |e| ==> e[i].delta & b == 0
    ensures Deltas(e) & b == 0
  {
    if e != [] {
      DeltasDisjoint(e[..|e| - 1], b);
    }
  }

  /** Neither `press` nor `release` changes a bit that no pair of the row brings. */
  lemma BitsOutsideRowUnchanged(mappings: Mappings, mods: bv8, keycode: Byte, b: bv8)
    requires mappings[keycode as int].Some? ==> var e := mappings[keycode as int].value;
      forall i :: 0 <= i < |e| ==> e[i].delta & b == 0
    ensures Set(mods, RowDeltas(mappings, keycode)) & b == mods & b
    ensures Clear(mods, RowDeltas(mappings, keycode)) & b == mods & b
  {
    var row := mappings[keycode as int];
    if row.Some? {
      DeltasDisjoint(row.value, b);
    }
  }

  /**
   * Without that proviso the release also clears bits the press found set:
   * press then release leaves every bit of the row clear, whatever was held,
   * so the register comes back exactly when none of them was held.
   */
  lemma PressThenReleaseDropsHeldBits(mappings: Mappings, mods: bv8, keycode: Byte)
    ensures var d := RowDeltas(mappings, keycode);
      Clear(Set(mods, d), d) == Clear(mods, d) && Clear(Set(mods, d), d) & d == 0
    ensures var d := RowDeltas(mappings, keycode);
      Clear(Set(mods, d), d) == mods <==> mods & d == 0
  {
  }

  /** For instance, with the row `[Pair(k, SHIFT)]` and SHIFT already held, press then release leaves SHIFT clear. */
  lemma PressThenReleaseExample(k: Byte)
    ensures var d := Deltas([Pair(k, 0x80)]);
      Clear(Set(0x80, d), d) == 0
  {
    assert [Pair(k, 0x80)][..0] == [];
  }

  /** The modifier combinations the table rows use. */
  datatype Mods = None | Shift | Alt | Ctrl | Opt | ShiftOpt | CtrlOpt {
    /** The discriminant: the combination's bits. */
    function Bits(): bv8 {
      match this
      case None => 0x00
      case Shift => 0x80
      case Alt => 0xC0
      case Ctrl => 0x40
      case Opt => 0x20
      case ShiftOpt => 0xA0
      case CtrlOpt => 0x30
    }
  }

  /**
   * The two-key combinations are unions of the single ones, except `CtrlOpt`,
   * whose discriminant is written with seven binary digits and so is 0x30, not
   * `Ctrl | Opt` (0x60).
   */
  lemma CombinedMods()
    ensures Mods.Alt.Bits() == Mods.Shift.Bits() | Mods.Ctrl.Bits()
    ensures Mods.ShiftOpt.Bits() == Mods.Shift.Bits() | Mods.Opt.Bits()
    ensures Mods.CtrlOpt.Bits() == 0x30 && Mods.CtrlOpt.Bits() != Mods.Ctrl.Bits() | Mods.Opt.Bits()
  {
  }

  /** The key was repeated. */
  const REPEAT: bv8 := 0x02
  /** The key was pressed. */
  const PRESS: bv8 := 0x01

  /** `State`: what has happened to a key, as PRESS and REPEAT bits. */
  datatype State = State(bits: bv8) {
    /** Changed to pressed: PRESS set and REPEAT clear. */
    function Pressed(): (r: bool)
      ensures r <==> bits & PRESS != 0 && bits & REPEAT == 0
    {
      bits & (PRESS | REPEAT) == PRESS
    }

    /** Repeated as textual input: REPEAT set. */
    function Repeated(): (r: bool)
      ensures r <==> bits & REPEAT != 0
    {
      bits & REPEAT == REPEAT
    }

    /** Either pressed or repeated: PRESS or REPEAT set. */
    function Inputted(): (r: bool)
      ensures r <==> bits & PRESS != 0 || bits & REPEAT != 0
    {
      bits & (PRESS | REPEAT) != 0
    }
  }

  /** A state is never both pressed and repeated; it is inputted exactly when it is one of them. */
  lemma StateCases(s: State)
    ensures !(s.Pressed() && s.Repeated())
    ensures s.Pressed() ==> s.Inputted()
    ensures s.Repeated() ==> s.Inputted()
    ensures s.Inputted() <==> s.Pressed() || s.Repeated()
  {
  }
}
