/**
 * The modifier register of the event library: eight independent flags packed
 * into one byte. `Mods` updates its byte in place through `set` and the named
 * setters; the pure functions below give the meaning of those updates.
 */
module Modifiers {

  const COMPOSING: bv8 := 0x80
  const GRAPH: bv8 := 0x40
  const APP: bv8 := 0x20
  const PRG: bv8 := 0x10
  const SHIFT: bv8 := 0x08
  const EMOJI: bv8 := 0x04
  /** Left thumb button. */
  const LTB: bv8 := 0x02
  /** Right thumb button. */
  const RTB: bv8 := 0x01

  /** The eight flag masks, in declaration order; a flag's index is its place here. */
  const Masks: seq<bv8> := [COMPOSING, GRAPH, APP, PRG, SHIFT, EMOJI, LTB, RTB]

  /** The eight masks are distinct single bits that together cover the byte. */
  lemma MasksAreSingleBits()
    ensures |Masks| == 8
    ensures forall i :: 0 <= i < 8 ==> Masks[i] == (1 as bv8) << (7 - i)
    ensures forall i, j :: 0 <= i < j < 8 ==> Masks[i] & Masks[j] == 0
  {
  }

  /** The register's byte read as its eight named flags, in declaration order. */
  function FlagsOf(m: bv8): (flags: seq<bool>)
    ensures |flags| == 8
  {
    [m & COMPOSING != 0, m & GRAPH != 0, m & APP != 0, m & PRG != 0,
     m & SHIFT != 0, m & EMOJI != 0, m & LTB != 0, m & RTB != 0]
  }

  /** Every byte is a distinct flag combination: the flags determine the byte. */
  lemma FlagsDetermineByte(m1: bv8, m2: bv8)
    ensures FlagsOf(m1) == FlagsOf(m2) <==> m1 == m2
  {
    if FlagsOf(m1) == FlagsOf(m2) {
      assert forall i :: 0 <= i < 8 ==> FlagsOf(m1)[i] == FlagsOf(m2)[i];
    }
  }

  /**
   * The byte after `set(what, to)`: the bits of `what` all equal `to`, every
   * other bit is as it was.
   */
  function Updated(m: bv8, what: bv8, to: bool): (r: bv8)
    ensures r & what == (if to then what else 0)
    ensures r & !what == m & !what
  {
    if to then m | what else m & !what
  }

  /** Flag `j` of a byte is the bit of mask `j`. */
  lemma FlagAt(m: bv8, j: nat)
    requires j < 8
    ensures FlagsOf(m)[j] == (m & Masks[j] != 0)
  {
  }

  /** A mask disjoint from the updated one reads the same bits before and after. */
  lemma DisjointMaskKept(m: bv8, r: bv8, what: bv8, other: bv8)
    requires r & !what == m & !what && other & what == 0
    ensures r & other == m & other
  {
    assert other == other & !what;
  }

  /** Two different flags have disjoint masks. */
  lemma MasksDisjoint(i: nat, j: nat)
    requires i < 8 && j < 8 && i != j
    ensures Masks[j] & Masks[i] == 0
  {
    MasksAreSingleBits();
    if j < i {
      assert Masks[j] & Masks[i] == 0;
    } else {
      assert Masks[i] & Masks[j] == 0;
    }
  }

  /**
   * A byte `r` that agrees with `m` outside mask `i` and has that mask's bit
   * equal to `to` has flag `j` equal to `to` when `j == i`, and to `m`'s otherwise.
   */
  lemma FlagAfterUpdate(m: bv8, r: bv8, i: nat, to: bool, j: nat)
    requires i < 8 && j < 8
    requires r & Masks[i] == (if to then Masks[i] else 0) && r & !Masks[i] == m & !Masks[i]
    ensures (r & Masks[j] != 0) == if j == i then to else m & Masks[j] != 0
  {
    if j == i {
      MasksAreSingleBits();
      assert Masks[i] != 0;
    } else {
      MasksDisjoint(i, j);
      DisjointMaskKept(m, r, Masks[i], Masks[j]);
    }
  }

  /** Setting one named flag changes that flag, and only that flag. */
  lemma UpdatedFlag(m: bv8, mask: bv8, i: nat, to: bool)
    requires i < 8 && mask == Masks[i]
    ensures FlagsOf(Updated(m, mask, to)) == FlagsOf(m)[i := to]
  {
    forall j | 0 <= j < 8
      ensures FlagsOf(Updated(m, mask, to))[j] == FlagsOf(m)[i := to][j]
    {
      var r := Updated(m, mask, to);
      FlagAfterUpdate(m, r, i, to, j);
      FlagAt(r, j);
      FlagAt(m, j);
    }
  }

  /** `Mods`: the register, a byte the methods below update in place. */
  class Mods {
    var bits: bv8

    /** The eight named flags of the current value. */
    function Flags(): (flags: seq<bool>)
      reads this
      ensures |flags| == 8
    {
      FlagsOf(bits)
    }

    /** `Mods::new()`: the default value, every flag clear. */
    constructor ()
      ensures bits == 0
      ensures Flags() == [false, false, false, false, false, false, false, false]
    {
      bits := 0;
    }

    /** `set(what, to)`: turn the bits of `what` on or off, leave the rest. */
    method Set(what: bv8, to: bool)
      modifies this
      ensures bits == Updated(old(bits), what, to)
      ensures bits & what == (if to then what else 0)
      ensures bits & !what == old(bits) & !what
    {
      if to {
        bits := bits | what;
      } else {
        bits := bits & !what;
      }
    }

    /** `get(what)`: whether any named flag inside `what` is set. */
    function Get(what: bv8): (r: bool)
      reads this
      ensures r <==> FlagsOf(what & bits) != FlagsOf(0)
    {
      FlagsDetermineByte(what & bits, 0);
      bits & what != 0
    }

    /** Setting the flag at index `i` of `Masks`, as each named setter does. */
    method SetFlag(i: nat, value: bool)
      requires i < 8
      modifies this
      ensures Flags() == old(Flags())[i := value]
      ensures bits == Updated(old(bits), Masks[i], value)
    {
      UpdatedFlag(bits, Masks[i], i, value);
      Set(Masks[i], value);
    }

    method SetComposing(value: bool)
      modifies this
      ensures Composing() == value
      ensures Flags() == old(Flags())[0 := value]
    {
      SetFlag(0, value);
    }

    method SetGraph(value: bool)
      modifies this
      ensures Graph() == value
      ensures Flags() == old(Flags())[1 := value]
    {
      SetFlag(1, value);
    }

    method SetApp(value: bool)
      modifies this
      ensures App() == value
      ensures Flags() == old(Flags())[2 := value]
    {
      SetFlag(2, value);
    }

    method SetPrg(value: bool)
      modifies this
      ensures Prg() == value
      ensures Flags() == old(Flags())[3 := value]
    {
      SetFlag(3, value);
    }

    method SetShift(value: bool)
      modifies this
      ensures Shift() == value
      ensures Flags() == old(Flags())[4 := value]
    {
      SetFlag(4, value);
    }

    method SetEmoji(value: bool)
      modifies this
      ensures Emoji() == value
      ensures Flags() == old(Flags())[5 := value]
    {
      SetFlag(5, value);
    }

    method SetLtb(value: bool)
      modifies this
      ensures Ltb() == value
      ensures Flags() == old(Flags())[6 := value]
    {
      SetFlag(6, value);
    }

    method SetRtb(value: bool)
      modifies this
      ensures Rtb() == value
      ensures Flags() == old(Flags())[7 := value]
    {
      SetFlag(7, value);
    }

    function Composing(): (r: bool)
      reads this
      ensures r == Flags()[0]
    {
      Get(COMPOSING)
    }

    function Graph(): (r: bool)
      reads this
      ensures r == Flags()[1]
    {
      Get(GRAPH)
    }

    function App(): (r: bool)
      reads this
      ensures r == Flags()[2]
    {
      Get(APP)
    }

    function Prg(): (r: bool)
      reads this
      ensures r == Flags()[3]
    {
      Get(PRG)
    }

    function Shift(): (r: bool)
      reads this
      ensures r == Flags()[4]
    {
      Get(SHIFT)
    }

    function Emoji(): (r: bool)
      reads this
      ensures r == Flags()[5]
    {
      Get(EMOJI)
    }

    function Ltb(): (r: bool)
      reads this
      ensures r == Flags()[6]
    {
      Get(LTB)
    }

    function Rtb(): (r: bool)
      reads this
      ensures r == Flags()[7]
    {
      Get(RTB)
    }
  }
}
