/**
 * The de-duplication step of `Keyboard::poll_next`: a 256-bit "pressed" bitmap,
 * four 64-bit words indexed by key code, that lets a press through only when
 * its key is up and a release only when its key is down. Characters always
 * pass and never touch the bitmap.
 *
 * The pure functions give the step and runs of it on bitmap values; the
 * `Keyboard` class does the same in place on its `[u64; 4]` array.
 */
module Dedup {
  import opened Wrappers
  import opened Bytes
  import opened Keys
  import opened Codec

  /** The pressed-state bitmap as a value: four 64-bit words. */
  type Bitmap = s: seq<bv64> | |s| == 4 witness [0, 0, 0, 0]

  /** The bitmap of a new keyboard: every key up. */
  const EMPTY: Bitmap := [0, 0, 0, 0]

  /** The word that holds a key's bit: `key / 64`. */
  function Level(k: Key): (lvl: nat)
    ensures lvl < 4
  {
    k as int / 64
  }

  /** A key's place within its word: `key % 64`. */
  function Offset(k: Key): (off: bv8)
    ensures off < 64 && off as int == k as int % 64
  {
    var n: int := k as int % 64;
    assert 0 <= n < 64;
    n as bv8
  }

  /** Two different keys in one word sit at different places in it. */
  lemma OffsetsDistinct(j: Key, k: Key)
    requires j != k && Level(j) == Level(k)
    ensures Offset(j) != Offset(k)
  {
  }

  /** Bit `i` of a word, tested as `w & (1 << i) != 0`. */
  predicate Bit(w: bv64, i: bv8)
    requires i < 64
  {
    w & ((1 as bv64) << i) != 0
  }

  /** The word with bit `i` set (`w |= 1 << i`) or cleared (`w &= !(1 << i)`). */
  function WordWith(w: bv64, i: bv8, on: bool): bv64
    requires i < 64
  {
    if on then w | ((1 as bv64) << i) else w & !((1 as bv64) << i)
  }

  /** Setting or clearing bit `i` gives it the value asked for and leaves every other bit alone. */
  lemma WordWithBit(w: bv64, i: bv8, j: bv8, on: bool)
    requires i < 64 && j < 64
    ensures Bit(WordWith(w, i, on), j) == if i == j then on else Bit(w, j)
  {
    if i == j {
      if on { SetSame(w, i); } else { ClearSame(w, i); }
    } else {
      if on { SetDiff(w, i, j); } else { ClearDiff(w, i, j); }
    }
  }

  lemma SetSame(w: bv64, i: bv8)
    requires i < 64
    ensures Bit(WordWith(w, i, true), i)
  {
    ShiftNonZero(i);
    SetSelf(w, (1 as bv64) << i);
  }

  lemma ClearSame(w: bv64, i: bv8)
    requires i < 64
    ensures !Bit(WordWith(w, i, false), i)
  {
    ClearSelf(w, (1 as bv64) << i);
  }

  lemma SetDiff(w: bv64, i: bv8, j: bv8)
    requires i < 64 && j < 64 && i != j
    ensures Bit(WordWith(w, i, true), j) == Bit(w, j)
  {
    ShiftsDisjoint(i, j);
    SetOther(w, (1 as bv64) << i, (1 as bv64) << j);
  }

  lemma ClearDiff(w: bv64, i: bv8, j: bv8)
    requires i < 64 && j < 64 && i != j
    ensures Bit(WordWith(w, i, false), j) == Bit(w, j)
  {
    ShiftsDisjoint(i, j);
    ClearOther(w, (1 as bv64) << i, (1 as bv64) << j);
  }

  lemma ShiftNonZero(i: bv8)
    requires i < 64
    ensures (1 as bv64) << i != 0
  {
  }

  lemma ShiftsDisjoint(i: bv8, j: bv8)
    requires i < 64 && j < 64 && i != j
    ensures ((1 as bv64) << i) & ((1 as bv64) << j) == 0
  {
  }

  lemma SetSelf(w: bv64, a: bv64)
    requires a != 0
    ensures (w | a) & a != 0
  {
  }

  lemma ClearSelf(w: bv64, a: bv64)
    ensures (w & !a) & a == 0
  {
  }

  lemma SetOther(w: bv64, a: bv64, b: bv64)
    requires a & b == 0
    ensures (w | a) & b == w & b
  {
  }

  lemma ClearOther(w: bv64, a: bv64, b: bv64)
    requires a & b == 0
    ensures (w & !a) & b == w & b
  {
  }

  /** Whether the bitmap records the key as down. */
  predicate IsPressed(state: Bitmap, k: Key) {
    Bit(state[Level(k)], Offset(k))
  }

  /** The bitmap with the key's bit set (`on`) or cleared; every other key keeps its bit. */
  function WithBit(state: Bitmap, k: Key, on: bool): (r: Bitmap)
    ensures IsPressed(r, k) == on
    ensures forall j: Key :: j != k ==> IsPressed(r, j) == IsPressed(state, j)
  {
    var lvl := Level(k);
    var r: Bitmap := state[lvl := WordWith(state[lvl], Offset(k), on)];
    assert forall j: Key :: j != k ==> IsPressed(r, j) == IsPressed(state, j) by {
      forall j: Key | j != k ensures IsPressed(r, j) == IsPressed(state, j) {
        if Level(j) == lvl {
          OffsetsDistinct(j, k);
          WordWithBit(state[lvl], Offset(k), Offset(j), on);
        }
      }
    }
    r
  }

  /**
   * One de-duplication step on a decoded event: the new bitmap and the event
   * if it is passed on (`Ready`), None if it is suppressed (`Pending`).
   */
  function Deduplicate(state: Bitmap, t: Type): (r: (Bitmap, Option<Type>))
    ensures r.1 == None || r.1 == Some(t)
    ensures t.Char? ==> r == (state, Some(t))
    ensures t.Press? ==> (r.1.Some? <==> !IsPressed(state, t.key))
    ensures t.Release? ==> (r.1.Some? <==> IsPressed(state, t.key))
    ensures r.1.None? ==> r.0 == state
  {
    match t
    case Press(k, _) =>
      if IsPressed(state, k) then (state, None) else (WithBit(state, k, true), Some(t))
    case Release(k, _) =>
      if !IsPressed(state, k) then (state, None) else (WithBit(state, k, false), Some(t))
    case Char(_) => (state, Some(t))
  }

  /**
   * What one step does to the bitmap: a passed key event flips that key's bit
   * to pressed or released, and no other bit ever changes.
   */
  lemma StepEffect(state: Bitmap, t: Type, j: Key)
    ensures var (next, out) := Deduplicate(state, t);
      IsPressed(next, j) == if !t.Char? && j == t.key && out.Some? then t.Press? else IsPressed(state, j)
  {
  }

  /** The step on a key event, spelled out on the key's word. */
  lemma KeyStep(state: Bitmap, key: Key, mods: Byte, press: bool)
    ensures var t := if press then Press(key, mods) else Release(key, mods);
      var lvl := Level(key);
      Deduplicate(state, t) ==
        if Bit(state[lvl], Offset(key)) == press then (state, None)
        else (state[lvl := WordWith(state[lvl], Offset(key), press)], Some(t))
  {
  }

  /** The sequence holding the event, if any. */
  function Emitted(out: Option<Type>): (s: seq<Type>)
    ensures |s| <= 1
  {
    if out.Some? then [out.value] else []
  }

  /** Steps over `events` in order, from `state`: the last bitmap and every event passed on. */
  function Run(state: Bitmap, events: seq<Type>): (r: (Bitmap, seq<Type>))
    ensures |r.1| <= |events|
  {
    if events == [] then (state, [])
    else
      var (mid, before) := Run(state, events[..|events| - 1]);
      var (next, out) := Deduplicate(mid, events[|events| - 1]);
      (next, before + Emitted(out))
  }

  /** The presses (true) and releases (false) of key `k` in `events`, in order. */
  function History(events: seq<Type>, k: Key): (h: seq<bool>)
    ensures |h| <= |events|
  {
    if events == [] then []
    else
      var last := events[|events| - 1];
      History(events[..|events| - 1], k) + (if !last.Char? && last.key == k then [last.Press?] else [])
  }

  /** Strictly alternating, starting with a press. */
  predicate Alternates(h: seq<bool>) {
    forall i :: 0 <= i < |h| ==> h[i] == (i % 2 == 0)
  }

  /** The last event in the history is a press. */
  predicate LastIsPress(h: seq<bool>) {
    |h| > 0 && h[|h| - 1]
  }

  /**
   * The notifier's invariant: for every key, the events passed on so far
   * alternate starting with a press, and its bit is set exactly when the last
   * of them was a press.
   */
  ghost predicate Consistent(state: Bitmap, emitted: seq<Type>) {
    forall k: Key :: Alternates(History(emitted, k)) && (IsPressed(state, k) <==> LastIsPress(History(emitted, k)))
  }

  lemma HistoryAppend(emitted: seq<Type>, e: Type, k: Key)
    ensures History(emitted + [e], k) == History(emitted, k) + (if !e.Char? && e.key == k then [e.Press?] else [])
  {
    assert (emitted + [e])[..|emitted|] == emitted;
  }

  /** One step keeps the invariant. */
  lemma {:induction false} StepPreservesConsistent(state: Bitmap, emitted: seq<Type>, t: Type)
    requires Consistent(state, emitted)
    ensures var (next, out) := Deduplicate(state, t); Consistent(next, emitted + Emitted(out))
  {
    var (next, out) := Deduplicate(state, t);
    if out.None? {
      StepEffect(state, t, 0);
      assert emitted + Emitted(out) == emitted;
    } else {
      assert Emitted(out) == [t];
      forall k: Key
        ensures Alternates(History(emitted + [t], k))
        ensures IsPressed(next, k) <==> LastIsPress(History(emitted + [t], k))
      {
        HistoryAppend(emitted, t, k);
        StepEffect(state, t, k);
        var h := History(emitted, k);
        if !t.Char? && t.key == k {
          var h' := h + [t.Press?];
          assert History(emitted + [t], k) == h';
          if |h| > 0 {
            assert h[|h| - 1] == ((|h| - 1) % 2 == 0);
          }
          assert h'[|h|] == (|h| % 2 == 0);
          assert forall i :: 0 <= i < |h| ==> h'[i] == h[i];
        }
      }
    }
  }

  /** From the empty bitmap, every run keeps the invariant. */
  lemma {:induction false} RunConsistent(events: seq<Type>)
    ensures var (state, emitted) := Run(EMPTY, events); Consistent(state, emitted)
  {
    if events == [] {
      forall k: Key ensures !IsPressed(EMPTY, k) {
      }
    } else {
      var prefix := events[..|events| - 1];
      RunConsistent(prefix);
      var (mid, before) := Run(EMPTY, prefix);
      StepPreservesConsistent(mid, before, events[|events| - 1]);
    }
  }

  /** The characters of a sequence of events, in order. */
  function Chars(events: seq<Type>): (cs: seq<char>)
    ensures |cs| <= |events|
  {
    if events == [] then []
    else
      var last := events[|events| - 1];
      Chars(events[..|events| - 1]) + (if last.Char? then [last.c] else [])
  }

  /** The characters of two sequences of events, one after the other. */
  lemma {:induction false} CharsAppend(events: seq<Type>, more: seq<Type>)
    ensures Chars(events + more) == Chars(events) + Chars(more)
    decreases |more|
  {
    var all := events + more;
    if more == [] {
      assert all == events;
    } else {
      var init := more[..|more| - 1];
      CharsAppend(events, init);
      assert all[..|all| - 1] == events + init && all[|all| - 1] == more[|more| - 1];
    }
  }

  /** Characters are never suppressed: a run passes on exactly the characters it was fed, in order. */
  lemma {:induction false} RunPassesChars(state: Bitmap, events: seq<Type>)
    ensures Chars(Run(state, events).1) == Chars(events)
  {
    if events != [] {
      var prefix := events[..|events| - 1];
      var t := events[|events| - 1];
      RunPassesChars(state, prefix);
      var (mid, before) := Run(state, prefix);
      var (next, out) := Deduplicate(mid, t);
      CharsAppend(before, Emitted(out));
      assert Chars([t]) == if t.Char? then [t.c] else [];
      assert Chars(Emitted(out)) == Chars([t]);
    }
  }

  /**
   * `Keyboard`: the notifier's de-duplication state, the `[u64; 4]` bitmap,
   * with the events passed on so far kept as a ghost record.
   */
  class Keyboard {
    var state: array<bv64>
    ghost var emitted: seq<Type>

    ghost predicate Valid()
      reads this, state
    {
      state.Length == 4 && Consistent(state[..], emitted)
    }

    /** `Keyboard::new()`: every key up, nothing passed on. */
    constructor ()
      ensures Valid() && fresh(state)
      ensures state[..] == EMPTY && emitted == []
    {
      state := new bv64[4](_ => 0);
      emitted := [];
      new;
      assert state[..] == EMPTY;
      RunConsistent([]);
    }

    /**
     * The de-duplication body of `poll_next` for one already-decoded event:
     * `Some(t)` where the source returns `Ready(t)`, None where it returns
     * `Pending` for a suppressed event.
     */
    method Step(t: Type) returns (out: Option<Type>)
      requires Valid()
      modifies this, state
      ensures Valid() && state == old(state)
      ensures (state[..], out) == Deduplicate(old(state[..]), t)
      ensures emitted == old(emitted) + Emitted(out)
    {
      ghost var before: Bitmap := state[..];
      StepPreservesConsistent(before, emitted, t);
      match t {
        case Press(key, mods) =>
          var lvl := Level(key);
          KeyStep(before, key, mods, true);
          if Bit(state[lvl], Offset(key)) {
            return None;
          }
          state[lvl] := WordWith(state[lvl], Offset(key), true);
          assert state[..] == before[lvl := WordWith(before[lvl], Offset(key), true)];
        case Release(key, mods) =>
          var lvl := Level(key);
          KeyStep(before, key, mods, false);
          if !Bit(state[lvl], Offset(key)) {
            return None;
          }
          state[lvl] := WordWith(state[lvl], Offset(key), false);
          assert state[..] == before[lvl := WordWith(before[lvl], Offset(key), false)];
        case Char(_) =>
      }
      out := Some(t);
      emitted := emitted + [t];
    }
  }
}
