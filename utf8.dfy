/**
 * UTF-8 as RFC 3629 defines it (section 3): one Unicode scalar value is written
 * as one to four bytes, and a decoder accepts only those shortest forms, so no
 * overlong form, no surrogate and nothing above U+10FFFF decodes.
 *
 * The event codec needs the two operations the Rust standard library gives it:
 * `char::encode_utf8` for one scalar, and `str::from_utf8`, which checks a whole
 * byte slice and reports how far it was valid.
 */
module Utf8 {
  import opened Wrappers
  import opened Bytes

  /** `core::str::Utf8Error`: the length of the longest valid prefix. */
  datatype Utf8Error = Utf8Error(validUpTo: nat)

  /** Bytes 0x80..0xBF continue a multi-byte sequence and never start one. */
  predicate IsContinuation(b: Byte) {
    0x80 <= b < 0xC0
  }

  /** The six payload bits of a continuation byte. */
  function Payload(b: Byte): (p: int)
    requires IsContinuation(b)
    ensures 0 <= p < 64
  {
    b as int - 0x80
  }

  /** The number of bytes RFC 3629 uses for a scalar value. */
  function Width(c: char): (n: nat)
    ensures 1 <= n <= 4
  {
    var v := c as int;
    if v < 0x80 then 1 else if v < 0x800 then 2 else if v < 0x10000 then 3 else 4
  }

  /** The encoding of one scalar value (`char::encode_utf8`). */
  function EncodeScalar(c: char): (bytes: seq<Byte>)
    ensures |bytes| == Width(c)
    ensures bytes[0] < 0x80 || 0xC2 <= bytes[0] <= 0xF4
    ensures forall i :: 1 <= i < |bytes| ==> IsContinuation(bytes[i])
  {
    var v := c as int;
    if v < 0x80 then
      [v as Byte]
    else if v < 0x800 then
      [(0xC0 + v / 64) as Byte, (0x80 + v % 64) as Byte]
    else if v < 0x10000 then
      [(0xE0 + v / 4096) as Byte, (0x80 + (v / 64) % 64) as Byte, (0x80 + v % 64) as Byte]
    else
      [(0xF0 + v / 262144) as Byte, (0x80 + (v / 4096) % 64) as Byte,
       (0x80 + (v / 64) % 64) as Byte, (0x80 + v % 64) as Byte]
  }

  /** The encoding of a string: its scalars' encodings, one after another. */
  function EncodeString(cs: seq<char>): (bytes: seq<Byte>)
    ensures |cs| <= |bytes| <= 4 * |cs|
  {
    if cs == [] then [] else EncodeScalar(cs[0]) + EncodeString(cs[1..])
  }

  /**
   * The scalar value at the start of `s` and the number of bytes it takes, or
   * None when `s` does not start with a well-formed sequence.
   */
  function DecodeScalar(s: seq<Byte>): (r: Option<(char, nat)>)
    ensures r.Some? ==> 1 <= r.value.1 <= |s| && r.value.1 <= 4
    ensures |s| > 0 && s[0] == 0xFF ==> r.None?
  {
    if |s| == 0 then None
    else
      var b0 := s[0] as int;
      if b0 < 0x80 then
        Some((b0 as char, 1))
      else if 0xC0 <= b0 < 0xE0 then
        if |s| < 2 || !IsContinuation(s[1]) then None
        else
          var v := (b0 - 0xC0) * 64 + Payload(s[1]);
          if v < 0x80 then None else Some((v as char, 2))
      else if 0xE0 <= b0 < 0xF0 then
        if |s| < 3 || !IsContinuation(s[1]) || !IsContinuation(s[2]) then None
        else
          var v := (b0 - 0xE0) * 4096 + Payload(s[1]) * 64 + Payload(s[2]);
          if v < 0x800 || 0xD800 <= v < 0xE000 then None else Some((v as char, 3))
      else if 0xF0 <= b0 < 0xF8 then
        if |s| < 4 || !IsContinuation(s[1]) || !IsContinuation(s[2]) || !IsContinuation(s[3]) then None
        else
          var v := (b0 - 0xF0) * 262144 + Payload(s[1]) * 4096 + Payload(s[2]) * 64 + Payload(s[3]);
          if v < 0x10000 || 0x10FFFF < v then None else Some((v as char, 4))
      else
        None
  }

  /**
   * `str::from_utf8`: the scalar values of `s` when all of it is well formed,
   * otherwise the length of its longest well-formed prefix.
   */
  function Decode(s: seq<Byte>): (r: Result<seq<char>, Utf8Error>)
    ensures r.Success? ==> |r.value| <= |s| && (|s| > 0 ==> |r.value| > 0)
    ensures r.Failure? ==> r.error.validUpTo < |s|
    decreases |s|
  {
    if s == [] then Success([])
    else
      match DecodeScalar(s)
      case None => Failure(Utf8Error(0))
      case Some((c, n)) =>
        match Decode(s[n..])
        case Success(cs) => Success([c] + cs)
        case Failure(e) => Failure(Utf8Error(n + e.validUpTo))
  }

  /** A scalar's encoding decodes to that scalar, whatever bytes follow it. */
  lemma {:induction false} DecodeEncodeScalar(c: char, rest: seq<Byte>)
    ensures DecodeScalar(EncodeScalar(c) + rest) == Some((c, Width(c)))
  {
    var v := c as int;
    var s := EncodeScalar(c) + rest;
    if v < 0x80 {
      assert s[0] as int == v;
    } else if v < 0x800 {
      DecodeEncodeTwo(c, rest);
    } else if v < 0x10000 {
      DecodeEncodeThree(c, rest);
    } else {
      DecodeEncodeFour(c, rest);
    }
  }

  lemma DecodeEncodeTwo(c: char, rest: seq<Byte>)
    requires 0x80 <= c as int < 0x800
    ensures DecodeScalar(EncodeScalar(c) + rest) == Some((c, 2))
  {
    var v := c as int;
    var s := EncodeScalar(c) + rest;
    assert s[0] as int == 0xC0 + v / 64 && s[1] as int == 0x80 + v % 64;
    assert (s[0] as int - 0xC0) * 64 + Payload(s[1]) == v;
  }

  lemma DecodeEncodeThree(c: char, rest: seq<Byte>)
    requires 0x800 <= c as int < 0x10000
    ensures DecodeScalar(EncodeScalar(c) + rest) == Some((c, 3))
  {
    var v := c as int;
    var s := EncodeScalar(c) + rest;
    SplitThree(v);
    assert s[0] as int - 0xE0 == v / 4096;
    assert Payload(s[1]) == (v / 64) % 64 && Payload(s[2]) == v % 64;
  }

  lemma DecodeEncodeFour(c: char, rest: seq<Byte>)
    requires 0x10000 <= c as int
    ensures DecodeScalar(EncodeScalar(c) + rest) == Some((c, 4))
  {
    var v := c as int;
    var s := EncodeScalar(c) + rest;
    SplitFour(v);
    assert s[0] as int - 0xF0 == v / 262144;
    assert Payload(s[1]) == (v / 4096) % 64;
    assert Payload(s[2]) == (v / 64) % 64 && Payload(s[3]) == v % 64;
  }

  /** A value below 0x10000 is its three six-bit-or-less digits in base 64. */
  lemma SplitThree(v: int)
    requires 0 <= v < 0x10000
    ensures (v / 4096) * 4096 + ((v / 64) % 64) * 64 + v % 64 == v
  {
  }

  /** A value below 0x200000 is its four digits in base 64. */
  lemma SplitFour(v: int)
    requires 0 <= v < 0x200000
    ensures (v / 262144) * 262144 + ((v / 4096) % 64) * 4096 + ((v / 64) % 64) * 64 + v % 64 == v
  {
  }

  /** Three base-64 digits are recovered from the value they form. */
  lemma JoinThree(a: int, b: int, d: int)
    requires 0 <= a < 16 && 0 <= b < 64 && 0 <= d < 64
    ensures var v := a * 4096 + b * 64 + d; v / 4096 == a && (v / 64) % 64 == b && v % 64 == d
  {
  }

  /** Four base-64 digits are recovered from the value they form. */
  lemma JoinFour(a: int, b: int, c: int, d: int)
    requires 0 <= a < 8 && 0 <= b < 64 && 0 <= c < 64 && 0 <= d < 64
    ensures var v := a * 262144 + b * 4096 + c * 64 + d;
      v / 262144 == a && (v / 4096) % 64 == b && (v / 64) % 64 == c && v % 64 == d
  {
    var v := a * 262144 + b * 4096 + c * 64 + d;
    assert v / 64 == a * 4096 + b * 64 + c;
    assert v / 4096 == a * 64 + b;
  }

  /**
   * Decoding is the inverse of encoding in the other direction too: a
   * well-formed sequence is the one encoding of the scalar it decodes to.
   */
  lemma {:induction false} EncodeDecodeScalar(s: seq<Byte>)
    requires DecodeScalar(s).Some?
    ensures var (c, n) := DecodeScalar(s).value; n == Width(c) && s[..n] == EncodeScalar(c)
  {
    var (c, n) := DecodeScalar(s).value;
    var v := c as int;
    if n == 2 {
      EncodeDecodeTwo(s);
    } else if n == 3 {
      EncodeDecodeThree(s);
    } else if n == 4 {
      EncodeDecodeFour(s);
    } else {
      assert s[0] as int == v;
    }
  }

  lemma EncodeDecodeTwo(s: seq<Byte>)
    requires DecodeScalar(s).Some? && DecodeScalar(s).value.1 == 2
    ensures var c := DecodeScalar(s).value.0; Width(c) == 2 && s[..2] == EncodeScalar(c)
  {
    var c := DecodeScalar(s).value.0;
    var v := c as int;
    assert 0xC0 <= s[0] < 0xE0 && IsContinuation(s[1]);
    assert v == (s[0] as int - 0xC0) * 64 + Payload(s[1]);
    assert v / 64 == s[0] as int - 0xC0 && v % 64 == Payload(s[1]);
  }

  lemma EncodeDecodeThree(s: seq<Byte>)
    requires DecodeScalar(s).Some? && DecodeScalar(s).value.1 == 3
    ensures var c := DecodeScalar(s).value.0; Width(c) == 3 && s[..3] == EncodeScalar(c)
  {
    var c := DecodeScalar(s).value.0;
    assert 0xE0 <= s[0] < 0xF0 && IsContinuation(s[1]) && IsContinuation(s[2]);
    var a, b, d := s[0] as int - 0xE0, Payload(s[1]), Payload(s[2]);
    assert c as int == a * 4096 + b * 64 + d;
    JoinThree(a, b, d);
    var e := EncodeScalar(c);
    assert e[0] == s[0] && e[1] == s[1] && e[2] == s[2];
  }

  lemma EncodeDecodeFour(s: seq<Byte>)
    requires DecodeScalar(s).Some? && DecodeScalar(s).value.1 == 4
    ensures var c := DecodeScalar(s).value.0; Width(c) == 4 && s[..4] == EncodeScalar(c)
  {
    var c := DecodeScalar(s).value.0;
    assert 0xF0 <= s[0] < 0xF8 && IsContinuation(s[1]) && IsContinuation(s[2]) && IsContinuation(s[3]);
    var a, b, x, d := s[0] as int - 0xF0, Payload(s[1]), Payload(s[2]), Payload(s[3]);
    assert c as int == a * 262144 + b * 4096 + x * 64 + d;
    JoinFour(a, b, x, d);
    var e := EncodeScalar(c);
    assert e[0] == s[0] && e[1] == s[1] && e[2] == s[2] && e[3] == s[3];
  }

  /** Decoding the encoding of a string gives the string back. */
  lemma {:induction false} DecodeEncodeString(cs: seq<char>)
    ensures Decode(EncodeString(cs)) == Success(cs)
  {
    if cs != [] {
      var s := EncodeString(cs);
      DecodeEncodeScalar(cs[0], EncodeString(cs[1..]));
      assert s[Width(cs[0])..] == EncodeString(cs[1..]);
      DecodeEncodeString(cs[1..]);
      assert cs == [cs[0]] + cs[1..];
    }
  }

  /** A well-formed byte string is the encoding of what it decodes to. */
  lemma {:induction false} EncodeDecodeString(s: seq<Byte>)
    requires Decode(s).Success?
    ensures EncodeString(Decode(s).value) == s
    decreases |s|
  {
    if s != [] {
      DecodeFirst(s);
      var first := DecodeScalar(s).value;
      EncodeDecodeScalar(s);
      EncodeDecodeString(s[first.1..]);
      EncodeFirst(s, first.0, first.1, Decode(s[first.1..]).value);
    }
  }

  /** A non-empty well-formed string decodes to its first scalar followed by the rest. */
  lemma DecodeFirst(s: seq<Byte>)
    requires s != [] && Decode(s).Success?
    ensures DecodeScalar(s).Some?
    ensures var n := DecodeScalar(s).value.1;
      Decode(s[n..]).Success? && Decode(s).value == [DecodeScalar(s).value.0] + Decode(s[n..]).value
  {
  }

  /** Bytes that split into the encoding of `c` and the encoding of `cs` encode `[c] + cs`. */
  lemma EncodeFirst(s: seq<Byte>, c: char, n: nat, cs: seq<char>)
    requires n <= |s| && s[..n] == EncodeScalar(c) && s[n..] == EncodeString(cs)
    ensures EncodeString([c] + cs) == s
  {
    assert ([c] + cs)[1..] == cs;
    assert s == s[..n] + s[n..];
  }

  /**
   * A sequence is read the same whatever follows the bytes it takes: with the
   * bytes after it cut off at `m`, or replaced by `rest`.
   */
  lemma DecodeScalarPrefix(s: seq<Byte>, m: nat, rest: seq<Byte>)
    requires DecodeScalar(s).Some? && DecodeScalar(s).value.1 <= m <= |s|
    ensures DecodeScalar(s[..m]) == DecodeScalar(s)
    ensures DecodeScalar(s[..DecodeScalar(s).value.1] + rest) == DecodeScalar(s)
  {
    var n := DecodeScalar(s).value.1;
    assert forall i :: 0 <= i < n ==> s[..m][i] == s[i];
    assert forall i :: 0 <= i < n ==> (s[..n] + rest)[i] == s[i];
  }

  /**
   * On failure, `validUpTo` is exactly the point where decoding stops: the
   * bytes before it decode, and no well-formed sequence starts there.
   */
  lemma {:induction false} DecodeFailureIsExact(s: seq<Byte>)
    requires Decode(s).Failure?
    ensures var k := Decode(s).error.validUpTo;
      Decode(s[..k]).Success? && DecodeScalar(s[k..]).None?
    decreases |s|
  {
    var first := DecodeScalar(s);
    if first.None? {
      FailureAtStart(s);
      assert s[..0] == [] && s[0..] == s;
    } else {
      FailureLater(s);
      var n := first.value.1;
      DecodeFailureIsExact(s[n..]);
      FailureSplits(s, first.value.0, n, Decode(s[n..]).error.validUpTo);
    }
  }

  /** A string that does not start with a well-formed sequence fails at 0. */
  lemma FailureAtStart(s: seq<Byte>)
    requires Decode(s).Failure? && DecodeScalar(s).None?
    ensures Decode(s).error.validUpTo == 0
  {
  }

  /** A string that starts with a well-formed sequence fails where its rest fails, shifted. */
  lemma FailureLater(s: seq<Byte>)
    requires Decode(s).Failure? && DecodeScalar(s).Some?
    ensures var n := DecodeScalar(s).value.1;
      Decode(s[n..]).Failure? && Decode(s).error.validUpTo == n + Decode(s[n..]).error.validUpTo
  {
  }

  /** The step of that proof: the bytes up to a failure `e` bytes past the first scalar decode. */
  lemma FailureSplits(s: seq<Byte>, c: char, n: nat, e: nat)
    requires DecodeScalar(s) == Some((c, n)) && n + e <= |s|
    requires Decode(s[n..][..e]).Success? && DecodeScalar(s[n..][e..]).None?
    ensures Decode(s[..n + e]).Success? && DecodeScalar(s[n + e..]).None?
  {
    var t := s[..n + e];
    DecodeScalarPrefix(s, n + e, []);
    assert t[n..] == s[n..][..e];
    assert s[n + e..] == s[n..][e..];
  }

  /** The byte 0xFF starts no well-formed sequence, so a string starting with it fails at once. */
  lemma SentinelNeverDecodes(s: seq<Byte>)
    requires |s| > 0 && s[0] == 0xFF
    ensures Decode(s) == Failure(Utf8Error(0))
  {
  }
}
