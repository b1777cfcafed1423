/**
 * The event codec: a typing event (`Type`) and its fixed four-byte frame
 * (`TypeInternal`). A key event is framed as `[0xFF, key, 1 or 0, mods]`; a
 * character as its UTF-8 bytes padded with zeros. No UTF-8 sequence starts
 * with 0xFF, so the first byte tells the two shapes apart.
 */
module Codec {
  import opened Wrappers
  import opened Bytes
  import opened Keys
  import Utf8

  /** A typing event. `mods` is the byte of the `Mods` register at the time of the event. */
  datatype Type = Char(c: char) | Press(key: Key, mods: Byte) | Release(key: Key, mods: Byte)

  /** `TypeInternal`: the packed four-byte frame. */
  type Frame = f: seq<Byte> | |f| == 4 witness [0, 0, 0, 0]

  /** The first byte of every key-event frame. */
  const SENTINEL: Byte := 0xFF

  /** The NUL character, whose UTF-8 encoding is the single byte 0. */
  const NUL: char := 0 as char

  function Zeros(n: nat): (z: seq<Byte>)
    ensures |z| == n && forall i :: 0 <= i < n ==> z[i] == 0
  {
    seq(n, _ => 0)
  }

  /** `TypeInternal::new(key, state, mods)`: the frame of a press (`state`) or a release. */
  function KeyFrame(key: Key, state: bool, mods: Byte): (f: Frame)
    ensures f == [SENTINEL, ToByte(key), if state then 1 else 0, mods]
    ensures Decode(f) == Success(if state then Press(key, mods) else Release(key, mods))
  {
    [SENTINEL, ToByte(key), if state then 1 else 0, mods]
  }

  /** `From<Type> for TypeInternal`. */
  function Encode(t: Type): (f: Frame)
    ensures f[0] == SENTINEL <==> !t.Char?
    ensures t.Press? ==> f == [SENTINEL, ToByte(t.key), 1, t.mods]
    ensures t.Release? ==> f == [SENTINEL, ToByte(t.key), 0, t.mods]
    ensures t.Char? ==> var w := Utf8.Width(t.c);
      f[..w] == Utf8.EncodeScalar(t.c) && f[w..] == Zeros(4 - w)
  {
    match t
    case Char(c) =>
      var bytes := Utf8.EncodeScalar(c);
      bytes + Zeros(4 - |bytes|)
    case Press(key, mods) => KeyFrame(key, true, mods)
    case Release(key, mods) => KeyFrame(key, false, mods)
  }

  /**
   * `TryFrom<TypeInternal> for Type`: a sentinel frame with 0 or 1 in byte 2
   * is a key event; any other frame must be UTF-8 as a whole, and gives its
   * first character.
   */
  function Decode(f: Frame): (r: Result<Type, Utf8.Utf8Error>)
    ensures r.Success? ==> (r.value.Char? <==> f[0] != SENTINEL)
    ensures f[0] == SENTINEL ==> (r.Success? <==> f[2] <= 1)
  {
    if f[0] == SENTINEL && f[2] == 0 then
      Success(Release(FromByte(f[1]), f[3]))
    else if f[0] == SENTINEL && f[2] == 1 then
      Success(Press(FromByte(f[1]), f[3]))
    else
      match Utf8.Decode(f)
      case Failure(e) => Failure(e)
      case Success(cs) => Success(Char(cs[0]))
  }

  /** Zero bytes are the encoding of as many NUL characters. */
  lemma {:induction false} ZerosAreNuls(n: nat)
    ensures Utf8.EncodeString(seq(n, _ => NUL)) == Zeros(n)
  {
    if n > 0 {
      var nuls := seq(n, _ => NUL);
      assert nuls[1..] == seq(n - 1, _ => NUL);
      ZerosAreNuls(n - 1);
      assert Zeros(n) == [0] + Zeros(n - 1);
    }
  }

  /** Decoding the encoding of any event gives the event back. */
  lemma {:induction false} RoundTrip(t: Type)
    ensures Decode(Encode(t)) == Success(t)
  {
    if t.Char? {
      var c := t.c;
      var w := Utf8.Width(c);
      var cs := [c] + seq(4 - w, _ => NUL);
      ZerosAreNuls(4 - w);
      assert cs[0] == c && cs[1..] == seq(4 - w, _ => NUL);
      assert Utf8.EncodeString(cs) == Encode(t);
      Utf8.DecodeEncodeString(cs);
    }
  }

  /** A key-event frame that decodes is exactly the encoding of what it decodes to. */
  lemma KeyFrameReencodes(f: Frame)
    requires f[0] == SENTINEL && Decode(f).Success?
    ensures Encode(Decode(f).value) == f
  {
  }

  /**
   * A frame that decodes to a character starts with that character's encoding.
   * The bytes after it need only be valid UTF-8; they are not checked to be zeros.
   */
  lemma {:induction false} CharFrameStartsWithEncoding(f: Frame)
    requires Decode(f).Success? && Decode(f).value.Char?
    ensures var c := Decode(f).value.c; f[..Utf8.Width(c)] == Utf8.EncodeScalar(c)
  {
    var cs := Utf8.Decode(f).value;
    Utf8.EncodeDecodeString(f);
    assert Utf8.EncodeString(cs) == Utf8.EncodeScalar(cs[0]) + Utf8.EncodeString(cs[1..]);
  }

  /**
   * A frame without the sentinel decodes exactly when it is, as a whole, the
   * UTF-8 encoding of some string, and then gives that string's first character.
   */
  lemma NonSentinelDecodes(f: Frame)
    requires f[0] != SENTINEL
    ensures Decode(f).Success? <==> exists cs :: Utf8.EncodeString(cs) == f
    ensures forall cs :: Utf8.EncodeString(cs) == f ==> Decode(f) == Success(Char(cs[0]))
  {
    if Decode(f).Success? {
      Utf8.EncodeDecodeString(f);
      assert Utf8.EncodeString(Utf8.Decode(f).value) == f;
    }
    forall cs | Utf8.EncodeString(cs) == f
      ensures Decode(f) == Success(Char(cs[0]))
    {
      Utf8.DecodeEncodeString(cs);
    }
  }

  /**
   * A sentinel frame whose byte 2 is neither 0 nor 1 falls through to the UTF-8
   * branch and fails there, since 0xFF starts no UTF-8 sequence.
   */
  lemma MalformedKeyFrame(f: Frame)
    requires f[0] == SENTINEL && f[2] > 1
    ensures Decode(f) == Failure(Utf8.Utf8Error(0))
  {
  }

  /** The frames of a press of A with SHIFT held, and of the character 'A'. */
  lemma Examples()
    ensures Encode(Press(A, 0x08)) == [0xFF, 28, 1, 0x08]
    ensures Decode([0xFF, 28, 1, 0x08]) == Success(Press(A, 0x08))
    ensures Encode(Char('A')) == [0x41, 0, 0, 0]
    ensures Decode([0x41, 0, 0, 0]) == Success(Char('A'))
  {
    RoundTrip(Char('A'));
  }
}
