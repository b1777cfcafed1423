# kbrd: keyboard events, modelled in Dafny

This project models the sequential core of `kbrd`, a Rust library for sending
and receiving keyboard events, and proves properties about the model.

- **Key code space** (`src/key.rs`). `Key` is a 256-variant `#[repr(u8)]`
  enum. Here it is a newtype over the byte values 0..255, with one named
  constant per variant. The `From<u8>` conversion is the identity in both
  directions.
- **Modifier register** (`src/lib.rs`). `Mods` packs eight flags into a
  byte. It is a class whose `bits` field the setters update in place.
  `Get` and the eight getters read it.
- **Event codec** (`src/lib.rs`). A `Type` is a character, a press or a
  release. Its `TypeInternal` frame is four bytes:
  - a key event is framed as `[0xFF, key, 1 or 0, mods]`;
  - a character is framed as its UTF-8 bytes, padded with zeros.

  Decoding first matches the 0xFF sentinel with 0 or 1 in byte 2. Any other
  frame must be UTF-8 as a whole, and decodes to its first character.
  - UTF-8 follows section 3 of RFC 3629. It stands in for the standard
    library's `char::encode_utf8` and `str::from_utf8`. For UTF-8 the model
    proves the round trip in both directions.
  - For frames, decoding the encoding of any event gives the event back.
    The other direction holds only in part: a key frame that decodes
    re-encodes to itself, but a character frame does so only when the bytes
    after its character are zeros, since decoding never checks that they are zeros.
- **De-duplication** (`src/lib.rs`). This is the body of
  `Keyboard::poll_next` after a frame has been received and decoded.
  - A 256-bit "pressed" bitmap, `[u64; 4]`, lets a press through only when
    its key is up, and a release only when its key is down.
  - Characters always pass.
  - The `Keyboard` class keeps that bitmap in an array.
  - The model proves that, from an empty bitmap, the events passed on for
    every key alternate press, release, press, and so on. The key's bit is
    set exactly when the last of them was a press.
- **Expansion engine** (`kbrd/src/lib.rs`). `press` and `release` look a raw
  key code up in a 256-entry table. The table is a parameter here.
  - They walk the row's (key, modifier bits) pairs in order, setting or
    clearing the bits in a register.
  - After each pair they call a callback with the register and the key.
  - The register is passed in and handed back. The callback's calls are
    returned as a sequence.
  - `State` and its three bit predicates come from the same file.

Modules, one per file: `Wrappers` (Option, Result), `Bytes` (the byte range),
`Keys`, `Modifiers`, `Utf8`, `Codec`, `Dedup` and `Kbrd`.

Two behaviours of the code worth knowing:
- **Press then release.** A `press` followed by a `release` of the same key
  code gives the register back only when none of the row's bits were set
  before the press. `release` clears bits whether or not `press` set them.
  `PressThenReleaseRestores` proves the restore under that condition.
  `PressThenReleaseDropsHeldBits` proves that the register comes back
  exactly under that condition.
- **`CtrlOpt`.** It is written `0b0110_000`, which is 0x30. It is kept as
  written and is not the union `Ctrl | Opt`.

## Model

| member | source | states |
|---|---|---|
| Keys.ToByte | src/key.rs:9-11 | `k as u8`: the byte of a key is its discriminant |
| Keys.FromByte | src/key.rs:821-826 | `Key::from(b)` is total: every byte is the discriminant of a key, and it is that key |
| Keys.ByteRoundTrip | src/key.rs:821-826 | `Key::from(b) as u8 == b` for every byte |
| Keys.KeyRoundTrip | src/key.rs:821-826 | `Key::from(k as u8) == k` for every key |
| Keys.FromByteInjective | src/key.rs:11-819 | two bytes give the same key exactly when they are equal, so bytes and keys are in bijection |
| Keys.AnchorDiscriminants | src/key.rs:16-818 | `Grave` is 0, `A` is 28, `LeftShift` is 40, `NumRight` is 255, and the conversion maps 0 and 255 back to them |
| Modifiers.MasksAreSingleBits | src/lib.rs:14-21 | the eight flag masks are the single bits 7 down to 0, pairwise disjoint |
| Modifiers.FlagsDetermineByte | src/lib.rs:11-21 | two register bytes have the same eight flags exactly when they are equal |
| Modifiers.Updated | src/lib.rs:23-29 | `set(what, to)` makes every bit of `what` equal `to` and keeps every other bit |
| Modifiers.UpdatedFlag | src/lib.rs:14-29 | setting one named mask changes that flag to the value given and leaves the other seven |
| Modifiers.Mods.constructor | src/lib.rs:35-38 | `Mods::new()` is the default byte 0: all eight flags clear |
| Modifiers.Mods.Set | src/lib.rs:23-29 | the byte after `set` turns on (or off) exactly the bits of `what`; other bits are unchanged |
| Modifiers.Mods.Get | src/lib.rs:31-33 | `get(what)` holds exactly when some flag inside `what` is set |
| Modifiers.Mods.SetFlag | src/lib.rs:40-78 | a named setter changes its own flag to the value and leaves the other seven as they were |
| Modifiers.Mods.SetComposing | src/lib.rs:41-43 | after `set_composing(v)`, `composing()` is `v` and the other flags are unchanged |
| Modifiers.Mods.SetGraph | src/lib.rs:46-48 | after `set_graph(v)`, `graph()` is `v` and the other flags are unchanged |
| Modifiers.Mods.SetApp | src/lib.rs:51-53 | after `set_app(v)`, `app()` is `v` and the other flags are unchanged |
| Modifiers.Mods.SetPrg | src/lib.rs:56-58 | after `set_prg(v)`, `prg()` is `v` and the other flags are unchanged |
| Modifiers.Mods.SetShift | src/lib.rs:61-63 | after `set_shift(v)`, `shift()` is `v` and the other flags are unchanged |
| Modifiers.Mods.SetEmoji | src/lib.rs:66-68 | after `set_emoji(v)`, `emoji()` is `v` and the other flags are unchanged |
| Modifiers.Mods.SetLtb | src/lib.rs:71-73 | after `set_ltb(v)`, `ltb()` is `v` and the other flags are unchanged |
| Modifiers.Mods.SetRtb | src/lib.rs:76-78 | after `set_rtb(v)`, `rtb()` is `v` and the other flags are unchanged |
| Modifiers.Mods.Composing | src/lib.rs:81-83 | `composing()` reads flag 0 (bit 7) |
| Modifiers.Mods.Graph | src/lib.rs:86-88 | `graph()` reads flag 1 (bit 6) |
| Modifiers.Mods.App | src/lib.rs:91-93 | `app()` reads flag 2 (bit 5) |
| Modifiers.Mods.Prg | src/lib.rs:96-98 | `prg()` reads flag 3 (bit 4) |
| Modifiers.Mods.Shift | src/lib.rs:101-103 | `shift()` reads flag 4 (bit 3) |
| Modifiers.Mods.Emoji | src/lib.rs:106-108 | `emoji()` reads flag 5 (bit 2) |
| Modifiers.Mods.Ltb | src/lib.rs:111-113 | `ltb()` reads flag 6 (bit 1) |
| Modifiers.Mods.Rtb | src/lib.rs:116-118 | `rtb()` reads flag 7 (bit 0) |
| Utf8.EncodeScalar | src/lib.rs:222-226 | `encode_utf8`: one to four bytes; the lead byte is ASCII or 0xC2..0xF4, and the rest are continuation bytes |
| Utf8.Decode | src/lib.rs:206 | `from_utf8`: on success, at most one scalar per byte and at least one for a non-empty input; on failure, the valid prefix is shorter than the input |
| Utf8.DecodeScalarPrefix | src/lib.rs:206 | a leading sequence is read the same whatever bytes follow it: with the bytes after it cut off, or replaced by any others |
| Utf8.DecodeFailureIsExact | src/lib.rs:206 | on failure, `valid_up_to` is exactly where decoding stops: the bytes before it decode, and no well-formed sequence starts there |
| Utf8.DecodeEncodeScalar | src/lib.rs:206-226 | a scalar's encoding decodes to that scalar and its width, whatever bytes follow |
| Utf8.EncodeDecodeScalar | src/lib.rs:206-226 | a well-formed sequence at the head of a byte string is exactly the encoding of the scalar it decodes to |
| Utf8.DecodeEncodeString | src/lib.rs:206-226 | decoding the encoding of any string gives the string back |
| Utf8.EncodeDecodeString | src/lib.rs:206-226 | a byte string that decodes is the encoding of what it decodes to |
| Utf8.SentinelNeverDecodes | src/lib.rs:203-206 | a byte string starting with 0xFF fails with nothing valid |
| Codec.KeyFrame | src/lib.rs:193-196 | `TypeInternal::new(key, state, mods)` is the frame `[0xFF, key, 1 or 0, mods]`, and it decodes to `Press(key, mods)` when `state` is true and to `Release(key, mods)` otherwise |
| Codec.Encode | src/lib.rs:219-235 | byte 0 is 0xFF exactly for key events; a press is framed `[0xFF, key, 1, mods]` and a release `[0xFF, key, 0, mods]`; a character's frame is its UTF-8 bytes followed by zeros up to four bytes |
| Codec.Decode | src/lib.rs:199-210 | a successful decode is a character exactly when byte 0 is not 0xFF; a sentinel frame decodes exactly when byte 2 is 0 or 1 |
| Codec.ZerosAreNuls | src/lib.rs:223-224 | the zero padding is the encoding of as many NUL characters |
| Codec.RoundTrip | src/lib.rs:199-235 | decoding the encoding of any event gives the same event |
| Codec.KeyFrameReencodes | src/lib.rs:199-235 | a sentinel frame that decodes is the encoding of its result |
| Codec.CharFrameStartsWithEncoding | src/lib.rs:199-226 | a frame that decodes to a character begins with that character's encoding |
| Codec.NonSentinelDecodes | src/lib.rs:199-210 | a frame without the 0xFF sentinel decodes exactly when it is as a whole the UTF-8 encoding of some string, and then gives that string's first character |
| Codec.MalformedKeyFrame | src/lib.rs:203-206 | a sentinel frame with byte 2 not 0 or 1 fails to decode, with nothing valid |
| Codec.Examples | src/lib.rs:193-235 | the frames of `Press(A, SHIFT)` and of `Char('A')`, both ways |
| Dedup.Level | src/lib.rs:160-161 | a key's word, `key / 64`, is one of the four |
| Dedup.Offset | src/lib.rs:160-162 | a key's place in its word is `key % 64` |
| Dedup.OffsetsDistinct | src/lib.rs:160-162 | two different keys in the same word are at different places |
| Dedup.WordWithBit | src/lib.rs:163-175 | after OR-ing `1 << i` into a word or AND-ing its complement (`WordWith`), the bit test `w & (1 << j) != 0` (`Bit`) gives the value asked for at `i` and the old value at every other `j` |
| Dedup.WithBit | src/lib.rs:163-175 | updating a key's bit in the bitmap makes `IsPressed` (the test of bit `key % 64` of word `key / 64`) give the new value for that key and leaves every other key unchanged |
| Dedup.Deduplicate | src/lib.rs:158-181 | the step passes the event on or suppresses it; a character always passes with the bitmap unchanged; a press passes exactly when its key was up and a release exactly when it was down; a suppressed event leaves the bitmap unchanged |
| Dedup.StepEffect | src/lib.rs:158-181 | a passed key event sets its own key's bit for a press and clears it for a release; no other key's bit ever changes |
| Dedup.KeyStep | src/lib.rs:160-175 | the word-level form of `Deduplicate` on a key event, used by `Keyboard.Step`: test the key's bit in its word, suppress when it already has the event's value, otherwise write the word back with that bit changed |
| Dedup.History | src/lib.rs:158-181 | a key's history has at most one entry per event |
| Dedup.Run | src/lib.rs:158-181 | a run passes on at most as many events as it was fed |
| Dedup.StepPreservesConsistent | src/lib.rs:158-181 | one step keeps the invariant: per key, the passed-on events alternate from a press, and the bit is set exactly when the last was a press |
| Dedup.RunConsistent | src/lib.rs:133-181 | from the all-clear bitmap, any sequence of events keeps that invariant |
| Dedup.CharsAppend | src/lib.rs:179 | the characters of any concatenation of event sequences are the characters of each part, in order |
| Dedup.RunPassesChars | src/lib.rs:179-181 | characters are never suppressed: a run passes on exactly the characters it was given, in order |
| Dedup.Keyboard.constructor | src/lib.rs:132-137 | a new keyboard has every key up and satisfies the invariant |
| Dedup.Keyboard.Step | src/lib.rs:158-181 | the in-place step on the `[u64; 4]` array computes the same bitmap and output as the value-level step, and keeps the invariant |
| Kbrd.Deltas | kbrd/src/lib.rs:10-12 | the union of a row's modifier bits contains every pair's bits |
| Kbrd.Set | kbrd/src/lib.rs:11 | `mods.set(d)` turns on the bits of `d` and keeps the others |
| Kbrd.Clear | kbrd/src/lib.rs:21 | `mods.clear(d)` turns off the bits of `d` and keeps the others |
| Kbrd.RowDeltas | kbrd/src/lib.rs:9 | a key code without a row brings no bits |
| Kbrd.Press | kbrd/src/lib.rs:8-15 | without a row: no call and the register unchanged; with one: one call per pair, in order, with that pair's key and the register with the bits of pairs 0..i set; the register ends with all the row's bits set |
| Kbrd.Release | kbrd/src/lib.rs:17-25 | the same with the bits of pairs 0..i cleared; the register ends with all the row's bits cleared |
| Kbrd.DeltasDisjoint | kbrd/src/lib.rs:10-12 | a bit that no pair brings is outside the row's union |
| Kbrd.BitsOutsideRowUnchanged | kbrd/src/lib.rs:8-25 | neither `press` nor `release` changes a bit that no pair of the row brings |
| Kbrd.PressThenReleaseRestores | kbrd/src/lib.rs:8-25 | `press` then `release` of one key code restores the register when none of the row's bits were set before |
| Kbrd.PressThenReleaseDropsHeldBits | kbrd/src/lib.rs:8-25 | for every table, register and key code, `press` then `release` leaves every bit of the row clear, whether or not it was held, so the register comes back exactly when none of the row's bits was set |
| Kbrd.PressThenReleaseExample | kbrd/src/lib.rs:8-25 | with the row `[(k, SHIFT)]` and SHIFT held, `press` then `release` leaves the register 0 |
| Kbrd.CombinedMods | kbrd/src/lib.rs:28-44 | `Alt` is the union of `Shift` and `Ctrl`, `ShiftOpt` the union of `Shift` and `Opt`; `CtrlOpt` is 0x30, not the union of `Ctrl` and `Opt` |
| Kbrd.State.Pressed | kbrd/src/lib.rs:64-66 | `pressed()` holds exactly when PRESS is set and REPEAT is clear |
| Kbrd.State.Repeated | kbrd/src/lib.rs:70-72 | `repeated()` holds exactly when REPEAT is set |
| Kbrd.State.Inputted | kbrd/src/lib.rs:76-78 | `inputted()` holds exactly when PRESS or REPEAT is set |
| Kbrd.StateCases | kbrd/src/lib.rs:64-78 | `pressed()` and `repeated()` never both hold; each implies `inputted()`, and `inputted()` is one or the other |

## Left out

- The channel and the async machinery are not modelled. That covers `Typer`, `Keyboard::typer`, the channel inside `Keyboard`, and the `Notifier` and `Poll` wrapper of `poll_next`; they are concurrency and foreign library code. `Keyboard.Step` is the step that runs on an already-received event. A suppressed event's `Pending` is `None`.
- The `.unwrap()` that panics on a frame that does not decode is not modelled. `Keyboard.Step` takes a decoded `Type`, and `Codec.Decode` reports the failure as a `Result`.
- `unsafe transmute` is modelled as the identity on the byte range, not as a reinterpretation of memory.
- The standard library's UTF-8 routines are not modelled. In their place, `Utf8` encodes and decodes per RFC 3629. `Utf8Error` keeps `valid_up_to` but not `error_len`.
- The 256 variant names of `Key` are constants. No single lemma states that all 256 discriminants are distinct; `Keys.FromByteInjective` gives the bijection between bytes and keys.
- The key-code module of the `kbrd` crate is not part of this model. That covers its `MAPPINGS` contents, its `Key` and its modifier type. The table is a parameter, and its register's `set` and `clear` are taken to be OR and AND-NOT (`Kbrd.Set`, `Kbrd.Clear`).
- The `kbrd` callback is not called. Its calls are returned as a sequence, so the model does not cover a callback with effects of its own.
- The `key()` stub of `kbrd`, which always returns `State(0)`, is not modelled.
- The `it_works` test is not modelled.
- The unused constants `COMPOSE`, `CLIPBOARD` and `EMOJI` of `kbrd` are not modelled.
- Codec.Type: the `mods` of a key event is the register's byte as an integer 0..255, not a `Mods` object. `Codec` and `Dedup` never look at its bits.
- Codec.CharFrameStartsWithEncoding: the bytes after a character's encoding need only be valid UTF-8 for the frame to decode, as in the code. They are not required to be zeros, so a decoded character frame re-encodes to the same frame only when its padding is zero.
