/**
 * The key code space: 256 key identifiers, one for every byte value.
 *
 * The Rust enum is `#[repr(u8)]` with one variant per discriminant 0..255, and
 * the conversion from a byte reinterprets the byte as the enum. Here a key is a
 * newtype over the byte range, each variant a named constant, and the
 * conversion is the identity on that range.
 */
module Keys {

  import opened Bytes

  /** A key identifier: the discriminant of one variant. */
  newtype Key = k: int | 0 <= k < 256

  /** `k as u8`: the discriminant of a key, as a byte. */
  function ToByte(k: Key): (b: Byte)
    ensures b as int == k as int
  {
    k as int as Byte
  }

  /** `Key::from(b)`: total, every byte names a declared variant. */
  function FromByte(b: Byte): (k: Key)
    ensures k as int == b as int
  {
    b as int as Key
  }

  /** Converting a byte to a key and back gives the byte. */
  lemma ByteRoundTrip(b: Byte)
    ensures ToByte(FromByte(b)) == b
  {
  }

  /** Converting a key to its byte and back gives the key. */
  lemma KeyRoundTrip(k: Key)
    ensures FromByte(ToByte(k)) == k
  {
  }

  /** Distinct bytes give distinct keys (with KeyRoundTrip: the conversion is a bijection). */
  lemma FromByteInjective(b1: Byte, b2: Byte)
    ensures FromByte(b1) == FromByte(b2) <==> b1 == b2
  {
  }

  // The variants, with the discriminants the enum declares for them.
  const Grave: Key := 0
  const Digit1: Key := 1
  const Digit2: Key := 2
  const Digit3: Key := 3
  const Digit4: Key := 4
  const Digit5: Key := 5
  const Digit6: Key := 6
  const Digit7: Key := 7
  const Digit8: Key := 8
  const Digit9: Key := 9
  const Digit0: Key := 10
  const Minus: Key := 11
  const Equals: Key := 12
  const Backslash: Key := 13
  const Tab: Key := 14
  const Q: Key := 15
  const W: Key := 16
  const E: Key := 17
  const R: Key := 18
  const T: Key := 19
  const Y: Key := 20
  const U: Key := 21
  const I: Key := 22
  const O: Key := 23
  const P: Key := 24
  const LeftBracket: Key := 25
  const RightBracket: Key := 26
  const Escape: Key := 27
  const A: Key := 28
  const S: Key := 29
  const D: Key := 30
  const F: Key := 31
  const G: Key := 32
  const H: Key := 33
  const J: Key := 34
  const K: Key := 35
  const L: Key := 36
  const Semicolon: Key := 37
  const Apostrophe: Key := 38
  const Enter: Key := 39
  const LeftShift: Key := 40
  const Z: Key := 41
  const X: Key := 42
  const C: Key := 43
  const V: Key := 44
  const B: Key := 45
  const N: Key := 46
  const M: Key := 47
  const Comma: Key := 48
  const Period: Key := 49
  const Slash: Key := 50
  const Up: Key := 51
  const RightShift: Key := 52
  const LeftApp: Key := 53
  const LeftPrg: Key := 54
  const LeftSys: Key := 55
  const Erase: Key := 56
  const Space: Key := 57
  const Graph: Key := 58
  const RightPrg: Key := 59
  const RightApp: Key := 60
  const Left: Key := 61
  const Down: Key := 62
  const Right: Key := 63
  const Not: Key := 64
  const F1: Key := 65
  const F2: Key := 66
  const F3: Key := 67
  const F4: Key := 68
  const F5: Key := 69
  const F6: Key := 70
  const F7: Key := 71
  const F8: Key := 72
  const F9: Key := 73
  const F10: Key := 74
  const F11: Key := 75
  const F12: Key := 76
  const Power: Key := 77
  const Input: Key := 78
  const F13: Key := 79
  const F14: Key := 80
  const F15: Key := 81
  const F16: Key := 82
  const F17: Key := 83
  const F18: Key := 84
  const F19: Key := 85
  const F20: Key := 86
  const F21: Key := 87
  const F22: Key := 88
  const F23: Key := 89
  const F24: Key := 90
  const MiddleClick: Key := 91
  const AlphaNumeric: Key := 92
  const Kanji: Key := 93
  const Convert: Key := 94
  const NonConvert: Key := 95
  const Hangul: Key := 96
  const Hanja: Key := 97
  const Junja: Key := 98
  const Kana: Key := 99
  const Final: Key := 100
  const Change: Key := 101
  const Accept: Key := 102
  const RightClick: Key := 103
  const LeftClick: Key := 104
  const Pause: Key := 105
  const Break: Key := 106
  const Clear: Key := 107
  const ScrollLock: Key := 108
  const NumLock: Key := 109
  const SysLock: Key := 110
  const Menu: Key := 111
  const Back: Key := 112
  const Forward: Key := 113
  const RightSys: Key := 114
  const PageUp: Key := 115
  const DpiClick: Key := 116
  const LeftAppLock: Key := 117
  const LeftPrgLock: Key := 118
  const SideClick: Key := 119
  const Remove: Key := 120
  const Compose: Key := 121
  const Insert: Key := 122
  const RightPrgLock: Key := 123
  const RightAppLock: Key := 124
  const PageHome: Key := 125
  const PageDown: Key := 126
  const PageEnd: Key := 127
  const LangPrev: Key := 128
  const LaunchWeb: Key := 129
  const LaunchEmail: Key := 130
  const LaunchCalculator: Key := 131
  const LaunchFinance: Key := 132
  const LaunchPlayer: Key := 133
  const LaunchGame: Key := 134
  const LaunchCalendar: Key := 135
  const LaunchNotes: Key := 136
  const LaunchVideo: Key := 137
  const LaunchAudio: Key := 138
  const ZoomOut: Key := 139
  const ZoomIn: Key := 140
  const ZoomReset: Key := 141
  const LangNext: Key := 142
  const Display: Key := 143
  const WorkspaceUp: Key := 144
  const Dim: Key := 145
  const Brighten: Key := 146
  const LaunchSettings: Key := 147
  const LaunchConfigNet: Key := 148
  const LaunchConfigAV: Key := 149
  const ScreenCapture: Key := 150
  const ScreenCopy: Key := 151
  const ScreenShot: Key := 152
  const ScreenRotateWiddershins: Key := 153
  const ScreenRotateClockwise: Key := 154
  const MobileSwitchApp: Key := 155
  const SelectWorkspace: Key := 156
  const WorkspaceDown: Key := 157
  const SelectApp: Key := 158
  const SwitchSpeaker: Key := 159
  const SwitchMicrophone: Key := 160
  const MicrophoneMute: Key := 161
  const MicrophoneQuieter: Key := 162
  const MicrophoneLouder: Key := 163
  const Midi: Key := 164
  const Controller: Key := 165
  const Phone: Key := 166
  const NewWindow: Key := 167
  const MobileHomeScreen: Key := 168
  const SpeakerMute: Key := 169
  const SpeakerQuieter: Key := 170
  const SpeakerLouder: Key := 171
  const Rewind: Key := 172
  const StopEject: Key := 173
  const FastForward: Key := 174
  const Mirror: Key := 175
  const WebcamDim: Key := 176
  const WebcamBrighten: Key := 177
  const Help: Key := 178
  const TileUp: Key := 179
  const ScrollUp: Key := 180
  const ScrollLeft: Key := 181
  const ScrollDown: Key := 182
  const ScrollRight: Key := 183
  const Prev: Key := 184
  const Play: Key := 185
  const Next: Key := 186
  const MobileLaunchCall: Key := 187
  const MobileLaunchCamera: Key := 188
  const TileLeft: Key := 189
  const TileDown: Key := 190
  const TileRight: Key := 191
  const Reserved192: Key := 192
  const Reserved193: Key := 193
  const Reserved194: Key := 194
  const Reserved195: Key := 195
  const Reserved196: Key := 196
  const Reserved197: Key := 197
  const Reserved198: Key := 198
  const Reserved199: Key := 199
  const Reserved200: Key := 200
  const Reserved201: Key := 201
  const Reserved202: Key := 202
  const Reserved203: Key := 203
  const Reserved204: Key := 204
  const Reserved205: Key := 205
  const NumTab: Key := 206
  const NumDivide: Key := 207
  const NumMultiply: Key := 208
  const NumSubtract: Key := 209
  const NumAdd: Key := 210
  const NumComma: Key := 211
  const Reserved212: Key := 212
  const Reserved213: Key := 213
  const Reserved214: Key := 214
  const Reserved215: Key := 215
  const Reserved216: Key := 216
  const Reserved217: Key := 217
  const Reserved218: Key := 218
  const Reserved219: Key := 219
  const Num0: Key := 220
  const Num1: Key := 221
  const Num2: Key := 222
  const Num3: Key := 223
  const Num4: Key := 224
  const Num5: Key := 225
  const Num6: Key := 226
  const Num7: Key := 227
  const Num8: Key := 228
  const Num9: Key := 229
  const NumDecimalPoint: Key := 230
  const NumEnter: Key := 231
  const MobileActivityBack: Key := 232
  const Reserved233: Key := 233
  const Reserved234: Key := 234
  const Reserved235: Key := 235
  const Reserved236: Key := 236
  const Reserved237: Key := 237
  const Reserved238: Key := 238
  const Reserved239: Key := 239
  const Reserved240: Key := 240
  const Reserved241: Key := 241
  const Reserved242: Key := 242
  const NumUp: Key := 243
  const Reserved244: Key := 244
  const Reserved245: Key := 245
  const Reserved246: Key := 246
  const Reserved247: Key := 247
  const Reserved248: Key := 248
  const Reserved249: Key := 249
  const Reserved250: Key := 250
  const Reserved251: Key := 251
  const Reserved252: Key := 252
  const NumLeft: Key := 253
  const NumDown: Key := 254
  const NumRight: Key := 255

  /** Four fixed discriminants: the first key, `A`, `LeftShift` and the last key. */
  lemma AnchorDiscriminants()
    ensures ToByte(Grave) == 0 && ToByte(A) == 28
    ensures ToByte(LeftShift) == 40 && ToByte(NumRight) == 255
    ensures FromByte(0) == Grave && FromByte(255) == NumRight
  {
  }
}
