/** Wire-level facts about the Xbox Chatpad serial protocol: the fixed
    messages the host sends, the inbound 8-byte frame and its decoding,
    the modifier mask bits and the scan-code to platform-key table. */
module ChatpadProtocol {

  type Byte = bv8

  datatype Option<+T> = None | Some(value: T)

  /** Outcome of a table lookup: the value, or the key that is missing
      (Python's KeyError). */
  datatype Result<+T> = Ok(value: T) | KeyError(code: int)

  /** Host-to-device messages. */
  const InitMessage: seq<Byte> := [0x87, 0x02, 0x8C, 0x1F, 0xCC]
  const AwakeMessage: seq<Byte> := [0x87, 0x02, 0x8C, 0x1B, 0xD0]

  /** Inbound frame layout. */
  const FrameLength: nat := 8
  const SyncByte1: Byte := 0xB4
  const SyncByte2: Byte := 0xC5

  /** Modifier mask bits. */
  const ShiftMask: Byte := 1 << 0
  const GreenSquareMask: Byte := 1 << 1
  const OrangeCircleMask: Byte := 1 << 2
  const PeopleMask: Byte := 1 << 3

  /** The modifier table, in the order the driver iterates it: each mask and
      the synthetic key id reported for it. The driver runs on CPython 2,
      where a dict of four entries lives in an 8-slot table with each small
      integer key at slot `key & 7`: mask 8 sits in slot 0, ahead of 1, 2
      and 4, so `mod_dict.keys()` yields 8, 1, 2, 4. */
  const ModDict: seq<(Byte, int)> :=
    [(PeopleMask, 4), (ShiftMask, 1), (GreenSquareMask, 2), (OrangeCircleMask, 3)]

  /** Polling iterations between two awake messages. */
  const CounterThreshold: nat := 10

  /** The scan-code part of the key table: scan code to platform key name,
      None for a code the table lacks. */
  function ScanCodeName(code: int): (r: Option<string>)
    ensures r.Some? ==> 17 <= code <= 119
    ensures r.Some? ==> |r.value| > 4 && r.value[..4] == "KEY_"
  {
    match code
    case 17 => Some("KEY_7")
    case 18 => Some("KEY_6")
    case 19 => Some("KEY_5")
    case 20 => Some("KEY_4")
    case 21 => Some("KEY_3")
    case 22 => Some("KEY_2")
    case 23 => Some("KEY_1")
    case 33 => Some("KEY_U")
    case 34 => Some("KEY_Y")
    case 35 => Some("KEY_T")
    case 36 => Some("KEY_R")
    case 37 => Some("KEY_E")
    case 38 => Some("KEY_W")
    case 39 => Some("KEY_Q")
    case 49 => Some("KEY_J")
    case 50 => Some("KEY_H")
    case 51 => Some("KEY_G")
    case 52 => Some("KEY_F")
    case 53 => Some("KEY_D")
    case 54 => Some("KEY_S")
    case 55 => Some("KEY_A")
    case 65 => Some("KEY_N")
    case 66 => Some("KEY_B")
    case 67 => Some("KEY_V")
    case 68 => Some("KEY_C")
    case 69 => Some("KEY_X")
    case 70 => Some("KEY_Z")
    case 81 => Some("KEY_RIGHT")
    case 82 => Some("KEY_M")
    case 83 => Some("KEY_DOT")
    case 84 => Some("KEY_SPACE")
    case 85 => Some("KEY_LEFT")
    case 98 => Some("KEY_COMMA")
    case 99 => Some("KEY_ENTER")
    case 100 => Some("KEY_P")
    case 101 => Some("KEY_0")
    case 102 => Some("KEY_9")
    case 103 => Some("KEY_8")
    case 113 => Some("KEY_BACKSPACE")
    case 114 => Some("KEY_L")
    case 117 => Some("KEY_O")
    case 118 => Some("KEY_I")
    case 119 => Some("KEY_K")
    case _ => None
  }

  /** The whole key table: the scan codes, updated with the four modifier
      ids so that modifiers are injected as keys too. */
  function KeyName(code: int): (r: Option<string>)
    ensures 1 <= code <= 4 ==> r.Some?
    ensures !(1 <= code <= 4) ==> r == ScanCodeName(code)
    ensures r.Some? ==> |r.value| > 4 && r.value[..4] == "KEY_"
  {
    match code
    case 1 => Some("KEY_LEFTSHIFT")
    case 2 => Some("KEY_LEFTCTRL")
    case 3 => Some("KEY_RIGHTALT")
    case 4 => Some("KEY_LEFTMETA")
    case _ => ScanCodeName(code)
  }

  /** The three fields of a frame the driver uses. */
  datatype Report = Report(modifiers: Byte, key0: Byte, key1: Byte)

  predicate HasSyncMarkers(frame: seq<Byte>)
  {
    |frame| == FrameLength && frame[0] == SyncByte1 && frame[1] == SyncByte2
  }

  /** Reads the modifier mask and the two key slots out of a frame; the
      reserved bytes 2, 6 and 7 are not looked at and nothing is checksummed,
      so a frame with both markers is the encoding of its report and its
      reserved bytes. */
  function Decode(frame: seq<Byte>): (r: Report)
    requires |frame| == FrameLength
    ensures HasSyncMarkers(frame) ==> Encode(r, frame[2], frame[6], frame[7]) == frame
  {
    Report(frame[3], frame[4], frame[5])
  }

  /** The frame a device sends for a report, given its three reserved bytes. */
  function Encode(r: Report, reserved2: Byte, reserved6: Byte, reserved7: Byte): (f: seq<Byte>)
    ensures HasSyncMarkers(f)
  {
    [SyncByte1, SyncByte2, reserved2, r.modifiers, r.key0, r.key1, reserved6, reserved7]
  }

  /** Decoding recovers every report, whatever the reserved bytes hold. */
  lemma DecodeEncode(r: Report, reserved2: Byte, reserved6: Byte, reserved7: Byte)
    ensures Decode(Encode(r, reserved2, reserved6, reserved7)) == r
  {
  }

  /** Two frames that agree on bytes 3 to 5 decode alike. */
  lemma DecodeIgnoresReserved(f: seq<Byte>, g: seq<Byte>)
    requires |f| == FrameLength && |g| == FrameLength
    requires f[3..6] == g[3..6]
    ensures Decode(f) == Decode(g)
  {
    assert f[3] == f[3..6][0] && g[3] == g[3..6][0];
    assert f[4] == f[3..6][1] && g[4] == g[3..6][1];
    assert f[5] == f[3..6][2] && g[5] == g[3..6][2];
  }

  /** What one synchronisation attempt does with the buffered bytes. */
  datatype Sync = Discard(count: nat) | Assembled(frame: seq<Byte>)

  function Consumed(s: Sync): nat
  {
    match s
    case Discard(n) => n
    case Assembled(_) => FrameLength
  }

  /** One pass of the synchroniser over the buffered bytes `s`: a first byte
      other than the first marker is dropped alone; after the first marker a
      wrong second byte is dropped with it; after both markers the next six
      bytes complete the frame. */
  function Scan(s: seq<Byte>): (r: Sync)
    requires |s| > FrameLength
    ensures 1 <= Consumed(r) <= FrameLength
    ensures r.Assembled? <==> s[0] == SyncByte1 && s[1] == SyncByte2
    ensures r.Assembled? ==> HasSyncMarkers(r.frame) && r.frame == s[..Consumed(r)]
    ensures r.Discard? ==> r.count == (if s[0] != SyncByte1 then 1 else 2)
  {
    if s[0] != SyncByte1 then Discard(1)
    else if s[1] != SyncByte2 then Discard(2)
    else Assembled(s[..FrameLength])
  }
}
