/**
 * The SkyTraq binary message framing used to provision the GPS module
 * (stm32_base/hal/gps_skytraq/gps_device_skytraq.c).
 *
 * A frame on the wire is 0xA0 0xA1, a two-byte length, the payload, an XOR
 * checksum of the payload, and 0x0D 0x0A. The firmware keeps one message buffer
 * (struct GpsMessage) whose payload is a union: a 256-byte array overlaid by one
 * small struct per message kind, so every named field is a byte at a fixed
 * offset of the array, and writing a field through one view changes what every
 * other view reads. Bytes sent are returned as a sequence; bytes received are
 * read from a sequence, and running out of them is a timeout.
 */
module SkyTraq {

  const MAX_PAYLOAD_LEN: int := 256

  const MSG_ID_ACK: bv8 := 0x83
  const MSG_ID_NACK: bv8 := 0x84
  const MSG_ID_QUERY_SW_VERSION: bv8 := 0x02
  const MSG_ID_SET_FACTORY_DEFAULTS: bv8 := 0x04
  const MSG_ID_SW_VERSION: bv8 := 0x80
  const MSG_ID_QUERY_POSITION_UPDATE_RATE: bv8 := 0x10
  const MSG_ID_CONFIGURE_POSITION_UPDATE_RATE: bv8 := 0x0E
  const MSG_ID_POSITION_UPDATE_RATE: bv8 := 0x86
  const MSG_ID_CONFIGURE_SERIAL_PORT: bv8 := 0x05
  const MSG_ID_CONFIGURE_NMEA_MESSAGE: bv8 := 0x08

  const GGA_INTERVAL: bv8 := 100
  const GSA_INTERVAL: bv8 := 0
  const GSV_INTERVAL: bv8 := 0
  const GLL_INTERVAL: bv8 := 0
  const RMC_INTERVAL: bv8 := 1
  const VTG_INTERVAL: bv8 := 0
  const ZDA_INTERVAL: bv8 := 0

  /** gps_config_attribute_t. */
  const ATTRIBUTE_UPDATE_TO_SRAM: bv8 := 0
  const ATTRIBUTE_UPDATE_TO_SRAM_AND_FLASH: bv8 := 1

  /** Offsets of the union's named fields inside the payload array. */
  const OFFSET_MESSAGE_ID: int := 0
  const OFFSET_SOFTWARE_TYPE: int := 1        // QuerySwVersion.softwareType
  const OFFSET_FACTORY_TYPE: int := 1         // SetFactoryDefaults.type
  const OFFSET_RATE: int := 1                 // ConfigurePositionUpdateRate.rate
  const OFFSET_RATE_ATTRIBUTES: int := 2      // ConfigurePositionUpdateRate.attributes
  const OFFSET_COM_PORT: int := 1             // ConfigureSerialPort.comPort
  const OFFSET_BAUD_RATE_CODE: int := 2       // ConfigureSerialPort.baudRateCode
  const OFFSET_SERIAL_ATTRIBUTES: int := 3    // ConfigureSerialPort.attributes
  const OFFSET_NMEA_ATTRIBUTES: int := 8      // ConfigureNmeaMessage.attributes; GGA..ZDA are 1..7

  /** sizeof of each message struct: every field is one byte. */
  const SIZE_QUERY_SW_VERSION: int := 2
  const SIZE_QUERY_POSITION_UPDATE_RATE: int := 1
  const SIZE_CONFIGURE_SERIAL_PORT: int := 4
  const SIZE_CONFIGURE_NMEA_MESSAGE: int := 9
  const SIZE_CONFIGURE_POSITION_UPDATE_RATE: int := 3
  const SIZE_SET_FACTORY_DEFAULTS: int := 2

  /** struct GpsMessage as a value: the uint16 length, the payload union as 256 bytes, the checksum. */
  datatype Msg = Msg(payloadLength: int, payload: seq<bv8>, checksum: bv8)

  predicate WellFormed(m: Msg)
  {
    0 <= m.payloadLength < 0x1_0000 && |m.payload| == MAX_PAYLOAD_LEN
  }

  /** XOR of all the bytes, folded from the first to the last. */
  function XorAll(s: seq<bv8>): bv8
  {
    if s == [] then 0 else XorAll(s[..|s| - 1]) ^ s[|s| - 1]
  }

  /** calculateChecksum of a message: the XOR of its payload, or 0 when the length is out of range. */
  function Checksum(m: Msg): bv8
    requires WellFormed(m)
  {
    if m.payloadLength <= MAX_PAYLOAD_LEN then XorAll(m.payload[..m.payloadLength]) else 0
  }

  /** A payload followed by its checksum XORs to zero. */
  lemma {:induction false} ChecksumCancels(s: seq<bv8>)
    ensures XorAll(s + [XorAll(s)]) == 0
  {
    assert (s + [XorAll(s)])[..|s|] == s;
  }

  /** The checksum reads only the first payloadLength bytes. */
  lemma ChecksumReadsOnlyFrame(m: Msg, n: Msg)
    requires WellFormed(m) && WellFormed(n)
    requires m.payloadLength == n.payloadLength <= MAX_PAYLOAD_LEN
    requires m.payload[..m.payloadLength] == n.payload[..n.payloadLength]
    ensures Checksum(m) == Checksum(n)
  {
  }

  /** The low byte of a length as the uint8_t cast leaves it. */
  function LowByte(n: int): bv8
    requires n >= 0
  {
    (n % 256) as bv8
  }

  /**
   * The bytes txGpsMessage writes. The high length byte is `(uint8_t)payloadLength >> 8`:
   * the cast binds before the shift, so the byte is always 0.
   */
  function FrameAsWritten(m: Msg): (f: seq<bv8>)
    requires WellFormed(m) && m.payloadLength <= MAX_PAYLOAD_LEN
    ensures |f| == m.payloadLength + 7
    ensures f[..2] == [0xA0, 0xA1] && f[2] == 0 && f[3] == LowByte(m.payloadLength)
    ensures f[4..4 + m.payloadLength] == m.payload[..m.payloadLength]
    ensures f[4 + m.payloadLength..] == [m.checksum, 0x0D, 0x0A]
  {
    [0xA0, 0xA1, LowByte(m.payloadLength) >> 8, LowByte(m.payloadLength) & 0xFF]
      + m.payload[..m.payloadLength] + [m.checksum, 0x0D, 0x0A]
  }

  /** The frame with the high length byte taken before the cast, as the protocol intends. */
  function FrameFixed(m: Msg): (f: seq<bv8>)
    requires WellFormed(m) && m.payloadLength <= MAX_PAYLOAD_LEN
    ensures |f| == m.payloadLength + 7
    ensures (f[2] as int) * 256 + (f[3] as int) == m.payloadLength
  {
    LengthBytes(m.payloadLength);
    [0xA0, 0xA1, (m.payloadLength / 256) as bv8, LowByte(m.payloadLength)]
      + m.payload[..m.payloadLength] + [m.checksum, 0x0D, 0x0A]
  }

  /** A payload length is its high byte times 256 plus its low byte. */
  lemma LengthBytes(n: int)
    requires 0 <= n <= MAX_PAYLOAD_LEN
    ensures ((n / 256) as bv8 as int) * 256 + (LowByte(n) as int) == n
  {
    if n < 256 {
      assert n / 256 == 0 && LowByte(n) as int == n;
      assert (0 as bv8) as int == 0;
    } else {
      assert n / 256 == 1 && LowByte(n) == 0;
      assert (1 as bv8) as int == 1;
    }
  }

  /** The two frames agree on every length below 256. */
  lemma FramesAgreeBelow256(m: Msg)
    requires WellFormed(m) && m.payloadLength < MAX_PAYLOAD_LEN
    ensures FrameAsWritten(m) == FrameFixed(m)
  {
  }

  /** rxGpsMessage's outcome: GPS_MSG_SUCCESS, GPS_MSG_TIMEOUT, GPS_MSG_NONE. */
  datatype RxResult = Success | Timeout | NoMessage

  /** The length the two header bytes declare. */
  function DeclaredLength(h: bv8, l: bv8): (n: int)
    ensures 0 <= n < 0x1_0000
  {
    (h as int) * 256 + (l as int)
  }

  /** The payload loop: the length is stored, and as many payload bytes as arrived are copied in. */
  function Fill(m: Msg, len: int, bytes: seq<bv8>): (r: Msg)
    requires WellFormed(m) && 0 <= len <= MAX_PAYLOAD_LEN
    ensures WellFormed(r) && r.payloadLength == len && r.checksum == m.checksum
    ensures len <= |bytes| ==> r.payload[..len] == bytes[..len]
    ensures |bytes| < len ==> r.payload[..|bytes|] == bytes && r.payload[|bytes|..len] == m.payload[|bytes|..len]
    ensures r.payload[len..] == m.payload[len..]
  {
    var k := if len <= |bytes| then len else |bytes|;
    m.(payloadLength := len, payload := bytes[..k] + m.payload[k..])
  }

  /**
   * rxGpsMessage over the bytes that arrive: the new message buffer, the outcome and
   * the bytes left unread. Every read that finds no byte is a timeout and ends the
   * call; a frame that does not check out is dropped and the search goes on.
   */
  function Receive(m: Msg, input: seq<bv8>, expected: bv8): (r: (Msg, RxResult, seq<bv8>))
    requires WellFormed(m)
    ensures WellFormed(r.0) && r.1 != NoMessage
    ensures |r.2| <= |input|
    ensures r.1 == Timeout ==> r.2 == []
    decreases |input|
  {
    if |input| < 2 then (m, Timeout, [])
    else if input[0] != 0xA0 || input[1] != 0xA1 then Receive(m, input[2..], expected)
    else if |input| < 4 then (m, Timeout, [])
    else AfterHeader(m, DeclaredLength(input[2], input[3]), input[4..], expected)
  }

  /**
   * The rest of a frame once its length is read: a length of at most 256 is stored
   * and its payload copied in; a longer one is ignored and the trailer read at once.
   */
  function AfterHeader(m: Msg, len: int, body: seq<bv8>, expected: bv8): (r: (Msg, RxResult, seq<bv8>))
    requires WellFormed(m) && 0 <= len
    ensures WellFormed(r.0) && r.1 != NoMessage
    ensures |r.2| <= |body|
    ensures r.1 == Timeout ==> r.2 == []
    decreases |body| + 1
  {
    if len <= MAX_PAYLOAD_LEN then
      if |body| < len then (Fill(m, len, body), Timeout, [])
      else Trailer(Fill(m, len, body), body[len..], expected)
    else
      Trailer(m, body, expected)
  }

  /** The checksum byte and the two end bytes that follow the payload. */
  function Trailer(m: Msg, bytes: seq<bv8>, expected: bv8): (r: (Msg, RxResult, seq<bv8>))
    requires WellFormed(m)
    ensures WellFormed(r.0) && r.1 != NoMessage
    ensures |r.2| <= |bytes|
    ensures r.1 == Timeout ==> r.2 == []
    decreases |bytes|
  {
    if |bytes| < 1 then (m, Timeout, [])
    else if bytes[0] != Checksum(m) then Receive(m, bytes[1..], expected)
    else if |bytes| < 3 then (m, Timeout, [])
    else if bytes[1] == 0x0D && bytes[2] == 0x0A && m.payload[0] == expected then (m, Success, bytes[3..])
    else Receive(m, bytes[3..], expected)
  }

  /** The three bytes right before the unread rest of `input` are a checksum `c`, 0x0D and 0x0A. */
  predicate TrailerBefore(input: seq<bv8>, rest: seq<bv8>, c: bv8)
  {
    |input| - |rest| >= 3 && input[|input| - |rest| - 3..|input| - |rest|] == [c, 0x0D, 0x0A]
  }

  lemma TrailerBeforeExtends(input: seq<bv8>, d: nat, rest: seq<bv8>, c: bv8)
    requires d <= |input| && TrailerBefore(input[d..], rest, c)
    ensures TrailerBefore(input, rest, c)
  {
    var s := input[d..];
    var k := |s| - |rest|;
    assert input[d + k - 3..d + k] == s[k - 3..k];
  }

  /**
   * A frame header starts at `p` and its trailer at `t`: 0xA0 0xA1 at `p`, then the
   * two length bytes. A declared length of at most 256 is the message's length and
   * that many bytes, the message's payload, lie between the header and the trailer;
   * a longer one is not stored and the trailer follows the header at once.
   */
  predicate FrameAt(input: seq<bv8>, p: int, m: Msg, t: int)
    requires WellFormed(m)
  {
    0 <= p && p + 4 <= t <= |input| && input[p..p + 2] == [0xA0, 0xA1]
    && var d := DeclaredLength(input[p + 2], input[p + 3]);
       if d <= MAX_PAYLOAD_LEN then t == p + 4 + d && m.payloadLength == d && m.payload[..d] == input[p + 4..t]
       else t == p + 4
  }

  /** A frame header at `p` whose trailer ends where the unread rest begins. */
  predicate FrameBefore(input: seq<bv8>, p: int, m: Msg, rest: seq<bv8>)
    requires WellFormed(m)
  {
    FrameAt(input, p, m, |input| - |rest| - 3)
  }

  lemma FrameAtExtends(input: seq<bv8>, d: nat, p: int, m: Msg, t: int)
    requires WellFormed(m) && d <= |input| && FrameAt(input[d..], p, m, t)
    ensures FrameAt(input, p + d, m, t + d)
  {
    var s := input[d..];
    assert input[p + d..p + d + 2] == s[p..p + 2];
    assert input[p + d + 2] == s[p + 2] && input[p + d + 3] == s[p + 3];
    assert input[p + d + 4..t + d] == s[p + 4..t];
  }

  /**
   * What a success promises about the bytes it read: the expected id, a checked
   * trailer right before the rest, and a frame header before that trailer whose
   * declared payload is the message's.
   */
  ghost predicate SuccessChecked(input: seq<bv8>, r: (Msg, RxResult, seq<bv8>), expected: bv8)
    requires WellFormed(r.0)
  {
    r.1 == Success ==>
      r.0.payload[0] == expected && TrailerBefore(input, r.2, Checksum(r.0))
      && exists p :: FrameBefore(input, p, r.0, r.2)
  }

  /** A success promise about `input[d..]` is one about `input`. */
  lemma SuccessCheckedExtends(input: seq<bv8>, d: nat, r: (Msg, RxResult, seq<bv8>), expected: bv8)
    requires WellFormed(r.0) && d <= |input| && SuccessChecked(input[d..], r, expected)
    ensures SuccessChecked(input, r, expected)
  {
    if r.1 == Success {
      TrailerBeforeExtends(input, d, r.2, Checksum(r.0));
      var p :| FrameBefore(input[d..], p, r.0, r.2);
      FrameAtExtends(input, d, p, r.0, |input[d..]| - |r.2| - 3);
      assert FrameBefore(input, p + d, r.0, r.2);
    }
  }

  /**
   * What a success of the trailer reader promises: as for a whole frame, except
   * that the trailer may be the first thing read, for the message `m` it was given.
   */
  ghost predicate TrailerChecked(bytes: seq<bv8>, m: Msg, r: (Msg, RxResult, seq<bv8>), d: nat, expected: bv8)
    requires WellFormed(r.0)
  {
    r.1 == Success ==>
      r.0.payload[0] == expected && TrailerBefore(bytes, r.2, Checksum(r.0))
      && ((r.0 == m && |bytes| - |r.2| == d + 3)
          || exists p :: FrameBefore(bytes, p, r.0, r.2))
  }

  /**
   * A success is only reported after 0xA0 0xA1 and a length, the declared payload,
   * a checksum byte equal to that message's checksum, 0x0D and 0x0A, for a message
   * whose first byte is the expected id.
   */
  lemma {:induction false} SuccessMeansCheckedFrame(m: Msg, input: seq<bv8>, expected: bv8)
    requires WellFormed(m)
    ensures SuccessChecked(input, Receive(m, input, expected), expected)
    decreases |input|, 3
  {
    var r := Receive(m, input, expected);
    if r.1 == Success {
      if input[0] != 0xA0 || input[1] != 0xA1 {
        SearchResumed(m, input, 2, r, expected);
      } else {
        HeaderSuccess(m, input, expected);
      }
    }
  }

  /** The case of SuccessMeansCheckedFrame where the input starts with the two start bytes. */
  lemma {:induction false} HeaderSuccess(m: Msg, input: seq<bv8>, expected: bv8)
    requires WellFormed(m) && |input| >= 4 && input[0] == 0xA0 && input[1] == 0xA1
    ensures SuccessChecked(input, Receive(m, input, expected), expected)
    decreases |input|, 2
  {
    if DeclaredLength(input[2], input[3]) <= MAX_PAYLOAD_LEN {
      PayloadSuccess(m, input, expected);
    } else {
      OversizeSuccess(m, input, expected);
    }
  }

  /** A header declaring at most 256 bytes: the payload is stored, then the trailer read. */
  lemma {:induction false} PayloadSuccess(m: Msg, input: seq<bv8>, expected: bv8)
    requires WellFormed(m) && |input| >= 4 && input[0] == 0xA0 && input[1] == 0xA1
    requires DeclaredLength(input[2], input[3]) <= MAX_PAYLOAD_LEN
    ensures SuccessChecked(input, Receive(m, input, expected), expected)
    decreases |input|, 1
  {
    var r := Receive(m, input, expected);
    var len := DeclaredLength(input[2], input[3]);
    if r.1 == Success {
      PayloadThenTrailer(m, input, expected);
      var f := Fill(m, len, input[4..]);
      TrailerResumed(f, input, 4 + len, r, expected);
      if r.0 == f && |input| - |r.2| == 4 + len + 3 {
        FilledFrame(m, input);
        assert FrameBefore(input, 0, r.0, r.2);
      }
    }
  }

  /** Past a header declaring at most 256 bytes, a call that does not time out reads the trailer of the filled message. */
  lemma PayloadThenTrailer(m: Msg, input: seq<bv8>, expected: bv8)
    requires WellFormed(m) && |input| >= 4 && input[0] == 0xA0 && input[1] == 0xA1
    requires DeclaredLength(input[2], input[3]) <= MAX_PAYLOAD_LEN
    requires Receive(m, input, expected).1 != Timeout
    ensures 4 + DeclaredLength(input[2], input[3]) <= |input|
    ensures Receive(m, input, expected)
      == Trailer(Fill(m, DeclaredLength(input[2], input[3]), input[4..]), input[4 + DeclaredLength(input[2], input[3])..], expected)
  {
    var len := DeclaredLength(input[2], input[3]);
    assert Receive(m, input, expected) == AfterHeader(m, len, input[4..], expected);
    assert input[4..][len..] == input[4 + len..];
  }

  /** The filled message's frame: the header at 0 and the declared payload before the trailer. */
  lemma FilledFrame(m: Msg, input: seq<bv8>)
    requires WellFormed(m) && |input| >= 4 && input[0] == 0xA0 && input[1] == 0xA1
    requires 4 + DeclaredLength(input[2], input[3]) <= |input|
    requires DeclaredLength(input[2], input[3]) <= MAX_PAYLOAD_LEN
    ensures FrameAt(input, 0, Fill(m, DeclaredLength(input[2], input[3]), input[4..]), 4 + DeclaredLength(input[2], input[3]))
  {
    var len := DeclaredLength(input[2], input[3]);
    assert input[0..2] == [0xA0, 0xA1];
    assert input[4..][..len] == input[4..4 + len];
  }

  /** A header declaring more than 256 bytes: the trailer is read at once. */
  lemma {:induction false} OversizeSuccess(m: Msg, input: seq<bv8>, expected: bv8)
    requires WellFormed(m) && |input| >= 4 && input[0] == 0xA0 && input[1] == 0xA1
    requires DeclaredLength(input[2], input[3]) > MAX_PAYLOAD_LEN
    ensures SuccessChecked(input, Receive(m, input, expected), expected)
    decreases |input|, 1
  {
    var r := Receive(m, input, expected);
    assert r == AfterHeader(m, DeclaredLength(input[2], input[3]), input[4..], expected);
    if r.1 == Success {
      TrailerResumed(m, input, 4, r, expected);
      if r.0 == m && |input| - |r.2| == 4 + 3 {
        assert input[0..2] == [0xA0, 0xA1];
        assert FrameBefore(input, 0, r.0, r.2);
      }
    }
  }

  lemma {:induction false} TrailerSuccess(m: Msg, bytes: seq<bv8>, expected: bv8)
    requires WellFormed(m)
    ensures TrailerChecked(bytes, m, Trailer(m, bytes, expected), 0, expected)
    decreases |bytes|, 1
  {
    var r := Trailer(m, bytes, expected);
    if r.1 == Success {
      var c := Checksum(m);
      if bytes[0] != c {
        SearchResumed(m, bytes, 1, r, expected);
      } else if bytes[1] == 0x0D && bytes[2] == 0x0A && m.payload[0] == expected {
        assert r.2 == bytes[3..];
        assert bytes[..3] == [c, 0x0D, 0x0A];
      } else {
        SearchResumed(m, bytes, 3, r, expected);
      }
    }
  }

  /** A search resumed `d` bytes further on: a success there is one here. */
  lemma {:induction false} SearchResumed(m: Msg, bytes: seq<bv8>, d: nat, r: (Msg, RxResult, seq<bv8>), expected: bv8)
    requires WellFormed(m) && 1 <= d <= |bytes| && r == Receive(m, bytes[d..], expected)
    ensures SuccessChecked(bytes, r, expected)
    decreases |bytes|, 0
  {
    SuccessMeansCheckedFrame(m, bytes[d..], expected);
    SuccessCheckedExtends(bytes, d, r, expected);
  }

  /** A trailer read `d` bytes further on: a success there is one here. */
  lemma {:induction false} TrailerResumed(m: Msg, bytes: seq<bv8>, d: nat, r: (Msg, RxResult, seq<bv8>), expected: bv8)
    requires WellFormed(m) && 1 <= d <= |bytes| && r == Trailer(m, bytes[d..], expected)
    ensures TrailerChecked(bytes, m, r, d, expected)
    decreases |bytes|, 0
  {
    TrailerSuccess(m, bytes[d..], expected);
    if r.1 == Success {
      TrailerBeforeExtends(bytes, d, r.2, Checksum(r.0));
      if !(r.0 == m && |bytes[d..]| - |r.2| == 3) {
        var p :| FrameBefore(bytes[d..], p, r.0, r.2);
        FrameAtExtends(bytes, d, p, r.0, |bytes[d..]| - |r.2| - 3);
        assert FrameBefore(bytes, p + d, r.0, r.2);
      }
    }
  }

  /**
   * A header declaring more than 256 bytes stores nothing and reads no payload: the
   * next byte is taken as the checksum and compared with the old message's.
   */
  lemma OversizeLengthKeepsMessage(m: Msg, h: bv8, l: bv8, rest: seq<bv8>, expected: bv8)
    requires WellFormed(m) && DeclaredLength(h, l) > MAX_PAYLOAD_LEN
    ensures Receive(m, [0xA0, 0xA1, h, l] + rest, expected) == Trailer(m, rest, expected)
  {
    assert ([0xA0, 0xA1, h, l] + rest)[4..] == rest;
  }

  /**
   * The start marker is looked for two bytes at a time: one stray byte in front of
   * a frame hides its marker, and the search resumes inside the frame.
   */
  lemma StrayByteHidesMarker(m: Msg, b: bv8, rest: seq<bv8>, expected: bv8)
    requires WellFormed(m) && b != 0xA0 && |rest| >= 1
    ensures Receive(m, [b, 0xA0, 0xA1] + rest, expected) == Receive(m, rest[1..], expected)
  {
    var input := [b, 0xA0, 0xA1] + rest;
    assert input[2..] == [0xA1] + rest;
    assert ([0xA1] + rest)[2..] == rest[1..];
  }

  /**
   * Round trip: parsing the frame txGpsMessage emits for a message of 1 to 255 bytes
   * whose checksum was set by calculateChecksum gives back its length and payload,
   * and succeeds for its own id, whatever the receiving buffer held before.
   */
  lemma RoundTrip(m: Msg, m0: Msg)
    requires WellFormed(m) && WellFormed(m0)
    requires 1 <= m.payloadLength < MAX_PAYLOAD_LEN && m.checksum == Checksum(m)
    ensures var r := Receive(m0, FrameAsWritten(m), m.payload[0]);
      && r.1 == Success && r.2 == []
      && r.0.payloadLength == m.payloadLength
      && r.0.payload[..m.payloadLength] == m.payload[..m.payloadLength]
  {
    FramesAgreeBelow256(m);
    RoundTripFixed(m, m0);
  }

  /** The same round trip for the corrected frame, now including a full 256-byte payload. */
  lemma RoundTripFixed(m: Msg, m0: Msg)
    requires WellFormed(m) && WellFormed(m0)
    requires 1 <= m.payloadLength <= MAX_PAYLOAD_LEN && m.checksum == Checksum(m)
    ensures var r := Receive(m0, FrameFixed(m), m.payload[0]);
      && r.1 == Success && r.2 == []
      && r.0.payloadLength == m.payloadLength
      && r.0.payload[..m.payloadLength] == m.payload[..m.payloadLength]
  {
    var n := m.payloadLength;
    var f := FrameFixed(m);
    var body := f[4..];
    FrameFixedParts(m);
    ReceiveWholeFrame(m0, f[2], f[3], body, m.payload[0]);
    var filled := Fill(m0, n, body);
    ChecksumReadsOnlyFrame(filled, m);
    TrailerAccepts(filled, m.payload[0]);
  }

  /** The corrected frame cut into its header, payload and trailer. */
  lemma FrameFixedParts(m: Msg)
    requires WellFormed(m) && m.payloadLength <= MAX_PAYLOAD_LEN
    ensures var f := FrameFixed(m);
      && f == [0xA0, 0xA1, f[2], f[3]] + f[4..]
      && DeclaredLength(f[2], f[3]) == m.payloadLength
      && f[4..][..m.payloadLength] == m.payload[..m.payloadLength]
      && f[4..][m.payloadLength..] == [m.checksum, 0x0D, 0x0A]
  {
    var n := m.payloadLength;
    var f := FrameFixed(m);
    var tail := m.payload[..n] + [m.checksum, 0x0D, 0x0A];
    assert f == [0xA0, 0xA1, f[2], f[3]] + tail;
    assert f[4..] == tail;
    assert tail[..n] == m.payload[..n];
    assert tail[n..] == [m.checksum, 0x0D, 0x0A];
  }

  /** A marker, a length of at most 256 and that many payload bytes: the payload is stored and the trailer read next. */
  lemma ReceiveWholeFrame(m: Msg, h: bv8, l: bv8, body: seq<bv8>, expected: bv8)
    requires WellFormed(m) && DeclaredLength(h, l) <= MAX_PAYLOAD_LEN && DeclaredLength(h, l) <= |body|
    ensures Receive(m, [0xA0, 0xA1, h, l] + body, expected)
      == Trailer(Fill(m, DeclaredLength(h, l), body), body[DeclaredLength(h, l)..], expected)
  {
    assert ([0xA0, 0xA1, h, l] + body)[4..] == body;
  }

  /** The message's own checksum, 0x0D and 0x0A complete it when its id is the one expected. */
  lemma TrailerAccepts(m: Msg, expected: bv8)
    requires WellFormed(m) && m.payload[0] == expected
    ensures Trailer(m, [Checksum(m), 0x0D, 0x0A], expected) == (m, Success, [])
  {
    assert [Checksum(m), 0x0D, 0x0A][3..] == [];
  }

  /**
   * With a full 256-byte payload the frame txGpsMessage emits declares length 0: the
   * parser stores an empty message and takes the first payload byte as the checksum.
   */
  lemma FullPayloadDeclaresZero(m: Msg, m0: Msg, expected: bv8)
    requires WellFormed(m) && WellFormed(m0) && m.payloadLength == MAX_PAYLOAD_LEN
    ensures DeclaredLength(FrameAsWritten(m)[2], FrameAsWritten(m)[3]) == 0
    ensures Receive(m0, FrameAsWritten(m), expected) ==
      Trailer(m0.(payloadLength := 0), FrameAsWritten(m)[4..], expected)
  {
    var f := FrameAsWritten(m);
    assert f[3] == LowByte(256) == 0;
    assert Fill(m0, 0, f[4..]) == m0.(payloadLength := 0);
  }

  /** Sets one byte of the payload union. */
  function SetByte(m: Msg, offset: int, v: bv8): (r: Msg)
    requires WellFormed(m) && 0 <= offset < MAX_PAYLOAD_LEN
    ensures WellFormed(r) && r.payload[offset] == v
    ensures forall j :: 0 <= j < MAX_PAYLOAD_LEN && j != offset ==> r.payload[j] == m.payload[j]
    ensures r.payloadLength == m.payloadLength && r.checksum == m.checksum
  {
    m.(payload := m.payload[offset := v])
  }

  /** The length is set, then the checksum is computed over the result. */
  function Finish(m: Msg, size: int): (r: Msg)
    requires WellFormed(m) && 0 <= size <= MAX_PAYLOAD_LEN
    ensures WellFormed(r) && r.payloadLength == size && r.payload == m.payload
    ensures r.checksum == Checksum(r)
  {
    var sized := m.(payloadLength := size);
    sized.(checksum := Checksum(sized))
  }

  /** sendQuerySwVersion's message. */
  function QuerySwVersion(m: Msg): (r: Msg)
    requires WellFormed(m)
    ensures WellFormed(r) && r.payloadLength == SIZE_QUERY_SW_VERSION && r.checksum == Checksum(r)
    ensures r.payload[..2] == [MSG_ID_QUERY_SW_VERSION, 0x00] && r.payload[2..] == m.payload[2..]
  {
    Finish(SetByte(SetByte(m, OFFSET_MESSAGE_ID, MSG_ID_QUERY_SW_VERSION), OFFSET_SOFTWARE_TYPE, 0x00),
           SIZE_QUERY_SW_VERSION)
  }

  /** sendQueryPositionUpdateRate's message. */
  function QueryPositionUpdateRate(m: Msg): (r: Msg)
    requires WellFormed(m)
    ensures WellFormed(r) && r.payloadLength == SIZE_QUERY_POSITION_UPDATE_RATE && r.checksum == Checksum(r)
    ensures r.payload[..1] == [MSG_ID_QUERY_POSITION_UPDATE_RATE] && r.payload[1..] == m.payload[1..]
  {
    Finish(SetByte(m, OFFSET_MESSAGE_ID, MSG_ID_QUERY_POSITION_UPDATE_RATE), SIZE_QUERY_POSITION_UPDATE_RATE)
  }

  /** sendConfigureSerialPort's message. */
  function ConfigureSerialPort(m: Msg, baudRateCode: bv8): (r: Msg)
    requires WellFormed(m)
    ensures WellFormed(r) && r.payloadLength == SIZE_CONFIGURE_SERIAL_PORT && r.checksum == Checksum(r)
    ensures r.payload[..4] == [MSG_ID_CONFIGURE_SERIAL_PORT, 0, baudRateCode, ATTRIBUTE_UPDATE_TO_SRAM]
    ensures r.payload[4..] == m.payload[4..]
  {
    var m1 := SetByte(m, OFFSET_MESSAGE_ID, MSG_ID_CONFIGURE_SERIAL_PORT);
    var m2 := SetByte(m1, OFFSET_BAUD_RATE_CODE, baudRateCode);
    var m3 := SetByte(m2, OFFSET_COM_PORT, 0);
    var m4 := SetByte(m3, OFFSET_SERIAL_ATTRIBUTES, ATTRIBUTE_UPDATE_TO_SRAM);
    Finish(m4, SIZE_CONFIGURE_SERIAL_PORT)
  }

  /** The seven NMEA intervals, bytes 1 to 7 of ConfigureNmeaMessage. */
  function SetNmeaIntervals(m: Msg): (r: Msg)
    requires WellFormed(m)
    ensures WellFormed(r) && r.payloadLength == m.payloadLength
    ensures r.payload[1..8] == [GGA_INTERVAL, GSA_INTERVAL, GSV_INTERVAL, GLL_INTERVAL,
                                RMC_INTERVAL, VTG_INTERVAL, ZDA_INTERVAL]
    ensures r.payload[0] == m.payload[0] && r.payload[8..] == m.payload[8..]
  {
    var m1 := SetByte(m, 1, GGA_INTERVAL);
    var m2 := SetByte(m1, 2, GSA_INTERVAL);
    var m3 := SetByte(m2, 3, GSV_INTERVAL);
    var m4 := SetByte(m3, 4, GLL_INTERVAL);
    var m5 := SetByte(m4, 5, RMC_INTERVAL);
    var m6 := SetByte(m5, 6, VTG_INTERVAL);
    var m7 := SetByte(m6, 7, ZDA_INTERVAL);
    assert m7.payload[8..] == m.payload[8..];
    m7
  }

  /**
   * sendConfigureNmea as written: the attributes are stored through the
   * ConfigureSerialPort view, at offset 3 (the GSV interval), so byte 8 of the
   * message keeps whatever the buffer held.
   */
  function ConfigureNmea(m: Msg): (r: Msg)
    requires WellFormed(m)
    ensures WellFormed(r) && r.payloadLength == SIZE_CONFIGURE_NMEA_MESSAGE && r.checksum == Checksum(r)
    ensures r.payload[..8] == [MSG_ID_CONFIGURE_NMEA_MESSAGE, GGA_INTERVAL, GSA_INTERVAL, ATTRIBUTE_UPDATE_TO_SRAM,
                               GLL_INTERVAL, RMC_INTERVAL, VTG_INTERVAL, ZDA_INTERVAL]
    ensures r.payload[8..] == m.payload[8..]
  {
    var m1 := SetByte(m, OFFSET_MESSAGE_ID, MSG_ID_CONFIGURE_NMEA_MESSAGE);
    var m2 := SetNmeaIntervals(m1);
    var m3 := SetByte(m2, OFFSET_SERIAL_ATTRIBUTES, ATTRIBUTE_UPDATE_TO_SRAM);
    Finish(m3, SIZE_CONFIGURE_NMEA_MESSAGE)
  }

  /** sendConfigureNmea with the attributes stored in ConfigureNmeaMessage's own field. */
  function ConfigureNmeaFixed(m: Msg): (r: Msg)
    requires WellFormed(m)
    ensures WellFormed(r) && r.payloadLength == SIZE_CONFIGURE_NMEA_MESSAGE && r.checksum == Checksum(r)
    ensures r.payload[..9] == [MSG_ID_CONFIGURE_NMEA_MESSAGE, GGA_INTERVAL, GSA_INTERVAL, GSV_INTERVAL, GLL_INTERVAL,
                               RMC_INTERVAL, VTG_INTERVAL, ZDA_INTERVAL, ATTRIBUTE_UPDATE_TO_SRAM]
    ensures r.payload[9..] == m.payload[9..]
  {
    var m1 := SetByte(m, OFFSET_MESSAGE_ID, MSG_ID_CONFIGURE_NMEA_MESSAGE);
    var m2 := SetNmeaIntervals(m1);
    var m3 := SetByte(m2, OFFSET_NMEA_ATTRIBUTES, ATTRIBUTE_UPDATE_TO_SRAM);
    Finish(m3, SIZE_CONFIGURE_NMEA_MESSAGE)
  }

  /** The NMEA message as written carries the stale byte 8 as its attributes. */
  lemma NmeaAttributesStale(m: Msg)
    requires WellFormed(m)
    ensures ConfigureNmea(m).payload[OFFSET_NMEA_ATTRIBUTES] == m.payload[OFFSET_NMEA_ATTRIBUTES]
    ensures m.payload[OFFSET_NMEA_ATTRIBUTES] == ATTRIBUTE_UPDATE_TO_SRAM_AND_FLASH ==>
      FrameAsWritten(ConfigureNmea(m))[4 + OFFSET_NMEA_ATTRIBUTES] == ATTRIBUTE_UPDATE_TO_SRAM_AND_FLASH
  {
  }

  /** The corrected NMEA message is the same whatever the buffer held: every one of its 9 bytes is set. */
  lemma NmeaFixedIsDetermined(m: Msg, n: Msg)
    requires WellFormed(m) && WellFormed(n)
    ensures FrameAsWritten(ConfigureNmeaFixed(m)) == FrameAsWritten(ConfigureNmeaFixed(n))
    ensures ConfigureNmeaFixed(m).payload[..9] ==
      [MSG_ID_CONFIGURE_NMEA_MESSAGE, GGA_INTERVAL, GSA_INTERVAL, GSV_INTERVAL, GLL_INTERVAL,
       RMC_INTERVAL, VTG_INTERVAL, ZDA_INTERVAL, ATTRIBUTE_UPDATE_TO_SRAM]
  {
    var a := ConfigureNmeaFixed(m);
    var b := ConfigureNmeaFixed(n);
    assert a.payload[..9] == b.payload[..9];
    ChecksumReadsOnlyFrame(a, b);
  }

  /** sendConfigurePositionUpdateRate's message. */
  function ConfigurePositionUpdateRate(m: Msg, updateRate: bv8): (r: Msg)
    requires WellFormed(m)
    ensures WellFormed(r) && r.payloadLength == SIZE_CONFIGURE_POSITION_UPDATE_RATE && r.checksum == Checksum(r)
    ensures r.payload[..3] == [MSG_ID_CONFIGURE_POSITION_UPDATE_RATE, updateRate, ATTRIBUTE_UPDATE_TO_SRAM]
    ensures r.payload[3..] == m.payload[3..]
  {
    var m1 := SetByte(m, OFFSET_MESSAGE_ID, MSG_ID_CONFIGURE_POSITION_UPDATE_RATE);
    var m2 := SetByte(m1, OFFSET_RATE, updateRate);
    var m3 := SetByte(m2, OFFSET_RATE_ATTRIBUTES, ATTRIBUTE_UPDATE_TO_SRAM);
    Finish(m3, SIZE_CONFIGURE_POSITION_UPDATE_RATE)
  }

  /** sendSetFactoryDefaults as written: the length is whatever the buffer held. */
  function SetFactoryDefaults(m: Msg): (r: Msg)
    requires WellFormed(m)
    ensures WellFormed(r) && r.payloadLength == m.payloadLength
    ensures r.payload[..2] == [MSG_ID_SET_FACTORY_DEFAULTS, 0x01] && r.payload[2..] == m.payload[2..]
    ensures m.payloadLength <= MAX_PAYLOAD_LEN ==> r.checksum == Checksum(r)
  {
    var m1 := SetByte(m, OFFSET_MESSAGE_ID, MSG_ID_SET_FACTORY_DEFAULTS);
    var m2 := SetByte(m1, OFFSET_FACTORY_TYPE, 0x01);
    m2.(checksum := Checksum(m2))
  }

  /** sendSetFactoryDefaults with the length of SetFactoryDefaults. */
  function SetFactoryDefaultsFixed(m: Msg): (r: Msg)
    requires WellFormed(m)
    ensures WellFormed(r) && r.payloadLength == SIZE_SET_FACTORY_DEFAULTS && r.checksum == Checksum(r)
    ensures r.payload[..2] == [MSG_ID_SET_FACTORY_DEFAULTS, 0x01] && r.payload[2..] == m.payload[2..]
  {
    var m1 := SetByte(m, OFFSET_MESSAGE_ID, MSG_ID_SET_FACTORY_DEFAULTS);
    var m2 := SetByte(m1, OFFSET_FACTORY_TYPE, 0x01);
    Finish(m2, SIZE_SET_FACTORY_DEFAULTS)
  }

  /**
   * The factory-defaults message as written keeps the old length: after a one-byte
   * query, only the id goes out and the type byte is dropped.
   */
  lemma FactoryDefaultsKeepsStaleLength(m: Msg)
    requires WellFormed(m)
    ensures SetFactoryDefaults(m).payloadLength == m.payloadLength
    ensures m.payloadLength == SIZE_QUERY_POSITION_UPDATE_RATE ==>
      FrameAsWritten(SetFactoryDefaults(m)) ==
        [0xA0, 0xA1, 0, 1, MSG_ID_SET_FACTORY_DEFAULTS, MSG_ID_SET_FACTORY_DEFAULTS, 0x0D, 0x0A]
  {
    var r := SetFactoryDefaults(m);
    if m.payloadLength == 1 {
      assert r.payload[..1] == [MSG_ID_SET_FACTORY_DEFAULTS];
      assert XorAll(r.payload[..1]) == XorAll([]) ^ MSG_ID_SET_FACTORY_DEFAULTS;
    }
  }

  /** The corrected factory-defaults frame is the same 9 bytes whatever the buffer held. */
  lemma FactoryDefaultsFixedFrame(m: Msg)
    requires WellFormed(m)
    ensures FrameAsWritten(SetFactoryDefaultsFixed(m)) ==
      [0xA0, 0xA1, 0, 2, MSG_ID_SET_FACTORY_DEFAULTS, 0x01, MSG_ID_SET_FACTORY_DEFAULTS ^ 0x01, 0x0D, 0x0A]
  {
    var r := SetFactoryDefaultsFixed(m);
    assert r.payload[..2] == [MSG_ID_SET_FACTORY_DEFAULTS, 0x01];
    assert r.payload[..2][..1] == [MSG_ID_SET_FACTORY_DEFAULTS];
    assert XorAll(r.payload[..2]) == (XorAll([]) ^ MSG_ID_SET_FACTORY_DEFAULTS) ^ 0x01;
  }

  /** The serial-port message on the wire, byte for byte. */
  lemma ConfigureSerialPortFrame(m: Msg, code: bv8)
    requires WellFormed(m)
    ensures FrameAsWritten(ConfigureSerialPort(m, code)) ==
      [0xA0, 0xA1, 0, 4, MSG_ID_CONFIGURE_SERIAL_PORT, 0, code, ATTRIBUTE_UPDATE_TO_SRAM,
       MSG_ID_CONFIGURE_SERIAL_PORT ^ code, 0x0D, 0x0A]
  {
    var r := ConfigureSerialPort(m, code);
    var p := r.payload[..4];
    assert p == [MSG_ID_CONFIGURE_SERIAL_PORT, 0, code, 0];
    SerialPortChecksum(p, code);
  }

  lemma SerialPortChecksum(p: seq<bv8>, code: bv8)
    requires p == [MSG_ID_CONFIGURE_SERIAL_PORT, 0, code, 0]
    ensures XorAll(p) == MSG_ID_CONFIGURE_SERIAL_PORT ^ code
  {
    assert p[..1] == [MSG_ID_CONFIGURE_SERIAL_PORT] && p[..1][..0] == [];
    assert p[..2][..1] == p[..1] && p[..3][..2] == p[..2] && p[..3] == p[..4][..3];
    assert XorAll(p[..1]) == MSG_ID_CONFIGURE_SERIAL_PORT;
    assert XorAll(p[..2]) == MSG_ID_CONFIGURE_SERIAL_PORT ^ 0;
    assert XorAll(p[..3]) == (MSG_ID_CONFIGURE_SERIAL_PORT ^ 0) ^ code;
    assert XorAll(p) == ((MSG_ID_CONFIGURE_SERIAL_PORT ^ 0) ^ code) ^ 0;
  }

  /**
   * Every query and configure builder stores its id, its struct size as the length
   * and a matching checksum, so the module's reply parser would accept the frame.
   */
  lemma BuildersFrameTheirMessage(m: Msg, m0: Msg, code: bv8, rate: bv8)
    requires WellFormed(m) && WellFormed(m0)
    ensures var q := QuerySwVersion(m);
      q.payload[0] == MSG_ID_QUERY_SW_VERSION && q.payloadLength == SIZE_QUERY_SW_VERSION
      && Receive(m0, FrameAsWritten(q), MSG_ID_QUERY_SW_VERSION).1 == Success
    ensures var q := QueryPositionUpdateRate(m);
      q.payload[0] == MSG_ID_QUERY_POSITION_UPDATE_RATE && q.payloadLength == SIZE_QUERY_POSITION_UPDATE_RATE
      && Receive(m0, FrameAsWritten(q), MSG_ID_QUERY_POSITION_UPDATE_RATE).1 == Success
    ensures var q := ConfigureSerialPort(m, code);
      q.payload[0] == MSG_ID_CONFIGURE_SERIAL_PORT && q.payloadLength == SIZE_CONFIGURE_SERIAL_PORT
      && Receive(m0, FrameAsWritten(q), MSG_ID_CONFIGURE_SERIAL_PORT).1 == Success
    ensures var q := ConfigureNmea(m);
      q.payload[0] == MSG_ID_CONFIGURE_NMEA_MESSAGE && q.payloadLength == SIZE_CONFIGURE_NMEA_MESSAGE
      && Receive(m0, FrameAsWritten(q), MSG_ID_CONFIGURE_NMEA_MESSAGE).1 == Success
    ensures var q := ConfigurePositionUpdateRate(m, rate);
      q.payload[0] == MSG_ID_CONFIGURE_POSITION_UPDATE_RATE && q.payloadLength == SIZE_CONFIGURE_POSITION_UPDATE_RATE
      && Receive(m0, FrameAsWritten(q), MSG_ID_CONFIGURE_POSITION_UPDATE_RATE).1 == Success
  {
    RoundTrip(QuerySwVersion(m), m0);
    RoundTrip(QueryPositionUpdateRate(m), m0);
    RoundTrip(ConfigureSerialPort(m, code), m0);
    RoundTrip(ConfigureNmea(m), m0);
    RoundTrip(ConfigurePositionUpdateRate(m, rate), m0);
  }

  /** One entry of the BAUD_RATES table. */
  datatype BaudRateCode = BaudRateCode(baud: int, code: bv8)

  const BAUD_RATES: seq<BaudRateCode> := [BaudRateCode(921600, 8), BaudRateCode(9600, 1)]

  /** getBaudRateCode: the first table entry with this rate, else 0. */
  method GetBaudRateCode(baudRate: int) returns (code: bv8)
    ensures baudRate == 921600 ==> code == 8
    ensures baudRate == 9600 ==> code == 1
    ensures baudRate != 921600 && baudRate != 9600 ==> code == 0
  {
    var rates := BAUD_RATES;
    var i := 0;
    while i < |rates|
      invariant 0 <= i <= |rates|
      invariant forall j :: 0 <= j < i ==> rates[j].baud != baudRate
    {
      if baudRate == rates[i].baud {
        return rates[i].code;
      }
      i := i + 1;
    }
    assert rates[0].baud == 921600 && rates[1].baud == 9600;
    return 0;
  }

  /** struct GpsMessage, the one buffer every send and receive works in. */
  class GpsMessage {
    var payloadLength: int
    const payload: array<bv8>
    var checksum: bv8

    ghost predicate Valid()
      reads this
    {
      payload.Length == MAX_PAYLOAD_LEN && 0 <= payloadLength < 0x1_0000
    }

    ghost function Value(): (m: Msg)
      reads this, payload
      requires Valid()
      ensures WellFormed(m)
    {
      Msg(payloadLength, payload[..], checksum)
    }

    /** A freshly allocated buffer: portMalloc does not clear it, so its contents are whatever `init` holds. */
    constructor (init: Msg)
      requires WellFormed(init)
      ensures Valid() && fresh(payload)
      ensures Value() == init
    {
      payloadLength := init.payloadLength;
      payload := new bv8[MAX_PAYLOAD_LEN](i requires 0 <= i < MAX_PAYLOAD_LEN => init.payload[i]);
      checksum := init.checksum;
      new;
      assert payload[..] == init.payload;
    }

    /** txGpsMessage: the bytes put on the serial port, in order. */
    method Tx() returns (out: seq<bv8>)
      requires Valid() && payloadLength <= MAX_PAYLOAD_LEN
      ensures out == FrameAsWritten(Value())
    {
      out := [0xA0, 0xA1];
      var len := payloadLength;
      out := out + [LowByte(len) >> 8, LowByte(len) & 0xFF];
      var i := 0;
      while i < len
        invariant 0 <= i <= len
        invariant out == [0xA0, 0xA1, LowByte(len) >> 8, LowByte(len) & 0xFF] + payload[..i]
      {
        out := out + [payload[i]];
        i := i + 1;
      }
      out := out + [checksum];
      out := out + [0x0D, 0x0A];
    }

    /** The payload loop of rxGpsMessage: stores the length and copies bytes until `len` or the input runs out. */
    method ReadPayload(input: seq<bv8>, pos: nat, len: int) returns (next: nat, timedOut: bool)
      requires Valid() && pos <= |input| && 0 <= len <= MAX_PAYLOAD_LEN
      modifies this, payload
      ensures Valid()
      ensures Value() == Fill(old(Value()), len, input[pos..])
      ensures timedOut <==> |input| - pos < len
      ensures next == if timedOut then |input| else pos + len
    {
      payloadLength := len;
      var i := 0;
      next := pos;
      timedOut := false;
      while i < len
        invariant 0 <= i <= len && next == pos + i <= |input|
        invariant payloadLength == len && checksum == old(checksum)
        invariant forall k :: 0 <= k < i ==> payload[k] == input[pos + k]
        invariant forall k :: i <= k < payload.Length ==> payload[k] == old(payload[k])
        invariant !timedOut
      {
        if next >= |input| {
          timedOut := true;
          break;
        }
        payload[i] := input[next];
        next := next + 1;
        i := i + 1;
      }
      assert payload[..] == input[pos..][..i] + old(payload[..])[i..];
    }

    /** rxGpsMessage: reads frames until one checks out or the input runs out. */
    method Rx(input: seq<bv8>, expected: bv8) returns (result: RxResult, consumed: nat)
      requires Valid()
      modifies this, payload
      ensures Valid() && consumed <= |input|
      ensures (Value(), result, input[consumed..]) == Receive(old(Value()), input, expected)
    {
      var pos := 0;
      result := NoMessage;
      while result == NoMessage
        invariant Valid() && pos <= |input|
        invariant result == NoMessage ==>
          Receive(old(Value()), input, expected) == Receive(Value(), input[pos..], expected)
        invariant result != NoMessage ==>
          (Value(), result, input[pos..]) == Receive(old(Value()), input, expected)
        decreases |input| - pos, if result == NoMessage then 1 else 0
      {
        result, pos := ReadFrame(input, pos, expected);
      }
      consumed := pos;
    }

    /** One pass of rxGpsMessage's loop: a start marker, a length, the payload and the trailer. */
    method ReadFrame(input: seq<bv8>, pos: nat, expected: bv8) returns (result: RxResult, next: nat)
      requires Valid() && pos <= |input|
      modifies this, payload
      ensures Valid() && next <= |input|
      ensures result == NoMessage ==>
        pos < next && Receive(old(Value()), input[pos..], expected) == Receive(Value(), input[next..], expected)
      ensures result != NoMessage ==>
        (Value(), result, input[next..]) == Receive(old(Value()), input[pos..], expected)
    {
      ghost var before := Value();
      ghost var rest := input[pos..];
      if |input| - pos < 2 || (|input| - pos < 4 && input[pos] == 0xA0 && input[pos + 1] == 0xA1) {
        assert Receive(before, rest, expected) == (before, Timeout, []);
        assert input[|input|..] == [];
        return Timeout, |input|;
      }
      if input[pos] != 0xA0 || input[pos + 1] != 0xA1 {
        assert rest[2..] == input[pos + 2..];
        return NoMessage, pos + 2;
      }
      var len := DeclaredLength(input[pos + 2], input[pos + 3]);
      assert rest[4..] == input[pos + 4..];
      result, next := ReadBody(input, pos + 4, len, expected);
    }

    /** The payload and trailer of one frame whose declared length is `len`. */
    method ReadBody(input: seq<bv8>, pos: nat, len: int, expected: bv8) returns (result: RxResult, next: nat)
      requires Valid() && pos <= |input| && 0 <= len
      modifies this, payload
      ensures Valid() && next <= |input|
      ensures result == NoMessage ==>
        pos < next && AfterHeader(old(Value()), len, input[pos..], expected) == Receive(Value(), input[next..], expected)
      ensures result != NoMessage ==>
        (Value(), result, input[next..]) == AfterHeader(old(Value()), len, input[pos..], expected)
    {
      ghost var before := Value();
      ghost var body := input[pos..];
      var timedOut := false;
      next := pos;
      if len <= MAX_PAYLOAD_LEN {
        next, timedOut := ReadPayload(input, pos, len);
      }
      if timedOut {
        assert AfterHeader(before, len, body, expected) == (Value(), Timeout, []);
        assert input[next..] == [];
        return Timeout, next;
      }
      assert len <= MAX_PAYLOAD_LEN ==> body[len..] == input[next..];
      assert AfterHeader(before, len, body, expected) == Trailer(Value(), input[next..], expected);
      result, next := ReadTrailer(input, next, expected);
    }

    /** The checksum and end bytes of rxGpsMessage. */
    method ReadTrailer(input: seq<bv8>, pos: nat, expected: bv8) returns (result: RxResult, next: nat)
      requires Valid() && pos <= |input|
      ensures next <= |input|
      ensures result == NoMessage ==>
        pos < next && Trailer(Value(), input[pos..], expected) == Receive(Value(), input[next..], expected)
      ensures result != NoMessage ==>
        (Value(), result, input[next..]) == Trailer(Value(), input[pos..], expected)
    {
      ghost var bytes := input[pos..];
      if |input| - pos < 1 {
        return Timeout, |input|;
      }
      var received := input[pos];
      var calculated := CalculateChecksum(this);
      if calculated != received {
        assert bytes[1..] == input[pos + 1..];
        return NoMessage, pos + 1;
      }
      assert bytes[0] == received == Checksum(Value());
      if |input| - pos < 3 {
        assert Trailer(Value(), bytes, expected) == (Value(), Timeout, []);
        assert input[|input|..] == [];
        return Timeout, |input|;
      }
      assert bytes[3..] == input[pos + 3..];
      if input[pos + 1] == 0x0D && input[pos + 2] == 0x0A && payload[0] == expected {
        return Success, pos + 3;
      }
      return NoMessage, pos + 3;
    }

    /** sendQuerySwVersion. */
    method SendQuerySwVersion() returns (out: seq<bv8>)
      requires Valid()
      modifies this, payload
      ensures Valid() && Value() == QuerySwVersion(old(Value()))
      ensures out == FrameAsWritten(Value())
    {
      payload[OFFSET_MESSAGE_ID] := MSG_ID_QUERY_SW_VERSION;
      payload[OFFSET_SOFTWARE_TYPE] := 0x00;
      payloadLength := SIZE_QUERY_SW_VERSION;
      checksum := CalculateChecksum(this);
      out := Tx();
    }

    /** sendQueryPositionUpdateRate. */
    method SendQueryPositionUpdateRate() returns (out: seq<bv8>)
      requires Valid()
      modifies this, payload
      ensures Valid() && Value() == QueryPositionUpdateRate(old(Value()))
      ensures out == FrameAsWritten(Value())
    {
      payload[OFFSET_MESSAGE_ID] := MSG_ID_QUERY_POSITION_UPDATE_RATE;
      payloadLength := SIZE_QUERY_POSITION_UPDATE_RATE;
      checksum := CalculateChecksum(this);
      out := Tx();
    }

    /** sendConfigureSerialPort. */
    method SendConfigureSerialPort(baudRateCode: bv8) returns (out: seq<bv8>)
      requires Valid()
      modifies this, payload
      ensures Valid() && Value() == ConfigureSerialPort(old(Value()), baudRateCode)
      ensures out == FrameAsWritten(Value())
    {
      payload[OFFSET_MESSAGE_ID] := MSG_ID_CONFIGURE_SERIAL_PORT;
      payload[OFFSET_BAUD_RATE_CODE] := baudRateCode;
      payload[OFFSET_COM_PORT] := 0;
      payload[OFFSET_SERIAL_ATTRIBUTES] := ATTRIBUTE_UPDATE_TO_SRAM;
      payloadLength := SIZE_CONFIGURE_SERIAL_PORT;
      checksum := CalculateChecksum(this);
      out := Tx();
    }

    /** sendConfigureNmea, attributes written through the ConfigureSerialPort view as in the firmware. */
    method SendConfigureNmea() returns (out: seq<bv8>)
      requires Valid()
      modifies this, payload
      ensures Valid() && Value() == ConfigureNmea(old(Value()))
      ensures out == FrameAsWritten(Value())
    {
      payload[OFFSET_MESSAGE_ID] := MSG_ID_CONFIGURE_NMEA_MESSAGE;
      payload[1] := GGA_INTERVAL;
      payload[2] := GSA_INTERVAL;
      payload[3] := GSV_INTERVAL;
      payload[4] := GLL_INTERVAL;
      payload[5] := RMC_INTERVAL;
      payload[6] := VTG_INTERVAL;
      payload[7] := ZDA_INTERVAL;
      payload[OFFSET_SERIAL_ATTRIBUTES] := ATTRIBUTE_UPDATE_TO_SRAM;
      payloadLength := SIZE_CONFIGURE_NMEA_MESSAGE;
      checksum := CalculateChecksum(this);
      out := Tx();
    }

    /** sendConfigurePositionUpdateRate. */
    method SendConfigurePositionUpdateRate(updateRate: bv8) returns (out: seq<bv8>)
      requires Valid()
      modifies this, payload
      ensures Valid() && Value() == ConfigurePositionUpdateRate(old(Value()), updateRate)
      ensures out == FrameAsWritten(Value())
    {
      payload[OFFSET_MESSAGE_ID] := MSG_ID_CONFIGURE_POSITION_UPDATE_RATE;
      payload[OFFSET_RATE] := updateRate;
      payload[OFFSET_RATE_ATTRIBUTES] := ATTRIBUTE_UPDATE_TO_SRAM;
      payloadLength := SIZE_CONFIGURE_POSITION_UPDATE_RATE;
      checksum := CalculateChecksum(this);
      out := Tx();
    }

    /** sendSetFactoryDefaults, which leaves payloadLength as it was. */
    method SendSetFactoryDefaults() returns (out: seq<bv8>)
      requires Valid() && payloadLength <= MAX_PAYLOAD_LEN
      modifies this, payload
      ensures Valid() && Value() == SetFactoryDefaults(old(Value()))
      ensures out == FrameAsWritten(Value())
    {
      payload[OFFSET_MESSAGE_ID] := MSG_ID_SET_FACTORY_DEFAULTS;
      payload[OFFSET_FACTORY_TYPE] := 0x01;
      checksum := CalculateChecksum(this);
      out := Tx();
    }
  }

  /** calculateChecksum: XOR of the first payloadLength bytes; 0 for a null message or a length over 256. */
  method CalculateChecksum(msg: GpsMessage?) returns (c: bv8)
    requires msg != null ==> msg.Valid()
    ensures msg == null ==> c == 0
    ensures msg != null ==> c == Checksum(msg.Value())
  {
    c := 0;
    if msg != null {
      var len := msg.payloadLength;
      if len <= MAX_PAYLOAD_LEN {
        var i := 0;
        while i < len
          invariant 0 <= i <= len
          invariant c == XorAll(msg.payload[..i])
        {
          assert msg.payload[..i + 1][..i] == msg.payload[..i];
          c := c ^ msg.payload[i];
          i := i + 1;
        }
        assert msg.payload[..len] == msg.Value().payload[..len];
      }
    }
  }
}
