/** The serial wire format of one cycle of `mpu6050_task`: a pitch frame, a
    roll frame and, when the shake detector fires, an event frame. Every frame
    is four bytes, `[channel, low byte, high byte, 0xFF]`. The angles reach the
    encoder as integers: the float-to-int cast before it is not modelled. */
module Protocol {
  import opened Int16Codec

  const PITCH_CHANNEL: byte := 0
  const ROLL_CHANNEL: byte := 1
  const SHAKE_CHANNEL: byte := 2
  /** `uart_putc_raw(UART_ID, -1)`: the char -1 goes out as the byte 0xFF. */
  const TERMINATOR: byte := 0xFF
  /** The detector fires when the lateral acceleration magnitude exceeds this. */
  const SHAKE_THRESHOLD := 17000
  const FRAME_BYTES := 4

  /** One frame as it goes out on the wire: four bytes, the channel first and
      the terminator last. */
  function Frame(channel: byte, low: byte, high: byte): (f: seq<byte>)
    ensures |f| == FRAME_BYTES && f[0] == channel && f[3] == TERMINATOR
  {
    [channel, low, high, TERMINATOR]
  }

  /** An angle frame: the angle's low byte `v & 0xFF`, then `(v >> 8) & 0xFF`
      (what the value bytes mean is `AngleFrameRoundTrip`). */
  function AngleFrame(channel: byte, v: int): (f: seq<byte>)
    ensures |f| == FRAME_BYTES && f[0] == channel && f[3] == TERMINATOR
  {
    Frame(channel, LowByte(v), HighByte(v))
  }

  /** `abs(accel[1])`: the `int16_t` is promoted to `int` before `abs`, so
      -32768 has the magnitude 32768 rather than overflowing. */
  function ShakeMagnitude(accelY: int16): (m: int)
    ensures 0 <= m <= 0x8000
    ensures m == accelY as int || m == -(accelY as int)
  {
    if accelY < 0 then -(accelY as int) else accelY as int
  }

  /** The shake test `mod > 17000`: it fires exactly for readings outside
      [-17000, 17000]. */
  predicate ShakeDetected(accelY: int16)
    ensures ShakeDetected(accelY) <==> accelY > 17000 || accelY < -17000
  {
    ShakeMagnitude(accelY) > SHAKE_THRESHOLD
  }

  /** The event frame: a literal 0 where the low byte would be, and the
      magnitude's high byte `(mod >> 8) & 0xFF`, which for any magnitude below
      2^16 is the magnitude divided by 256. */
  function EventFrame(magnitude: int): (f: seq<byte>)
    ensures |f| == FRAME_BYTES && f[0] == SHAKE_CHANNEL && f[3] == TERMINATOR
    ensures f[1] == 0
    ensures 0 <= magnitude < 0x1_0000 ==> f[2] as int == magnitude / 0x100
  {
    assert 0 <= magnitude < 0x1_0000 ==> HighByte(magnitude) as int == magnitude / 0x100 by {
      if 0 <= magnitude < 0x1_0000 {
        LowByteUnique(Asr8(magnitude), 0, (magnitude / 0x100) as byte);
      }
    }
    Frame(SHAKE_CHANNEL, 0, HighByte(magnitude))
  }

  /** Everything one cycle sends: the pitch frame, the roll frame, then the
      event frame exactly when the detector fired. */
  function EncodeCycle(pitch: int, roll: int, accelY: int16): (out: seq<byte>)
    ensures |out| == if ShakeDetected(accelY) then 12 else 8
    ensures out[..4] == AngleFrame(PITCH_CHANNEL, pitch)
    ensures out[4..8] == AngleFrame(ROLL_CHANNEL, roll)
    ensures ShakeDetected(accelY) ==> out[8..] == EventFrame(ShakeMagnitude(accelY))
  {
    AngleFrame(PITCH_CHANNEL, pitch) + AngleFrame(ROLL_CHANNEL, roll)
    + (if ShakeDetected(accelY) then EventFrame(ShakeMagnitude(accelY)) else [])
  }

  /** An angle frame holds `v mod 256` and `floor(v / 256) mod 256`, and its two
      value bytes, read little-endian as an `int16_t`, give back `v` wrapped to
      16 bits: `v` itself whenever it fits. */
  lemma {:induction false} AngleFrameRoundTrip(channel: byte, v: int)
    ensures |AngleFrame(channel, v)| == FRAME_BYTES
    ensures AngleFrame(channel, v)[0] == channel && AngleFrame(channel, v)[3] == TERMINATOR
    ensures AngleFrame(channel, v)[1] as int == v % 0x100
    ensures AngleFrame(channel, v)[2] as int == (v / 0x100) % 0x100
    ensures DecodeBE16(AngleFrame(channel, v)[2], AngleFrame(channel, v)[1]) == ToInt16(v)
    ensures -0x8000 <= v < 0x8000 ==>
              DecodeBE16(AngleFrame(channel, v)[2], AngleFrame(channel, v)[1]) as int == v
  {
    DecodeOfSplit(v);
  }

  /** The threshold is strict on both sides: 17000 and -17000 do not fire,
      17001 and -17001 do. */
  lemma ShakeThreshold()
    ensures !ShakeDetected(17000) && !ShakeDetected(-17000)
    ensures ShakeDetected(17001) && ShakeDetected(-17001)
  {
  }

  /** The event frame's high byte is the magnitude divided by 256, which for a
      detected shake lies in [66, 128]; 128 only for magnitude 32768. */
  lemma {:induction false} EventFrameBytes(accelY: int16)
    requires ShakeDetected(accelY)
    ensures EventFrame(ShakeMagnitude(accelY))[1] == 0
    ensures EventFrame(ShakeMagnitude(accelY))[2] as int == ShakeMagnitude(accelY) / 0x100
    ensures 66 <= EventFrame(ShakeMagnitude(accelY))[2] <= 128
    ensures EventFrame(ShakeMagnitude(accelY))[2] == 128 <==> accelY == -0x8000
  {
    var m := ShakeMagnitude(accelY);
    LowByteUnique(Asr8(m), 0, (m / 0x100) as byte);
  }

  /** Length, order and framing of one cycle's output: 8 bytes without an
      event and 12 with one; channels 0, 1, 2 at indices 0, 4, 8; 0xFF at every
      index that is 3 modulo 4. */
  lemma {:induction false} CycleLayout(pitch: int, roll: int, accelY: int16)
    ensures |EncodeCycle(pitch, roll, accelY)| == if ShakeDetected(accelY) then 12 else 8
    ensures EncodeCycle(pitch, roll, accelY)[0] == PITCH_CHANNEL
    ensures EncodeCycle(pitch, roll, accelY)[4] == ROLL_CHANNEL
    ensures ShakeDetected(accelY) ==> EncodeCycle(pitch, roll, accelY)[8] == SHAKE_CHANNEL
    ensures forall k :: 0 <= k < |EncodeCycle(pitch, roll, accelY)| && k % 4 == 3 ==>
              EncodeCycle(pitch, roll, accelY)[k] == TERMINATOR
  {
    var out := EncodeCycle(pitch, roll, accelY);
    forall k | 0 <= k < |out| && k % 4 == 3
      ensures out[k] == TERMINATOR
    {
      assert k == 3 || k == 7 || k == 11;
    }
  }

  /** A cycle's packet as a host reads it back. */
  datatype Reading = Reading(pitch: int16, roll: int16, shakeHigh: Option<byte>)

  datatype Option<T> = None | Some(value: T)

  /** The host side of the wire format: accepts every byte string with one
      cycle's frame layout (the event byte's range is not checked), reads each
      angle as a little-endian `int16_t`, and the event frame's high byte when
      there is one. */
  function DecodeCycle(s: seq<byte>): Option<Reading>
  {
    if (|s| == 8 || |s| == 12)
       && s[0] == PITCH_CHANNEL && s[3] == TERMINATOR
       && s[4] == ROLL_CHANNEL && s[7] == TERMINATOR
       && (|s| == 12 ==> s[8] == SHAKE_CHANNEL && s[9] == 0 && s[11] == TERMINATOR)
    then Some(Reading(DecodeBE16(s[2], s[1]), DecodeBE16(s[6], s[5]),
                      if |s| == 12 then Some(s[10]) else None))
    else None
  }

  /** Decoding a cycle's output recovers the angles (wrapped to 16 bits) and
      reports an event exactly when the detector fired, with its high byte. */
  lemma {:induction false} DecodeOfEncode(pitch: int, roll: int, accelY: int16)
    ensures DecodeCycle(EncodeCycle(pitch, roll, accelY))
            == Some(Reading(ToInt16(pitch), ToInt16(roll),
                            if ShakeDetected(accelY)
                            then Some(HighByte(ShakeMagnitude(accelY)))
                            else None))
  {
    AngleFrameRoundTrip(PITCH_CHANNEL, pitch);
    AngleFrameRoundTrip(ROLL_CHANNEL, roll);
  }

  /** A lateral reading whose event frame carries the high byte `h`. */
  function AccelForHigh(h: byte): (a: int16)
    requires 66 <= h <= 128
    ensures ShakeDetected(a) && HighByte(ShakeMagnitude(a)) == h
  {
    LowByteUnique(h as int, 0, h);
    if h == 128 then
      LowByteUnique(0x8000, 128, 0);
      -0x8000
    else
      LowByteUnique(h as int * 0x100 + 0xFF, h as int, 0xFF);
      -(h as int * 0x100 + 0xFF) as int16
  }

  /** Every packet the host accepts, with an event byte the detector can
      produce, is exactly what some cycle sends. */
  lemma {:induction false} EncodeOfDecode(s: seq<byte>)
    requires DecodeCycle(s).Some?
    requires DecodeCycle(s).value.shakeHigh.Some? ==> 66 <= DecodeCycle(s).value.shakeHigh.value <= 128
    ensures var rd := DecodeCycle(s).value;
            s == EncodeCycle(rd.pitch as int, rd.roll as int,
                             match rd.shakeHigh
                             case Some(h) => AccelForHigh(h)
                             case None => 0)
  {
    var rd := DecodeCycle(s).value;
    SplitOfDecode(s[2], s[1]);
    SplitOfDecode(s[6], s[5]);
    var a: int16 := match rd.shakeHigh case Some(h) => AccelForHigh(h) case None => 0;
    var out := EncodeCycle(rd.pitch as int, rd.roll as int, a);
    assert |out| == |s|;
    forall k | 0 <= k < |s| ensures out[k] == s[k] {
    }
  }

  /** Angle frames at the byte boundaries: -30 and -180 go out in two's
      complement, 127 and 180 fit the low byte, 256 carries into the high byte. */
  lemma AngleFrameExamples()
    ensures AngleFrame(PITCH_CHANNEL, 45) == [0, 45, 0, 255]
    ensures AngleFrame(ROLL_CHANNEL, -30) == [1, 226, 255, 255]
    ensures AngleFrame(PITCH_CHANNEL, -180) == [0, 76, 255, 255]
    ensures AngleFrame(ROLL_CHANNEL, 180) == [1, 180, 0, 255]
    ensures AngleFrame(PITCH_CHANNEL, 127) == [0, 127, 0, 255]
    ensures AngleFrame(ROLL_CHANNEL, 256) == [1, 0, 1, 255]
  {
  }

  /** Whole cycles: pitch 45 and roll -30 without an event; the readings
      +-17000 at the threshold send no event; 17500 and -32768 do. */
  lemma CycleExamples()
    ensures EncodeCycle(45, -30, 0) == [0, 45, 0, 255, 1, 226, 255, 255]
    ensures EncodeCycle(0, 0, 17000) == [0, 0, 0, 255, 1, 0, 0, 255]
    ensures EncodeCycle(0, 0, -17000) == [0, 0, 0, 255, 1, 0, 0, 255]
    ensures EncodeCycle(0, 0, 17500) == [0, 0, 0, 255, 1, 0, 0, 255, 2, 0, 68, 255]
    ensures EncodeCycle(0, 0, -0x8000) == [0, 0, 0, 255, 1, 0, 0, 255, 2, 0, 128, 255]
  {
    AngleFrameExamples();
    var pitch0, roll0 := AngleFrame(PITCH_CHANNEL, 0), AngleFrame(ROLL_CHANNEL, 0);
    assert pitch0 == [0, 0, 0, 255] && roll0 == [1, 0, 0, 255];
    assert EncodeCycle(45, -30, 0) == AngleFrame(PITCH_CHANNEL, 45) + AngleFrame(ROLL_CHANNEL, -30);
    assert EncodeCycle(0, 0, 17000) == pitch0 + roll0;
    assert EncodeCycle(0, 0, -17000) == pitch0 + roll0;
    assert EncodeCycle(0, 0, 17500) == pitch0 + roll0 + EventFrame(17500);
    assert EncodeCycle(0, 0, -0x8000) == pitch0 + roll0 + EventFrame(0x8000);
  }
}
