/** The integer part of `mpu6050_task`'s endless loop: the task keeps the
    `accel` and `gyro` arrays and `temp` across cycles, refills them from the
    sensor each cycle and writes one packet to the serial port. The attitude
    fusion between reading and sending is not modelled; its pitch and roll,
    already cast to integers, are parameters of each cycle. */
module SensorTask {
  import opened Int16Codec
  import Mpu6050
  import opened Protocol

  /** What one cycle feeds the encoder. */
  datatype Sample = Sample(pitch: int, roll: int, accelY: int16)

  /** The bytes the serial port has carried after a run of cycles: two
      frames for every cycle, and a third for every cycle whose detector fired. */
  function Stream(samples: seq<Sample>): (s: seq<byte>)
    ensures |s| == 8 * |samples| + 4 * |ShakeCycles(samples)|
    decreases |samples|
  {
    if samples == [] then []
    else
      var last := samples[|samples| - 1];
      Stream(samples[..|samples| - 1]) + EncodeCycle(last.pitch, last.roll, last.accelY)
  }

  /** The cycles of a run whose shake detector fired, in order: every firing
      cycle appears as often as it occurs in the run, and no other does. */
  function ShakeCycles(samples: seq<Sample>): (shakes: seq<Sample>)
    ensures |shakes| <= |samples|
    ensures forall x :: multiset(shakes)[x] ==
                          if ShakeDetected(x.accelY) then multiset(samples)[x] else 0
    decreases |samples|
  {
    if samples == [] then []
    else
      var last := samples[|samples| - 1];
      assert samples == samples[..|samples| - 1] + [last];
      ShakeCycles(samples[..|samples| - 1]) + (if ShakeDetected(last.accelY) then [last] else [])
  }

  /** A byte stream cut into whole 4-byte frames, each starting with a channel
      number 0, 1 or 2 and ending with the 0xFF terminator: what a receiver
      resynchronising on terminators relies on. */
  predicate WellFramed(s: seq<byte>)
  {
    |s| % FRAME_BYTES == 0
    && forall k :: 0 <= k < |s| ==>
         (k % FRAME_BYTES == 0 ==> s[k] <= SHAKE_CHANNEL)
         && (k % FRAME_BYTES == 3 ==> s[k] == TERMINATOR)
  }

  /** Every cycle's packet is well framed. */
  lemma {:induction false} CycleWellFramed(pitch: int, roll: int, accelY: int16)
    ensures WellFramed(EncodeCycle(pitch, roll, accelY))
  {
    var out := EncodeCycle(pitch, roll, accelY);
    forall k | 0 <= k < |out|
      ensures (k % FRAME_BYTES == 0 ==> out[k] <= SHAKE_CHANNEL)
              && (k % FRAME_BYTES == 3 ==> out[k] == TERMINATOR)
    {
      assert k < 12;
    }
  }

  /** Well-framed streams stay well framed when one follows the other. */
  lemma WellFramedConcat(a: seq<byte>, b: seq<byte>)
    requires WellFramed(a) && WellFramed(b)
    ensures WellFramed(a + b)
  {
    var n := |a| / FRAME_BYTES;
    assert |a| == FRAME_BYTES * n;
    forall k | |a| <= k < |a + b|
      ensures (k % FRAME_BYTES == 0 ==> (a + b)[k] <= SHAKE_CHANNEL)
              && (k % FRAME_BYTES == 3 ==> (a + b)[k] == TERMINATOR)
    {
      var j := k - |a|;
      assert (a + b)[k] == b[j];
      assert k == FRAME_BYTES * (n + j / FRAME_BYTES) + j % FRAME_BYTES;
      assert k % FRAME_BYTES == j % FRAME_BYTES;
    }
  }

  /** Whatever the cycles, the serial stream is a sequence of whole frames. */
  lemma {:induction false} StreamWellFramed(samples: seq<Sample>)
    ensures WellFramed(Stream(samples))
    decreases |samples|
  {
    if samples != [] {
      var last := samples[|samples| - 1];
      StreamWellFramed(samples[..|samples| - 1]);
      CycleWellFramed(last.pitch, last.roll, last.accelY);
      CycleLayout(last.pitch, last.roll, last.accelY);
      WellFramedConcat(Stream(samples[..|samples| - 1]), EncodeCycle(last.pitch, last.roll, last.accelY));
    }
  }

  /** The task's state: the arrays `mpu6050_read_raw` fills, the last
      temperature, and the bytes sent on the serial port so far. */
  class Task {
    var accel: array<int16>
    var gyro: array<int16>
    var temp: int16
    /** Every byte passed to `uart_putc_raw`, in order. */
    var sent: seq<byte>
    /** The inputs of the encoder in the cycles run so far. */
    ghost var samples: seq<Sample>

    ghost predicate Valid()
      reads this
    {
      accel.Length == 3 && gyro.Length == 3 && accel != gyro
      && sent == Stream(samples)
    }

    /** The task before its first cycle: nothing sent yet. */
    constructor ()
      ensures Valid() && fresh(accel) && fresh(gyro)
      ensures sent == [] && samples == []
    {
      accel := new int16[3];
      gyro := new int16[3];
      temp := 0;
      sent := [];
      samples := [];
    }

    /** One iteration of the loop: read the sensor into the task's arrays,
        then send the pitch and roll frames and, if `abs(accel[1])` exceeds the
        threshold, the event frame. */
    method Cycle(accelRegs: seq<byte>, gyroRegs: seq<byte>, tempRegs: seq<byte>,
                 pitch: int, roll: int)
      requires Valid()
      requires |accelRegs| == Mpu6050.BLOCK_BYTES && |gyroRegs| == Mpu6050.BLOCK_BYTES
      requires |tempRegs| == 2
      modifies this, accel, gyro
      ensures Valid() && accel == old(accel) && gyro == old(gyro)
      ensures accel[..] == Mpu6050.Axes(accelRegs) && gyro[..] == Mpu6050.Axes(gyroRegs)
      ensures temp == DecodeBE16(tempRegs[0], tempRegs[1])
      ensures samples == old(samples) + [Sample(pitch, roll, accel[1])]
      ensures sent == old(sent) + EncodeCycle(pitch, roll, accel[1])
    {
      temp := Mpu6050.ReadRaw(accelRegs, gyroRegs, tempRegs, accel, gyro);
      var accelY := accel[1];
      sent := sent + EncodeCycle(pitch, roll, accelY);
      samples := samples + [Sample(pitch, roll, accelY)];
      assert samples[..|samples| - 1] == old(samples);
    }
  }
}
