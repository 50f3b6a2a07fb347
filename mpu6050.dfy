/** Decoding of the MPU-6050's measurement registers (`mpu6050_read_raw`).
    The sensor keeps each reading as two register bytes, high byte first; the
    firmware reads a block of six bytes for the three accelerometer axes, six
    for the three gyroscope axes and two for the temperature, and reassembles
    each reading into an `int16_t`. The I2C transactions themselves are not
    modelled: the bytes they return are the methods' parameters. */
module Mpu6050 {
  import opened Int16Codec

  /** Bytes in one block of three axis registers (`uint8_t buffer[6]`). */
  const BLOCK_BYTES := 6

  /** The three readings packed big-endian in a block of six register bytes:
      axis `i` comes from bytes `2i` and `2i + 1` and from nothing else. */
  function Axes(regs: seq<byte>): (r: seq<int16>)
    requires |regs| == BLOCK_BYTES
    ensures |r| == 3
    ensures forall i :: 0 <= i < 3 ==> r[i] == DecodeBE16(regs[2 * i], regs[2 * i + 1])
  {
    [DecodeBE16(regs[0], regs[1]), DecodeBE16(regs[2], regs[3]), DecodeBE16(regs[4], regs[5])]
  }

  /** How the sensor lays three readings out in its registers, high byte first. */
  function Registers(readings: seq<int16>): (regs: seq<byte>)
    requires |readings| == 3
    ensures |regs| == BLOCK_BYTES
  {
    [HighByte(readings[0] as int), LowByte(readings[0] as int),
     HighByte(readings[1] as int), LowByte(readings[1] as int),
     HighByte(readings[2] as int), LowByte(readings[2] as int)]
  }

  /** Decoding the register image of three readings gives the readings back. */
  lemma {:induction false} AxesOfRegisters(readings: seq<int16>)
    requires |readings| == 3
    ensures Axes(Registers(readings)) == readings
  {
    DecodeOfSplit(readings[0] as int);
    DecodeOfSplit(readings[1] as int);
    DecodeOfSplit(readings[2] as int);
  }

  /** Every block of six register bytes is the image of what it decodes to. */
  lemma {:induction false} RegistersOfAxes(regs: seq<byte>)
    requires |regs| == BLOCK_BYTES
    ensures Registers(Axes(regs)) == regs
  {
    SplitOfDecode(regs[0], regs[1]);
    SplitOfDecode(regs[2], regs[3]);
    SplitOfDecode(regs[4], regs[5]);
  }

  /** The decode loop of `mpu6050_read_raw`: fills the three slots of `out`
      from a block of register bytes, one axis per iteration. */
  method DecodeAxes(regs: seq<byte>, out: array<int16>)
    requires |regs| == BLOCK_BYTES && out.Length == 3
    modifies out
    ensures out[..] == Axes(regs)
  {
    for i := 0 to 3
      invariant forall j :: 0 <= j < i ==> out[j] == DecodeBE16(regs[2 * j], regs[2 * j + 1])
    {
      out[i] := DecodeBE16(regs[2 * i], regs[2 * i + 1]);
    }
  }

  /** `mpu6050_read_raw`: decodes the accelerometer block into `accel`, then the
      gyroscope block into `gyro`, then the two temperature bytes, which are
      returned (the source writes them through a pointer). Should a caller pass
      the same array twice, the gyroscope readings are the ones left in it. */
  method ReadRaw(accelRegs: seq<byte>, gyroRegs: seq<byte>, tempRegs: seq<byte>,
                 accel: array<int16>, gyro: array<int16>) returns (temp: int16)
    requires |accelRegs| == BLOCK_BYTES && |gyroRegs| == BLOCK_BYTES && |tempRegs| == 2
    requires accel.Length == 3 && gyro.Length == 3
    modifies accel, gyro
    ensures gyro[..] == Axes(gyroRegs)
    ensures accel != gyro ==> accel[..] == Axes(accelRegs)
    ensures temp == DecodeBE16(tempRegs[0], tempRegs[1])
  {
    DecodeAxes(accelRegs, accel);
    DecodeAxes(gyroRegs, gyro);
    temp := DecodeBE16(tempRegs[0], tempRegs[1]);
  }
}
