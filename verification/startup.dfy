/** The MPU6050 constructor: choose the sensitivities that belong to the
    build-time full-scale ranges, then configure the device with four
    write-and-verify register writes whose results are not looked at. */
module Startup {
  import opened CInt
  import opened SetReg

  /** The build-time settings: digital low-pass filter, gyro full-scale range
      and accelerometer full-scale range. */
  datatype Config = Config(dlpf: Byte, gyroRange: Byte, accelRange: Byte)

  /** DLPF = 2, GRANGE = 0, ARANGE = 0 as the header fixes them. */
  const BuildConfig: Config := Config(2, 0, 0)

  /** CONFIG, holding the low-pass filter setting. */
  const ConfigRegister: Byte := 0x1A
  /** GYRO_CONFIG, holding the gyro range in bits 4:3. */
  const GyroConfigRegister: Byte := 0x1B
  /** ACCEL_CONFIG, holding the accelerometer range in bits 4:3. */
  const AccelConfigRegister: Byte := 0x1C
  /** PWR_MGMT_1: writing 0x01 clears SLEEP and picks the gyro-X clock. */
  const PowerManagementRegister: Byte := 0x6B
  const WakeUp: Byte := 0x01

  /** Gyro sensitivity in LSB per deg/s, in tenths (131.0, 65.5, 32.8, 16.4),
      indexed by range. */
  const GyroTableTenths: seq<nat> := [1310, 655, 328, 164]

  /** Accelerometer sensitivity in LSB per g, indexed by range. */
  const AccelTable: seq<nat> := [16384, 8192, 4096, 2048]

  /** GSENS: ranges 0, 1 and 2 pick their own entry, every other value the
      last one. */
  function GyroSensitivityTenths(range: Byte): (s: nat)
    ensures range <= 2 ==> s == GyroTableTenths[range]
    ensures range > 2 ==> s == GyroTableTenths[3]
  {
    if 0 == range then 1310
    else if 1 == range then 655
    else if 2 == range then 328
    else 164
  }

  /** ASENS: ranges 0, 1 and 2 pick their own entry, every other value the
      last one. */
  function AccelSensitivity(range: Byte): (s: nat)
    ensures range <= 2 ==> s == AccelTable[range]
    ensures range > 2 ==> s == AccelTable[3]
  {
    if 0 == range then 16384
    else if 1 == range then 8192
    else if 2 == range then 4096
    else 2048
  }

  /** Each accelerometer range step halves the sensitivity: for r in 0..3 it
      is 16384 / 2^r, exactly. */
  lemma AccelSensitivityHalves(range: Byte)
    requires range <= 3
    ensures AccelSensitivity(range) * Pow2(range) == 16384
    ensures AccelSensitivity(range) == 16384 / Pow2(range)
  {
  }

  /** The gyro table is not an exact halving: 131.0 and 32.8 are twice their
      successors, but 32.8 is not half of 65.5. */
  lemma GyroSensitivityNotHalving()
    ensures GyroSensitivityTenths(0) == 2 * GyroSensitivityTenths(1)
    ensures GyroSensitivityTenths(1) != 2 * GyroSensitivityTenths(2)
    ensures GyroSensitivityTenths(2) == 2 * GyroSensitivityTenths(3)
  {
  }

  /** `range << 3` as the `char` argument of setreg. */
  function RangeField(range: Byte): (v: Byte)
    ensures v % 8 == 0
    ensures range <= 3 ==> v == range * 8 && v < 0x20 && v / 8 == range
  {
    (range as int * 8) % 0x100
  }

  /** One (register, value) pair handed to setreg. */
  datatype RegWrite = RegWrite(register: Byte, value: Byte)

  /** The register writes of the constructor, in order: the filter, the two
      ranges, and the wake-up last. Each register is written once, and each
      range in 0..3 can be read back from the value written for it. */
  function StartupWrites(cfg: Config): (ws: seq<RegWrite>)
    ensures |ws| == 4
    ensures forall i, j :: 0 <= i < j < |ws| ==> ws[i].register != ws[j].register
    ensures ws[0] == RegWrite(ConfigRegister, cfg.dlpf)
    ensures ws[3] == RegWrite(PowerManagementRegister, WakeUp)
    ensures ws[1].register == GyroConfigRegister && ws[2].register == AccelConfigRegister
    ensures cfg.gyroRange <= 3 ==> ws[1].value / 8 == cfg.gyroRange
    ensures cfg.accelRange <= 3 ==> ws[2].value / 8 == cfg.accelRange
  {
    [RegWrite(ConfigRegister, cfg.dlpf),
     RegWrite(GyroConfigRegister, RangeField(cfg.gyroRange)),
     RegWrite(AccelConfigRegister, RangeField(cfg.accelRange)),
     RegWrite(PowerManagementRegister, WakeUp)]
  }

  /** The sensor handle: its settings and the sensitivities derived from them. */
  datatype Handle = Handle(config: Config, gyroSensitivityTenths: nat, accelSensitivity: nat)

  /** One setreg call: what it was asked to write and how it ended. */
  datatype Call = Call(write: RegWrite, outcome: Outcome)

  /** What the constructor leaves behind: the handle, and the calls it made,
      whose results it drops. */
  datatype Startup = Startup(handle: Handle, calls: seq<Call>)

  /** The read-backs used up by a run of calls: one per attempt. */
  function Consumed(calls: seq<Call>): (n: nat)
    ensures (forall i :: 0 <= i < |calls| ==> calls[i].outcome.attempts <= MaxAttempts) ==>
      n <= MaxAttempts * |calls|
  {
    if calls == [] then 0 else calls[0].outcome.attempts + Consumed(calls[1..])
  }

  /** setreg applied to each write in turn, each call taking its read-backs
      from where the previous call stopped. */
  function RunWrites(writes: seq<RegWrite>, readBacks: seq<Byte>): (calls: seq<Call>)
    requires MaxAttempts * |writes| <= |readBacks|
    ensures |calls| == |writes|
    ensures forall i :: 0 <= i < |calls| ==>
      calls[i].write == writes[i] && 1 <= calls[i].outcome.attempts <= MaxAttempts
    ensures |writes| <= Consumed(calls) <= MaxAttempts * |writes|
    decreases |writes|
  {
    if writes == [] then []
    else
      var o := SetRegOutcome(writes[0].value, readBacks);
      [Call(writes[0], o)] + RunWrites(writes[1..], readBacks[o.attempts..])
  }

  /** Call i of a run sees exactly the read-backs left over by calls 0..i-1. */
  lemma {:induction false} RunWritesReadsInTurn(writes: seq<RegWrite>, readBacks: seq<Byte>, i: nat)
    requires MaxAttempts * |writes| <= |readBacks|
    requires i < |writes|
    ensures Consumed(RunWrites(writes, readBacks)[..i]) + MaxAttempts <= |readBacks|
    ensures RunWrites(writes, readBacks)[i].outcome ==
      SetRegOutcome(writes[i].value, readBacks[Consumed(RunWrites(writes, readBacks)[..i])..])
    decreases i
  {
    var calls := RunWrites(writes, readBacks);
    if i == 0 {
      assert calls[..0] == [];
    } else {
      var o := SetRegOutcome(writes[0].value, readBacks);
      var rest := readBacks[o.attempts..];
      var tail := RunWrites(writes[1..], rest);
      RunWritesReadsInTurn(writes[1..], rest, i - 1);
      assert calls == [Call(writes[0], o)] + tail;
      ConsumedAfterFirst(Call(writes[0], o), tail, i);
      var before := Consumed(tail[..i - 1]);
      DropTwice(readBacks, o.attempts, before);
      assert calls[i] == tail[i - 1];
      assert writes[1..][i - 1] == writes[i];
      assert rest[before..] == readBacks[Consumed(calls[..i])..];
    }
  }

  lemma ConsumedAfterFirst(c: Call, tail: seq<Call>, i: nat)
    requires 1 <= i <= |tail| + 1
    ensures Consumed(([c] + tail)[..i]) == c.outcome.attempts + Consumed(tail[..i - 1])
  {
    assert ([c] + tail)[..i][1..] == tail[..i - 1];
  }

  lemma DropTwice(s: seq<Byte>, a: nat, b: nat)
    requires a + b <= |s|
    ensures s[a..][b..] == s[a + b..]
  {
  }

  /** When no read-back equals any value written, every call fails after
      its 20 attempts. */
  lemma {:induction false} RunWritesAllFail(writes: seq<RegWrite>, readBacks: seq<Byte>)
    requires MaxAttempts * |writes| <= |readBacks|
    requires forall k, j :: 0 <= k < |readBacks| && 0 <= j < |writes| ==> readBacks[k] != writes[j].value
    ensures forall i :: 0 <= i < |writes| ==>
      RunWrites(writes, readBacks)[i].outcome == Outcome(true, MaxAttempts)
    decreases |writes|
  {
    if writes != [] {
      var o := SetRegOutcome(writes[0].value, readBacks);
      assert o == Outcome(true, MaxAttempts) by {
        assert forall k :: 0 <= k < MaxAttempts ==> readBacks[k] != writes[0].value;
      }
      var rest := readBacks[o.attempts..];
      assert forall k, j :: 0 <= k < |rest| && 0 <= j < |writes[1..]| ==> rest[k] != writes[1..][j].value by {
        forall k, j | 0 <= k < |rest| && 0 <= j < |writes[1..]|
          ensures rest[k] != writes[1..][j].value
        {
          assert rest[k] == readBacks[k + o.attempts];
          assert writes[1..][j] == writes[j + 1];
        }
      }
      RunWritesAllFail(writes[1..], rest);
    }
  }

  /** The constructor: select the sensitivities, then issue the four
      register writes through setreg and drop their results. */
  function Construct(cfg: Config, readBacks: seq<Byte>): (s: Startup)
    requires 4 * MaxAttempts <= |readBacks|
    ensures s.handle.config == cfg
    ensures s.handle.gyroSensitivityTenths == GyroTableTenths[if cfg.gyroRange <= 2 then cfg.gyroRange else 3]
    ensures s.handle.accelSensitivity == AccelTable[if cfg.accelRange <= 2 then cfg.accelRange else 3]
    ensures |s.calls| == 4
    ensures s.calls[0].write == RegWrite(0x1A, cfg.dlpf)
    ensures s.calls[1].write == RegWrite(0x1B, RangeField(cfg.gyroRange))
    ensures s.calls[2].write == RegWrite(0x1C, RangeField(cfg.accelRange))
    ensures s.calls[3].write == RegWrite(0x6B, 0x01)
    ensures 4 <= Consumed(s.calls) <= 4 * MaxAttempts
  {
    var handle := Handle(cfg, GyroSensitivityTenths(cfg.gyroRange), AccelSensitivity(cfg.accelRange));
    Startup(handle, RunWrites(StartupWrites(cfg), readBacks))
  }

  /** The handle does not depend on how the register writes went: the
      constructor's result is the same whether every write read back or none
      did. */
  lemma ConstructIgnoresWriteResults(cfg: Config, r1: seq<Byte>, r2: seq<Byte>)
    requires 4 * MaxAttempts <= |r1| && 4 * MaxAttempts <= |r2|
    ensures Construct(cfg, r1).handle == Construct(cfg, r2).handle
  {
  }

  /** A device that never answers with any written value: all four setreg
      calls report failure after 20 attempts each, and the constructor still
      returns a handle with the build-time sensitivities. */
  lemma ConstructCompletesWhenEveryWriteFails()
    ensures var s := Construct(BuildConfig, seq(4 * MaxAttempts, _ => 0xFF));
      s.handle == Handle(BuildConfig, 1310, 16384) &&
      forall i :: 0 <= i < 4 ==> s.calls[i].outcome == Outcome(true, MaxAttempts)
  {
    var readBacks: seq<Byte> := seq(4 * MaxAttempts, _ => 0xFF);
    var writes := StartupWrites(BuildConfig);
    assert forall j :: 0 <= j < 4 ==> writes[j].value < 0x20;
    RunWritesAllFail(writes, readBacks);
  }

  /** With the build-time settings the constructor writes (0x1A, 2),
      (0x1B, 0), (0x1C, 0), (0x6B, 1) and uses 131.0 LSB per deg/s and
      16384 LSB per g. */
  lemma BuildConfigStartup(readBacks: seq<Byte>)
    requires 4 * MaxAttempts <= |readBacks|
    ensures Construct(BuildConfig, readBacks).handle.gyroSensitivityTenths == 1310
    ensures Construct(BuildConfig, readBacks).handle.accelSensitivity == 16384
    ensures StartupWrites(BuildConfig) ==
      [RegWrite(0x1A, 2), RegWrite(0x1B, 0), RegWrite(0x1C, 0), RegWrite(0x6B, 1)]
  {
  }
}
