/** `Mpu6050MadgwickSolver`: owns the MPU6050 driver and the Madgwick
    filter, keeps the last raw readings and the calibration offsets, and
    feeds offset-corrected readings to the filter.

    The driver and the filter are libraries outside this model. Each is
    represented by a small class that records what it was asked to do and
    answers from a script fixed in advance: the driver's upcoming readings
    and bus answers, and the filter's one documented failure (an
    accelerometer vector of zero length). */
module ImuSolver {
  import opened Wrappers

  datatype Vec3 = Vec3(x: real, y: real, z: real) {
    function Add(o: Vec3): Vec3 {
      Vec3(x + o.x, y + o.y, z + o.z)
    }
    function Sub(o: Vec3): Vec3 {
      Vec3(x - o.x, y - o.y, z - o.z)
    }
    function Times(k: real): Vec3 {
      Vec3(k * x, k * y, k * z)
    }
    function Div(d: real): Vec3
      requires d != 0.0
    {
      Vec3(x / d, y / d, z / d)
    }
  }

  const ZERO: Vec3 := Vec3(0.0, 0.0, 0.0)

  /** One unit of gravity along the sensor's z axis. */
  const ONE_G_Z: Vec3 := Vec3(0.0, 0.0, 1.0)

  /** The offsets `new` starts with, before any calibration. */
  const DEFAULT_ACCEL_OFFSET: Vec3 := Vec3(0.059909668, -0.022489013, 0.07658446)
  const DEFAULT_GYRO_OFFSET: Vec3 := Vec3(0.11233792, -0.052522425, 0.006111393)

  /** `Mpu6050Error`: the bus transaction failed. */
  datatype SensorError = BusError

  /** `AhrsError`: the filter could not use the sample. */
  datatype FilterError = AccelerometerNormZero

  /** Configuration transactions the solver issues. */
  datatype Command =
    | Wake               // `Mpu6050::init`
    | GyroRange500       // `set_gyro_range(GyroRange::D500)`
    | AccelRange4G       // `set_accel_range(AccelRange::G4)`
    | WriteByte(register: bv8, value: bv8)
    | AccelHighPass5Hz   // `set_accel_hpf(ACCEL_HPF::_5)`

  /** The MPU6050 CONFIG register, which holds the low-pass filter setting. */
  const CONFIG_REGISTER: bv8 := 0x1A

  /** `dlpf_cfg & 0x07`: only the three low bits reach the register. */
  function DlpfValue(cfg: bv8): (v: bv8)
    ensures v <= 7
    ensures v == cfg % 8
    ensures cfg <= 7 ==> v == cfg
  {
    cfg & 0x07
  }

  /** The configuration `init` applies, in order: wake, gyro range ±500°/s,
      accelerometer range ±4 g, low-pass mode 2, accelerometer high-pass 5 Hz. */
  const INIT_SEQUENCE: seq<Command> :=
    [Wake, GyroRange500, AccelRange4G, WriteByte(CONFIG_REGISTER, 2), AccelHighPass5Hz]

  function Rest<T>(script: seq<T>): seq<T> {
    if script == [] then [] else script[1..]
  }

  function Drop<T>(script: seq<T>, n: nat): seq<T> {
    if n >= |script| then [] else script[n..]
  }

  /** The i-th scripted answer is a success (an exhausted script fails). */
  predicate Accepted(answers: seq<bool>, i: nat) {
    i < |answers| && answers[i]
  }

  predicate Present(readings: seq<Option<Vec3>>, i: nat) {
    i < |readings| && readings[i].Some?
  }

  /** How many of the first n transactions are issued when the first refused
      one ends the run (it is issued, then its error propagates). */
  function IssuedUntilRefusal(answers: seq<bool>, n: nat): (k: nat)
    ensures k <= n
  {
    if n == 0 then 0
    else if !Accepted(answers, 0) then 1
    else 1 + IssuedUntilRefusal(Rest(answers), n - 1)
  }

  /** The MPU6050 driver as seen by the solver. */
  class Mpu6050 {
    /** What the next accelerometer and gyroscope reads return, oldest first;
        `None` is a failed read, and so is any read past the end. */
    var accelReadings: seq<Option<Vec3>>
    var gyroReadings: seq<Option<Vec3>>
    /** Whether the next configuration transactions succeed, oldest first. */
    var busAnswers: seq<bool>
    /** Every configuration transaction issued, oldest first. */
    var commands: seq<Command>

    constructor (accel: seq<Option<Vec3>>, gyro: seq<Option<Vec3>>, answers: seq<bool>)
      ensures accelReadings == accel && gyroReadings == gyro && busAnswers == answers && commands == []
    {
      accelReadings, gyroReadings, busAnswers, commands := accel, gyro, answers, [];
    }

    /** `get_acc`. */
    method GetAcc() returns (r: Result<Vec3, SensorError>)
      modifies this`accelReadings
      ensures r.Ok? <==> Present(old(accelReadings), 0)
      ensures r.Ok? ==> r.value == old(accelReadings)[0].value
      ensures accelReadings == Rest(old(accelReadings))
    {
      if accelReadings != [] && accelReadings[0].Some? {
        r := Ok(accelReadings[0].value);
      } else {
        r := Err(BusError);
      }
      accelReadings := Rest(accelReadings);
    }

    /** `get_gyro`. */
    method GetGyro() returns (r: Result<Vec3, SensorError>)
      modifies this`gyroReadings
      ensures r.Ok? <==> Present(old(gyroReadings), 0)
      ensures r.Ok? ==> r.value == old(gyroReadings)[0].value
      ensures gyroReadings == Rest(old(gyroReadings))
    {
      if gyroReadings != [] && gyroReadings[0].Some? {
        r := Ok(gyroReadings[0].value);
      } else {
        r := Err(BusError);
      }
      gyroReadings := Rest(gyroReadings);
    }

    /** One configuration transaction (`init`, `set_*`, `write_byte`). */
    method Issue(c: Command) returns (r: Result<(), SensorError>)
      modifies this`busAnswers, this`commands
      ensures r.Ok? <==> Accepted(old(busAnswers), 0)
      ensures commands == old(commands) + [c]
      ensures busAnswers == Rest(old(busAnswers))
    {
      r := if busAnswers != [] && busAnswers[0] then Ok(()) else Err(BusError);
      commands := commands + [c];
      busAnswers := Rest(busAnswers);
    }
  }

  /** The Madgwick filter as seen by the solver. Its orientation estimate is
      floating-point numerics and is not modelled; it keeps the samples it
      was given. */
  class MadgwickFilter {
    const samplePeriod: real
    const beta: real
    /** Every (gyroscope, accelerometer) pair passed to `update_imu`. */
    var inputs: seq<(Vec3, Vec3)>

    constructor (samplePeriod: real, beta: real)
      ensures this.samplePeriod == samplePeriod && this.beta == beta && inputs == []
    {
      this.samplePeriod := samplePeriod;
      this.beta := beta;
      inputs := [];
    }

    /** `update_imu`: fails when the accelerometer vector cannot be normalised. */
    method UpdateImu(gyro: Vec3, accel: Vec3) returns (r: Result<(), FilterError>)
      modifies this
      ensures inputs == old(inputs) + [(gyro, accel)]
      ensures r.Err? <==> accel == ZERO
    {
      inputs := inputs + [(gyro, accel)];
      r := if accel == ZERO then Err(AccelerometerNormZero) else Ok(());
    }
  }

  /** Number of samples `calibration` averages. */
  const CALIBRATION_SAMPLES: nat := 100

  function SumVec(vs: seq<Vec3>): Vec3 {
    if vs == [] then ZERO else SumVec(vs[..|vs| - 1]).Add(vs[|vs| - 1])
  }

  function Mean(vs: seq<Vec3>): Vec3
    requires |vs| > 0
  {
    SumVec(vs).Div(|vs| as real)
  }

  /** The accelerometer offset calibration stores: the mean reading less
      one g on z (the sensor is assumed level and at rest). */
  function AccelBias(vs: seq<Vec3>): Vec3
    requires |vs| > 0
  {
    Mean(vs).Sub(ONE_G_Z)
  }

  /** Every one of the first n accelerometer and gyroscope reads succeeds. */
  predicate AllPresent(accel: seq<Option<Vec3>>, gyro: seq<Option<Vec3>>, n: nat) {
    && |accel| >= n && |gyro| >= n
    && forall i :: 0 <= i < n ==> accel[i].Some? && gyro[i].Some?
  }

  /** The values of the first n reads, all of which succeed. */
  function Samples(readings: seq<Option<Vec3>>, n: nat): (vs: seq<Vec3>)
    requires |readings| >= n && forall i :: 0 <= i < n ==> readings[i].Some?
    ensures |vs| == n && forall i :: 0 <= i < n ==> readings[i].Some? && vs[i] == readings[i].value
  {
    seq(n, i requires 0 <= i < n => readings[i].value)
  }

  /** The index of the first sample pair with a failed read, or n. */
  function FirstMissing(accel: seq<Option<Vec3>>, gyro: seq<Option<Vec3>>, n: nat): (i: nat)
    ensures i <= n
  {
    if n == 0 || !(Present(accel, 0) && Present(gyro, 0)) then 0
    else 1 + FirstMissing(Rest(accel), Rest(gyro), n - 1)
  }

  lemma {:induction false} FirstMissingAt(accel: seq<Option<Vec3>>, gyro: seq<Option<Vec3>>, n: nat, i: nat)
    requires i < n && AllPresent(accel, gyro, i)
    requires !(Present(accel, i) && Present(gyro, i))
    ensures FirstMissing(accel, gyro, n) == i
    decreases i
  {
    if i > 0 {
      assert Present(accel, 0) && Present(gyro, 0);
      forall j | 0 <= j <= i - 1
        ensures Present(Rest(accel), j) == Present(accel, j + 1)
        ensures Present(Rest(gyro), j) == Present(gyro, j + 1)
      {
      }
      FirstMissingAt(Rest(accel), Rest(gyro), n - 1, i - 1);
    }
  }

  class Mpu6050MadgwickSolver {
    const mpu: Mpu6050
    const filter: MadgwickFilter
    var accelRaw: Vec3
    var accelOffset: Vec3
    var gyroRaw: Vec3
    var gyroOffset: Vec3

    /** `new`: zero raw readings, the built-in offsets, a fresh filter. */
    constructor (mpu: Mpu6050, samplePeriod: real, beta: real)
      ensures this.mpu == mpu && fresh(filter)
      ensures filter.samplePeriod == samplePeriod && filter.beta == beta && filter.inputs == []
      ensures accelRaw == ZERO && gyroRaw == ZERO
      ensures accelOffset == DEFAULT_ACCEL_OFFSET && gyroOffset == DEFAULT_GYRO_OFFSET
    {
      this.mpu := mpu;
      filter := new MadgwickFilter(samplePeriod, beta);
      accelRaw := ZERO;
      accelOffset := DEFAULT_ACCEL_OFFSET;
      gyroRaw := ZERO;
      gyroOffset := DEFAULT_GYRO_OFFSET;
    }

    /** `set_dlpf_mode`: write the masked mode to the CONFIG register. */
    method SetDlpfMode(cfg: bv8) returns (r: Result<(), SensorError>)
      modifies mpu`busAnswers, mpu`commands
      ensures mpu.commands == old(mpu.commands) + [WriteByte(CONFIG_REGISTER, DlpfValue(cfg))]
      ensures mpu.busAnswers == Rest(old(mpu.busAnswers))
      ensures r.Ok? <==> Accepted(old(mpu.busAnswers), 0)
    {
      var value := DlpfValue(cfg);
      r := mpu.Issue(WriteByte(CONFIG_REGISTER, value));
    }

    /** `init`: the five configuration steps in order, stopping at the first
        failure and returning it. */
    method Init() returns (r: Result<(), SensorError>)
      modifies mpu`busAnswers, mpu`commands
      ensures var k := IssuedUntilRefusal(old(mpu.busAnswers), |INIT_SEQUENCE|);
              && mpu.commands == old(mpu.commands) + INIT_SEQUENCE[..k]
              && mpu.busAnswers == Drop(old(mpu.busAnswers), k)
      ensures r.Ok? <==> forall i :: 0 <= i < |INIT_SEQUENCE| ==> Accepted(old(mpu.busAnswers), i)
    {
      ghost var answers := mpu.busAnswers;
      ghost var n := |INIT_SEQUENCE|;
      r := mpu.Issue(Wake);
      if r.Err? {
        IssuedStopsAt(answers, n, 0);
        return;
      }
      assert mpu.busAnswers == Drop(answers, 1);
      r := mpu.Issue(GyroRange500);
      if r.Err? {
        IssuedStopsAt(answers, n, 1);
        return;
      }
      assert mpu.busAnswers == Drop(answers, 2);
      r := mpu.Issue(AccelRange4G);
      if r.Err? {
        IssuedStopsAt(answers, n, 2);
        return;
      }
      assert mpu.busAnswers == Drop(answers, 3);
      r := SetDlpfMode(2);
      if r.Err? {
        IssuedStopsAt(answers, n, 3);
        return;
      }
      assert mpu.busAnswers == Drop(answers, 4);
      r := mpu.Issue(AccelHighPass5Hz);
      if r.Err? {
        IssuedStopsAt(answers, n, 4);
        return;
      }
      IssuedAll(answers, n);
      r := Ok(());
    }

    /** `calibration`: read 100 accelerometer/gyroscope pairs; on the first
        failed read return its error with the offsets untouched, otherwise
        store the mean readings as offsets, the accelerometer's less 1 g on z. */
    method Calibration() returns (r: Result<(), SensorError>)
      modifies mpu`accelReadings, mpu`gyroReadings, this`accelOffset, this`gyroOffset
      ensures r.Ok? <==> AllPresent(old(mpu.accelReadings), old(mpu.gyroReadings), CALIBRATION_SAMPLES)
      ensures r.Ok? ==>
                && accelOffset == AccelBias(Samples(old(mpu.accelReadings), CALIBRATION_SAMPLES))
                && gyroOffset == Mean(Samples(old(mpu.gyroReadings), CALIBRATION_SAMPLES))
                && mpu.accelReadings == Drop(old(mpu.accelReadings), CALIBRATION_SAMPLES)
                && mpu.gyroReadings == Drop(old(mpu.gyroReadings), CALIBRATION_SAMPLES)
      ensures r.Err? ==>
                && accelOffset == old(accelOffset) && gyroOffset == old(gyroOffset)
                && var i := FirstMissing(old(mpu.accelReadings), old(mpu.gyroReadings), CALIBRATION_SAMPLES);
                   && mpu.accelReadings == Drop(old(mpu.accelReadings), i + 1)
                   && mpu.gyroReadings == Drop(old(mpu.gyroReadings), if Present(old(mpu.accelReadings), i) then i + 1 else i)
    {
      ghost var accel := mpu.accelReadings;
      ghost var gyro := mpu.gyroReadings;
      var accelSum := ZERO;
      var gyroSum := ZERO;
      var i := 0;
      while i < CALIBRATION_SAMPLES
        invariant 0 <= i <= CALIBRATION_SAMPLES
        invariant AllPresent(accel, gyro, i)
        invariant mpu.accelReadings == Drop(accel, i) && mpu.gyroReadings == Drop(gyro, i)
        invariant accelSum == SumVec(Samples(accel, i)) && gyroSum == SumVec(Samples(gyro, i))
        invariant accelOffset == old(accelOffset) && gyroOffset == old(gyroOffset)
      {
        assert Present(accel, i) <==> Present(mpu.accelReadings, 0);
        assert Present(gyro, i) <==> Present(mpu.gyroReadings, 0);
        DropStep(accel, i);
        DropStep(gyro, i);
        var a := mpu.GetAcc();
        if a.Err? {
          FirstMissingAt(accel, gyro, CALIBRATION_SAMPLES, i);
          return Err(a.error);
        }
        var g := mpu.GetGyro();
        if g.Err? {
          FirstMissingAt(accel, gyro, CALIBRATION_SAMPLES, i);
          return Err(g.error);
        }
        assert a.value == accel[i].value && g.value == gyro[i].value;
        assert Samples(accel, i + 1) == Samples(accel, i) + [a.value];
        assert Samples(gyro, i + 1) == Samples(gyro, i) + [g.value];
        accelSum := accelSum.Add(a.value);
        gyroSum := gyroSum.Add(g.value);
        i := i + 1;
      }
      var mean := accelSum.Div(CALIBRATION_SAMPLES as real);
      accelOffset := mean;
      accelOffset := accelOffset.(z := accelOffset.z - 1.0);
      gyroOffset := gyroSum.Div(CALIBRATION_SAMPLES as real);
      r := Ok(());
    }

    /** `get_data`: read the accelerometer, then the gyroscope, storing each
        reading as it arrives; a failed read returns its error at once, so a
        failed gyroscope read leaves the new accelerometer reading stored. */
    method GetData() returns (r: Result<(), SensorError>)
      modifies mpu`accelReadings, mpu`gyroReadings, this`accelRaw, this`gyroRaw
      ensures r.Ok? <==> Present(old(mpu.accelReadings), 0) && Present(old(mpu.gyroReadings), 0)
      ensures accelRaw == if Present(old(mpu.accelReadings), 0) then old(mpu.accelReadings)[0].value else old(accelRaw)
      ensures gyroRaw == if r.Ok? then old(mpu.gyroReadings)[0].value else old(gyroRaw)
      ensures mpu.accelReadings == Rest(old(mpu.accelReadings))
      ensures mpu.gyroReadings == if Present(old(mpu.accelReadings), 0) then Rest(old(mpu.gyroReadings)) else old(mpu.gyroReadings)
    {
      var a := mpu.GetAcc();
      if a.Err? {
        return Err(a.error);
      }
      accelRaw := a.value;
      var g := mpu.GetGyro();
      if g.Err? {
        return Err(g.error);
      }
      gyroRaw := g.value;
      r := Ok(());
    }

    /** `update`: hand the offset-corrected readings to the filter. */
    method Update() returns (r: Result<(), FilterError>)
      modifies filter
      ensures filter.inputs == old(filter.inputs) + [(gyroRaw.Sub(gyroOffset), accelRaw.Sub(accelOffset))]
      ensures r.Err? <==> accelRaw == accelOffset
    {
      var calibratedGyro := gyroRaw.Sub(gyroOffset);
      var calibratedAccel := accelRaw.Sub(accelOffset);
      r := filter.UpdateImu(calibratedGyro, calibratedAccel);
    }

    /** `get_accel_offset`. */
    method GetAccelOffset() returns (v: Vec3)
      ensures v == accelOffset
    {
      v := accelOffset;
    }

    /** `get_gyro_offset`. */
    method GetGyroOffset() returns (v: Vec3)
      ensures v == gyroOffset
    {
      v := gyroOffset;
    }
  }

  lemma DropStep<T>(script: seq<T>, i: nat)
    ensures Rest(Drop(script, i)) == Drop(script, i + 1)
  {
  }

  /** The first refusal, at index i, is the last transaction issued. */
  lemma {:induction false} IssuedStopsAt(answers: seq<bool>, n: nat, i: nat)
    requires i < n
    requires forall j :: 0 <= j < i ==> Accepted(answers, j)
    requires !Accepted(answers, i)
    ensures IssuedUntilRefusal(answers, n) == i + 1
    decreases i
  {
    if i > 0 {
      assert Accepted(answers, 0);
      forall j | 0 <= j < i - 1
        ensures Accepted(Rest(answers), j)
      {
        assert Accepted(answers, j + 1);
      }
      IssuedStopsAt(Rest(answers), n - 1, i - 1);
    }
  }

  /** With no refusal among the first n answers, all n are issued. */
  lemma {:induction false} IssuedAll(answers: seq<bool>, n: nat)
    requires forall j :: 0 <= j < n ==> Accepted(answers, j)
    ensures IssuedUntilRefusal(answers, n) == n
    decreases n
  {
    if n > 0 {
      assert Accepted(answers, 0);
      forall j | 0 <= j < n - 1
        ensures Accepted(Rest(answers), j)
      {
        assert Accepted(answers, j + 1);
      }
      IssuedAll(Rest(answers), n - 1);
    }
  }

  /** Each sample with an offset subtracted, as `update` corrects readings. */
  function Corrected(vs: seq<Vec3>, offset: Vec3): (cs: seq<Vec3>)
    ensures |cs| == |vs| && forall i :: 0 <= i < |vs| ==> cs[i] == vs[i].Sub(offset)
  {
    seq(|vs|, i requires 0 <= i < |vs| => vs[i].Sub(offset))
  }

  lemma {:induction false} SumCorrected(vs: seq<Vec3>, offset: Vec3)
    ensures SumVec(Corrected(vs, offset)) == SumVec(vs).Sub(offset.Times(|vs| as real))
    decreases |vs|
  {
    if vs != [] {
      var init := vs[..|vs| - 1];
      assert Corrected(vs, offset)[..|vs| - 1] == Corrected(init, offset);
      SumCorrected(init, offset);
    }
  }

  lemma DivShift(total: real, offset: real, n: real)
    requires n > 0.0
    ensures (total - n * offset) / n == total / n - offset
  {
    calc {
      (total - n * offset) / n;
      total / n - (n * offset) / n;
      { assert (n * offset) / n == offset; }
      total / n - offset;
    }
  }

  /** Correcting every sample by an offset moves their mean by that offset. */
  lemma MeanCorrected(vs: seq<Vec3>, offset: Vec3)
    requires |vs| > 0
    ensures Mean(Corrected(vs, offset)) == Mean(vs).Sub(offset)
  {
    var n := |vs| as real;
    var total := SumVec(vs);
    SumCorrected(vs, offset);
    DivShift(total.x, offset.x, n);
    DivShift(total.y, offset.y, n);
    DivShift(total.z, offset.z, n);
  }

  /** Subtracting the offsets calibration computes from the very samples it
      averaged leaves a mean accelerometer reading of exactly 1 g on z and a
      mean gyroscope reading of zero: the offsets remove the bias of the
      calibration window and nothing else. */
  lemma CalibratedWindowMean(accel: seq<Vec3>, gyro: seq<Vec3>)
    requires |accel| > 0 && |gyro| > 0
    ensures Mean(Corrected(accel, AccelBias(accel))) == ONE_G_Z
    ensures Mean(Corrected(gyro, Mean(gyro))) == ZERO
  {
    MeanCorrected(accel, AccelBias(accel));
    MeanCorrected(gyro, Mean(gyro));
  }

  lemma {:induction false} SumConstant(vs: seq<Vec3>, v: Vec3)
    requires forall i :: 0 <= i < |vs| ==> vs[i] == v
    ensures SumVec(vs) == v.Times(|vs| as real)
    decreases |vs|
  {
    if vs != [] {
      SumConstant(vs[..|vs| - 1], v);
    }
  }

  /** A sensor at rest and level during calibration: every sample reads the
      same accelerometer vector a and gyroscope vector g. The offsets are then
      a less 1 g on z and g, so that same reading is corrected to pure
      gravity on z and no rotation. */
  lemma StationaryCalibration(accel: seq<Vec3>, gyro: seq<Vec3>, a: Vec3, g: Vec3)
    requires |accel| > 0 && |gyro| > 0
    requires forall i :: 0 <= i < |accel| ==> accel[i] == a
    requires forall i :: 0 <= i < |gyro| ==> gyro[i] == g
    ensures AccelBias(accel) == a.Sub(ONE_G_Z) && Mean(gyro) == g
    ensures a.Sub(AccelBias(accel)) == ONE_G_Z && g.Sub(Mean(gyro)) == ZERO
  {
    SumConstant(accel, a);
    SumConstant(gyro, g);
  }
}
