/**
 * The test stub that stands in for the watch: the JSON readings and payloads it posts, the
 * timestamps and sample counts of a fake walk, and the clamped reaction time and sample
 * schedule of a fake reaction trial. The random draws (signal noise, the Gaussian reaction
 * time) and the wall clock are inputs.
 */
module WatchStub {
  import opened Wrappers
  import opened Json
  import opened Stats

  const SampleRateHz: int := 50
  /** int(1000 / 50). */
  const IntervalMs: int := 20
  const RtMinMs: real := 900.0
  const RtMaxMs: real := 4200.0

  /** make_sensor_reading: {"ts", "x", "y", "z"}. */
  function MakeSensorReading(timestampMs: int, x: real, y: real, z: real): (r: Value)
    ensures r.JObj? && r.fields.Keys == {"ts", "x", "y", "z"}
    ensures r.fields["ts"] == JInt(timestampMs)
    ensures r.fields["x"] == JReal(x) && r.fields["y"] == JReal(y) && r.fields["z"] == JReal(z)
  {
    JObj(map["ts" := JInt(timestampMs), "x" := JReal(x), "y" := JReal(y), "z" := JReal(z)])
  }

  /** An optional int as JSON: None becomes null. */
  function OptionalInt(v: Option<int>): Value
  {
    match v
    case None => JNull
    case Some(i) => JInt(i)
  }

  /** make_sensor_dto: {"metadata": {"stage", "trial", "memStep"}, "data": readings}; trial and memStep default to None. */
  function MakeSensorDto(stage: string, readings: seq<Value>, trial: Option<int> := None, memStep: Option<int> := None): (r: Value)
    ensures r.JObj? && r.fields.Keys == {"metadata", "data"}
    ensures r.fields["data"] == JArr(readings)
    ensures var m := r.fields["metadata"];
      && m.JObj? && m.fields.Keys == {"stage", "trial", "memStep"}
      && m.fields["stage"] == JStr(stage)
      && (m.fields["trial"] == JNull <==> trial.None?)
      && (trial.Some? ==> m.fields["trial"] == JInt(trial.value))
      && (m.fields["memStep"] == JNull <==> memStep.None?)
      && (memStep.Some? ==> m.fields["memStep"] == JInt(memStep.value))
  {
    JObj(map[
      "metadata" := JObj(map["stage" := JStr(stage), "trial" := OptionalInt(trial), "memStep" := OptionalInt(memStep)]),
      "data" := JArr(readings)])
  }

  /** Leaving trial and mem_step out gives null for both. */
  lemma DtoDefaults(stage: string, readings: seq<Value>)
    ensures MakeSensorDto(stage, readings).fields["metadata"].fields["trial"] == JNull
    ensures MakeSensorDto(stage, readings).fields["metadata"].fields["memStep"] == JNull
  {
  }

  // ---------------------------------------------------------------------------------
  // GaitSignalGenerator.generate

  /** np.linspace(0, d, n) raises for a negative sample count. */
  datatype StubError = NegativeSampleCount(n: int)

  /** The (x, y, z) values of each sample: the sine waves plus noise, drawn elsewhere. */
  type Signal = nat -> (real, real, real)

  /** int(duration_seconds * SAMPLE_RATE_HZ). */
  function GaitSampleCount(durationSeconds: real): int
  {
    Trunc(durationSeconds * SampleRateHz as real)
  }

  /** The readings of a walk of n samples starting at startMs. */
  function GaitReadings(n: nat, startMs: int, signal: Signal): (rs: seq<Value>)
    ensures |rs| == n
  {
    seq(n, i requires 0 <= i < n => MakeSensorReading(startMs + i * IntervalMs, signal(i).0, signal(i).1, signal(i).2))
  }

  function GaitSpec(durationSeconds: real, startMs: int, signal: Signal): Result<seq<Value>, StubError>
  {
    var n := GaitSampleCount(durationSeconds);
    if n < 0 then Err(NegativeSampleCount(n)) else Ok(GaitReadings(n, startMs, signal))
  }

  /** generate: one reading per sample, 20 ms apart from the start time. */
  method GenerateGait(durationSeconds: real, startMs: int, signal: Signal) returns (r: Result<seq<Value>, StubError>)
    ensures r == GaitSpec(durationSeconds, startMs, signal)
  {
    var nSamples := Trunc(durationSeconds * SampleRateHz as real);
    var intervalMs := 1000 / SampleRateHz;
    if nSamples < 0 {
      return Err(NegativeSampleCount(nSamples));
    }
    var readings: seq<Value> := [];
    var i := 0;
    while i < nSamples
      invariant 0 <= i <= nSamples
      invariant readings == GaitReadings(nSamples, startMs, signal)[..i]
    {
      var timestamp := startMs + i * intervalMs;
      var reading := MakeSensorReading(timestamp, signal(i).0, signal(i).1, signal(i).2);
      readings := readings + [reading];
      i := i + 1;
    }
    assert GaitReadings(nSamples, startMs, signal)[..nSamples] == GaitReadings(nSamples, startMs, signal);
    r := Ok(readings);
  }

  /** The reading is an object with an integer "ts". */
  predicate HasTs(reading: Value)
  {
    reading.JObj? && "ts" in reading.fields && reading.fields["ts"].JInt?
  }

  /** The "ts" of a reading. */
  function Ts(reading: Value): int
    requires HasTs(reading)
  {
    reading.fields["ts"].i
  }

  /** Sample i is stamped start + 20 i: strictly increasing, every gap 20 ms. */
  lemma GaitTimestamps(n: nat, startMs: int, signal: Signal)
    ensures forall i :: 0 <= i < n ==> HasTs(GaitReadings(n, startMs, signal)[i])
    ensures forall i :: 0 <= i < n ==> Ts(GaitReadings(n, startMs, signal)[i]) == startMs + 20 * i
    ensures forall i :: 0 <= i < n - 1 ==>
      Ts(GaitReadings(n, startMs, signal)[i + 1]) - Ts(GaitReadings(n, startMs, signal)[i]) == 20
    ensures forall i, j :: 0 <= i < j < n ==> Ts(GaitReadings(n, startMs, signal)[i]) < Ts(GaitReadings(n, startMs, signal)[j])
  {
    var rs := GaitReadings(n, startMs, signal);
    forall i | 0 <= i < n
      ensures HasTs(rs[i]) && Ts(rs[i]) == startMs + 20 * i
    {
      assert rs[i] == MakeSensorReading(startMs + i * IntervalMs, signal(i).0, signal(i).1, signal(i).2);
    }
  }

  /** A 30-second walk has 1500 readings and a 5-second one 250. */
  lemma GaitSampleCounts()
    ensures GaitSampleCount(30.0) == 1500 && GaitSampleCount(5.0) == 250
  {
  }

  /** A non-negative duration never fails, and a longer walk never has fewer samples. */
  lemma GaitSampleCountMonotone(d1: real, d2: real)
    requires 0.0 <= d1 <= d2
    ensures 0 <= GaitSampleCount(d1) <= GaitSampleCount(d2)
  {
  }

  // ---------------------------------------------------------------------------------
  // ReactionTimeGenerator.generate_trial

  /** max(RT_MIN_MS, min(RT_MAX_MS, rt_ms)). */
  function Clamp(rtMs: real): (r: real)
    ensures RtMinMs <= r <= RtMaxMs
    ensures RtMinMs <= rtMs <= RtMaxMs ==> r == rtMs
    ensures rtMs < RtMinMs ==> r == RtMinMs
    ensures rtMs > RtMaxMs ==> r == RtMaxMs
  {
    var upper := if RtMaxMs < rtMs then RtMaxMs else rtMs;
    if RtMinMs < upper then upper else RtMinMs
  }

  /** int((window_ms / 1000) * 50) with window_ms = RT_MAX_MS + 500. */
  function TrialSampleCount(): int
  {
    Trunc(((RtMaxMs + 500.0) / 1000.0) * SampleRateHz as real)
  }

  /** int((rt_ms / 1000) * 50): the sample at which the arm starts to move. */
  function MoveSample(rtMs: real): int
  {
    Trunc((rtMs / 1000.0) * SampleRateHz as real)
  }

  /** max(0.0, 1.0 - (i - rt_sample) / 50 * 0.3). */
  function Fade(i: int, rtSample: int): (f: real)
    ensures 0.0 <= f
    ensures i >= rtSample ==> f <= 1.0
  {
    var v := 1.0 - (i - rtSample) as real / SampleRateHz as real * 0.3;
    if 0.0 < v then v else 0.0
  }

  /** Sample i's values: the noise as drawn while at rest, the fading burst once the arm moves. */
  function TrialValues(i: nat, rtSample: int, draws: Signal): (real, real, real)
  {
    if i < rtSample then draws(i)
    else
      var fade := Fade(i, rtSample);
      (0.8 * fade * draws(i).0, 1.2 * fade * draws(i).1, 0.4 * fade * draws(i).2)
  }

  function TrialReadings(n: nat, stimulusTimeMs: int, rtSample: int, draws: Signal): (rs: seq<Value>)
    ensures |rs| == n
  {
    seq(n, i requires 0 <= i < n =>
      MakeSensorReading(stimulusTimeMs + i * IntervalMs, TrialValues(i, rtSample, draws).0,
        TrialValues(i, rtSample, draws).1, TrialValues(i, rtSample, draws).2))
  }

  /** The payload of one trial, for the clamped reaction time of the Gaussian draw. */
  function TrialPayload(trial: int, memStep: int, stimulusTimeMs: int, gauss: real, draws: Signal): Value
  {
    var rtMs := Clamp(gauss);
    MakeSensorDto("RT_TEST", TrialReadings(235, stimulusTimeMs, MoveSample(rtMs), draws), Some(trial), Some(memStep))
  }

  /** generate_trial: the payload and the reaction time (before rounding). */
  method GenerateTrial(trial: int, memStep: int, stimulusTimeMs: int, gauss: real, draws: Signal) returns (payload: Value, rtMs: real)
    ensures payload == TrialPayload(trial, memStep, stimulusTimeMs, gauss, draws)
    ensures rtMs == Clamp(gauss)
  {
    rtMs := gauss;
    rtMs := if RtMaxMs < rtMs then RtMaxMs else rtMs;
    rtMs := if RtMinMs < rtMs then rtMs else RtMinMs;
    var windowMs := RtMaxMs + 500.0;
    var nSamples := Trunc((windowMs / 1000.0) * SampleRateHz as real);
    var rtSample := Trunc((rtMs / 1000.0) * SampleRateHz as real);
    var intervalMs := 1000 / SampleRateHz;
    TrialSamples();
    assert nSamples == 235 && rtSample == MoveSample(Clamp(gauss)) && intervalMs == IntervalMs;
    var readings: seq<Value> := [];
    var i := 0;
    while i < nSamples
      invariant 0 <= i <= nSamples
      invariant readings == TrialReadings(235, stimulusTimeMs, rtSample, draws)[..i]
    {
      var ts := stimulusTimeMs + i * intervalMs;
      var x: real, y: real, z: real;
      if i < rtSample {
        x, y, z := draws(i).0, draws(i).1, draws(i).2;
      } else {
        var fade := Fade(i, rtSample);
        x := 0.8 * fade * draws(i).0;
        y := 1.2 * fade * draws(i).1;
        z := 0.4 * fade * draws(i).2;
        MovingValues(i, rtSample, draws, fade);
      }
      TrialReadingsNext(235, stimulusTimeMs, rtSample, draws, i);
      readings := readings + [MakeSensorReading(ts, x, y, z)];
      i := i + 1;
    }
    assert readings == TrialReadings(235, stimulusTimeMs, rtSample, draws);
    payload := MakeSensorDto("RT_TEST", readings, Some(trial), Some(memStep));
  }

  /** Sample i once the arm moves: the drawn noise scaled by the fade. */
  lemma MovingValues(i: nat, rtSample: int, draws: Signal, fade: real)
    requires i >= rtSample && fade == Fade(i, rtSample)
    ensures TrialValues(i, rtSample, draws).0 == 0.8 * fade * draws(i).0
    ensures TrialValues(i, rtSample, draws).1 == 1.2 * fade * draws(i).1
    ensures TrialValues(i, rtSample, draws).2 == 0.4 * fade * draws(i).2
  {
  }

  /** One more reading extends the prefix of the trial's readings. */
  lemma TrialReadingsNext(n: nat, stimulusTimeMs: int, rtSample: int, draws: Signal, i: nat)
    requires i < n
    ensures var rs := TrialReadings(n, stimulusTimeMs, rtSample, draws);
      rs[..i + 1] == rs[..i] + [MakeSensorReading(stimulusTimeMs + i * IntervalMs, TrialValues(i, rtSample, draws).0,
        TrialValues(i, rtSample, draws).1, TrialValues(i, rtSample, draws).2)]
  {
    var rs := TrialReadings(n, stimulusTimeMs, rtSample, draws);
    assert rs[..i + 1] == rs[..i] + [rs[i]];
  }

  /** The recording window holds 235 samples. */
  lemma TrialSamples()
    ensures TrialSampleCount() == 235
  {
    assert ((RtMaxMs + 500.0) / 1000.0) * SampleRateHz as real == 235.0;
  }

  /**
   * The trial payload: stage "RT_TEST" with the given trial and mem_step, 235 readings
   * stamped stimulus + 20 i, the first at the stimulus time.
   */
  lemma TrialPayloadShape(trial: int, memStep: int, stimulusTimeMs: int, gauss: real, draws: Signal)
    ensures var p := TrialPayload(trial, memStep, stimulusTimeMs, gauss, draws);
      && p.fields["metadata"].fields["stage"] == JStr("RT_TEST")
      && p.fields["metadata"].fields["trial"] == JInt(trial)
      && p.fields["metadata"].fields["memStep"] == JInt(memStep)
      && p.fields["data"].JArr? && |p.fields["data"].items| == 235
      && (forall i :: 0 <= i < 235 ==> HasTs(p.fields["data"].items[i]) && Ts(p.fields["data"].items[i]) == stimulusTimeMs + 20 * i)
      && HasTs(p.fields["data"].items[0]) && Ts(p.fields["data"].items[0]) == stimulusTimeMs
  {
  }

  /** The arm starts moving between samples 45 and 210, whatever the draw. */
  lemma MoveSampleBounds(gauss: real)
    ensures 45 <= MoveSample(Clamp(gauss)) <= 210
  {
    var rt := Clamp(gauss);
    assert (rt / 1000.0) * 50.0 == rt / 20.0;
  }

  /** At rest the values are the noise as drawn; from 167 samples after the movement on, the burst has faded to zero. */
  lemma TrialValuesPhases(i: nat, rtSample: int, draws: Signal)
    ensures i < rtSample ==> TrialValues(i, rtSample, draws) == draws(i)
    ensures i >= rtSample + 167 ==> TrialValues(i, rtSample, draws) == (0.0, 0.0, 0.0)
  {
    if i >= rtSample + 167 {
      assert (i - rtSample) as real / 50.0 * 0.3 >= 1.0;
      assert Fade(i, rtSample) == 0.0;
    }
  }
}
