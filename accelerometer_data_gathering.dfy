/**
 * The older recording screen: a toggle that starts and stops recording, a listener that
 * buffers readings and shows the latest values, and a buffer emptied when recording stops.
 * The on-screen texts are fields; the sensor values shown are kept as numbers.
 */
module AccelerometerGathering {
  import opened Wrappers
  import opened WatchData

  const StatusRecording: string := "Status: Recording..."
  const StatusIdle: string := "Status: idle..."

  class AccelerometerDataGathering {
    var recording: bool
    var recordedData: seq<SensorReading>
    /** status.text. */
    var statusText: string
    /** The numbers shown by accelX, accelY and accelZ. */
    var shownX: real
    var shownY: real
    var shownZ: real

    constructor ()
      ensures !recording && recordedData == []
    {
      recording := false;
      recordedData := [];
      statusText := "";
      shownX, shownY, shownZ := 0.0, 0.0, 0.0;
    }

    /**
     * toggleClick: from idle, start recording and keep the buffer; while recording, stop,
     * show zeros and the idle status, and empty the buffer.
     */
    method ToggleClick()
      modifies this
      ensures !old(recording) ==>
        && recording && recordedData == old(recordedData) && statusText == StatusRecording
        && shownX == old(shownX) && shownY == old(shownY) && shownZ == old(shownZ)
      ensures old(recording) ==>
        && !recording && recordedData == [] && statusText == StatusIdle
        && shownX == 0.0 && shownY == 0.0 && shownZ == 0.0
    {
      if !recording {
        recording := true;
        statusText := StatusRecording;
      } else {
        recording := false;
        statusText := StatusIdle;
        shownX, shownY, shownZ := 0.0, 0.0, 0.0;
        HandleFinishedRecording();
      }
    }

    /** handleFinishedRecording: empty the buffer (the logging is not modelled). */
    method HandleFinishedRecording()
      modifies this
      ensures recordedData == []
      ensures recording == old(recording) && statusText == old(statusText)
      ensures shownX == old(shownX) && shownY == old(shownY) && shownZ == old(shownZ)
    {
      recordedData := [];
    }

    /**
     * The listener's onSensorChanged: while recording, a linear-acceleration event appends one
     * reading and shows its values; anything else changes nothing.
     */
    method OnSensorChanged(event: Option<SensorEvent>, now: int)
      requires recording && IsLinearAcceleration(event) ==> |event.value.values| >= 3
      modifies this
      ensures recording == old(recording) && statusText == old(statusText)
      ensures old(recording) && IsLinearAcceleration(event) ==>
        && recordedData == old(recordedData) + [ReadingOf(event.value, now)]
        && shownX == event.value.values[0] && shownY == event.value.values[1] && shownZ == event.value.values[2]
      ensures !(old(recording) && IsLinearAcceleration(event)) ==>
        recordedData == old(recordedData) && shownX == old(shownX) && shownY == old(shownY) && shownZ == old(shownZ)
    {
      if event.Some? {
        var it := event.value;
        if recording && it.sensor.Some? && it.sensor.value.sensorType == TypeLinearAcceleration {
          var x := it.values[0];
          var y := it.values[1];
          var z := it.values[2];
          var reading := SensorReading(now, x, y, z);
          recordedData := recordedData + [reading];
          shownX, shownY, shownZ := x, y, z;
        }
      }
    }
  }

  /** Two clicks from idle: recording starts and stops again, leaving the screen idle with an empty buffer. */
  method ToggleTwiceFromIdle(g: AccelerometerDataGathering)
    requires !g.recording
    modifies g
    ensures !g.recording && g.recordedData == [] && g.statusText == StatusIdle
  {
    g.ToggleClick();
    g.ToggleClick();
  }
}
