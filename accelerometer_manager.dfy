/**
 * The watch's recording controller: a recording flag and the buffer of readings taken while
 * it is set. Registering and unregistering the sensor listener and logging are not modelled.
 */
module AccelerometerManagement {
  import opened Wrappers
  import opened WatchData

  class AccelerometerManager {
    /** isRecording. */
    var recording: bool
    /** _recordedData. */
    var buffer: seq<SensorReading>

    constructor ()
      ensures !recording && buffer == []
    {
      recording := false;
      buffer := [];
    }

    /** start: from idle, set the flag and empty the buffer; while recording, do nothing. */
    method Start()
      modifies this
      ensures old(recording) ==> recording && buffer == old(buffer)
      ensures !old(recording) ==> recording && buffer == []
    {
      if recording {
        return;
      }
      recording := true;
      buffer := [];
    }

    /** stop: clear the flag and keep the buffer; while idle, do nothing. */
    method Stop()
      modifies this
      ensures !recording && buffer == old(buffer)
    {
      if !recording {
        return;
      }
      recording := false;
    }

    /**
     * onSensorChanged: while recording, a linear-acceleration event appends one reading of
     * its first three values stamped now; any other event changes nothing.
     */
    method OnSensorChanged(event: Option<SensorEvent>, now: int)
      requires recording && IsLinearAcceleration(event) ==> |event.value.values| >= 3
      modifies this
      ensures recording == old(recording)
      ensures old(recording) && IsLinearAcceleration(event) ==> buffer == old(buffer) + [ReadingOf(event.value, now)]
      ensures !(old(recording) && IsLinearAcceleration(event)) ==> buffer == old(buffer)
    {
      if recording && IsLinearAcceleration(event) {
        buffer := buffer + [SensorReading(now, event.value.values[0], event.value.values[1], event.value.values[2])];
      }
    }

    /** isRunning. */
    function IsRunning(): (r: bool)
      reads this
      ensures r <==> recording
    {
      recording
    }

    /** recordedData: the buffer's contents. */
    function RecordedData(): (r: seq<SensorReading>)
      reads this
      ensures r == buffer
    {
      buffer
    }
  }
}
