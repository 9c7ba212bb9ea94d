/** The watch's sensor values: the reading it stores and the event Android delivers. */
module WatchData {
  import opened Wrappers

  /** Sensor.TYPE_LINEAR_ACCELERATION. */
  const TypeLinearAcceleration: int := 10

  /** SensorReading(timestamp, x, y, z); the Float axes are reals here. */
  datatype SensorReading = SensorReading(timestamp: int, x: real, y: real, z: real)

  datatype Sensor = Sensor(sensorType: int)

  /** A SensorEvent: its sensor (absent for a null sensor) and its values array. */
  datatype SensorEvent = SensorEvent(sensor: Option<Sensor>, values: seq<real>)

  /** event?.sensor?.type == Sensor.TYPE_LINEAR_ACCELERATION. */
  predicate IsLinearAcceleration(event: Option<SensorEvent>)
  {
    event.Some? && event.value.sensor.Some? && event.value.sensor.value.sensorType == TypeLinearAcceleration
  }

  /** The reading built from values[0..2], stamped with the wall-clock time now. */
  function ReadingOf(event: SensorEvent, now: int): (r: SensorReading)
    requires |event.values| >= 3
    ensures r.timestamp == now && r.x == event.values[0] && r.y == event.values[1] && r.z == event.values[2]
  {
    SensorReading(now, event.values[0], event.values[1], event.values[2])
  }
}
