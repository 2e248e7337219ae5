/** The dashboard page's state and its MQTT message handler. The broker
    connection, the subscription and the teardown are transport plumbing and
    are not modelled: a message arrives as a call to `OnMessage`. */
module Page {
  import opened SensorLog

  datatype Option<T> = None | Some(value: T)

  /** The two fields the handler reads out of a decoded payload. */
  datatype Reading = Reading(temperature: Value, humidity: Value)

  /** The only topic whose messages the handler acts on. */
  const SensorTopic: string := "jetson/box/sensor"

  /** Whether the handler acts on a message at all: it must come on the sensor
      topic and its payload must decode. */
  predicate Accepts(topic: string, payload: Option<Reading>)
  {
    topic == SensorTopic && payload.Some?
  }

  /** The dashboard component's three state cells. */
  class Dashboard {
    var temperature: Value
    var humidity: Value
    var dataLog: seq<Entry>

    /** Every entry the handler has logged since the page was mounted, oldest
        first. */
    ghost var accepted: seq<Entry>

    /** The log is the newest entries of everything accepted, and the current
        readings are those of the newest accepted message (0 before any). */
    ghost predicate Valid()
      reads this
    {
      && dataLog == Newest(accepted, Capacity)
      && (if accepted == [] then temperature == 0 && humidity == 0
          else temperature == accepted[|accepted| - 1].temperature
               && humidity == accepted[|accepted| - 1].humidity)
    }

    /** The initial state: both readings 0 and an empty log. */
    constructor ()
      ensures Valid()
      ensures temperature == 0 && humidity == 0 && dataLog == [] && accepted == []
    {
      temperature, humidity, dataLog := 0, 0, [];
      accepted := [];
    }

    /** The handler for one message. `payload` is the outcome of decoding the
        message body (`None` when decoding fails) and `time` is the clock label
        given to a new log entry. */
    method OnMessage(topic: string, payload: Option<Reading>, time: Label)
      requires Valid()
      modifies this
      ensures Valid()
      ensures Accepts(topic, payload) ==>
        var e := Entry(time, payload.value.temperature, payload.value.humidity);
        && temperature == payload.value.temperature
        && humidity == payload.value.humidity
        && dataLog == AppendLog(old(dataLog), e)
        && accepted == old(accepted) + [e]
      ensures !Accepts(topic, payload) ==>
        && temperature == old(temperature)
        && humidity == old(humidity)
        && dataLog == old(dataLog)
        && accepted == old(accepted)
      ensures |dataLog| <= Capacity
      ensures dataLog != [] ==>
        && dataLog[|dataLog| - 1].temperature == temperature
        && dataLog[|dataLog| - 1].humidity == humidity
    {
      if topic == SensorTopic && payload.Some? {
        var e := Entry(time, payload.value.temperature, payload.value.humidity);
        temperature := payload.value.temperature;
        humidity := payload.value.humidity;
        UpdateLog(e);
      }
      // otherwise the message is ignored, or its body did not decode and the
      // error is only reported: nothing changes
    }

    /** The functional update of the log cell: appends `e` through
        `AppendLog`, so the log stays the newest entries of everything
        accepted. */
    method UpdateLog(e: Entry)
      requires dataLog == Newest(accepted, Capacity)
      modifies this`dataLog, this`accepted
      ensures dataLog == AppendLog(old(dataLog), e)
      ensures accepted == old(accepted) + [e]
      ensures dataLog == Newest(accepted, Capacity)
      ensures |dataLog| <= Capacity && dataLog[|dataLog| - 1] == e
    {
      AppendLogOfNewest(accepted, e);
      dataLog := AppendLog(dataLog, e);
      accepted := accepted + [e];
    }
  }
}
