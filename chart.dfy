/** The chart the dashboard draws from its log: one label per entry and one
    data series per metric. Colours and series captions are presentation and
    are not part of this model. */
module Chart {
  import opened SensorLog

  /** What the line chart receives: the x-axis labels and the temperature and
      humidity series. */
  datatype ChartData = ChartData(labels: seq<Label>, temperatures: seq<Value>, humidities: seq<Value>)

  /** JavaScript's `Array.prototype.map`: `f` applied to every element, in
      order. */
  function Map<A, B>(f: A -> B, s: seq<A>): (r: seq<B>)
    ensures |r| == |s|
    ensures forall i :: 0 <= i < |s| ==> r[i] == f(s[i])
  {
    if s == [] then [] else [f(s[0])] + Map(f, s[1..])
  }

  /** The projection of the log the chart is drawn from. */
  function ChartOf(log: seq<Entry>): (c: ChartData)
    ensures |c.labels| == |c.temperatures| == |c.humidities| == |log|
    ensures forall i :: 0 <= i < |log| ==>
              c.labels[i] == log[i].time
              && c.temperatures[i] == log[i].temperature
              && c.humidities[i] == log[i].humidity
  {
    ChartData(
      Map((e: Entry) => e.time, log),
      Map((e: Entry) => e.temperature, log),
      Map((e: Entry) => e.humidity, log))
  }

  /** Whether the three sequences of a chart line up point by point. */
  predicate Aligned(c: ChartData)
  {
    |c.labels| == |c.temperatures| == |c.humidities|
  }

  /** The log entries a chart shows, read back point by point. */
  function Rows(c: ChartData): (log: seq<Entry>)
    requires Aligned(c)
    ensures |log| == |c.labels|
  {
    seq(|c.labels|, i requires 0 <= i < |c.labels| =>
      Entry(c.labels[i], c.temperatures[i], c.humidities[i]))
  }

  /** The chart loses nothing of the log: reading its points back gives the
      log itself, in order. */
  lemma ChartRoundTrip(log: seq<Entry>)
    ensures Aligned(ChartOf(log))
    ensures Rows(ChartOf(log)) == log
  {
  }

  /** After a reading is logged, the chart's newest point shows that reading,
      and the chart never shows more than `Capacity` points. */
  lemma ChartAfterAppend(prev: seq<Entry>, e: Entry)
    ensures var c := ChartOf(AppendLog(prev, e));
      && 1 <= |c.labels| <= Capacity
      && c.labels[|c.labels| - 1] == e.time
      && c.temperatures[|c.temperatures| - 1] == e.temperature
      && c.humidities[|c.humidities| - 1] == e.humidity
  {
  }
}
