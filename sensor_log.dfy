/** The rolling sensor log of the dashboard page. Every accepted reading is
    appended as an entry, and only the newest entries are kept, so that the
    chart shows a short moving history. */
module SensorLog {

  /** A temperature or humidity reading as decoded from a message. The page
      does no arithmetic on it, so any value type would do. */
  type Value = int

  /** The wall-clock label attached to an entry when it is logged. */
  type Label = string

  /** One row of the log. */
  datatype Entry = Entry(time: Label, temperature: Value, humidity: Value)

  /** The log never holds more than this many entries. */
  const Capacity: nat := 20

  /** How many earlier entries survive an append: the `19` of `slice(-19)`. */
  const Retained: nat := Capacity - 1

  function Min(a: int, b: int): int { if a <= b then a else b }

  function Max(a: int, b: int): int { if a <= b then b else a }

  /** The newest `n` elements of `s` (all of `s` when it is shorter), in their
      original order. This is the reference definition the log is judged by. */
  function Newest<T>(s: seq<T>, n: nat): seq<T>
  {
    s[|s| - Min(n, |s|)..]
  }

  /** The newest elements are at most `n` many, and when there are any the
      last of them is the last element of `s`. */
  lemma NewestLast<T>(s: seq<T>, n: nat)
    ensures |Newest(s, n)| == Min(n, |s|) <= n
    ensures 0 < n && s != [] ==> Newest(s, n)[|Newest(s, n)| - 1] == s[|s| - 1]
  {
  }

  /** JavaScript's one-argument `Array.prototype.slice(start)`: a negative
      start counts back from the end and is clamped at 0, a non-negative one is
      clamped at the length. */
  function Slice<T>(s: seq<T>, start: int): (r: seq<T>)
    ensures start < 0 ==> r == Newest(s, -start)
    ensures 0 <= start ==> |r| == |s| - Min(start, |s|) && r == s[|s| - |r|..]
  {
    var from := if start < 0 then Max(|s| + start, 0) else Min(start, |s|);
    s[from..]
  }

  /** The functional updater the message handler hands to the log's setter:
      keep the last `Retained` entries of the previous log and put the new
      entry after them. */
  function AppendLog(prev: seq<Entry>, e: Entry): (log: seq<Entry>)
    ensures |log| == Min(|prev| + 1, Capacity)
    ensures log[|log| - 1] == e
    ensures log[..|log| - 1] == Newest(prev, Retained)
  {
    Slice(prev, -(Retained as int)) + [e]
  }

  /** The new log is exactly the newest `Capacity` entries of the previous log
      followed by the new entry: a suffix of `prev + [e]`, in order. */
  lemma AppendLogIsSuffix(prev: seq<Entry>, e: Entry)
    ensures AppendLog(prev, e) == Newest(prev + [e], Capacity)
  {
  }

  /** While the log has room nothing is dropped: the entry is simply appended
      and the length grows by one. */
  lemma AppendLogNoDrop(prev: seq<Entry>, e: Entry)
    requires |prev| < Capacity
    ensures AppendLog(prev, e) == prev + [e]
    ensures |AppendLog(prev, e)| == |prev| + 1
  {
  }

  /** Once the log is full, each append drops exactly its oldest entry. */
  lemma AppendLogFull(prev: seq<Entry>, e: Entry)
    requires |prev| == Capacity
    ensures AppendLog(prev, e) == prev[1..] + [e]
  {
  }

  /** Appending to a log that already keeps the newest entries of a stream
      keeps the newest entries of the longer stream. */
  lemma AppendLogOfNewest(stream: seq<Entry>, e: Entry)
    ensures AppendLog(Newest(stream, Capacity), e) == Newest(stream + [e], Capacity)
  {
  }

  /** The log after the given entries were appended, in arrival order, to the
      initially empty log. */
  function Replay(stream: seq<Entry>): seq<Entry>
  {
    if stream == [] then []
    else AppendLog(Replay(stream[..|stream| - 1]), stream[|stream| - 1])
  }

  /** Over any stream of accepted readings, the log is the newest
      `min(Capacity, |stream|)` entries of the stream, in arrival order. */
  lemma {:induction false} ReplayIsNewest(stream: seq<Entry>)
    ensures Replay(stream) == Newest(stream, Capacity)
    ensures |Replay(stream)| == Min(Capacity, |stream|)
  {
    if stream != [] {
      var front := stream[..|stream| - 1];
      var e := stream[|stream| - 1];
      assert front + [e] == stream;
      assert Replay(stream) == AppendLog(Replay(front), e);
      ReplayIsNewest(front);
      AppendLogOfNewest(front, e);
    }
    assert |Newest(stream, Capacity)| == Min(Capacity, |stream|);
  }
}
