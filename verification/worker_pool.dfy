/** A `ThreadPoolExecutor` fed by a main loop that keeps rewriting state
    its jobs read: the loop publishes one value per point (a folder, a
    parameter file, a freshly built binary) and queues that point's jobs;
    the pool starts queued jobs in order, each at some later moment. */
module WorkerPool {

  /** One run of the pool over `n` points: job `j` was queued by point
      `owners[j]`, and `started[j]` counts the points the main loop had
      published when it started. A job starts no earlier than the point
      that queued it, the pool starts jobs in the order they were queued,
      and the points queue their jobs in order. */
  predicate Schedule(owners: seq<nat>, started: seq<nat>, n: nat)
  {
    && |started| == |owners|
    && (forall j :: 0 <= j < |owners| ==> owners[j] < started[j] <= n)
    && (forall i, j :: 0 <= i < j < |owners| ==> owners[i] <= owners[j] && started[i] <= started[j])
  }

  /** What each job reads from the shared state when it starts: the value
      of the latest point published by then, whichever point queued it. */
  function ReadAtStart<T>(published: seq<T>, owners: seq<nat>, started: seq<nat>): (r: seq<T>)
    requires Schedule(owners, started, |published|)
    ensures |r| == |owners|
    ensures forall j :: 0 <= j < |owners| ==> r[j] == published[started[j] - 1]
  {
    seq(|owners|, j requires 0 <= j < |owners| => published[started[j] - 1])
  }

  /** The value captured when the job is queued, as an argument of
      `executor.submit`: every job reads its own point's. */
  function ReadAtQueue<T>(published: seq<T>, owners: seq<nat>): (r: seq<T>)
    requires forall j :: 0 <= j < |owners| ==> owners[j] < |published|
    ensures |r| == |owners|
    ensures forall j :: 0 <= j < |owners| ==> r[j] == published[owners[j]]
  {
    seq(|owners|, j requires 0 <= j < |owners| => published[owners[j]])
  }

  /** The two readings agree on a run exactly when no job sees the value
      change between its own point and the point reached when it starts;
      in particular when every job starts before the loop moves on. */
  lemma ReadAtStartAgrees<T>(published: seq<T>, owners: seq<nat>, started: seq<nat>)
    requires Schedule(owners, started, |published|)
    ensures ReadAtStart(published, owners, started) == ReadAtQueue(published, owners)
      <==> forall j :: 0 <= j < |owners| ==> published[started[j] - 1] == published[owners[j]]
    ensures (forall j :: 0 <= j < |owners| ==> started[j] == owners[j] + 1) ==>
      ReadAtStart(published, owners, started) == ReadAtQueue(published, owners)
  {
    var a, b := ReadAtStart(published, owners, started), ReadAtQueue(published, owners);
    if a == b {
      forall j | 0 <= j < |owners|
        ensures published[started[j] - 1] == published[owners[j]]
      {
        assert a[j] == b[j];
      }
    }
  }

  /** Two points whose values differ, the first queueing one job that
      starts only after the second was published: the job reads the
      second point's value. */
  lemma StaleRead<T>(a: T, b: T)
    requires a != b
    ensures Schedule([0, 1], [2, 2], 2)
    ensures ReadAtStart([a, b], [0, 1], [2, 2]) == [b, b]
    ensures ReadAtQueue([a, b], [0, 1]) == [a, b]
  {
  }
}
