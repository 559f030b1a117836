/** The job queue as a step system: one thread queues jobs and waits for them, n workers run them.
    A step is a critical section, the running of a job, or a wake-up; wake-ups may also come for no
    reason. Jobs are numbered in the order they are queued. */
module TaskDispatch {

  datatype WorkerPc = AtLoop | Sleeping | Running(job: int) | Ran | Exited

  /** What the queuing thread is doing. A waiting Sync goes on once it is woken. */
  datatype MainPc = Ready | Helping(job: int) | Helped | Waiting(woken: bool) | Exiting | Joining | Gone

  datatype Place = Queued | AtWorker(i: int) | AtMain | Finished

  /** The shared fields, the threads, and records for the proof: where each job is, how often each was
      run, and how many jobs the last finished Sync has waited for. */
  datatype Dispatch = Dispatch(queue: seq<int>, jobs: int, exit: bool, workers: seq<WorkerPc>, main: MainPc,
                               places: seq<Place>, runs: seq<int>, synced: int)

  datatype Event =
    | Queue(wake: int)
    | Sync
    | HelpRun
    | HelpNext
    | SyncWake
    | SyncCheck
    | SetExit
    | NotifyAll
    | Join
    | Loop(i: int)
    | Wake(i: int)
    | Run(i: int)
    | Finish(i: int)

  function Start(n: nat): Dispatch {
    Dispatch([], 0, false, seq(n, _ => AtLoop), Ready, [], [], 0)
  }

  ghost predicate IsAt(d: Dispatch, i: int, pc: WorkerPc) {
    0 <= i < |d.workers| && d.workers[i] == pc
  }

  ghost predicate Enabled(d: Dispatch, e: Event) {
    match e
    case Queue(wake) => d.main == Ready && (IsAt(d, wake, Sleeping) || (wake == -1 && Sleeping !in d.workers))
    case Sync => d.main == Ready
    case HelpRun => d.main.Helping? && 0 <= d.main.job < |d.places| == |d.runs|
    case HelpNext => d.main == Helped
    case SyncWake => d.main.Waiting?
    case SyncCheck => d.main == Waiting(true)
    case SetExit => d.main == Ready
    case NotifyAll => d.main == Exiting
    case Join => d.main == Joining && forall i :: 0 <= i < |d.workers| ==> d.workers[i] == Exited
    case Loop(i) => IsAt(d, i, AtLoop)
    case Wake(i) => IsAt(d, i, Sleeping)
    case Run(i) => 0 <= i < |d.workers| && d.workers[i].Running? && 0 <= d.workers[i].job < |d.places| == |d.runs|
    case Finish(i) => IsAt(d, i, Ran)
  }

  /** The last queued job, taken off the queue and put somewhere. */
  function Popped(d: Dispatch, to: Place): Dispatch
    requires d.queue != [] && 0 <= d.queue[|d.queue| - 1] < |d.places|
  {
    var last := |d.queue| - 1;
    d.(queue := d.queue[..last], places := d.places[d.queue[last] := to])
  }

  /** One round of the loop in Sync, which holds the lock: take a job, wait, or return. */
  function SyncLoop(d: Dispatch): Dispatch
    requires d.queue != [] ==> 0 <= d.queue[|d.queue| - 1] < |d.places|
  {
    if d.queue != [] then Popped(d, AtMain).(main := Helping(d.queue[|d.queue| - 1])) else SyncWait(d)
  }

  function SyncWait(d: Dispatch): Dispatch {
    if d.jobs == 0 then d.(main := Ready, synced := |d.places|) else d.(main := Waiting(false))
  }

  function WorkerLoop(d: Dispatch, i: int): Dispatch
    requires 0 <= i < |d.workers| && (d.queue != [] ==> 0 <= d.queue[|d.queue| - 1] < |d.places|)
  {
    if d.exit then d.(workers := d.workers[i := Exited])
    else if d.queue != [] then
      Popped(d, AtWorker(i)).(workers := d.workers[i := Running(d.queue[|d.queue| - 1])], jobs := d.jobs + 1)
    else d.(workers := d.workers[i := Sleeping])
  }

  function JobDone(d: Dispatch, job: int): Dispatch
    requires 0 <= job < |d.places| == |d.runs|
  {
    d.(places := d.places[job := Finished], runs := d.runs[job := d.runs[job] + 1])
  }

  /** A new job, and one sleeping worker notified, if there is one. */
  function AddJob(d: Dispatch, wake: int): Dispatch
    requires wake < |d.workers|
  {
    d.(queue := d.queue + [|d.places|], places := d.places + [Queued], runs := d.runs + [0],
       workers := if wake < 0 then d.workers else d.workers[wake := AtLoop])
  }

  function WorkerRun(d: Dispatch, i: int): Dispatch
    requires 0 <= i < |d.workers| && d.workers[i].Running? && 0 <= d.workers[i].job < |d.places| == |d.runs|
  {
    JobDone(d, d.workers[i].job).(workers := d.workers[i := Ran])
  }

  function WorkerFinish(d: Dispatch, i: int): Dispatch
    requires 0 <= i < |d.workers|
  {
    var notify := d.jobs - 1 == 0 && d.queue == [];
    d.(jobs := d.jobs - 1, workers := d.workers[i := AtLoop],
       main := if notify && d.main.Waiting? then Waiting(true) else d.main)
  }

  function Woken(w: WorkerPc): WorkerPc {
    if w == Sleeping then AtLoop else w
  }

  ghost function Step(d: Dispatch, e: Event): Dispatch
    requires Enabled(d, e) && (d.queue != [] ==> 0 <= d.queue[|d.queue| - 1] < |d.places|)
  {
    match e
    case Queue(wake) => AddJob(d, wake)
    case Sync => SyncLoop(d)
    case HelpRun => JobDone(d, d.main.job).(main := Helped)
    case HelpNext => SyncLoop(d)
    case SyncWake => d.(main := Waiting(true))
    case SyncCheck => SyncWait(d)
    case SetExit => d.(exit := true, main := Exiting)
    case NotifyAll => d.(workers := seq(|d.workers|, i requires 0 <= i < |d.workers| => Woken(d.workers[i])), main := Joining)
    case Join => d.(main := Gone)
    case Loop(i) => WorkerLoop(d, i)
    case Wake(i) => d.(workers := d.workers[i := AtLoop])
    case Run(i) => WorkerRun(d, i)
    case Finish(i) => WorkerFinish(d, i)
  }

  ghost function Busy(workers: seq<WorkerPc>): set<int> {
    set i | 0 <= i < |workers| && (workers[i].Running? || workers[i].Ran?)
  }

  /** The queue lists exactly the queued jobs, each once. */
  ghost predicate QueueOk(d: Dispatch) {
    && (forall k :: 0 <= k < |d.queue| ==> 0 <= d.queue[k] < |d.places| && d.places[d.queue[k]] == Queued)
    && (forall k, m :: 0 <= k < m < |d.queue| ==> d.queue[k] != d.queue[m])
    && (forall j :: 0 <= j < |d.places| && d.places[j] == Queued ==> j in d.queue)
  }

  /** Whoever runs a job is where the job is, and the other way round. */
  ghost predicate Holders(d: Dispatch) {
    && (forall i :: 0 <= i < |d.workers| && d.workers[i].Running? ==>
          0 <= d.workers[i].job < |d.places| && d.places[d.workers[i].job] == AtWorker(i))
    && (d.main.Helping? ==> 0 <= d.main.job < |d.places| && d.places[d.main.job] == AtMain)
    && (forall j :: 0 <= j < |d.places| && d.places[j].AtWorker? ==> IsAt(d, d.places[j].i, Running(j)))
    && (forall j :: 0 <= j < |d.places| && d.places[j] == AtMain ==> d.main == Helping(j))
  }

  /** A job has been run once if it is finished and not at all before that. */
  ghost predicate RunsOk(d: Dispatch) {
    && |d.runs| == |d.places|
    && forall j :: 0 <= j < |d.places| ==> d.runs[j] == if d.places[j] == Finished then 1 else 0
  }

  ghost predicate SyncOk(d: Dispatch) {
    && 0 <= d.synced <= |d.places| && forall j :: 0 <= j < d.synced ==> d.places[j] == Finished
  }

  ghost predicate Waits(d: Dispatch) {
    && d.jobs == |Busy(d.workers)|
    && (d.main.Waiting? ==> d.queue == []) && (d.main == Waiting(false) ==> d.jobs > 0)
    && (d.exit <==> d.main.Exiting? || d.main.Joining? || d.main.Gone?)
    && (Exited in d.workers ==> d.exit)
    && (d.main.Joining? || d.main.Gone? ==> Sleeping !in d.workers)
    && (d.queue != [] && !d.exit && |d.workers| > 0 ==> exists i :: 0 <= i < |d.workers| && d.workers[i] != Sleeping)
  }

  ghost predicate Inv(d: Dispatch) {
    QueueOk(d) && Holders(d) && RunsOk(d) && SyncOk(d) && Waits(d)
  }

  predicate IsBusy(w: WorkerPc) {
    w.Running? || w.Ran?
  }

  lemma BusyChanged(workers: seq<WorkerPc>, i: int, w: WorkerPc)
    requires 0 <= i < |workers|
    ensures |Busy(workers[i := w])| == |Busy(workers)| + (if IsBusy(w) then 1 else 0) - if IsBusy(workers[i]) then 1 else 0
  {
    var before, after := Busy(workers), Busy(workers[i := w]);
    assert before - {i} == after - {i};
    assert i in before <==> IsBusy(workers[i]);
    assert i in after <==> IsBusy(w);
    assert |before| == |before - {i}| + if i in before then 1 else 0;
    assert |after| == |after - {i}| + if i in after then 1 else 0;
  }

  lemma SomeoneBusy(workers: seq<WorkerPc>) returns (i: int)
    requires |Busy(workers)| > 0
    ensures 0 <= i < |workers| && IsBusy(workers[i])
  {
    i :| i in Busy(workers);
  }

  lemma NobodyBusy(workers: seq<WorkerPc>, i: int)
    requires |Busy(workers)| == 0 && 0 <= i < |workers|
    ensures !IsBusy(workers[i])
  {
    assert i !in Busy(workers);
  }

  lemma StartInv(n: nat)
    ensures Inv(Start(n))
  {
    assert Busy(Start(n).workers) == {};
  }

  lemma AddedQueue(d: Dispatch, wake: int)
    requires QueueOk(d) && wake < |d.workers|
    ensures QueueOk(AddJob(d, wake))
  {
    var v := AddJob(d, wake);
    assert v.queue[|d.queue|] == |d.places|;
    forall j | 0 <= j < |v.places| && v.places[j] == Queued
      ensures j in v.queue
    {
      assert j < |d.places| ==> j in d.queue;
    }
  }

  lemma AddedHolders(d: Dispatch, wake: int)
    requires Holders(d) && RunsOk(d) && SyncOk(d) && wake < |d.workers| && (wake >= 0 ==> d.workers[wake] == Sleeping)
    ensures var v := AddJob(d, wake); Holders(v) && RunsOk(v) && SyncOk(v)
  {
  }

  /** Adding a job keeps everything in place. */
  lemma QueueStep(d: Dispatch, wake: int)
    requires Inv(d) && Enabled(d, Queue(wake))
    ensures Inv(AddJob(d, wake))
  {
    hide QueueOk, Holders, RunsOk, SyncOk, Busy;
    var v := AddJob(d, wake);
    AddedQueue(d, wake);
    AddedHolders(d, wake);
    if wake >= 0 {
      BusyChanged(d.workers, wake, AtLoop);
      assert v.workers[wake] != Sleeping;
    }
    if wake < 0 && |d.workers| > 0 {
      assert d.workers[0] in d.workers && d.workers[0] != Sleeping;
    }
  }

  /** Taking the last job off the queue leaves the rest of it in order. */
  lemma PoppedQueue(d: Dispatch, to: Place)
    requires QueueOk(d) && d.queue != [] && to != Queued
    ensures QueueOk(Popped(d, to))
    ensures d.places[d.queue[|d.queue| - 1]] == Queued
  {
    var v := Popped(d, to);
    var last := |d.queue| - 1;
    forall j | 0 <= j < |v.places| && v.places[j] == Queued
      ensures j in v.queue
    {
      assert j in d.queue && j != d.queue[last];
      var k :| 0 <= k < |d.queue| && d.queue[k] == j;
      assert v.queue[k] == j;
    }
  }

  lemma SyncLoopStep(d: Dispatch)
    requires Inv(d) && (d.main == Ready || d.main == Helped)
    ensures Inv(SyncLoop(d))
    ensures SyncLoop(d).main == Ready ==> SyncLoop(d).synced == |d.places|
  {
    if d.queue != [] {
      PoppedQueue(d, AtMain);
    } else {
      SyncWaitStep(d);
    }
  }

  /** With an empty queue, no job at a worker and none at the queuing thread, all are finished. */
  lemma SyncWaitStep(d: Dispatch)
    requires Inv(d) && d.queue == [] && (d.main == Ready || d.main == Helped || d.main.Waiting?)
    ensures Inv(SyncWait(d))
    ensures SyncWait(d).main == Ready ==> SyncWait(d).synced == |d.places|
  {
    if d.jobs == 0 {
      forall j | 0 <= j < |d.places|
        ensures d.places[j] == Finished
      {
        if d.places[j].AtWorker? {
          NobodyBusy(d.workers, d.places[j].i);
        }
      }
    }
  }

  lemma LoopPlaces(d: Dispatch, i: int)
    requires QueueOk(d) && Holders(d) && RunsOk(d) && SyncOk(d) && 0 <= i < |d.workers| && d.workers[i] == AtLoop
    ensures var v := WorkerLoop(d, i); QueueOk(v) && Holders(v) && RunsOk(v) && SyncOk(v)
  {
    var v := WorkerLoop(d, i);
    if !d.exit && d.queue != [] {
      PoppedQueue(d, AtWorker(i));
      assert QueueOk(v);
    }
    hide QueueOk;
  }

  lemma LoopStep(d: Dispatch, i: int)
    requires Inv(d) && Enabled(d, Loop(i))
    ensures Inv(WorkerLoop(d, i))
  {
    hide Holders, RunsOk, SyncOk, Busy;
    var v := WorkerLoop(d, i);
    LoopPlaces(d, i);
    hide QueueOk;
    BusyChanged(d.workers, i, v.workers[i]);
    if !d.exit && d.queue != [] {
      assert v.workers[i] != Sleeping;
    }
    assert forall k :: 0 <= k < |v.workers| && k != i ==> v.workers[k] == d.workers[k];
  }

  lemma JobDoneStep(d: Dispatch, job: int)
    requires QueueOk(d) && RunsOk(d) && SyncOk(d) && 0 <= job < |d.places| && d.places[job] != Queued && d.places[job] != Finished
    ensures var v := JobDone(d, job); QueueOk(v) && RunsOk(v) && SyncOk(v)
  {
  }

  lemma RunHolders(d: Dispatch, i: int)
    requires Holders(d) && RunsOk(d) && 0 <= i < |d.workers| && d.workers[i].Running?
    ensures 0 <= d.workers[i].job < |d.places| && d.places[d.workers[i].job] == AtWorker(i)
    ensures Holders(WorkerRun(d, i))
  {
  }

  lemma RunStep(d: Dispatch, i: int)
    requires Inv(d) && Enabled(d, Run(i))
    ensures Inv(WorkerRun(d, i))
  {
    hide Holders, Busy;
    var v := WorkerRun(d, i);
    RunHolders(d, i);
    BusyChanged(d.workers, i, Ran);
    JobDoneStep(d, d.workers[i].job);
    assert v.workers[i] != Sleeping;
    assert forall k :: 0 <= k < |v.workers| && k != i ==> v.workers[k] == d.workers[k];
  }

  /** The worker that finishes last wakes a waiting Sync. */
  lemma FinishStep(d: Dispatch, i: int)
    requires Inv(d) && Enabled(d, Finish(i))
    ensures Inv(WorkerFinish(d, i))
    ensures d.main.Waiting? && WorkerFinish(d, i).jobs == 0 ==> WorkerFinish(d, i).main == Waiting(true)
  {
    var v := WorkerFinish(d, i);
    BusyChanged(d.workers, i, AtLoop);
    assert v.workers[i] != Sleeping;
    assert forall k :: 0 <= k < |v.workers| && k != i ==> v.workers[k] == d.workers[k];
  }

  lemma WakeStep(d: Dispatch, i: int)
    requires Inv(d) && Enabled(d, Wake(i))
    ensures Inv(Step(d, Wake(i)))
  {
    var v := Step(d, Wake(i));
    BusyChanged(d.workers, i, AtLoop);
    assert v.workers[i] != Sleeping;
    assert forall k :: 0 <= k < |v.workers| && k != i ==> v.workers[k] == d.workers[k];
  }

  lemma NotifyAllStep(d: Dispatch)
    requires Inv(d) && Enabled(d, NotifyAll)
    ensures Inv(Step(d, NotifyAll))
  {
    var v := Step(d, NotifyAll);
    assert forall k :: 0 <= k < |v.workers| ==> v.workers[k] == Woken(d.workers[k]);
    assert Busy(v.workers) == Busy(d.workers);
  }

  lemma MainStep(d: Dispatch, e: Event)
    requires Inv(d) && Enabled(d, e) && (e.HelpRun? || e.SyncWake? || e.SetExit? || e.Join?)
    ensures Inv(Step(d, e))
  {
    hide Busy;
    if e.HelpRun? {
      JobDoneStep(d, d.main.job);
    }
  }

  lemma StepKeepsInv(d: Dispatch, e: Event)
    requires Inv(d) && Enabled(d, e)
    ensures Inv(Step(d, e))
  {
    hide Inv, AddJob, SyncLoop, SyncWait, WorkerLoop, WorkerRun, WorkerFinish, JobDone;
    match e
    case Queue(wake) => QueueStep(d, wake);
    case Sync => SyncLoopStep(d);
    case HelpRun => MainStep(d, e);
    case HelpNext => SyncLoopStep(d);
    case SyncWake => MainStep(d, e);
    case SyncCheck => WaitingQueue(d); SyncWaitStep(d);
    case SetExit => MainStep(d, e);
    case NotifyAll => NotifyAllStep(d);
    case Join => MainStep(d, e);
    case Loop(i) => LoopStep(d, i);
    case Wake(i) => WakeStep(d, i);
    case Run(i) => RunStep(d, i);
    case Finish(i) => FinishStep(d, i);
  }

  lemma WaitingQueue(d: Dispatch)
    requires Inv(d) && d.main.Waiting?
    ensures d.queue == []
  {
  }

  /** The events can happen one after the other. */
  ghost predicate Runnable(d: Dispatch, events: seq<Event>)
    decreases |events|
  {
    events == [] || (Poppable(d) && Enabled(d, events[0]) && Runnable(Step(d, events[0]), events[1..]))
  }

  ghost predicate Poppable(d: Dispatch) {
    d.queue != [] ==> 0 <= d.queue[|d.queue| - 1] < |d.places|
  }

  ghost function After(d: Dispatch, events: seq<Event>): Dispatch
    requires Runnable(d, events)
    decreases |events|
  {
    if events == [] then d else After(Step(d, events[0]), events[1..])
  }

  lemma {:induction false} EveryRunKeepsInv(d: Dispatch, events: seq<Event>)
    requires Inv(d) && Runnable(d, events)
    ensures Inv(After(d, events)) && |After(d, events).workers| == |d.workers|
    decreases |events|
  {
    hide Inv, Step, Enabled;
    if events != [] {
      StepKeepsInv(d, events[0]);
      SameWorkers(d, events[0]);
      EveryRunKeepsInv(Step(d, events[0]), events[1..]);
    }
  }

  lemma SameWorkers(d: Dispatch, e: Event)
    requires Poppable(d) && Enabled(d, e)
    ensures |Step(d, e).workers| == |d.workers|
  {
  }

  /** In every interleaving no job is run more than once, and a job is run only after it was queued. */
  lemma AtMostOnce(n: nat, events: seq<Event>, j: int)
    requires Runnable(Start(n), events) && 0 <= j < |After(Start(n), events).places|
    ensures var d := After(Start(n), events); |d.runs| == |d.places| && 0 <= d.runs[j] <= 1
  {
    StartInv(n);
    EveryRunKeepsInv(Start(n), events);
  }

  /** How many jobs have been queued, and how often some job has been run. */
  function TimesQueued(events: seq<Event>): nat {
    if events == [] then 0 else TimesQueued(events[1..]) + if events[0].Queue? then 1 else 0
  }

  function Executed(events: seq<Event>): nat {
    if events == [] then 0 else Executed(events[1..]) + if events[0].Run? || events[0].HelpRun? then 1 else 0
  }

  function Total(runs: seq<int>): int {
    if runs == [] then 0 else Total(runs[..|runs| - 1]) + runs[|runs| - 1]
  }

  lemma {:induction false} TotalOneMore(runs: seq<int>, j: int)
    requires 0 <= j < |runs|
    ensures Total(runs[j := runs[j] + 1]) == Total(runs) + 1
    decreases |runs|
  {
    var n := |runs| - 1;
    var after := runs[j := runs[j] + 1];
    if j < n {
      assert after[..n] == runs[..n][j := runs[..n][j] + 1];
      TotalOneMore(runs[..n], j);
    } else {
      assert after[..n] == runs[..n];
    }
  }

  lemma TotalPush(runs: seq<int>)
    ensures Total(runs + [0]) == Total(runs)
  {
    assert (runs + [0])[..|runs|] == runs;
  }

  /** What one step does to the records. */
  lemma StepCounts(d: Dispatch, e: Event)
    requires Poppable(d) && Enabled(d, e) && |d.runs| == |d.places|
    ensures var v := Step(d, e);
            && |v.places| == |v.runs| == |d.places| + (if e.Queue? then 1 else 0)
            && Total(v.runs) == Total(d.runs) + if e.Run? || e.HelpRun? then 1 else 0
  {
    TotalPush(d.runs);
    if e.Run? {
      TotalOneMore(d.runs, d.workers[e.i].job);
    } else if e.HelpRun? {
      TotalOneMore(d.runs, d.main.job);
    }
  }

  lemma {:induction false} RunCounts(d: Dispatch, events: seq<Event>)
    requires Inv(d) && Runnable(d, events) && |d.runs| == |d.places|
    ensures |After(d, events).places| == |d.places| + TimesQueued(events)
    ensures Total(After(d, events).runs) == Total(d.runs) + Executed(events)
    decreases |events|
  {
    hide Inv, Step, Enabled;
    if events != [] {
      StepKeepsInv(d, events[0]);
      StepCounts(d, events[0]);
      RunCounts(Step(d, events[0]), events[1..]);
    }
  }

  /** In every interleaving the jobs are the ones that have been queued, and they have been run as often as jobs were run. */
  lemma JobsAreCounted(n: nat, events: seq<Event>)
    requires Runnable(Start(n), events)
    ensures |After(Start(n), events).places| == TimesQueued(events) && Total(After(Start(n), events).runs) == Executed(events)
  {
    StartInv(n);
    RunCounts(Start(n), events);
  }

  /** Older jobs are further down. */
  ghost predicate OldestFirst(d: Dispatch) {
    && (forall k :: 0 <= k < |d.queue| ==> 0 <= d.queue[k] < |d.places|)
    && forall k, m :: 0 <= k < m < |d.queue| ==> d.queue[k] < d.queue[m]
  }

  lemma StepKeepsOrder(d: Dispatch, e: Event)
    requires OldestFirst(d) && Enabled(d, e)
    ensures Poppable(d) && OldestFirst(Step(d, e))
  {
  }

  lemma {:induction false} RunKeepsOrder(d: Dispatch, events: seq<Event>)
    requires OldestFirst(d) && Runnable(d, events)
    ensures OldestFirst(After(d, events))
    decreases |events|
  {
    hide OldestFirst, Step, Enabled;
    if events != [] {
      StepKeepsOrder(d, events[0]);
      RunKeepsOrder(Step(d, events[0]), events[1..]);
    }
  }

  /** Whoever takes a job in a run takes the one that was queued last of those in the queue. */
  lemma NewestTaken(n: nat, events: seq<Event>, i: int, j: int)
    requires Runnable(Start(n), events)
    ensures var d := After(Start(n), events);
            Poppable(d) && (Enabled(d, Loop(i)) && Step(d, Loop(i)).workers[i].Running? && j in d.queue ==>
              j <= Step(d, Loop(i)).workers[i].job && Step(d, Loop(i)).workers[i].job in d.queue)
  {
    RunKeepsOrder(Start(n), events);
    hide After, Runnable, Start;
    var d := After(Start(n), events);
    if Enabled(d, Loop(i)) && j in d.queue {
      var k :| 0 <= k < |d.queue| && d.queue[k] == j;
    }
  }

  /** The barrier: whenever a step makes Sync return, every job queued so far has been run once. */
  lemma SyncIsBarrier(d: Dispatch, e: Event)
    requires Inv(d) && Enabled(d, e) && (e.Sync? || e.HelpNext? || e.SyncCheck?) && Step(d, e).main == Ready
    ensures Step(d, e).places == d.places && forall j :: 0 <= j < |d.places| ==> d.runs[j] == 1
  {
    hide Holders, Busy;
    var v := Step(d, e);
    StepKeepsInv(d, e);
    if e.SyncCheck? {
      WaitingQueue(d);
      SyncWaitStep(d);
    } else {
      SyncLoopStep(d);
    }
    assert v.runs == d.runs && RunsOk(v) && SyncOk(v);
  }

  /** No lost wake-up. A Sync that sleeps is owed a notification by a worker that has not finished, and
      gets it from the one that finishes last; work in the queue finds a worker that is awake. */
  lemma NoLostWakeup(d: Dispatch)
    requires Inv(d)
    ensures d.main == Waiting(false) ==> exists i :: 0 <= i < |d.workers| && IsBusy(d.workers[i])
    ensures forall i :: d.main == Waiting(false) && d.jobs == 1 && Enabled(d, Finish(i)) ==> WorkerFinish(d, i).main == Waiting(true)
    ensures d.queue != [] && !d.exit && |d.workers| > 0 ==> exists i :: 0 <= i < |d.workers| && d.workers[i] != Sleeping
  {
    if d.main == Waiting(false) {
      var i := SomeoneBusy(d.workers);
    }
  }

  /** The barrier and the wake-ups in every run. */
  lemma BarrierInRuns(n: nat, events: seq<Event>, e: Event)
    requires Runnable(Start(n), events)
    ensures var d := After(Start(n), events);
            Poppable(d) && (Enabled(d, e) && (e.Sync? || e.HelpNext? || e.SyncCheck?) && Step(d, e).main == Ready ==>
              Step(d, e).places == d.places && |d.runs| == |d.places| && forall j :: 0 <= j < |d.places| ==> d.runs[j] == 1)
  {
    StartInv(n);
    EveryRunKeepsInv(Start(n), events);
    hide Step, Enabled, After, Runnable, Start, Busy, Holders;
    var d := After(Start(n), events);
    if Enabled(d, e) && (e.Sync? || e.HelpNext? || e.SyncCheck?) && Step(d, e).main == Ready {
      SyncIsBarrier(d, e);
    }
  }

  lemma WakeupInRuns(n: nat, events: seq<Event>)
    requires Runnable(Start(n), events)
    ensures var d := After(Start(n), events);
            && Poppable(d)
            && (d.main == Waiting(false) ==> exists i :: 0 <= i < |d.workers| && IsBusy(d.workers[i]))
            && (forall i :: d.main == Waiting(false) && d.jobs == 1 && Enabled(d, Finish(i)) ==> WorkerFinish(d, i).main == Waiting(true))
            && (d.queue != [] && !d.exit && |d.workers| > 0 ==> exists i :: 0 <= i < |d.workers| && d.workers[i] != Sleeping)
  {
    StartInv(n);
    EveryRunKeepsInv(Start(n), events);
    hide Step, After, Runnable, Start, Busy, Holders;
    NoLostWakeup(After(Start(n), events));
  }

  /** Apart from idling for new work there is always a step to take that is neither a wake-up for no
      reason nor a new request, until the dispatcher is gone. */
  lemma NeverStuck(d: Dispatch) returns (e: Event)
    requires Inv(d) && d.main != Ready && d.main != Gone
    ensures Enabled(d, e) && !e.Wake? && !e.SyncWake? && !e.Queue? && !e.Sync? && !e.SetExit?
  {
    match d.main
    case Helping(j) => e := HelpRun;
    case Helped => e := HelpNext;
    case Waiting(woken) =>
      if woken {
        e := SyncCheck;
      } else {
        var i := SomeoneBusy(d.workers);
        e := if d.workers[i].Ran? then Finish(i) else Run(i);
      }
    case Exiting => e := NotifyAll;
    case Joining =>
      if i :| 0 <= i < |d.workers| && d.workers[i] != Exited {
        assert d.workers[i] in d.workers;
        e := if d.workers[i].Ran? then Finish(i) else if d.workers[i].Running? then Run(i) else Loop(i);
      } else {
        e := Join;
      }
  }
}
