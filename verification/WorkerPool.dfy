/**
 Decryption of many items by a pool of workers, as a state machine over its goroutines and
 channels, and the sequential loop it replaces.
 */
module WorkerPool {
  import opened Prelude
  import opened Records
  import opened Vault
  import opened Envelope

  const DECRYPTION_BATCH_THRESHOLD := 50

  // ---- The sequential loop

  /** The items to decrypt: those that are not deleted. */
  function Live(ei: seq<EncryptedItem>): seq<EncryptedItem> {
    if ei == [] then []
    else
      var live := Live(ei[..|ei| - 1]);
      if ei[|ei| - 1].deleted then live else live + [ei[|ei| - 1]]
  }

  /** Each item counts for itself: it stays in its place, or goes if it is deleted. */
  lemma {:induction false} LiveInOrder(a: seq<EncryptedItem>, e: EncryptedItem, b: seq<EncryptedItem>)
    ensures Live(a + [e] + b) == Live(a) + (if e.deleted then [] else [e]) + Live(b)
  {
    var all := a + [e] + b;
    if b == [] {
      assert all[..|all| - 1] == a;
    } else {
      assert all[..|all| - 1] == a + [e] + b[..|b| - 1];
      LiveInOrder(a, e, b[..|b| - 1]);
    }
  }

  /** All decrypted items in order, or the error of the first that cannot be decrypted. */
  function Sequential(live: seq<EncryptedItem>,
                      decrypt: EncryptedItem -> Result<DecryptedItem>): Result<seq<DecryptedItem>>
  {
    if live == [] then Ok([])
    else
      match Sequential(live[..|live| - 1], decrypt)
      case Err(fault) => Err(fault)
      case Ok(done) =>
        match decrypt(live[|live| - 1])
        case Err(fault) => Err(fault)
        case Ok(item) => Ok(done + [item])
  }

  lemma {:induction false} SequentialStops(live: seq<EncryptedItem>,
                          decrypt: EncryptedItem -> Result<DecryptedItem>, i: nat)
    requires i <= |live| && Sequential(live[..i], decrypt).Err?
    ensures Sequential(live, decrypt) == Sequential(live[..i], decrypt)
    decreases |live| - i
  {
    if i == |live| {
      assert live[..i] == live;
    } else {
      assert live[..i + 1][..i] == live[..i];
      SequentialStops(live, decrypt, i + 1);
    }
  }

  lemma {:induction false} LivePrefix(ei: seq<EncryptedItem>, i: nat)
    requires i <= |ei|
    ensures Live(ei[..i]) <= Live(ei)
    decreases |ei| - i
  {
    if i == |ei| {
      assert ei[..i] == ei;
    } else {
      assert ei[..i + 1][..i] == ei[..i];
      LivePrefix(ei, i + 1);
    }
  }

  method DecryptItemsSequential(ei: seq<EncryptedItem>, decrypt: EncryptedItem -> Result<DecryptedItem>)
    returns (o: Result<seq<DecryptedItem>>)
    ensures o == Sequential(Live(ei), decrypt)
  {
    var done := [];
    for i := 0 to |ei|
      invariant Sequential(Live(ei[..i]), decrypt) == Ok(done)
    {
      assert ei[..i + 1][..i] == ei[..i];
      if ei[i].deleted {
        continue;
      }
      var live := Live(ei[..i]);
      assert Live(ei[..i + 1]) == live + [ei[i]] && (live + [ei[i]])[..|live|] == live;
      var di := decrypt(ei[i]);
      if di.Err? {
        LivePrefix(ei, i + 1);
        assert Live(ei)[..|live| + 1] == live + [ei[i]];
        SequentialStops(Live(ei), decrypt, |live| + 1);
        return Err(di.fault);
      }
      done := done + [di.value];
    }
    assert ei[..|ei|] == ei;
    o := Ok(done);
  }

  /** The loop succeeds exactly when every item decrypts, with each result in its place. */
  lemma {:induction false} SequentialExact(live: seq<EncryptedItem>, decrypt: EncryptedItem -> Result<DecryptedItem>)
    ensures var r := Sequential(live, decrypt);
      && (r.Ok? <==> forall i :: 0 <= i < |live| ==> decrypt(live[i]).Ok?)
      && (r.Ok? ==> |r.value| == |live| && forall i :: 0 <= i < |live| ==> r.value[i] == decrypt(live[i]).value)
      && (r.Err? ==> exists i :: 0 <= i < |live| && decrypt(live[i]) == Err(r.fault))
  {
    if live != [] {
      var before := live[..|live| - 1];
      SequentialExact(before, decrypt);
      assert forall i :: 0 <= i < |before| ==> before[i] == live[i];
    }
  }

  // ---- The pool

  datatype Worker = Idle | Busy(job: nat) | Finished

  datatype Main = Queueing | Collecting | Returned(result: Result<seq<DecryptedItem>>)

  // The goroutine that waits for the workers and then closes the results.
  datatype Closer = NotStarted | Waiting | Closed

  datatype Delivered = Delivered(index: nat, result: Result<DecryptedItem>)

  /** The live items, what decrypts them, and what an unwritten slot of the result holds. */
  datatype Pool = Pool(
    items: seq<EncryptedItem>, decrypt: EncryptedItem -> Result<DecryptedItem>, zero: DecryptedItem)

  datatype State = State(
    next: nat,                         // the next job to queue
    jobs: seq<nat>, jobsClosed: bool,  // a channel with room for every job
    workers: seq<Worker>,
    results: seq<Delivered>, resultsClosed: bool,
    closer: Closer,
    collected: seq<nat>,               // the jobs whose results were received
    decrypted: seq<DecryptedItem>,
    main: Main)

  function Start(p: Pool, workers: nat): State {
    State(0, [], false, seq(workers, _ => Idle), [], false, NotStarted, [], seq(|p.items|, _ => p.zero), Queueing)
  }

  datatype Action =
    | Queue | CloseJobs | Take(w: nat) | Send(w: nat) | Exit(w: nat) | CloseResults | Collect | Finish

  /** Whether a goroutine has reached an action; sends may still have to wait for room. */
  predicate Reached(p: Pool, s: State, a: Action) {
    match a
    case Queue => s.main.Queueing? && s.next < |p.items|
    case CloseJobs => s.main.Queueing? && s.next == |p.items|
    case Take(w) => w < |s.workers| && s.workers[w].Idle? && s.jobs != []
    case Send(w) => w < |s.workers| && s.workers[w].Busy? && s.workers[w].job < |p.items|
    case Exit(w) => w < |s.workers| && s.workers[w].Idle? && s.jobs == [] && s.jobsClosed
    case CloseResults => s.closer.Waiting? && forall w :: 0 <= w < |s.workers| ==> s.workers[w].Finished?
    case Collect => s.main.Collecting? && s.results != []
    case Finish => s.main.Collecting? && s.results == [] && s.resultsClosed
  }

  /**
   A send has room and its channel is open; a channel that is closed is still open; and a
   received result belongs to a slot.
   */
  predicate Unblocked(p: Pool, s: State, a: Action) {
    match a
    case Queue => |s.jobs| < |p.items| && !s.jobsClosed
    case CloseJobs => !s.jobsClosed
    case Send(_) => |s.results| < |p.items| && !s.resultsClosed
    case CloseResults => !s.resultsClosed
    case Collect => s.results != [] && s.results[0].index < |s.decrypted|
    case _ => true
  }

  predicate Enabled(p: Pool, s: State, a: Action) {
    Reached(p, s, a) && Unblocked(p, s, a)
  }

  function Step(p: Pool, s: State, a: Action): State
    requires Enabled(p, s, a)
  {
    match a
    case Queue => s.(jobs := s.jobs + [s.next], next := s.next + 1)
    case CloseJobs => s.(jobsClosed := true, closer := Waiting, main := Collecting)
    case Take(w) => s.(workers := s.workers[w := Busy(s.jobs[0])], jobs := s.jobs[1..])
    case Send(w) =>
      var j := s.workers[w].job;
      s.(workers := s.workers[w := Idle], results := s.results + [Delivered(j, p.decrypt(p.items[j]))])
    case Exit(w) => s.(workers := s.workers[w := Finished])
    case CloseResults => s.(resultsClosed := true, closer := Closed)
    case Collect =>
      var r := s.results[0];
      var s' := s.(results := s.results[1..], collected := s.collected + [r.index]);
      (match r.result
       case Err(fault) => s'.(main := Returned(Err(fault)))
       case Ok(item) => s'.(decrypted := s.decrypted[r.index := item]))
    case Finish => s.(main := Returned(Ok(s.decrypted)))
  }

  // ---- Where the jobs are

  function Range(lo: nat, hi: nat): (range: seq<nat>)
    requires lo <= hi
    ensures |range| == hi - lo
    decreases hi - lo
  {
    if lo == hi then [] else [lo] + Range(lo + 1, hi)
  }

  lemma {:induction false} RangeCounts(lo: nat, hi: nat, j: nat)
    requires lo <= hi
    ensures multiset(Range(lo, hi))[j] == if lo <= j < hi then 1 else 0
    decreases hi - lo
  {
    if lo < hi {
      RangeCounts(lo + 1, hi, j);
      var rest: seq<nat> := Range(lo + 1, hi);
      assert Range(lo, hi) == [lo] + rest;
      hide Range;
      CountAppended([lo], rest, j);
    }
  }

  function BusyJobs(workers: seq<Worker>): (jobs: seq<nat>)
    ensures |jobs| <= |workers|
  {
    if workers == [] then []
    else if workers[0].Busy? then [workers[0].job] + BusyJobs(workers[1..])
    else BusyJobs(workers[1..])
  }

  function JobOf(worker: Worker): multiset<nat> {
    if worker.Busy? then multiset{worker.job} else multiset{}
  }

  function Indices(results: seq<Delivered>): (indices: seq<nat>)
    ensures |indices| == |results| && forall i :: 0 <= i < |results| ==> indices[i] == results[i].index
  {
    seq(|results|, i requires 0 <= i < |results| => results[i].index)
  }

  /** How many places hold a job: still to be queued, queued, with a worker, in the results, or collected. */
  ghost function Places(p: Pool, s: State, j: nat): nat {
    (if s.next <= j < |p.items| then 1 else 0) + multiset(s.jobs)[j] + multiset(BusyJobs(s.workers))[j]
    + multiset(Indices(s.results))[j] + multiset(s.collected)[j]
  }

  ghost predicate EachJobInOnePlace(p: Pool, s: State) {
    s.next <= |p.items| && forall j: nat :: Places(p, s, j) == if j < |p.items| then 1 else 0
  }

  ghost predicate ResultsFaithful(p: Pool, s: State) {
    && |s.decrypted| == |p.items|
    && (forall w :: 0 <= w < |s.workers| && s.workers[w].Busy? ==> s.workers[w].job < |p.items|)
    && (forall j :: j in s.jobs ==> j < |p.items|)
    && (forall i :: 0 <= i < |s.results| ==>
          && s.results[i].index < |p.items|
          && s.results[i].result == p.decrypt(p.items[s.results[i].index]))
  }

  ghost predicate ChannelsOrdered(p: Pool, s: State) {
    && s.workers != []
    && (s.main.Queueing? <==> !s.jobsClosed)
    && (s.jobsClosed ==> s.next == |p.items|)
    && (s.closer.NotStarted? <==> !s.jobsClosed)
    && (s.closer.Closed? <==> s.resultsClosed)
    && (forall w :: 0 <= w < |s.workers| && s.workers[w].Finished? ==> s.jobsClosed && s.jobs == [])
    && (s.resultsClosed ==> forall w :: 0 <= w < |s.workers| ==> s.workers[w].Finished?)
  }

  ghost predicate CollectedInPlace(p: Pool, s: State) {
    forall j :: j in s.collected ==>
      j < |p.items| && j < |s.decrypted| && p.decrypt(p.items[j]) == Ok(s.decrypted[j])
  }

  ghost predicate OutcomeFaithful(p: Pool, s: State) {
    match s.main
    case Returned(Err(fault)) => exists i :: 0 <= i < |p.items| && p.decrypt(p.items[i]) == Err(fault)
    case Returned(Ok(out)) => CollectedInPlace(p, s) && out == s.decrypted && s.results == [] && s.resultsClosed
    case _ => CollectedInPlace(p, s)
  }

  ghost predicate Inv(p: Pool, s: State) {
    EachJobInOnePlace(p, s) && ResultsFaithful(p, s) && ChannelsOrdered(p, s) && OutcomeFaithful(p, s)
  }

  // ---- The invariant holds throughout

  lemma BusySplit(workers: seq<Worker>)
    requires workers != []
    ensures multiset(BusyJobs(workers)) == JobOf(workers[0]) + multiset(BusyJobs(workers[1..]))
  {
  }

  /** Replacing one worker exchanges its job for that of the new one. */
  lemma {:induction false} BusyUpdate(workers: seq<Worker>, w: nat, worker: Worker, j: nat)
    requires w < |workers|
    ensures multiset(BusyJobs(workers[w := worker]))[j] + JobOf(workers[w])[j]
      == multiset(BusyJobs(workers))[j] + JobOf(worker)[j]
  {
    var after := workers[w := worker];
    BusySplit(workers);
    BusySplit(after);
    hide BusyJobs, JobOf;
    if w == 0 {
      assert after[1..] == workers[1..];
    } else {
      assert after[1..] == workers[1..][w - 1 := worker];
      BusyUpdate(workers[1..], w - 1, worker, j);
    }
  }

  lemma {:induction false} NoneBusy(workers: seq<Worker>)
    requires forall w :: 0 <= w < |workers| ==> !workers[w].Busy?
    ensures BusyJobs(workers) == []
  {
    if workers != [] {
      NoneBusy(workers[1..]);
    }
  }

  lemma {:induction false} SomeBusy(workers: seq<Worker>, w: nat)
    requires w < |workers| && workers[w].Busy?
    ensures BusyJobs(workers) != []
  {
    if w > 0 {
      SomeBusy(workers[1..], w - 1);
    }
  }

  lemma StartInv(p: Pool, workers: nat)
    requires workers > 0
    ensures Inv(p, Start(p, workers))
  {
    NoneBusy(Start(p, workers).workers);
  }

  lemma CountAppended(s: seq<nat>, t: seq<nat>, j: nat)
    ensures multiset(s + t)[j] == multiset(s)[j] + multiset(t)[j]
  {
  }

  lemma HeadAndTail<T>(s: seq<T>)
    requires s != []
    ensures multiset(s) == multiset{s[0]} + multiset(s[1..])
  {
    assert s == [s[0]] + s[1..];
  }

  lemma TakeKeepsPlace(p: Pool, s: State, w: nat, j: nat)
    requires Enabled(p, s, Take(w))
    ensures Places(p, Step(p, s, Take(w)), j) == Places(p, s, j)
  {
    HeadAndTail(s.jobs);
    BusyUpdate(s.workers, w, Busy(s.jobs[0]), j);
    hide BusyJobs, Indices;
  }

  lemma SendKeepsPlace(p: Pool, s: State, w: nat, j: nat)
    requires Enabled(p, s, Send(w))
    ensures Places(p, Step(p, s, Send(w)), j) == Places(p, s, j)
  {
    var job := s.workers[w].job;
    var indices: seq<nat> := Indices(s.results);
    BusyUpdate(s.workers, w, Idle, j);
    assert Indices(s.results + [Delivered(job, p.decrypt(p.items[job]))]) == indices + [job];
    hide BusyJobs, Indices;
    assert multiset(indices + [job])[j] == multiset(indices)[j] + multiset{job}[j];
  }

  lemma CollectKeepsPlace(p: Pool, s: State, j: nat)
    requires Enabled(p, s, Collect)
    ensures Places(p, Step(p, s, Collect), j) == Places(p, s, j)
  {
    var s' := Step(p, s, Collect);
    var before: seq<nat> := Indices(s.results);
    var after: seq<nat> := Indices(s'.results);
    var r := s.results[0].index;
    assert s'.results == s.results[1..] && s'.collected == s.collected + [r];
    assert s'.next == s.next && s'.jobs == s.jobs && s'.workers == s.workers;
    assert before == [r] + after;
    hide BusyJobs, Indices, Step, Enabled, Reached, Unblocked;
    CountAppended([r], after, j);
    CountAppended(s.collected, [r], j);
  }

  lemma StepKeepsPlace(p: Pool, s: State, a: Action, j: nat)
    requires s.next <= |p.items| && Enabled(p, s, a)
    ensures Places(p, Step(p, s, a), j) == Places(p, s, j)
  {
    match a {
      case Take(w) => TakeKeepsPlace(p, s, w, j);
      case Send(w) => SendKeepsPlace(p, s, w, j);
      case Collect => CollectKeepsPlace(p, s, j);
      case Exit(w) => BusyUpdate(s.workers, w, Finished, j);
      case Queue => assert multiset(s.jobs + [s.next])[j] == multiset(s.jobs)[j] + multiset{s.next}[j];
      case _ =>
    }
  }

  /** No step loses, duplicates or invents a job. */
  lemma StepKeepsPlaces(p: Pool, s: State, a: Action)
    requires EachJobInOnePlace(p, s) && Enabled(p, s, a)
    ensures EachJobInOnePlace(p, Step(p, s, a))
  {
    hide Places;
    forall j: nat ensures Places(p, Step(p, s, a), j) == if j < |p.items| then 1 else 0 {
      StepKeepsPlace(p, s, a, j);
    }
  }

  lemma StepKeepsInv(p: Pool, s: State, a: Action)
    requires Inv(p, s) && Enabled(p, s, a)
    ensures Inv(p, Step(p, s, a))
  {
    StepKeepsPlaces(p, s, a);
    hide EachJobInOnePlace;
    StepKeepsResults(p, s, a);
    StepKeepsOrder(p, s, a);
    StepKeepsOutcome(p, s, a);
  }

  lemma StepKeepsResults(p: Pool, s: State, a: Action)
    requires ResultsFaithful(p, s) && Enabled(p, s, a)
    ensures ResultsFaithful(p, Step(p, s, a))
  {
    if a.Take? {
      assert s.jobs[0] in s.jobs && forall j :: j in s.jobs[1..] ==> j in s.jobs;
    } else if a.Queue? {
      assert forall j :: j in s.jobs + [s.next] ==> j in s.jobs || j == s.next;
    }
  }

  lemma StepKeepsOrder(p: Pool, s: State, a: Action)
    requires ChannelsOrdered(p, s) && Enabled(p, s, a)
    ensures ChannelsOrdered(p, Step(p, s, a))
  {
  }

  lemma StepKeepsOutcome(p: Pool, s: State, a: Action)
    requires ResultsFaithful(p, s) && ChannelsOrdered(p, s) && OutcomeFaithful(p, s) && Enabled(p, s, a)
    ensures OutcomeFaithful(p, Step(p, s, a))
  {
    if a.Collect? {
      var r := s.results[0];
      assert r.result == p.decrypt(p.items[r.index]);
    }
  }

  // ---- No send blocks, nothing deadlocks, every run ends

  lemma SumOfSizes(a: multiset<nat>, b: multiset<nat>, c: multiset<nat>, d: multiset<nat>, e: multiset<nat>,
                   whole: multiset<nat>)
    requires forall j: nat :: a[j] + b[j] + c[j] + d[j] + e[j] == whole[j]
    ensures |a| + |b| + |c| + |d| + |e| == |whole|
  {
    assert a + b + c + d + e == whole;
  }

  lemma SizesAddUp(p: Pool, s: State)
    requires EachJobInOnePlace(p, s)
    ensures (|p.items| - s.next) + |s.jobs| + |BusyJobs(s.workers)| + |s.results| + |s.collected| == |p.items|
  {
    var queue: seq<nat> := Range(s.next, |p.items|);
    var whole: seq<nat> := Range(0, |p.items|);
    hide BusyJobs, Range;
    forall j: nat
      ensures multiset(queue)[j] + multiset(s.jobs)[j] + multiset(BusyJobs(s.workers))[j]
        + multiset(Indices(s.results))[j] + multiset(s.collected)[j] == multiset(whole)[j]
    {
      RangeCounts(s.next, |p.items|, j);
      RangeCounts(0, |p.items|, j);
      assert Places(p, s, j) == if j < |p.items| then 1 else 0;
    }
    SumOfSizes(multiset(queue), multiset(s.jobs), multiset(BusyJobs(s.workers)), multiset(Indices(s.results)),
               multiset(s.collected), multiset(whole));
  }

  /** Whatever a goroutine reaches it can do at once: no send waits for room or meets a closed channel. */
  lemma NothingBlocks(p: Pool, s: State, a: Action)
    requires Inv(p, s) && Reached(p, s, a)
    ensures Unblocked(p, s, a)
  {
    SizesAddUp(p, s);
    if a.Send? {
      SomeBusy(s.workers, a.w);
    }
  }

  /** The main goroutine has returned, the results are closed and every worker is done. */
  predicate AllDone(s: State) {
    s.main.Returned? && s.closer.Closed? && forall w :: 0 <= w < |s.workers| ==> s.workers[w].Finished?
  }

  /** Unless everything is done, some goroutine can go on, even after an early return. */
  lemma NoDeadlock(p: Pool, s: State) returns (a: Action)
    requires Inv(p, s) && !AllDone(s)
    ensures Enabled(p, s, a)
  {
    if s.main.Queueing? {
      a := if s.next < |p.items| then Queue else CloseJobs;
    } else if w :| 0 <= w < |s.workers| && !s.workers[w].Finished? {
      a := if s.workers[w].Busy? then Send(w) else if s.jobs != [] then Take(w) else Exit(w);
    } else if s.closer.Waiting? {
      a := CloseResults;
    } else {
      a := if s.results != [] then Collect else Finish;
    }
    NothingBlocks(p, s, a);
  }

  function Unfinished(workers: seq<Worker>): nat {
    if workers == [] then 0
    else (match workers[0] case Finished => 0 case Idle => 1 case Busy(_) => 3) + Unfinished(workers[1..])
  }

  lemma {:induction false} UnfinishedUpdate(workers: seq<Worker>, w: nat, worker: Worker)
    requires w < |workers|
    ensures Unfinished(workers[w := worker]) + (match workers[w] case Finished => 0 case Idle => 1 case Busy(_) => 3)
      == Unfinished(workers) + (match worker case Finished => 0 case Idle => 1 case Busy(_) => 3)
  {
    var after := workers[w := worker];
    if w == 0 {
      assert after[1..] == workers[1..];
    } else {
      assert after[1..] == workers[1..][w - 1 := worker];
      UnfinishedUpdate(workers[1..], w - 1, worker);
    }
  }

  /** What is left to do: it shrinks with every step of any goroutine. */
  function Remaining(p: Pool, s: State): int {
    4 * (|p.items| - s.next) + 3 * |s.jobs| + |s.results| + Unfinished(s.workers)
    + (match s.closer case NotStarted => 2 case Waiting => 1 case Closed => 0)
    + (match s.main case Queueing => 2 case Collecting => 1 case Returned(_) => 0)
  }

  lemma StepShrinks(p: Pool, s: State, a: Action)
    requires Inv(p, s) && Enabled(p, s, a)
    ensures 0 <= Remaining(p, Step(p, s, a)) < Remaining(p, s)
  {
    match a {
      case Take(w) => UnfinishedUpdate(s.workers, w, Busy(s.jobs[0]));
      case Send(w) => UnfinishedUpdate(s.workers, w, Idle);
      case Exit(w) => UnfinishedUpdate(s.workers, w, Finished);
      case _ =>
    }
  }

  // ---- Every interleaving

  ghost predicate Leads(p: Pool, s: State, s': State) {
    exists a :: Enabled(p, s, a) && s' == Step(p, s, a)
  }

  ghost predicate IsRun(p: Pool, workers: nat, states: seq<State>) {
    && states != [] && states[0] == Start(p, workers)
    && forall i :: 0 <= i < |states| - 1 ==> Leads(p, states[i], states[i + 1])
  }

  lemma StepFromTo(p: Pool, s: State, s': State)
    requires Inv(p, s) && Leads(p, s, s')
    ensures Inv(p, s') && 0 <= Remaining(p, s') <= Remaining(p, s) - 1
  {
    hide Inv, Enabled, Step, Remaining;
    var a :| Enabled(p, s, a) && s' == Step(p, s, a);
    StepKeepsInv(p, s, a);
    StepShrinks(p, s, a);
  }

  lemma AllUnblocked(p: Pool, s: State)
    requires Inv(p, s)
    ensures forall a :: Reached(p, s, a) ==> Enabled(p, s, a)
  {
    hide Inv, Reached, Unblocked;
    forall a | Reached(p, s, a) ensures Enabled(p, s, a) {
      NothingBlocks(p, s, a);
    }
  }

  /** In every interleaving each job is in one place, no send blocks, and the steps are bounded. */
  lemma {:induction false} RunsAreSafe(p: Pool, workers: nat, states: seq<State>)
    requires workers > 0 && IsRun(p, workers, states)
    ensures var s := states[|states| - 1];
      && Inv(p, s)
      && (forall a :: Reached(p, s, a) ==> Enabled(p, s, a))
      && 0 <= Remaining(p, s) <= Remaining(p, Start(p, workers)) - (|states| - 1)
    decreases |states|
  {
    var n := |states| - 1;
    if n == 0 {
      StartInv(p, workers);
      assert Remaining(p, states[0]) >= 0;
    } else {
      hide Inv, Leads, Enabled, Reached, Remaining, Start, Step, Unblocked;
      RunsAreSafe(p, workers, states[..n]);
      assert Leads(p, states[n - 1], states[n - 1 + 1]);
      StepFromTo(p, states[n - 1], states[n]);
    }
    AllUnblocked(p, states[n]);
  }

  /**
   What a returned result says about the sequential loop: the same list in the same order, or
   an error of one of the items, on which the loop fails too.
   */
  ghost predicate AgreesWithLoop(p: Pool, result: Result<seq<DecryptedItem>>) {
    var loop := Sequential(p.items, p.decrypt);
    if result.Ok? then loop == result
    else loop.Err? && exists i :: 0 <= i < |p.items| && p.decrypt(p.items[i]) == Err(result.fault)
  }

  /** A result without an error is returned only when every job has been collected. */
  lemma AllCollected(p: Pool, s: State, i: nat)
    requires EachJobInOnePlace(p, s) && ChannelsOrdered(p, s) && s.results == [] && s.resultsClosed && i < |p.items|
    ensures i in s.collected
  {
    NoneBusy(s.workers);
    hide BusyJobs;
    assert s.workers[0].Finished?;
    assert Places(p, s, i) == 1;
    assert i in multiset(s.collected);
  }

  lemma ReturnAgrees(p: Pool, s: State)
    requires Inv(p, s) && s.main.Returned?
    ensures AgreesWithLoop(p, s.main.result)
  {
    hide EachJobInOnePlace, Sequential;
    SequentialExact(p.items, p.decrypt);
    if s.main.result.Ok? {
      forall i | 0 <= i < |p.items| ensures p.decrypt(p.items[i]) == Ok(s.decrypted[i]) {
        AllCollected(p, s, i);
      }
      assert Sequential(p.items, p.decrypt).value == s.decrypted;
    }
  }

  /**
   In every interleaving, a run either can go on or everything is done; and when the main
   goroutine has returned, its result is the sequential one, or both are errors.
   */
  lemma PoolRefinesLoop(p: Pool, workers: nat, states: seq<State>)
    requires workers > 0 && IsRun(p, workers, states)
    ensures var s := states[|states| - 1];
      && (AllDone(s) || exists a :: Enabled(p, s, a))
      && (s.main.Returned? ==> AgreesWithLoop(p, s.main.result))
  {
    var s := states[|states| - 1];
    RunsAreSafe(p, workers, states);
    if s.main.Returned? {
      ReturnAgrees(p, s);
    }
    if !AllDone(s) {
      var a := NoDeadlock(p, s);
    }
  }

  // ---- The choice between the two

  /** The pool under a scheduler that picks any goroutine that can go on, until all are done. */
  method DecryptItemsParallel(p: Pool, cpus: nat) returns (o: Result<seq<DecryptedItem>>)
    requires cpus > 0 && p.items != []
    ensures AgreesWithLoop(p, o)
  {
    var s := Start(p, Min(cpus, |p.items|));
    StartInv(p, Min(cpus, |p.items|));
    while !AllDone(s)
      invariant Inv(p, s) && Remaining(p, s) >= 0
      decreases Remaining(p, s)
    {
      ghost var some := NoDeadlock(p, s);
      var a: Action :| Enabled(p, s, a);
      StepKeepsInv(p, s, a);
      StepShrinks(p, s, a);
      s := Step(p, s, a);
    }
    ReturnAgrees(p, s);
    o := s.main.result;
  }

  method DecryptItems(ei: seq<EncryptedItem>, decrypt: EncryptedItem -> Result<DecryptedItem>, zero: DecryptedItem,
                      cpus: nat)
    returns (o: Result<seq<DecryptedItem>>)
    requires cpus > 0
    ensures AgreesWithLoop(Pool(Live(ei), decrypt, zero), o)
  {
    var nonDeletedCount := 0;
    for i := 0 to |ei|
      invariant nonDeletedCount == |Live(ei[..i])|
    {
      assert ei[..i + 1][..i] == ei[..i];
      if !ei[i].deleted {
        nonDeletedCount := nonDeletedCount + 1;
      }
    }
    assert ei[..|ei|] == ei;
    if nonDeletedCount == 0 {
      return Ok([]);
    }
    if nonDeletedCount < DECRYPTION_BATCH_THRESHOLD {
      o := DecryptItemsSequential(ei, decrypt);
      SequentialExact(Live(ei), decrypt);
    } else {
      o := DecryptItemsParallel(Pool(Live(ei), decrypt, zero), cpus);
    }
  }
}
