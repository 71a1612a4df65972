/**
 Spacing of sync operations: goroutines that share a mutex, a monotone clock and the time of
 the last sync, each of which sleeps until a second has passed since that time.
 */
module Spacing {
  import opened Prelude

  // Times are nanoseconds since the zero time, which is what the last sync time starts as.
  const SECOND := 1_000_000_000
  const SYNC_DELAY_MINIMUM := 1 * SECOND
  const MAX_DURATION := 0x7FFF_FFFF_FFFF_FFFF

  /** The duration from one time to a later one: it saturates after about 292 years. */
  function Since(now: nat, t: nat): int {
    Min(now - t, MAX_DURATION)
  }

  // Where a caller is: outside, waiting for the mutex, or at a point of the locked section.
  datatype Caller =
    | Outside | Entering | Measuring | Slow(duration: int) | Sleeping(wake: int) | Recording | Unlocking

  datatype State = State(
    now: nat,
    callers: seq<Caller>,
    holder: Option<nat>,    // who holds the mutex
    last: nat,              // the time of the last sync
    recorded: seq<nat>,     // every time ever recorded
    completed: nat)         // how many calls have returned

  datatype Action =
    | Tick(elapsed: nat) | Call(c: nat) | Lock(c: nat) | Measure(c: nat) | Sleep(c: nat) | Wake(c: nat)
    | Record(c: nat) | Unlock(c: nat)

  function Start(now: nat, callers: nat): State {
    State(now, seq(callers, _ => Outside), None, 0, [], 0)
  }

  /** A sleeper wakes no earlier than it asked for; time passes at any rate. */
  predicate Enabled(s: State, a: Action) {
    match a
    case Tick(elapsed) => true
    case Call(c) => c < |s.callers| && s.callers[c].Outside?
    case Lock(c) => c < |s.callers| && s.callers[c].Entering? && s.holder.None?
    case Measure(c) => c < |s.callers| && s.callers[c].Measuring?
    case Sleep(c) => c < |s.callers| && s.callers[c].Slow?
    case Wake(c) => c < |s.callers| && s.callers[c].Sleeping? && s.callers[c].wake <= s.now
    case Record(c) => c < |s.callers| && s.callers[c].Recording?
    case Unlock(c) => c < |s.callers| && s.callers[c].Unlocking?
  }

  function Step(s: State, a: Action): State
    requires Enabled(s, a)
  {
    match a
    case Tick(elapsed) => s.(now := s.now + elapsed)
    case Call(c) => s.(callers := s.callers[c := Entering])
    case Lock(c) => s.(callers := s.callers[c := Measuring], holder := Some(c))
    case Measure(c) =>
      var elapsed := Since(s.now, s.last);
      if elapsed < SYNC_DELAY_MINIMUM then s.(callers := s.callers[c := Slow(SYNC_DELAY_MINIMUM - elapsed)])
      else s.(callers := s.callers[c := Recording])
    case Sleep(c) => s.(callers := s.callers[c := Sleeping(s.now + s.callers[c].duration)])
    case Wake(c) => s.(callers := s.callers[c := Recording])
    case Record(c) => s.(callers := s.callers[c := Unlocking], last := s.now, recorded := s.recorded + [s.now])
    case Unlock(c) => s.(callers := s.callers[c := Outside], holder := None, completed := s.completed + 1)
  }

  // ---- What every step keeps

  predicate InSection(caller: Caller) {
    !caller.Outside? && !caller.Entering?
  }

  /** Only the holder of the mutex is in the locked section, and it is there as long as it holds it. */
  ghost predicate Exclusive(s: State) {
    && (forall c :: 0 <= c < |s.callers| && InSection(s.callers[c]) ==> s.holder == Some(c))
    && (s.holder.Some? ==> s.holder.value < |s.callers| && InSection(s.callers[s.holder.value]))
  }

  /** A caller that has got past the check is due; one on its way there sleeps no more than it has to. */
  predicate OnTime(s: State, caller: Caller) {
    match caller
    case Slow(duration) => 0 < duration <= SYNC_DELAY_MINIMUM && s.last + SYNC_DELAY_MINIMUM <= s.now + duration
    case Sleeping(wake) => s.last + SYNC_DELAY_MINIMUM <= wake <= s.now + SYNC_DELAY_MINIMUM
    case Recording => s.last + SYNC_DELAY_MINIMUM <= s.now
    case _ => true
  }

  ghost predicate Spaced(recorded: seq<nat>) {
    forall i :: 0 < i < |recorded| ==> recorded[i - 1] + SYNC_DELAY_MINIMUM <= recorded[i]
  }

  ghost predicate LogOnTime(s: State) {
    && s.last <= s.now
    && (forall c :: 0 <= c < |s.callers| ==> OnTime(s, s.callers[c]))
    && Spaced(s.recorded)
    && (s.recorded != [] ==> s.last == s.recorded[|s.recorded| - 1])
  }

  /** Every call that has returned has recorded its time, as has one that is about to. */
  predicate CallsRecorded(s: State) {
    |s.recorded| == s.completed +
      (if s.holder.Some? && s.holder.value < |s.callers| && s.callers[s.holder.value].Unlocking? then 1 else 0)
  }

  ghost predicate Inv(s: State) {
    Exclusive(s) && LogOnTime(s) && CallsRecorded(s)
  }

  lemma StepKeepsExclusion(s: State, a: Action)
    requires Exclusive(s) && Enabled(s, a)
    ensures Exclusive(Step(s, a))
  {
  }

  /** The mutex is what keeps the others from being due by a time that is then overwritten. */
  lemma StepKeepsOnTime(s: State, a: Action, c: nat)
    requires Exclusive(s) && Enabled(s, a) && s.last <= s.now && c < |s.callers| && OnTime(s, s.callers[c])
    ensures OnTime(Step(s, a), Step(s, a).callers[c])
  {
    if InSection(s.callers[c]) {
      assert s.holder == Some(c);
    }
  }

  lemma StepKeepsLog(s: State, a: Action)
    requires Exclusive(s) && LogOnTime(s) && Enabled(s, a)
    ensures LogOnTime(Step(s, a))
  {
    var s' := Step(s, a);
    forall c | 0 <= c < |s'.callers| ensures OnTime(s', s'.callers[c]) {
      StepKeepsOnTime(s, a, c);
    }
    hide Exclusive;
    if a.Record? {
      assert OnTime(s, s.callers[a.c]);
    }
  }

  /** A caller that is due goes on at once; another one sleeps for what is missing of a second. */
  lemma SleepsOnlyIfEarly(s: State, c: nat)
    requires Enabled(s, Measure(c)) && s.last <= s.now
    ensures var s' := Step(s, Measure(c));
      if s.last + 1_000_000_000 <= s.now then s'.callers[c] == Recording
      else Enabled(s', Sleep(c)) && Step(s', Sleep(c)).callers[c] == Sleeping(s.last + 1_000_000_000)
  {
  }

  lemma StepKeepsInv(s: State, a: Action)
    requires Inv(s) && Enabled(s, a)
    ensures Inv(Step(s, a))
  {
    StepKeepsExclusion(s, a);
    StepKeepsLog(s, a);
    hide LogOnTime;
  }

  // ---- Every interleaving

  ghost predicate Leads(s: State, s': State) {
    exists a :: Enabled(s, a) && s' == Step(s, a)
  }

  ghost predicate IsRun(states: seq<State>, now: nat, callers: nat) {
    && states != [] && states[0] == Start(now, callers)
    && forall i :: 0 <= i < |states| - 1 ==> Leads(states[i], states[i + 1])
  }

  lemma {:induction false} RunKeepsInv(states: seq<State>, now: nat, callers: nat)
    requires IsRun(states, now, callers)
    ensures Inv(states[|states| - 1])
    decreases |states|
  {
    var n := |states| - 1;
    if n > 0 {
      RunKeepsInv(states[..n], now, callers);
      assert Leads(states[n - 1], states[n - 1 + 1]);
      var a :| Enabled(states[n - 1], a) && states[n] == Step(states[n - 1], a);
      StepKeepsInv(states[n - 1], a);
    }
  }

  lemma {:induction false} SpansAdd(recorded: seq<nat>, i: nat, j: nat)
    requires Spaced(recorded) && i <= j < |recorded|
    ensures recorded[i] + (j - i) * SYNC_DELAY_MINIMUM <= recorded[j]
  {
    if i < j {
      SpansAdd(recorded, i, j - 1);
      assert (j - i) * SYNC_DELAY_MINIMUM == (j - 1 - i) * SYNC_DELAY_MINIMUM + SYNC_DELAY_MINIMUM;
    }
  }

  /** In every interleaving the i-th and the j-th recorded sync are at least j - i seconds apart. */
  lemma SyncsAreSpaced(states: seq<State>, now: nat, callers: nat)
    requires IsRun(states, now, callers)
    ensures var recorded := states[|states| - 1].recorded;
      forall i, j :: 0 <= i <= j < |recorded| ==> recorded[i] + (j - i) * 1_000_000_000 <= recorded[j]
  {
    var recorded := states[|states| - 1].recorded;
    RunKeepsInv(states, now, callers);
    forall i, j | 0 <= i <= j < |recorded|
      ensures recorded[i] + (j - i) * 1_000_000_000 <= recorded[j]
    {
      SpansAdd(recorded, i, j);
    }
  }

  /** In every interleaving, n calls that have returned took at least n - 1 seconds. */
  lemma CallsTakeTime(states: seq<State>, now: nat, callers: nat)
    requires IsRun(states, now, callers)
    ensures var s := states[|states| - 1];
      s.completed > 0 ==>
        s.completed <= |s.recorded| && s.recorded[0] + (s.completed - 1) * 1_000_000_000 <= s.now
  {
    var s := states[|states| - 1];
    RunKeepsInv(states, now, callers);
    if s.completed > 0 {
      SpansAdd(s.recorded, 0, s.completed - 1);
      SpansAdd(s.recorded, s.completed - 1, |s.recorded| - 1);
    }
  }

  /** Whoever holds the mutex can go on once at most a second has passed, so nobody waits for ever. */
  lemma HolderGoesOn(s: State) returns (a: Action)
    requires Inv(s) && s.holder.Some?
    ensures var c := s.holder.value; a in {Measure(c), Sleep(c), Wake(c), Record(c), Unlock(c)}
    ensures exists wait: nat :: wait <= 1_000_000_000 && Enabled(Step(s, Tick(wait)), a)
  {
    var c := s.holder.value;
    assert OnTime(s, s.callers[c]);
    var wait: nat := if s.callers[c].Sleeping? && s.now < s.callers[c].wake then s.callers[c].wake - s.now else 0;
    a := match s.callers[c]
      case Measuring => Measure(c)
      case Slow(_) => Sleep(c)
      case Sleeping(_) => Wake(c)
      case Recording => Record(c)
      case _ => Unlock(c);
    assert Enabled(Step(s, Tick(wait)), a);
  }
}
