/**
 The futex wait/wakeup pair of `Swoole\Atomic` as atomic steps that any number of threads
 interleave. Each compare-and-set and each futex system call is one step.
 */
module Futex {

  type Tid = nat

  /** Where a thread is inside a call; a thread outside both calls has no entry. */
  datatype Pc =
    | AboutToSleep      // wait: the first compare-and-set failed
    | Sleeping          // wait: queued in the kernel
    | Woken             // wait: FUTEX_WAIT returned 0, the second compare-and-set is to come
    | Waking(n: nat)    // wakeup: the word was set to 1, FUTEX_WAKE is to come

  datatype State = State(value: int, threads: map<Tid, Pc>)

  datatype Action =
    | Wait(t: Tid)                        // the first compare-and-set
    | FutexWait(t: Tid)                   // sleeps if the word is still 0, otherwise EAGAIN
    | GiveUp(t: Tid)                      // timeout or signal: FUTEX_WAIT returns -1
    | SpuriousWake(t: Tid)
    | Recheck(t: Tid)                     // the second compare-and-set
    | Wakeup(t: Tid, n: nat)              // the compare-and-set of wakeup
    | FutexWake(t: Tid, chosen: set<Tid>) // the kernel wakes min(n, sleepers) threads of its choice

  function Sleepers(s: State): set<Tid> {
    set t | t in s.threads && s.threads[t] == Sleeping
  }

  predicate At(s: State, t: Tid, pc: Pc) {
    t in s.threads && s.threads[t] == pc
  }

  predicate Enabled(s: State, a: Action) {
    match a
    case Wait(t) => t !in s.threads
    case FutexWait(t) => At(s, t, AboutToSleep)
    case GiveUp(t) => At(s, t, Sleeping)
    case SpuriousWake(t) => At(s, t, Sleeping)
    case Recheck(t) => At(s, t, Woken)
    case Wakeup(t, n) => t !in s.threads && n >= 1
    case FutexWake(t, chosen) =>
      && t in s.threads && s.threads[t].Waking?
      && chosen <= Sleepers(s)
      && |chosen| == if s.threads[t].n < |Sleepers(s)| then s.threads[t].n else |Sleepers(s)|
  }

  function Step(s: State, a: Action): State {
    match a
    case Wait(t) =>
      if s.value == 1 then s.(value := 0)
      else s.(threads := s.threads[t := AboutToSleep])
    case FutexWait(t) =>
      if s.value == 0 then s.(threads := s.threads[t := Sleeping])
      else s.(threads := s.threads - {t})
    case GiveUp(t) => s.(threads := s.threads - {t})
    case SpuriousWake(t) => s.(threads := s.threads[t := Woken])
    case Recheck(t) =>
      if s.value == 1 then s.(value := 0, threads := s.threads - {t})
      else s.(threads := s.threads - {t})
    case Wakeup(t, n) =>
      if s.value == 0 then s.(value := 1, threads := s.threads[t := Waking(n)]) else s
    case FutexWake(t, chosen) =>
      s.(threads := map u | u in s.threads && u != t :: if u in chosen then Woken else s.threads[u])
  }

  function Run(s: State, acts: seq<Action>): State {
    if acts == [] then s else Step(Run(s, acts[..|acts| - 1]), acts[|acts| - 1])
  }

  ghost predicate IsRun(s: State, acts: seq<Action>) {
    forall i :: 0 <= i < |acts| ==> Enabled(Run(s, acts[..i]), acts[i])
  }

  function Init(value: int): State {
    State(value, map[])
  }

  // ---------------------------------------------------------------- counting from the actions

  /** A compare-and-set of `wait` that finds the word at 1 makes it return SW_OK. */
  predicate Succeeds(s: State, a: Action) {
    (a.Wait? || a.Recheck?) && s.value == 1
  }

  /** A `wakeup` that finds the word at 0 sets it. */
  predicate Sets(s: State, a: Action) {
    a.Wakeup? && s.value == 0
  }

  function SuccessfulWaits(s: State, acts: seq<Action>): nat {
    if acts == [] then 0
    else
      var before, a := acts[..|acts| - 1], acts[|acts| - 1];
      SuccessfulWaits(s, before) + (if Succeeds(Run(s, before), a) then 1 else 0)
  }

  function WordSets(s: State, acts: seq<Action>): nat {
    if acts == [] then 0
    else
      var before, a := acts[..|acts| - 1], acts[|acts| - 1];
      WordSets(s, before) + (if Sets(Run(s, before), a) then 1 else 0)
  }

  /** The word is set while somebody sleeps only if a wake-up is still on its way. */
  ghost predicate NoLostWakeup(s: State) {
    s.value == 1 && Sleepers(s) != {} ==>
      exists t :: t in s.threads && (s.threads[t].Waking? || s.threads[t] == Woken)
  }

  ghost predicate Positive(s: State) {
    forall t :: t in s.threads && s.threads[t].Waking? ==> s.threads[t].n >= 1
  }

  ghost predicate Sound(s: State) {
    (s.value == 0 || s.value == 1) && Positive(s) && NoLostWakeup(s)
  }

  lemma WakeLeavesSomeoneWoken(s: State, t: Tid, chosen: set<Tid>)
    requires Enabled(s, FutexWake(t, chosen)) && Positive(s)
    ensures NoLostWakeup(Step(s, FutexWake(t, chosen)))
  {
    var s' := Step(s, FutexWake(t, chosen));
    if Sleepers(s') != {} {
      var u :| u in Sleepers(s');
      assert u in Sleepers(s);
      assert chosen != {};
      var w :| w in chosen;
      assert w in s'.threads && s'.threads[w] == Woken;
    }
  }

  lemma StepKeeps(s: State, a: Action)
    requires Sound(s) && Enabled(s, a)
    ensures Sound(Step(s, a))
  {
    var s' := Step(s, a);
    if a.FutexWake? {
      WakeLeavesSomeoneWoken(s, a.t, a.chosen);
    } else if s'.value == 1 && Sleepers(s') != {} {
      if a.Wakeup? && s.value == 0 {
        assert s'.threads[a.t].Waking?;
      } else if a.SpuriousWake? {
        assert s'.threads[a.t] == Woken;
      } else {
        var u :| u in Sleepers(s');
        assert u in Sleepers(s);
        var t :| t in s.threads && (s.threads[t].Waking? || s.threads[t] == Woken);
        assert t in s'.threads;
      }
    }
  }

  /** The word changes by nothing but successful waits, which take it, and sets, which give it. */
  lemma WordMoves(s: State, a: Action)
    requires s.value == 0 || s.value == 1
    ensures Step(s, a).value == s.value - (if Succeeds(s, a) then 1 else 0) + (if Sets(s, a) then 1 else 0)
  {
  }

  /** In every interleaving: successful waits plus the word equal its first value plus the
      0-to-1 sets, and a set word with a sleeper always has a wake-up or a recheck pending. */
  lemma {:induction false} EveryRunIsSound(initial: int, acts: seq<Action>)
    requires initial == 0 || initial == 1
    requires IsRun(Init(initial), acts)
    ensures var s := Run(Init(initial), acts);
            && Sound(s)
            && SuccessfulWaits(Init(initial), acts) + s.value == initial + WordSets(Init(initial), acts)
  {
    if acts != [] {
      var before, a := acts[..|acts| - 1], acts[|acts| - 1];
      forall i | 0 <= i < |before| ensures Enabled(Run(Init(initial), before[..i]), before[i]) {
        assert before[..i] == acts[..i];
      }
      EveryRunIsSound(initial, before);
      StepKeeps(Run(Init(initial), before), a);
      WordMoves(Run(Init(initial), before), a);
    }
  }

  // ---------------------------------------------------------------- what calls bring about

  /** After `wakeup` the word is set, and if it was not before, the kernel is to be told. */
  lemma WakeupSets(s: State, t: Tid, n: nat)
    requires Sound(s) && Enabled(s, Wakeup(t, n))
    ensures var s2 := Step(s, Wakeup(t, n));
            && s2.value == 1
            && (if s.value == 0 then At(s2, t, Waking(n)) else t !in s2.threads)
            && (forall u | u != t :: u in s2.threads <==> u in s.threads)
            && (forall u | u != t && u in s.threads :: s2.threads[u] == s.threads[u])
  {
  }

  /** A wait that finds the word at 0 goes to sleep, unless the word is set in between. */
  lemma WaitSleeps(s: State, t: Tid)
    requires Sound(s)
    ensures Enabled(s, Wait(t)) ==>
              var s2 := Step(s, Wait(t));
              if s.value == 0 then At(s2, t, AboutToSleep) else t !in s2.threads && s2.value == 0
    ensures Enabled(s, FutexWait(t)) ==>
              var s2 := Step(s, FutexWait(t));
              && s2.value == s.value
              && (if s.value == 0 then Sleepers(s2) == Sleepers(s) + {t} else t !in s2.threads && Sleepers(s2) == Sleepers(s))
  {
  }

  /** An action that ends its thread's call: `wait` returns from a compare-and-set that succeeds, from the second one in
      any case, from FUTEX_WAIT if the word is set, and when it gives up; `wakeup` returns if there is nothing to do, and
      from FUTEX_WAKE. */
  predicate Returns(s: State, a: Action) {
    match a
    case Wait(_) => s.value == 1
    case FutexWait(_) => s.value != 0
    case GiveUp(_) => true
    case SpuriousWake(_) => false
    case Recheck(_) => true
    case Wakeup(_, _) => s.value != 0
    case FutexWake(_, _) => true
  }

  /** A thread is outside both calls after exactly those actions of its own, and no action ends or begins another's call. */
  lemma ReturnsExactly(s: State, a: Action)
    requires Sound(s) && Enabled(s, a)
    ensures a.t !in Step(s, a).threads <==> Returns(s, a)
    ensures forall u: Tid | u != a.t :: u in Step(s, a).threads <==> u in s.threads
    ensures forall u: Tid | u != a.t && u in s.threads ::
              Step(s, a).threads[u] == if a.FutexWake? && u in a.chosen then Woken else s.threads[u]
  {
  }

  /** FUTEX_WAKE wakes as many of the sleepers as it was asked to, or all of them. */
  lemma WakeTakesSleepers(s: State, t: Tid, chosen: set<Tid>)
    requires Enabled(s, FutexWake(t, chosen))
    ensures var s2 := Step(s, FutexWake(t, chosen));
            && s2.value == s.value && t !in s2.threads
            && Sleepers(s2) == Sleepers(s) - chosen && forall u | u in chosen :: At(s2, u, Woken)
  {
  }

  lemma RunOne(s: State, acts: seq<Action>, a: Action)
    ensures Run(s, acts + [a]) == Step(Run(s, acts), a)
    ensures SuccessfulWaits(s, acts + [a]) == SuccessfulWaits(s, acts) + (if Succeeds(Run(s, acts), a) then 1 else 0)
  {
    assert (acts + [a])[..|acts|] == acts;
  }

  lemma Extend(s: State, acts: seq<Action>, a: Action)
    requires IsRun(s, acts) && Enabled(Run(s, acts), a)
    ensures IsRun(s, acts + [a])
  {
    forall i | 0 <= i < |acts + [a]| ensures Enabled(Run(s, (acts + [a])[..i]), (acts + [a])[i]) {
      assert (acts + [a])[..i] == acts[..i];
      assert acts[..|acts|] == acts;
    }
  }

  predicate Pending(a: Action) {
    a.FutexWake? || a.Recheck?
  }

  /** After a run that ended with the word set, calls under way can make one more wait succeed. */
  lemma DeliverAfter(s: State, done: seq<Action>) returns (acts: seq<Action>)
    requires IsRun(s, done) && Sound(Run(s, done)) && Run(s, done).value == 1 && Sleepers(Run(s, done)) != {}
    ensures done <= acts && |acts| <= |done| + 2 && IsRun(s, acts)
    ensures forall i :: |done| <= i < |acts| ==> Pending(acts[i])
    ensures Run(s, acts).value == 0 && SuccessfulWaits(s, acts) == SuccessfulWaits(s, done) + 1
  {
    var s1 := Run(s, done);
    var t :| t in s1.threads && (s1.threads[t].Waking? || s1.threads[t] == Woken);
    acts := done;
    var w := t;
    if s1.threads[t].Waking? {
      var chosen := ChooseSome(Sleepers(s1), s1.threads[t].n);
      Extend(s, done, FutexWake(t, chosen));
      RunOne(s, done, FutexWake(t, chosen));
      acts := done + [FutexWake(t, chosen)];
      w :| w in chosen;
      WakeTakesSleepers(s1, t, chosen);
    }
    assert At(Run(s, acts), w, Woken);
    Extend(s, acts, Recheck(w));
    RunOne(s, acts, Recheck(w));
    acts := acts + [Recheck(w)];
  }

  /** Nobody sleeps forever on a set word: the calls already under way can always go on, with no
      new call, until one more wait has succeeded. */
  lemma PendingCallsDeliver(s: State) returns (acts: seq<Action>)
    requires Sound(s) && s.value == 1 && Sleepers(s) != {}
    ensures |acts| <= 2 && IsRun(s, acts)
    ensures forall a :: a in acts ==> Pending(a)
    ensures Run(s, acts).value == 0 && SuccessfulWaits(s, acts) == 1
  {
    acts := DeliverAfter(s, []);
  }

  /** And one `wakeup` on a word that is not set, followed by calls under way, makes a sleeper's wait succeed. */
  lemma WakeupDelivers(s: State, t: Tid, n: nat) returns (acts: seq<Action>)
    requires Sound(s) && s.value == 0 && Sleepers(s) != {} && Enabled(s, Wakeup(t, n))
    ensures 1 <= |acts| <= 3 && acts[0] == Wakeup(t, n) && IsRun(s, acts)
    ensures forall i :: 1 <= i < |acts| ==> Pending(acts[i])
    ensures Run(s, acts).value == 0 && SuccessfulWaits(s, acts) == 1
  {
    var first := [] + [Wakeup(t, n)];
    Extend(s, [], Wakeup(t, n));
    RunOne(s, [], Wakeup(t, n));
    StepKeeps(s, Wakeup(t, n));
    WakeupSets(s, t, n);
    var u :| u in Sleepers(s);
    assert u in Sleepers(Run(s, first));
    acts := DeliverAfter(s, first);
    assert acts[..1] == first;
  }

  /** Some subset with min(n, |from|) members. */
  lemma ChooseSome(from: set<Tid>, n: nat) returns (chosen: set<Tid>)
    ensures chosen <= from && |chosen| == if n < |from| then n else |from|
  {
    if n >= |from| {
      chosen := from;
    } else if n == 0 {
      chosen := {};
    } else {
      var x :| x in from;
      var rest := ChooseSome(from - {x}, n - 1);
      chosen := rest + {x};
    }
  }
}
