/**
 Which coroutine runs, which ones wait below it and which ones are parked: the base
 `Coroutine` class, the user yield/resume table and the interrupt resume.
 */
module Scheduler {
  import opened Coroutines
  import opened PhpBytes

  /** Why a coroutine gave up the processor. The source keeps no such field; it is history. */
  datatype Reason = UserYield | Interrupt | Io

  /** `alive` is `Coroutine::coroutines`, `table` is `user_yield_coros`, `deferred` is the queue
      of `coro_interrupt_resume` calls handed to the event loop. */
  datatype Sched = Sched(
    maxNum: nat,
    alive: set<Cid>,
    lastCid: nat,
    current: Cid,
    origin: map<Cid, Cid>,
    parked: map<Cid, Reason>,
    table: set<Cid>,
    deferred: seq<Cid>)

  datatype Event =
    | Create
    | YieldByUser
    | YieldForIo
    | YieldByInterrupt
    | ResumeByUser(cid: Cid)
    | ResumeByIo(cid: Cid)
    | RunDeferred
    | Close

  /** The context swap that an event makes. */
  datatype Switch = Stay | Start(cid: Cid) | Suspend(cid: Cid) | Wake(cid: Cid) | Finish(cid: Cid)

  function Init(maxNum: nat): Sched {
    Sched(maxNum, {}, 0, MAIN, map[], map[], {}, [])
  }

  /** `get_origin`: a null origin is the main program. */
  function Origin(s: Sched, c: Cid): Cid {
    if c in s.origin then s.origin[c] else MAIN
  }

  function SwitchOf(s: Sched, e: Event): Switch {
    match e
    case Create => if |s.alive| >= s.maxNum then Stay else Start(s.lastCid + 1)
    case YieldByUser | YieldForIo | YieldByInterrupt =>
      if s.current == MAIN then Stay else Suspend(s.current)
    case ResumeByUser(cid) => if cid in s.table then Wake(cid) else Stay
    case ResumeByIo(cid) => if cid in s.parked && s.parked[cid] == Io then Wake(cid) else Stay
    case RunDeferred => if s.deferred != [] && s.deferred[0] in s.alive then Wake(s.deferred[0]) else Stay
    case Close => if s.current == MAIN then Stay else Finish(s.current)
  }

  function SuspendFor(s: Sched, why: Reason): Sched {
    s.(parked := s.parked[s.current := why], current := Origin(s, s.current))
  }

  function WakeUp(s: Sched, c: Cid): Sched {
    s.(parked := s.parked - {c}, origin := s.origin[c := s.current], current := c)
  }

  function Step(s: Sched, e: Event): Sched {
    match e
    case Create =>
      if |s.alive| >= s.maxNum then s
      else
        var c := s.lastCid + 1;
        s.(alive := s.alive + {c}, lastCid := c, origin := s.origin[c := s.current], current := c)
    case YieldByUser =>
      if s.current == MAIN then s else SuspendFor(s.(table := s.table + {s.current}), UserYield)
    case YieldForIo =>
      if s.current == MAIN then s else SuspendFor(s, Io)
    case YieldByInterrupt =>
      if s.current == MAIN then s else SuspendFor(s.(deferred := s.deferred + [s.current]), Interrupt)
    case ResumeByUser(cid) =>
      if cid in s.table then WakeUp(s.(table := s.table - {cid}), cid) else s
    case ResumeByIo(cid) =>
      if cid in s.parked && s.parked[cid] == Io then WakeUp(s, cid) else s
    case RunDeferred =>
      if s.deferred == [] then s
      else
        var rest := s.(deferred := s.deferred[1..]);
        if s.deferred[0] in s.alive then WakeUp(rest, s.deferred[0]) else rest
    case Close =>
      if s.current == MAIN then s
      else s.(alive := s.alive - {s.current}, current := Origin(s, s.current))
  }

  function Run(s: Sched, es: seq<Event>): Sched {
    if es == [] then s else Step(Run(s, es[..|es| - 1]), es[|es| - 1])
  }

  /** Who runs and who lives after an event, by the switch that it makes. */
  lemma SwitchMoves(s: Sched, e: Event)
    ensures var s1, w := Step(s, e), SwitchOf(s, e);
            && (w.Stay? ==> s1.current == s.current && s1.alive == s.alive)
            && (w.Start? ==> w.cid == s.lastCid + 1 == s1.current && s1.alive == s.alive + {w.cid})
            && (w.Suspend? ==> w.cid == s.current != MAIN && s1.current == Origin(s, w.cid) && s1.alive == s.alive)
            && (w.Wake? ==> s1.current == w.cid && s1.alive == s.alive
                            && (w.cid in s.table || w.cid in s.deferred || w.cid in s.parked))
            && (w.Finish? ==> w.cid == s.current != MAIN && s1.current == Origin(s, w.cid) && s1.alive == s.alive - {w.cid})
  {
  }

  // ---------------------------------------------------------------- invariant

  ghost predicate Distinct(cs: seq<Cid>) {
    forall i, j :: 0 <= i < j < |cs| ==> cs[i] != cs[j]
  }

  /** `chain` lists the current coroutine, its origin, the origin of that, ... down to main. */
  ghost predicate IsOriginChain(s: Sched, chain: seq<Cid>) {
    && |chain| > 0
    && chain[0] == s.current
    && chain[|chain| - 1] == MAIN
    && (forall i :: 0 <= i < |chain| - 1 ==> chain[i] in s.origin && s.origin[chain[i]] == chain[i + 1])
    && Distinct(chain)
  }

  /** Every live coroutine is either on the origin chain or parked, never both. */
  ghost predicate EveryoneSomewhere(s: Sched, chain: seq<Cid>) {
    && (forall c :: c in s.alive <==> (c in chain && c != MAIN) || c in s.parked)
    && (forall c :: c in s.parked ==> c !in chain)
    && (forall c :: c in s.alive ==> 1 <= c <= s.lastCid)
  }

  /** Each parked coroutine has exactly the one wake-up source its reason calls for. */
  ghost predicate OneWakeSource(s: Sched) {
    && (forall c :: c in s.table <==> c in s.parked && s.parked[c] == UserYield)
    && (forall c :: c in s.deferred <==> c in s.parked && s.parked[c] == Interrupt)
    && Distinct(s.deferred)
  }

  ghost predicate Consistent(s: Sched, chain: seq<Cid>) {
    IsOriginChain(s, chain) && EveryoneSomewhere(s, chain) && OneWakeSource(s)
  }

  ghost predicate OriginsReach(s: Sched) {
    exists chain: seq<Cid> :: Consistent(s, chain)
  }

  lemma TailOfChain(s: Sched, chain: seq<Cid>)
    requires IsOriginChain(s, chain) && s.current != MAIN
    ensures |chain| > 1 && chain[1] == Origin(s, s.current)
    ensures forall c :: c in chain[1..] <==> c in chain && c != s.current
  {
    assert chain == [chain[0]] + chain[1..];
  }

  lemma SuspendKeeps(s: Sched, chain: seq<Cid>, why: Reason)
    requires Consistent(s, chain) && s.current != MAIN
    ensures var s1 := match why
                      case UserYield => s.(table := s.table + {s.current})
                      case Interrupt => s.(deferred := s.deferred + [s.current])
                      case Io => s;
            Consistent(SuspendFor(s1, why), chain[1..])
  {
    TailOfChain(s, chain);
    assert s.current in chain;
  }

  lemma WakeByUserKeeps(s: Sched, chain: seq<Cid>, c: Cid)
    requires Consistent(s, chain) && c in s.table
    ensures Consistent(WakeUp(s.(table := s.table - {c}), c), [c] + chain)
  {
    assert c !in chain;
  }

  lemma WakeByIoKeeps(s: Sched, chain: seq<Cid>, c: Cid)
    requires Consistent(s, chain) && c in s.parked && s.parked[c] == Io
    ensures Consistent(WakeUp(s, c), [c] + chain)
  {
    assert c !in chain;
  }

  lemma WakeDeferredKeeps(s: Sched, chain: seq<Cid>)
    requires Consistent(s, chain) && s.deferred != []
    ensures s.deferred[0] in s.alive
    ensures Consistent(WakeUp(s.(deferred := s.deferred[1..]), s.deferred[0]), [s.deferred[0]] + chain)
  {
    var c := s.deferred[0];
    assert c in s.parked && c !in chain;
    assert s.deferred == [c] + s.deferred[1..];
  }

  lemma StartKeeps(s: Sched, chain: seq<Cid>)
    requires Consistent(s, chain) && |s.alive| < s.maxNum
    ensures Consistent(Step(s, Create), [s.lastCid + 1] + chain)
  {
    var c := s.lastCid + 1;
    assert c !in s.alive;
    assert c !in chain;
  }

  lemma FinishKeeps(s: Sched, chain: seq<Cid>)
    requires Consistent(s, chain) && s.current != MAIN
    ensures Consistent(Step(s, Close), chain[1..])
  {
    TailOfChain(s, chain);
    assert s.current in chain;
  }

  lemma StepKeeps(s: Sched, e: Event, chain: seq<Cid>) returns (after: seq<Cid>)
    requires Consistent(s, chain)
    ensures Consistent(Step(s, e), after)
    ensures after == match SwitchOf(s, e)
                     case Stay => chain
                     case Start(c) => [c] + chain
                     case Wake(c) => [c] + chain
                     case Suspend(_) => chain[1..]
                     case Finish(_) => chain[1..]
  {
    after := chain;
    match e
    case Create => if |s.alive| < s.maxNum { StartKeeps(s, chain); after := [s.lastCid + 1] + chain; }
    case YieldByUser => if s.current != MAIN { SuspendKeeps(s, chain, UserYield); after := chain[1..]; }
    case YieldForIo => if s.current != MAIN { SuspendKeeps(s, chain, Io); after := chain[1..]; }
    case YieldByInterrupt => if s.current != MAIN { SuspendKeeps(s, chain, Interrupt); after := chain[1..]; }
    case ResumeByUser(cid) => if cid in s.table { WakeByUserKeeps(s, chain, cid); after := [cid] + chain; }
    case ResumeByIo(cid) =>
      if cid in s.parked && s.parked[cid] == Io { WakeByIoKeeps(s, chain, cid); after := [cid] + chain; }
    case RunDeferred => if s.deferred != [] { WakeDeferredKeeps(s, chain); after := [s.deferred[0]] + chain; }
    case Close => if s.current != MAIN { FinishKeeps(s, chain); after := chain[1..]; }
  }

  lemma {:induction false} RunKeeps(maxNum: nat, es: seq<Event>) returns (chain: seq<Cid>)
    ensures Consistent(Run(Init(maxNum), es), chain)
  {
    if es == [] {
      chain := [MAIN];
    } else {
      chain := RunKeeps(maxNum, es[..|es| - 1]);
      chain := StepKeeps(Run(Init(maxNum), es[..|es| - 1]), es[|es| - 1], chain);
    }
  }

  /** After every run: the origins from the current coroutine reach main without repetition;
      a cid is in the user table exactly when a user yield parked it, awaits the event loop
      exactly when an interrupt parked it, and nobody awaits both. */
  lemma OriginsReachMain(maxNum: nat, es: seq<Event>)
    ensures var s := Run(Init(maxNum), es);
            && OriginsReach(s)
            && (forall c :: c in s.table ==> c !in s.deferred)
  {
    var chain := RunKeeps(maxNum, es);
    var s := Run(Init(maxNum), es);
    assert Consistent(s, chain);
    assert OriginsReach(s);
  }

  // ---------------------------------------------------------------- one resume per yield

  ghost function UserYields(s: Sched, es: seq<Event>, c: Cid): nat {
    if es == [] then 0
    else
      var before := Run(s, es[..|es| - 1]);
      UserYields(s, es[..|es| - 1], c) +
      if es[|es| - 1] == YieldByUser && before.current == c && c != MAIN then 1 else 0
  }

  /** Calls of `Coroutine::resume(c)` that returned true. */
  ghost function UserResumes(s: Sched, es: seq<Event>, c: Cid): nat {
    if es == [] then 0
    else
      var before := Run(s, es[..|es| - 1]);
      UserResumes(s, es[..|es| - 1], c) +
      if es[|es| - 1] == ResumeByUser(c) && c in before.table then 1 else 0
  }

  /** Each user yield is answered by at most one successful user resume, and an unanswered one
      is exactly an entry of the table. */
  lemma {:induction false} EachYieldResumedOnce(maxNum: nat, es: seq<Event>, c: Cid)
    ensures var s := Run(Init(maxNum), es);
            UserYields(Init(maxNum), es, c) ==
            UserResumes(Init(maxNum), es, c) + if c in s.table then 1 else 0
  {
    if es != [] {
      var init := es[..|es| - 1];
      EachYieldResumedOnce(maxNum, init, c);
      var before := Run(Init(maxNum), init);
      var chain := RunKeeps(maxNum, init);
      assert before.current in chain;
    }
  }

  predicate WaitsForIo(s: Sched, c: Cid) {
    c in s.parked && s.parked[c] == Io
  }

  ghost function IoYields(s: Sched, es: seq<Event>, c: Cid): nat {
    if es == [] then 0
    else
      var before := Run(s, es[..|es| - 1]);
      IoYields(s, es[..|es| - 1], c) +
      if es[|es| - 1] == YieldForIo && before.current == c && c != MAIN then 1 else 0
  }

  /** Events that came for c while it was waiting for one. */
  ghost function IoResumes(s: Sched, es: seq<Event>, c: Cid): nat {
    if es == [] then 0
    else
      IoResumes(s, es[..|es| - 1], c) +
      if es[|es| - 1] == ResumeByIo(c) && WaitsForIo(Run(s, es[..|es| - 1]), c) then 1 else 0
  }

  lemma IoMoves(s: Sched, e: Event, c: Cid, chain: seq<Cid>)
    requires Consistent(s, chain)
    ensures (e == YieldForIo && s.current == c && c != MAIN) ==> !WaitsForIo(s, c)
    ensures WaitsForIo(Step(s, e), c)
            <==> (e == YieldForIo && s.current == c && c != MAIN) || (WaitsForIo(s, c) && e != ResumeByIo(c))
  {
    assert s.current in chain;
    if e == RunDeferred && s.deferred != [] {
      assert s.deferred[0] in s.deferred;
    }
  }

  /** So is each blocking call, by one event. */
  lemma {:induction false} EachIoYieldResumedOnce(maxNum: nat, es: seq<Event>, c: Cid)
    ensures IoYields(Init(maxNum), es, c)
            == IoResumes(Init(maxNum), es, c) + if WaitsForIo(Run(Init(maxNum), es), c) then 1 else 0
  {
    if es != [] {
      var init := es[..|es| - 1];
      EachIoYieldResumedOnce(maxNum, init, c);
      var chain := RunKeeps(maxNum, init);
      IoMoves(Run(Init(maxNum), init), es[|es| - 1], c, chain);
    }
  }

  function ParkedIn(s: Sched, e: Event): seq<Cid> {
    if e == YieldByInterrupt && s.current != MAIN then [s.current] else []
  }

  /** Who runs after a turn of the event loop that had a resume to make. */
  function WokenIn(s: Sched, e: Event): seq<Cid> {
    if e == RunDeferred && s.deferred != [] then [Step(s, e).current] else []
  }

  /** The coroutines that interrupts parked, in order. */
  ghost function Interrupted(s: Sched, es: seq<Event>): seq<Cid> {
    if es == [] then [] else Interrupted(s, es[..|es| - 1]) + ParkedIn(Run(s, es[..|es| - 1]), es[|es| - 1])
  }

  /** Those that the event loop woke, in order. */
  ghost function WokenByLoop(s: Sched, es: seq<Event>): seq<Cid> {
    if es == [] then [] else WokenByLoop(s, es[..|es| - 1]) + WokenIn(Run(s, es[..|es| - 1]), es[|es| - 1])
  }

  lemma DeferredMoves(s: Sched, e: Event, chain: seq<Cid>)
    requires Consistent(s, chain)
    ensures s.deferred + ParkedIn(s, e) == WokenIn(s, e) + Step(s, e).deferred
  {
    if e == RunDeferred && s.deferred != [] {
      WakeDeferredKeeps(s, chain);
    }
  }

  /** Interrupted coroutines are woken in the order in which they were parked, and none is left out. */
  lemma {:induction false} InterruptsInOrder(maxNum: nat, es: seq<Event>)
    ensures Interrupted(Init(maxNum), es) == WokenByLoop(Init(maxNum), es) + Run(Init(maxNum), es).deferred
  {
    if es != [] {
      var init, e := es[..|es| - 1], es[|es| - 1];
      var s := Run(Init(maxNum), init);
      InterruptsInOrder(maxNum, init);
      var chain := RunKeeps(maxNum, init);
      DeferredMoves(s, e, chain);
      Shift(WokenByLoop(Init(maxNum), init), s.deferred, ParkedIn(s, e), WokenIn(s, e), Step(s, e).deferred);
    }
  }

  /** What an event adds to the number of live coroutines. */
  function Births(s: Sched, e: Event): int {
    match e
    case Create => if |s.alive| < s.maxNum then 1 else 0
    case Close => if s.current != MAIN then -1 else 0
    case _ => 0
  }

  ghost function Living(s: Sched, es: seq<Event>): int {
    if es == [] then 0 else Living(s, es[..|es| - 1]) + Births(Run(s, es[..|es| - 1]), es[|es| - 1])
  }

  lemma LivingMoves(s: Sched, e: Event, chain: seq<Cid>)
    requires Consistent(s, chain)
    ensures |Step(s, e).alive| == |s.alive| + Births(s, e) && Step(s, e).maxNum == s.maxNum
  {
    if e == Close && s.current != MAIN {
      assert s.current in chain;
    } else if e == Create {
      assert s.lastCid + 1 !in s.alive;
    }
  }

  /** Creations below the limit minus ends are the live coroutines, never more than the limit. */
  lemma {:induction false} LiveCount(maxNum: nat, es: seq<Event>)
    ensures var s := Run(Init(maxNum), es);
            |s.alive| == Living(Init(maxNum), es) && |s.alive| <= maxNum && s.maxNum == maxNum
  {
    if es != [] {
      var init := es[..|es| - 1];
      LiveCount(maxNum, init);
      var chain := RunKeeps(maxNum, init);
      LivingMoves(Run(Init(maxNum), init), es[|es| - 1], chain);
    }
  }
}
