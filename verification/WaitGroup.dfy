/**
 `Swoole\Coroutine\WaitGroup` over the real channel: a count, a waiting flag and a channel of
 capacity 1. Steps are the stretches between yield points.
 */
module WaitGroup {
  import opened Channel
  import opened Coroutines

  datatype Group = Group(count: int, waiting: bool, chan: Chan<bool>)

  datatype Call =
    | Add(delta: int)
    | Done(co: Cid)
    | Wait(co: Cid)
    | TimeUp(co: Cid)   // the timer of a waiting pop fires

  datatype Reply =
    | Ok
    | Throws
    | Waits
    | WaitReturns(ok: bool)

  function Init(): Group {
    Group(0, false, New(1))
  }

  /** The state after a call and what some coroutine is told: the caller, or the waiter whose
      `wait` the call completed. */
  function Step(g: Group, c: Call): (r: (Group, Reply)) {
    match c
    case Add(delta) =>
      if g.waiting then (g, Throws)
      else if g.count + delta < 0 then (g, Throws)
      else (g.(count := g.count + delta), Ok)
    case Done(co) =>
      if g.count - 1 < 0 then (g, Throws)
      else
        var g1 := g.(count := g.count - 1);
        if g1.count == 0 && g.waiting then
          var (ch, out) := Push(g.chan, co, true);
          match out
          case Handed(_, got) => (g1.(chan := ch, waiting := false), WaitReturns(got))
          case _ => (g1.(chan := ch), Ok)
        else (g1, Ok)
    case Wait(co) =>
      if g.waiting then (g, Throws)
      else if g.count > 0 then
        var (ch, out) := Pop(g.chan, co);
        match out
        case PopWaits => (g.(waiting := true, chan := ch), Waits)
        case Got(v) => (g.(chan := ch), WaitReturns(v))
        case PopRefused => (g, WaitReturns(false))
      else (g, WaitReturns(true))
    case TimeUp(co) =>
      if co in g.chan.consumers
      then (g.(chan := ConsumerTimeout(g.chan, co), waiting := false), WaitReturns(false))
      else (g, Ok)
  }

  function Run(g: Group, cs: seq<Call>): Group {
    if cs == [] then g else Step(Run(g, cs[..|cs| - 1]), cs[|cs| - 1]).0
  }

  ghost predicate Sound(g: Group) {
    && g.count >= 0
    && Valid(g.chan) && !g.chan.closed
    && Queue(g.chan) == []
    && |g.chan.consumers| == (if g.waiting then 1 else 0)
    && (g.waiting ==> g.count > 0)
  }

  /** `wait` answers true exactly in a state whose count is 0, and false only while it is not. */
  ghost predicate HonestReply(after: Group, r: Reply) {
    r.WaitReturns? ==> (r.ok <==> after.count == 0) && !after.waiting
  }

  lemma StepKeeps(g: Group, c: Call)
    requires Sound(g)
    ensures Sound(Step(g, c).0) && HonestReply(Step(g, c).0, Step(g, c).1)
  {
    match c
    case Done(co) => PushIsFifo(g.chan, co, true);
    case Wait(co) => PopIsFifo(g.chan, co);
    case TimeUp(co) =>
      if co in g.chan.consumers {
        TimeoutKeeps(g.chan, co);
        assert g.chan.consumers == [co];
        assert Without([co], co) == [];
      }
    case Add(_) =>
  }

  /** When a call throws, and that it then changes nothing. */
  lemma ThrowsExactly(g: Group, c: Call)
    requires Sound(g)
    ensures Step(g, c).1.Throws? <==>
              match c
              case Add(delta) => g.waiting || g.count + delta < 0
              case Done(_) => g.count == 0
              case Wait(_) => g.waiting
              case TimeUp(_) => false
    ensures Step(g, c).1.Throws? ==> Step(g, c).0 == g
  {
    match c
    case Done(co) => PushIsFifo(g.chan, co, true);
    case Wait(co) => PopIsFifo(g.chan, co);
    case _ =>
  }

  /** When a `wait` goes to sleep, and what ends it: the last `done`, or its timer. */
  lemma WaitsExactly(g: Group, c: Call)
    requires Sound(g)
    ensures var (g2, r) := Step(g, c);
            && (r.Waits? <==> c.Wait? && !g.waiting && g.count > 0)
            && (r.Waits? ==> g2.waiting && g2.chan.consumers == [c.co])
            && (g.waiting && !g2.waiting <==> (c.Done? && g.waiting && g.count == 1) || (c.TimeUp? && c.co in g.chan.consumers))
            && (g.waiting && !g2.waiting ==> r == WaitReturns(c.Done?))
            && (c.Wait? && !g.waiting && g.count == 0 ==> r == WaitReturns(true))
  {
    match c
    case Done(co) => PushIsFifo(g.chan, co, true);
    case Wait(co) => PopIsFifo(g.chan, co);
    case TimeUp(co) =>
      if co in g.chan.consumers {
        TimeoutKeeps(g.chan, co);
      }
    case Add(_) =>
  }

  /** What a call that does not throw is to do to the count. */
  function Delta(c: Call): int {
    match c
    case Add(delta) => delta
    case Done(_) => -1
    case _ => 0
  }

  /** The deltas of the calls of a run that did not throw. */
  function Balance(cs: seq<Call>): int {
    if cs == [] then 0
    else
      var before, c := cs[..|cs| - 1], cs[|cs| - 1];
      Balance(before) + (if Step(Run(Init(), before), c).1.Throws? then 0 else Delta(c))
  }

  lemma CountMoves(g: Group, c: Call)
    requires Sound(g)
    ensures Step(g, c).0.count == g.count + (if Step(g, c).1.Throws? then 0 else Delta(c))
  {
    match c
    case Done(co) => PushIsFifo(g.chan, co, true);
    case Wait(co) => PopIsFifo(g.chan, co);
    case _ =>
  }

  /** Over every run: the count is what the calls that did not throw add up to, and never
      negative; nothing is left in the channel; a coroutine sleeps in `wait` only while the count
      is positive; and the next call answers `wait` with true exactly at count 0. */
  lemma {:induction false} EveryRunIsSound(cs: seq<Call>, next: Call)
    ensures var g := Run(Init(), cs);
            && Sound(g) && g.count == Balance(cs)
            && HonestReply(Step(g, next).0, Step(g, next).1)
  {
    if cs != [] {
      var before, c := cs[..|cs| - 1], cs[|cs| - 1];
      EveryRunIsSound(before, c);
      StepKeeps(Run(Init(), before), c);
      CountMoves(Run(Init(), before), c);
    }
    StepKeeps(Run(Init(), cs), next);
  }
}
