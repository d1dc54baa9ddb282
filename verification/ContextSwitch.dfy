/**
 Swapping the one set of PHP engine globals between coroutines. The executor, basic and output
 globals are saved to and restored from `php_coro_task` records; each kind of field has its own
 save rule. The ideal machine below gives every coroutine private copies instead.
 */
module ContextSwitch {
  import opened Coroutines
  import opened PhpBytes
  import opened Scheduler

  /** The executor globals that every switch copies. Pointers and handles are opaque integers. */
  datatype Vm = Vm(
    bailout: int, stackTop: int, stackEnd: int, stack: int, pageSize: int,
    executeData: int, errorHandling: int, exceptionClass: int, exception: int)

  /** `BG(array_walk_fci)`; a size of 0 says that no `array_walk` is in progress. */
  datatype Walk = Walk(size: nat, callee: int)

  /** The output globals: the stack of output buffers and everything else in the struct. */
  datatype Output = Output(handlers: seq<int>, flags: int)

  datatype Globals = Globals(vm: Vm, walk: Walk, out: Output, level: int)

  datatype Task = Task(
    vm: Vm,
    outputPtr: Option<Output>,
    walkFci: Option<Walk>,
    inSilence: bool, oriLevel: int, tmpLevel: int)

  const NO_VM := Vm(0, 0, 0, 0, 0, 0, 0, 0, 0)
  const NO_WALK := Walk(0, 0)
  const PHP_OUTPUT_ACTIVATED := 0x100000

  /** What `php_output_activate` leaves behind. */
  const NO_OUTPUT := Output([], PHP_OUTPUT_ACTIVATED)

  /** A zeroed record: `main_task`, and the fields `main_func` resets. */
  const ZERO_TASK := Task(NO_VM, None, None, false, 0, 0)

  // ---------------------------------------------------------------- save and restore

  function SaveVmStack(g: Globals, t: Task): (r: (Globals, Task)) {
    var t1 := t.(vm := g.vm, walkFci := if g.walk.size != 0 then Some(g.walk) else t.walkFci);
    var g1 := g.(walk := if g.walk.size != 0 then NO_WALK else g.walk);
    if t.inSilence then (g1.(level := t.oriLevel), t1.(tmpLevel := g.level)) else (g1, t1)
  }

  function RestoreVmStack(g: Globals, t: Task): (r: (Globals, Task)) {
    var g1 := g.(vm := t.vm, level := if t.inSilence then t.tmpLevel else g.level);
    if t.walkFci.Some? && t.walkFci.value.size != 0
    then (g1.(walk := t.walkFci.value), t.(walkFci := Some(t.walkFci.value.(size := 0))))
    else (g1, t)
  }

  function SaveOg(g: Globals, t: Task): (r: (Globals, Task)) {
    if g.out.handlers != [] then (g.(out := NO_OUTPUT), t.(outputPtr := Some(g.out)))
    else (g, t.(outputPtr := None))
  }

  function RestoreOg(g: Globals, t: Task): (r: (Globals, Task)) {
    if t.outputPtr.Some? then (g.(out := t.outputPtr.value), t.(outputPtr := None)) else (g, t)
  }

  function SaveTask(g: Globals, t: Task): (r: (Globals, Task)) {
    var (g1, t1) := SaveVmStack(g, t); SaveOg(g1, t1)
  }

  function RestoreTask(g: Globals, t: Task): (r: (Globals, Task)) {
    var (g1, t1) := RestoreVmStack(g, t); RestoreOg(g1, t1)
  }

  // ---------------------------------------------------------------- the machine

  /** `saves` holds, per coroutine, the operands of its open `@` operators: the levels that the
      engine's BEGIN_SILENCE opcode put into the coroutine's own frame. */
  datatype Machine = Machine(sched: Sched, g: Globals, tasks: map<Cid, Task>, saves: map<Cid, seq<int>>)

  datatype VmEvent =
    | Swap(event: Event, start: Vm)   // `start`: the frame `main_func` builds for a new coroutine
    | SetVm(vm: Vm)
    | SetWalk(walk: Walk)
    | SetOutput(out: Output)
    | BeginSilence
    | EndSilence

  function TaskOf(m: Machine, c: Cid): Task {
    if c in m.tasks then m.tasks[c] else ZERO_TASK
  }

  function SavesOf(saves: map<Cid, seq<int>>, c: Cid): seq<int> {
    if c in saves then saves[c] else []
  }

  /** Save into `from`, restore out of `to`: what `on_yield` and `on_resume` both do. */
  function Exchange(m: Machine, from: Cid, to: Cid): Machine {
    var (g1, t1) := SaveTask(m.g, TaskOf(m, from));
    var (g2, t2) := RestoreTask(g1, TaskOf(m, to));
    m.(g := g2, tasks := m.tasks[from := t1][to := t2])
  }

  /** `create` saves the creator; `main_func` fills in the globals and a fresh record. */
  function Launch(m: Machine, from: Cid, c: Cid, start: Vm): Machine {
    var (g1, t1) := SaveTask(m.g, TaskOf(m, from));
    var (g2, t2) := SaveVmStack(g1.(vm := start), ZERO_TASK);
    m.(g := g2, tasks := m.tasks[from := t1][c := t2], saves := m.saves[c := []])
  }

  /** `on_close`: flush and reset the output layer, drop the record, restore the origin. */
  function Leave(m: Machine, c: Cid, to: Cid): Machine {
    var g1 := if m.g.out.handlers != [] then m.g.(out := NO_OUTPUT) else m.g;
    var (g2, t2) := RestoreTask(g1, TaskOf(m, to));
    m.(g := g2, tasks := m.tasks[to := t2] - {c}, saves := m.saves - {c})
  }

  /** A switch of coroutines that leads to the schedule `s`. */
  function Switched(m: Machine, w: Switch, start: Vm, s: Sched): Machine {
    (match w
     case Stay => m
     case Start(c) => Launch(m, m.sched.current, c, start)
     case Suspend(c) => Exchange(m, c, s.current)
     case Wake(c) => Exchange(m, m.sched.current, c)
     case Finish(c) => Leave(m, c, s.current)).(sched := s)
  }

  function SwapStep(m: Machine, e: Event, start: Vm): Machine {
    Switched(m, SwitchOf(m.sched, e), start, Step(m.sched, e))
  }

  function MachineStep(m: Machine, e: VmEvent): Machine {
    var cur := m.sched.current;
    match e
    case Swap(event, start) => SwapStep(m, event, start)
    case SetVm(vm) => m.(g := m.g.(vm := vm))
    case SetWalk(walk) => m.(g := m.g.(walk := walk))
    case SetOutput(out) => m.(g := m.g.(out := out))
    case BeginSilence =>
      m.(tasks := m.tasks[cur := TaskOf(m, cur).(inSilence := true, oriLevel := m.g.level)],
         saves := m.saves[cur := SavesOf(m.saves, cur) + [m.g.level]],
         g := m.g.(level := 0))
    case EndSilence =>
      var saves := SavesOf(m.saves, cur);
      if saves == [] then m
      else
        m.(tasks := m.tasks[cur := TaskOf(m, cur).(inSilence := false)],
           saves := m.saves[cur := saves[..|saves| - 1]],
           g := m.g.(level := Unsilenced(m.g.level, saves[|saves| - 1])))
  }

  /** The engine's END_SILENCE puts the saved level back unless someone raised it meanwhile. */
  function Unsilenced(level: int, saved: int): int {
    if level == 0 && saved != 0 then saved else level
  }

  function Boot(maxNum: nat, vm: Vm, base: int): Machine {
    Machine(Init(maxNum), Globals(vm, NO_WALK, NO_OUTPUT, base), map[MAIN := ZERO_TASK], map[MAIN := []])
  }

  function RunMachine(m: Machine, es: seq<VmEvent>): Machine {
    if es == [] then m else MachineStep(RunMachine(m, es[..|es| - 1]), es[|es| - 1])
  }

  /** The schedule is consistent, and exactly the live coroutines and main have records. */
  ghost predicate Intact(m: Machine, chain: seq<Cid>) {
    Consistent(m.sched, chain) && m.tasks.Keys == m.saves.Keys == m.sched.alive + {MAIN}
  }

  /** The running coroutine, and the one below it, have records of their own. */
  ghost predicate Ready(m: Machine) {
    var s := m.sched;
    && s.current in m.tasks && s.current in m.saves && s.lastCid + 1 != s.current
    && (s.current != MAIN ==> Origin(s, s.current) in m.tasks && Origin(s, s.current) != s.current)
    && (forall c | c in s.parked :: c in m.tasks && c != s.current)
    && (forall c | c in s.table :: c in s.parked)
    && (forall c | c in s.deferred :: c in s.parked && c in s.alive)
  }

  lemma IntactIsReady(m: Machine, chain: seq<Cid>)
    requires Intact(m, chain)
    ensures Ready(m)
  {
    var s := m.sched;
    assert s.current in chain;
    if s.current != MAIN {
      TailOfChain(s, chain);
      assert chain[1] in chain;
    }
  }

  lemma ExchangeKeys(m: Machine, from: Cid, to: Cid)
    requires from in m.tasks && to in m.tasks
    ensures Exchange(m, from, to).tasks.Keys == m.tasks.Keys && Exchange(m, from, to).saves == m.saves
  {
  }

  lemma LaunchKeys(m: Machine, from: Cid, c: Cid, start: Vm)
    requires from in m.tasks
    ensures var m1 := Launch(m, from, c, start);
            m1.tasks.Keys == m.tasks.Keys + {c} && m1.saves.Keys == m.saves.Keys + {c}
  {
  }

  lemma LeaveKeys(m: Machine, c: Cid, to: Cid)
    requires to in m.tasks
    ensures var m1 := Leave(m, c, to);
            m1.tasks.Keys == m.tasks.Keys - {c} && m1.saves.Keys == m.saves.Keys - {c}
  {
  }

  /** A switch as the schedule of a machine allows it. */
  ghost predicate IsSwitch(m: Machine, w: Switch, s: Sched) {
    var cur, all := m.sched.current, m.sched.alive + {MAIN};
    && cur in all && m.tasks.Keys == all && m.saves.Keys == all
    && match w
       case Stay => s.current == cur && s.alive == m.sched.alive
       case Start(c) => s.current == c && c !in all && s.alive == m.sched.alive + {c}
       case Suspend(c) => c == cur && s.current in all && s.current != cur && s.alive == m.sched.alive
       case Wake(c) => s.current == c && c in all && c != cur && s.alive == m.sched.alive
       case Finish(c) => c == cur != MAIN && s.current in all && s.current != cur && s.alive == m.sched.alive - {cur}
  }

  lemma EventIsSwitch(m: Machine, e: Event, chain: seq<Cid>)
    requires Intact(m, chain)
    ensures IsSwitch(m, SwitchOf(m.sched, e), Step(m.sched, e))
  {
    IntactIsReady(m, chain);
    SwitchMoves(m.sched, e);
    assert m.sched.current in chain;
  }

  lemma SwitchKeys(m: Machine, w: Switch, start: Vm, s: Sched)
    requires IsSwitch(m, w, s)
    ensures var m1 := Switched(m, w, start, s);
            m1.tasks.Keys == m1.saves.Keys == s.alive + {MAIN}
  {
    match w
    case Stay =>
    case Start(c) => LaunchKeys(m, m.sched.current, c, start);
    case Suspend(c) => ExchangeKeys(m, c, s.current);
    case Wake(c) => ExchangeKeys(m, m.sched.current, c);
    case Finish(c) => LeaveKeys(m, c, s.current);
  }

  lemma SwapIntact(m: Machine, e: Event, start: Vm, chain: seq<Cid>) returns (after: seq<Cid>)
    requires Intact(m, chain)
    ensures Intact(SwapStep(m, e, start), after)
  {
    EventIsSwitch(m, e, chain);
    SwitchKeys(m, SwitchOf(m.sched, e), start, Step(m.sched, e));
    after := StepKeeps(m.sched, e, chain);
  }

  lemma SilenceIntact(m: Machine, e: VmEvent, chain: seq<Cid>)
    requires Intact(m, chain) && (e.BeginSilence? || e.EndSilence?)
    ensures Intact(MachineStep(m, e), chain)
  {
    IntactIsReady(m, chain);
    assert MachineStep(m, e).tasks.Keys == m.tasks.Keys && MachineStep(m, e).saves.Keys == m.saves.Keys;
  }

  /** Only a creation looks at the new frame. */
  lemma StartIsForCreate(m: Machine, e: Event, start: Vm)
    requires !e.Create?
    ensures SwapStep(m, e, start) == SwapStep(m, e, NO_VM)
  {
  }

  /** An I/O event comes only for a coroutine that waits for one. */
  predicate Honest(s: Sched, e: VmEvent) {
    e.Swap? && e.event.ResumeByIo? ==> e.event.cid in s.parked && s.parked[e.event.cid] == Io
  }

  predicate HonestRun(m: Machine, es: seq<VmEvent>) {
    forall n :: 0 <= n < |es| ==> Honest(RunMachine(m, es[..n]).sched, es[n])
  }

  // ---------------------------------------------------------------- private copies

  /** One coroutine's own globals. Output buffers and `array_walk` are absent when not in use. */
  datatype Private = Private(vm: Vm, walk: Option<Walk>, out: Option<Output>, level: int, saves: seq<int>)

  datatype Ideal = Ideal(sched: Sched, base: int, own: map<Cid, Private>)

  function InWalk(w: Walk): Option<Walk> {
    if w.size == 0 then None else Some(w)
  }

  function Buffers(o: Output): Option<Output> {
    if o.handlers == [] then None else Some(o)
  }

  /** Everything the running coroutine can see. */
  function View(m: Machine): Private {
    Private(m.g.vm, InWalk(m.g.walk), Buffers(m.g.out), m.g.level, SavesOf(m.saves, m.sched.current))
  }

  function OwnOf(i: Ideal, c: Cid): Private {
    if c in i.own then i.own[c] else Private(NO_VM, None, None, i.base, [])
  }

  /** A switch changes nobody's globals; a new coroutine starts with none of its creator's. */
  function IdealSwitched(i: Ideal, w: Switch, start: Vm, s: Sched): Ideal {
    var own := match w
      case Start(c) => i.own[c := Private(start, None, None, i.base, [])]
      case Finish(c) => i.own - {c}
      case _ => i.own;
    i.(sched := s, own := own)
  }

  function IdealStep(i: Ideal, e: VmEvent): Ideal {
    var cur := i.sched.current;
    var p := OwnOf(i, cur);
    match e
    case Swap(event, start) => IdealSwitched(i, SwitchOf(i.sched, event), start, Step(i.sched, event))
    case SetVm(vm) => i.(own := i.own[cur := p.(vm := vm)])
    case SetWalk(walk) => i.(own := i.own[cur := p.(walk := InWalk(walk))])
    case SetOutput(out) => i.(own := i.own[cur := p.(out := Buffers(out))])
    case BeginSilence => i.(own := i.own[cur := p.(level := 0, saves := p.saves + [p.level])])
    case EndSilence =>
      if p.saves == [] then i
      else
        i.(own := i.own[cur := p.(level := Unsilenced(p.level, p.saves[|p.saves| - 1]),
                                  saves := p.saves[..|p.saves| - 1])])
  }

  function IdealBoot(maxNum: nat, vm: Vm, base: int): Ideal {
    Ideal(Init(maxNum), base, map[MAIN := Private(vm, None, None, base, [])])
  }

  function RunIdeal(i: Ideal, es: seq<VmEvent>): Ideal {
    if es == [] then i else IdealStep(RunIdeal(i, es[..|es| - 1]), es[|es| - 1])
  }

  /** What PHP code must avoid: a nested `@`, and ending a coroutine inside `@` or `array_walk`. */
  predicate Tame(i: Ideal, e: VmEvent) {
    var p := OwnOf(i, i.sched.current);
    match e
    case BeginSilence => p.saves == []
    case Swap(event, _) => SwitchOf(i.sched, event).Finish? ==> p.saves == [] && p.walk.None?
    case _ => true
  }

  // ---------------------------------------------------------------- when everyone has their own globals

  /** What a parked record holds for its coroutine. */
  function Stored(t: Task, saves: seq<int>, base: int): Private {
    Private(t.vm,
            if t.walkFci.Some? then InWalk(t.walkFci.value) else None,
            t.outputPtr,
            if t.inSilence then t.tmpLevel else base,
            saves)
  }

  /** The record of a running coroutine carries no stale `array_walk` and no stale buffers. */
  predicate Unused(t: Task) {
    t.outputPtr.None? && (t.walkFci.Some? ==> t.walkFci.value.size == 0)
  }

  ghost predicate ParkedRight(m: Machine, i: Ideal, c: Cid) {
    && c in m.tasks && c in m.saves && c in i.own
    && Stored(m.tasks[c], m.saves[c], i.base) == i.own[c]
    && (m.tasks[c].outputPtr.Some? ==> m.tasks[c].outputPtr.value.handlers != [])
  }

  ghost predicate RunningRight(m: Machine, i: Ideal) {
    var cur := m.sched.current;
    && cur in m.tasks && cur in m.saves && cur in i.own
    && Unused(m.tasks[cur])
    && View(m) == i.own[cur]
  }

  /** The running coroutine sees its own globals, and every other record holds those of its coroutine. */
  ghost predicate EveryoneRight(m: Machine, i: Ideal) {
    && RunningRight(m, i)
    && (forall c :: c in m.sched.alive + {MAIN} && c != m.sched.current ==> ParkedRight(m, i, c))
  }

  /** The error level that a save leaves in the globals for whoever runs next. */
  function LevelLeft(m: Machine): int {
    var t := TaskOf(m, m.sched.current);
    if t.inSilence then t.oriLevel else m.g.level
  }

  /** Saving keeps the running coroutine's level: only a record in `@` stores one, the others stand for the base level. */
  predicate KeepsLevel(m: Machine, base: int) {
    TaskOf(m, m.sched.current).inSilence || m.g.level == base
  }

  /** The level that is left suits a coroutine: it brings one of its own, or finds the base level. */
  predicate SuitsLevel(m: Machine, base: int, left: int, to: Cid) {
    left == base || TaskOf(m, to).inSilence
  }

  predicate CleanExchange(m: Machine, base: int, to: Cid) {
    KeepsLevel(m, base) && SuitsLevel(m, base, LevelLeft(m), to)
  }

  predicate CleanLaunch(m: Machine, base: int) {
    KeepsLevel(m, base) && LevelLeft(m) == base
  }

  /** A close restores the origin over whatever `array_walk` state and error level the closing coroutine has. */
  predicate CleanLeave(m: Machine, base: int, to: Cid) {
    && (m.g.walk.size == 0 || (TaskOf(m, to).walkFci.Some? && TaskOf(m, to).walkFci.value.size != 0))
    && SuitsLevel(m, base, m.g.level, to)
  }

  /** What the state before a switch has to be like; `to` runs after it. */
  predicate CleanSwitch(m: Machine, base: int, w: Switch, to: Cid) {
    match w
    case Stay => true
    case Start(_) => CleanLaunch(m, base)
    case Suspend(_) => CleanExchange(m, base, to)
    case Wake(_) => CleanExchange(m, base, to)
    case Finish(_) => CleanLeave(m, base, to)
  }

  predicate CleanSwap(m: Machine, base: int, e: Event) {
    CleanSwitch(m, base, SwitchOf(m.sched, e), Step(m.sched, e).current)
  }

  predicate Clean(m: Machine, base: int, e: VmEvent) {
    e.Swap? ==> CleanSwap(m, base, e.event)
  }

  /** A switch leaves the leaving record right exactly if it keeps the level. */
  lemma LeaverExact(m: Machine, i: Ideal, to: Cid, s: Sched)
    requires EveryoneRight(m, i) && to != m.sched.current
    ensures ParkedRight(Exchange(m, m.sched.current, to).(sched := s), i, m.sched.current) <==> KeepsLevel(m, i.base)
  {
  }

  /** It shows the next coroutine its own globals exactly if the level that is left suits it. */
  lemma ComerExact(m: Machine, i: Ideal, to: Cid, s: Sched)
    requires EveryoneRight(m, i) && ParkedRight(m, i, to) && to != m.sched.current && s.current == to
    ensures RunningRight(Exchange(m, m.sched.current, to).(sched := s), i) <==> SuitsLevel(m, i.base, LevelLeft(m), to)
  {
    var (g1, t1) := SaveTask(m.g, TaskOf(m, m.sched.current));
    assert g1.level == LevelLeft(m) && g1.walk.size == 0 && g1.out.handlers == [];
    var m1 := Exchange(m, m.sched.current, to).(sched := s);
    assert m1.g == RestoreTask(g1, m.tasks[to]).0;
  }

  /**
   From a state where everyone has their own globals, a yield or a resume leads to such a state if and only
   if the leaving coroutine is inside `@` as far as its record says or at the base level, and the level that
   it leaves is the base level or the next one brings its own.
   */
  lemma YieldExact(m: Machine, i: Ideal, to: Cid, s: Sched)
    requires EveryoneRight(m, i) && to in m.sched.alive + {MAIN} && to != m.sched.current
    requires s.current == to && s.alive == m.sched.alive && m.sched.current in m.sched.alive + {MAIN}
    ensures EveryoneRight(Exchange(m, m.sched.current, to).(sched := s), i) <==> CleanExchange(m, i.base, to)
  {
    var m1 := Exchange(m, m.sched.current, to).(sched := s);
    assert ParkedRight(m, i, to);
    LeaverExact(m, i, to, s);
    ComerExact(m, i, to, s);
    forall c | c in s.alive + {MAIN} && c != to && c != m.sched.current ensures ParkedRight(m1, i, c) {
      assert ParkedRight(m, i, c);
    }
  }

  /** So does a creation, if and only if the creator's level is kept and the base level is left for the new coroutine. */
  lemma LaunchExact(m: Machine, i: Ideal, c: Cid, start: Vm, s: Sched)
    requires EveryoneRight(m, i) && c !in m.sched.alive + {MAIN} && m.sched.current in m.sched.alive + {MAIN}
    requires s.current == c && s.alive == m.sched.alive + {c}
    ensures var i1 := i.(own := i.own[c := Private(start, None, None, i.base, [])]);
            EveryoneRight(Launch(m, m.sched.current, c, start).(sched := s), i1) <==> CleanLaunch(m, i.base)
  {
    var m1 := Launch(m, m.sched.current, c, start).(sched := s);
    var i1 := i.(own := i.own[c := Private(start, None, None, i.base, [])]);
    assert RunningRight(m1, i1) <==> LevelLeft(m) == i.base;
    assert ParkedRight(m1, i1, m.sched.current) <==> KeepsLevel(m, i.base);
    forall d | d in s.alive + {MAIN} && d != c && d != m.sched.current ensures ParkedRight(m1, i1, d) {
      assert ParkedRight(m, i, d);
    }
  }

  /**
   And a close, if and only if the closing coroutine is outside `array_walk` or the origin is inside one, and
   the level is the base level or the origin brings its own.
   */
  lemma CloseExact(m: Machine, i: Ideal, to: Cid, s: Sched)
    requires EveryoneRight(m, i) && to in m.sched.alive + {MAIN} && to != m.sched.current
    requires s.current == to && s.alive == m.sched.alive - {m.sched.current} && m.sched.current != MAIN
    ensures EveryoneRight(Leave(m, m.sched.current, to).(sched := s), i.(own := i.own - {m.sched.current}))
            <==> CleanLeave(m, i.base, to)
  {
    var m1 := Leave(m, m.sched.current, to).(sched := s);
    var i1 := i.(own := i.own - {m.sched.current});
    assert ParkedRight(m, i, to);
    CloserExact(m, i, to, s);
    forall d | d in s.alive + {MAIN} && d != to ensures ParkedRight(m1, i1, d) {
      assert ParkedRight(m, i, d);
    }
  }

  lemma CloserExact(m: Machine, i: Ideal, to: Cid, s: Sched)
    requires EveryoneRight(m, i) && ParkedRight(m, i, to) && to != m.sched.current && s.current == to
    ensures RunningRight(Leave(m, m.sched.current, to).(sched := s), i.(own := i.own - {m.sched.current}))
            <==> CleanLeave(m, i.base, to)
  {
    var g1 := if m.g.out.handlers != [] then m.g.(out := NO_OUTPUT) else m.g;
    var m1 := Leave(m, m.sched.current, to).(sched := s);
    assert m1.g == RestoreTask(g1, m.tasks[to]).0;
  }

  /** `EveryoneRight` looks at the schedule's live coroutines and current one only. */
  lemma OtherSchedule(m: Machine, i: Ideal, s: Sched, t: Sched)
    requires s.alive == m.sched.alive && s.current == m.sched.current
    ensures EveryoneRight(m.(sched := s), i.(sched := t)) <==> EveryoneRight(m, i)
  {
    assert RunningRight(m.(sched := s), i.(sched := t)) <==> RunningRight(m, i);
    assert forall c :: ParkedRight(m.(sched := s), i.(sched := t), c) <==> ParkedRight(m, i, c);
  }

  lemma MoveExact(m: Machine, i: Ideal, to: Cid, s: Sched)
    requires EveryoneRight(m, i) && to in m.sched.alive + {MAIN} && to != m.sched.current
    requires s.current == to && s.alive == m.sched.alive && m.sched.current in m.sched.alive + {MAIN}
    ensures EveryoneRight(Exchange(m, m.sched.current, to).(sched := s), i.(sched := s)) <==> CleanExchange(m, i.base, to)
  {
    YieldExact(m, i, to, s);
    OtherSchedule(Exchange(m, m.sched.current, to).(sched := s), i, s, s);
  }

  lemma StartExact(m: Machine, i: Ideal, c: Cid, start: Vm, s: Sched)
    requires EveryoneRight(m, i) && c !in m.sched.alive + {MAIN} && m.sched.current in m.sched.alive + {MAIN}
    requires s.current == c && s.alive == m.sched.alive + {c}
    ensures var i1 := i.(sched := s, own := i.own[c := Private(start, None, None, i.base, [])]);
            EveryoneRight(Launch(m, m.sched.current, c, start).(sched := s), i1) <==> CleanLaunch(m, i.base)
  {
    LaunchExact(m, i, c, start, s);
    OtherSchedule(Launch(m, m.sched.current, c, start).(sched := s),
                  i.(own := i.own[c := Private(start, None, None, i.base, [])]), s, s);
  }

  lemma FinishExact(m: Machine, i: Ideal, to: Cid, s: Sched)
    requires EveryoneRight(m, i) && to in m.sched.alive + {MAIN} && to != m.sched.current
    requires s.current == to && s.alive == m.sched.alive - {m.sched.current} && m.sched.current != MAIN
    ensures EveryoneRight(Leave(m, m.sched.current, to).(sched := s), i.(sched := s, own := i.own - {m.sched.current}))
            <==> CleanLeave(m, i.base, to)
  {
    CloseExact(m, i, to, s);
    OtherSchedule(Leave(m, m.sched.current, to).(sched := s), i.(own := i.own - {m.sched.current}), s, s);
  }

  /** For every kind of switch: it keeps everyone's globals if and only if the state before it is clean. */
  lemma SwitchExact(m: Machine, i: Ideal, w: Switch, start: Vm, s: Sched)
    requires EveryoneRight(m, i) && m.sched == i.sched && IsSwitch(m, w, s)
    ensures EveryoneRight(Switched(m, w, start, s), IdealSwitched(i, w, start, s))
            <==> CleanSwitch(m, i.base, w, s.current)
  {
    match w
    case Stay => OtherSchedule(m, i, s, s);
    case Start(c) => StartExact(m, i, c, start, s);
    case Suspend(c) => MoveExact(m, i, s.current, s);
    case Wake(c) => MoveExact(m, i, c, s);
    case Finish(c) => FinishExact(m, i, s.current, s);
  }

  lemma SwapExact(m: Machine, i: Ideal, e: Event, start: Vm, chain: seq<Cid>)
    requires Intact(m, chain) && EveryoneRight(m, i) && m.sched == i.sched
    ensures EveryoneRight(SwapStep(m, e, start), IdealStep(i, Swap(e, start))) <==> CleanSwap(m, i.base, e)
  {
    EventIsSwitch(m, e, chain);
    SwitchExact(m, i, SwitchOf(m.sched, e), start, Step(m.sched, e));
  }

  /** The running coroutine's own instructions change nobody else's globals. */
  lemma LocalRight(m: Machine, i: Ideal, e: VmEvent)
    requires EveryoneRight(m, i) && m.sched == i.sched && !e.Swap?
    ensures EveryoneRight(MachineStep(m, e), IdealStep(i, e))
  {
    forall c | c in m.sched.alive + {MAIN} && c != m.sched.current
      ensures ParkedRight(MachineStep(m, e), IdealStep(i, e), c)
    { assert ParkedRight(m, i, c); }
  }

  lemma LocalIntact(m: Machine, e: VmEvent, chain: seq<Cid>)
    requires Intact(m, chain) && !e.Swap?
    ensures Intact(MachineStep(m, e), chain)
  {
    if e.BeginSilence? || e.EndSilence? {
      SilenceIntact(m, e, chain);
    }
  }

  /** Both machines keep the same consistent schedule, whatever happens to the globals. */
  ghost predicate Aligned(m: Machine, i: Ideal, base: int, chain: seq<Cid>) {
    Intact(m, chain) && m.sched == i.sched && i.base == base
  }

  lemma StepAligned(m: Machine, i: Ideal, base: int, e: VmEvent, chain: seq<Cid>) returns (after: seq<Cid>)
    requires Aligned(m, i, base, chain)
    ensures Aligned(MachineStep(m, e), IdealStep(i, e), base, after)
  {
    if e.Swap? {
      after := SwapIntact(m, e.event, e.start, chain);
    } else {
      after := chain;
      LocalIntact(m, e, chain);
    }
  }

  lemma StepExact(m: Machine, i: Ideal, base: int, e: VmEvent, chain: seq<Cid>)
    requires Aligned(m, i, base, chain) && EveryoneRight(m, i)
    ensures EveryoneRight(MachineStep(m, e), IdealStep(i, e)) <==> Clean(m, base, e)
  {
    if e.Swap? {
      SwapExact(m, i, e.event, e.start, chain);
    } else {
      LocalRight(m, i, e);
    }
  }

  /** A program: the machine's limit, the main program's frame and error level, and what happens. */
  datatype Program = Program(maxNum: nat, vm: Vm, base: int, es: seq<VmEvent>)

  function MachineAt(p: Program, n: nat): Machine
    requires n <= |p.es|
  {
    RunMachine(Boot(p.maxNum, p.vm, p.base), p.es[..n])
  }

  function IdealAt(p: Program, n: nat): Ideal
    requires n <= |p.es|
  {
    RunIdeal(IdealBoot(p.maxNum, p.vm, p.base), p.es[..n])
  }

  lemma NextStep(p: Program, n: nat)
    requires n < |p.es|
    ensures MachineAt(p, n + 1) == MachineStep(MachineAt(p, n), p.es[n])
    ensures IdealAt(p, n + 1) == IdealStep(IdealAt(p, n), p.es[n])
  {
    assert p.es[..n + 1][..n] == p.es[..n];
  }

  lemma {:induction false} RunAligned(p: Program, n: nat) returns (chain: seq<Cid>)
    requires n <= |p.es|
    ensures Aligned(MachineAt(p, n), IdealAt(p, n), p.base, chain)
  {
    if n == 0 {
      chain := [MAIN];
    } else {
      chain := RunAligned(p, n - 1);
      NextStep(p, n - 1);
      chain := StepAligned(MachineAt(p, n - 1), IdealAt(p, n - 1), p.base, p.es[n - 1], chain);
    }
  }

  /** After `n` events the running coroutine sees exactly its own globals, and every record holds its owner's. */
  ghost predicate RightAt(p: Program, n: nat)
    requires n <= |p.es|
  {
    EveryoneRight(MachineAt(p, n), IdealAt(p, n))
  }

  ghost predicate CleanAt(p: Program, n: nat)
    requires n < |p.es|
  {
    Clean(MachineAt(p, n), p.base, p.es[n])
  }

  ghost predicate RightUpTo(p: Program, n: nat)
    requires n <= |p.es|
  {
    forall k: nat | k <= n :: RightAt(p, k)
  }

  ghost predicate CleanUpTo(p: Program, n: nat)
    requires n <= |p.es|
  {
    forall k: nat | k < n :: CleanAt(p, k)
  }

  lemma BootRight(p: Program)
    ensures RightAt(p, 0)
  {
    assert p.es[..0] == [];
    assert RunningRight(MachineAt(p, 0), IdealAt(p, 0));
  }

  lemma NextExact(p: Program, n: nat)
    requires n < |p.es| && RightAt(p, n)
    ensures RightAt(p, n + 1) <==> CleanAt(p, n)
  {
    var chain := RunAligned(p, n);
    NextStep(p, n);
    StepExact(MachineAt(p, n), IdealAt(p, n), p.base, p.es[n], chain);
  }

  lemma OneMore(p: Program, n: nat)
    requires n < |p.es|
    ensures RightUpTo(p, n + 1) <==> RightUpTo(p, n) && RightAt(p, n + 1)
    ensures CleanUpTo(p, n + 1) <==> CleanUpTo(p, n) && CleanAt(p, n)
  {
  }

  lemma OneMoreExact(p: Program, n: nat)
    requires n < |p.es| && (RightUpTo(p, n) <==> CleanUpTo(p, n))
    ensures RightUpTo(p, n + 1) <==> CleanUpTo(p, n + 1)
  {
    OneMore(p, n);
    if RightUpTo(p, n) {
      assert RightAt(p, n);
      NextExact(p, n);
    }
  }

  /** For every run: everyone's globals are right at every point if and only if every switch happens in a clean state. */
  lemma {:induction false} RunExact(p: Program, n: nat)
    requires n <= |p.es|
    ensures RightUpTo(p, n) <==> CleanUpTo(p, n)
  {
    if n == 0 {
      BootRight(p);
    } else {
      RunExact(p, n - 1);
      OneMoreExact(p, n - 1);
    }
  }

  // ---------------------------------------------------------------- tame programs

  ghost predicate TameRun(p: Program) {
    forall n: nat | n < |p.es| :: Tame(IdealAt(p, n), p.es[n])
  }

  /** The flag says whether an `@` is open; at most one is, and it replaced the base level. */
  predicate Quiet(t: Task, saves: seq<int>, base: int) {
    t.inSilence == (saves != []) && (t.inSilence ==> t.oriLevel == base && saves == [base])
  }

  ghost predicate Calm(m: Machine, base: int) {
    && m.tasks.Keys == m.saves.Keys && m.sched.current in m.tasks
    && (forall c | c in m.tasks :: Quiet(m.tasks[c], m.saves[c], base))
    && (forall c | c in m.tasks && c != m.sched.current && m.saves[c] != [] :: m.tasks[c].tmpLevel == 0)
    && m.g.level == (if m.saves[m.sched.current] == [] then base else 0)
  }

  /** What a tame program does happens in clean states. */
  lemma TameIsClean(m: Machine, i: Ideal, base: int, e: VmEvent)
    requires Calm(m, base) && RunningRight(m, i) && m.sched == i.sched && Tame(i, e)
    ensures Clean(m, base, e)
  {
  }

  lemma ExchangeCalm(m: Machine, base: int, to: Cid, s: Sched)
    requires Calm(m, base) && to in m.tasks && to != m.sched.current && s.current == to
    ensures Calm(Exchange(m, m.sched.current, to).(sched := s), base)
  {
    var m1 := Exchange(m, m.sched.current, to).(sched := s);
    assert m1.tasks.Keys == m.tasks.Keys && Quiet(m.tasks[to], m.saves[to], base);
    assert Quiet(m.tasks[m.sched.current], m.saves[m.sched.current], base);
  }

  lemma LaunchCalm(m: Machine, base: int, c: Cid, start: Vm, s: Sched)
    requires Calm(m, base) && c !in m.tasks && s.current == c
    ensures Calm(Launch(m, m.sched.current, c, start).(sched := s), base)
  {
    LaunchKeys(m, m.sched.current, c, start);
    assert Quiet(m.tasks[m.sched.current], m.saves[m.sched.current], base);
  }

  lemma LeaveCalm(m: Machine, base: int, to: Cid, s: Sched)
    requires Calm(m, base) && to in m.tasks && to != m.sched.current && s.current == to
    requires m.saves[m.sched.current] == []
    ensures Calm(Leave(m, m.sched.current, to).(sched := s), base)
  {
    LeaveKeys(m, m.sched.current, to);
    assert Quiet(m.tasks[to], m.saves[to], base);
  }

  lemma SwitchCalm(m: Machine, base: int, w: Switch, start: Vm, s: Sched)
    requires Calm(m, base) && IsSwitch(m, w, s) && (w.Finish? ==> m.saves[m.sched.current] == [])
    ensures Calm(Switched(m, w, start, s), base)
  {
    match w
    case Stay =>
    case Start(c) => LaunchCalm(m, base, c, start, s);
    case Suspend(c) => ExchangeCalm(m, base, s.current, s);
    case Wake(c) => ExchangeCalm(m, base, c, s);
    case Finish(c) => LeaveCalm(m, base, s.current, s);
  }

  lemma SwapCalm(m: Machine, i: Ideal, base: int, e: Event, start: Vm, chain: seq<Cid>)
    requires Calm(m, base) && Intact(m, chain) && RunningRight(m, i) && m.sched == i.sched && Tame(i, Swap(e, start))
    ensures Calm(SwapStep(m, e, start), base)
  {
    EventIsSwitch(m, e, chain);
    SwitchCalm(m, base, SwitchOf(m.sched, e), start, Step(m.sched, e));
  }

  lemma LocalCalm(m: Machine, i: Ideal, base: int, e: VmEvent)
    requires Calm(m, base) && RunningRight(m, i) && m.sched == i.sched && Tame(i, e) && !e.Swap?
    ensures Calm(MachineStep(m, e), base)
  {
    var cur := m.sched.current;
    assert Quiet(m.tasks[cur], m.saves[cur], base);
    assert MachineStep(m, e).tasks.Keys == m.tasks.Keys && MachineStep(m, e).saves.Keys == m.saves.Keys;
  }

  /** One step of a tame program keeps the simulation: both machines in step, everyone right, and calm. */
  lemma MachineStepKeeps(m: Machine, i: Ideal, base: int, e: VmEvent, chain: seq<Cid>) returns (after: seq<Cid>)
    requires Aligned(m, i, base, chain) && EveryoneRight(m, i) && Calm(m, base) && Tame(i, e)
    ensures var m1, i1 := MachineStep(m, e), IdealStep(i, e);
            Aligned(m1, i1, base, after) && EveryoneRight(m1, i1) && Calm(m1, base)
  {
    after := StepAligned(m, i, base, e, chain);
    TameIsClean(m, i, base, e);
    StepExact(m, i, base, e, chain);
    if e.Swap? {
      SwapCalm(m, i, base, e.event, e.start, chain);
    } else {
      LocalCalm(m, i, base, e);
    }
  }

  lemma BootSimulates(p: Program) returns (chain: seq<Cid>)
    ensures Aligned(MachineAt(p, 0), IdealAt(p, 0), p.base, chain)
    ensures RightAt(p, 0) && Calm(MachineAt(p, 0), p.base)
  {
    chain := RunAligned(p, 0);
    BootRight(p);
  }

  lemma {:induction false} RunSimulates(p: Program, n: nat) returns (chain: seq<Cid>)
    requires TameRun(p) && n <= |p.es|
    ensures Aligned(MachineAt(p, n), IdealAt(p, n), p.base, chain)
    ensures RightAt(p, n) && Calm(MachineAt(p, n), p.base)
  {
    if n == 0 {
      chain := BootSimulates(p);
    } else {
      chain := RunSimulates(p, n - 1);
      NextStep(p, n - 1);
      assert Tame(IdealAt(p, n - 1), p.es[n - 1]);
      chain := MachineStepKeeps(MachineAt(p, n - 1), IdealAt(p, n - 1), p.base, p.es[n - 1], chain);
    }
  }

  /** At every point of every tame run the running coroutine sees exactly the engine fields, `array_walk`
      state, output buffers and error level it would see if it owned private copies. */
  lemma SwitchingRefinesPrivateGlobals(p: Program, n: nat)
    requires TameRun(p) && n <= |p.es|
    ensures var m, i := MachineAt(p, n), IdealAt(p, n);
            m.sched == i.sched && m.sched.current in i.own && View(m) == i.own[m.sched.current]
  {
    var chain := RunSimulates(p, n);
  }

  // ---------------------------------------------------------------- programs that are not tame

  /** `@f(@g())` after the inner `@` has ended: the flag is off although the outer `@` is still open. */
  function NestedSilence(m: Machine): Machine {
    MachineStep(MachineStep(MachineStep(m, BeginSilence), BeginSilence), EndSilence)
  }

  function IdealNestedSilence(i: Ideal): Ideal {
    IdealStep(IdealStep(IdealStep(i, BeginSilence), BeginSilence), EndSilence)
  }

  lemma NestedSilenceIs(m: Machine, i: Ideal)
    requires EveryoneRight(m, i) && m.sched == i.sched && m.g.level == i.base != 0
    ensures var m3, i3, cur := NestedSilence(m), IdealNestedSilence(i), m.sched.current;
            && EveryoneRight(m3, i3) && m3.sched == m.sched == i3.sched && i3.base == i.base
            && m3.g.level == 0 && !m3.tasks[cur].inSilence && i3.own[cur].level == 0
            && (forall c | c != cur && c in m.tasks :: c in m3.tasks && m3.tasks[c] == m.tasks[c])
  {
    var m1, i1 := MachineStep(m, BeginSilence), IdealStep(i, BeginSilence);
    var m2, i2 := MachineStep(m1, BeginSilence), IdealStep(i1, BeginSilence);
    LocalRight(m, i, BeginSilence);
    LocalRight(m1, i1, BeginSilence);
    LocalRight(m2, i2, EndSilence);
    var saves := SavesOf(m2.saves, m.sched.current);
    assert saves[|saves| - 1] == 0;
  }

  /** A yield at that point shows every unsilenced coroutine a silenced error level. */
  lemma NestedSilenceLeaks(m: Machine, i: Ideal, to: Cid, s: Sched)
    requires EveryoneRight(m, i) && m.sched == i.sched && m.g.level == i.base != 0
    requires to in m.sched.alive + {MAIN} && to != m.sched.current && s.current == to && !m.tasks[to].inSilence
    ensures var m3, i3 := NestedSilence(m), IdealNestedSilence(i);
            && !CleanExchange(m3, i.base, to)
            && View(Exchange(m3, m.sched.current, to).(sched := s)) != i3.own[to]
  {
    var m3, i3 := NestedSilence(m), IdealNestedSilence(i);
    NestedSilenceIs(m, i);
    assert ParkedRight(m, i, to) && ParkedRight(m3, i3, to);
    ComerExact(m3, i3, to, s);
  }

  /**
   A resume of a silenced coroutine at that point looks harmless, since that one brings its own level; but the
   record of the coroutine that left no longer says that it is inside `@`, and when it is resumed it sees the
   level that the other one left behind.
   */
  lemma NestedSilenceForgets(m: Machine, i: Ideal, to: Cid, there: Sched, back: Sched)
    requires EveryoneRight(m, i) && m.sched == i.sched && m.g.level == i.base != 0
    requires to in m.sched.alive + {MAIN} && to != m.sched.current
    requires m.tasks[to].inSilence && m.tasks[to].oriLevel == i.base
    requires there.current == to && back.current == m.sched.current
    ensures var m3, i3, cur := NestedSilence(m), IdealNestedSilence(i), m.sched.current;
            var m4 := Exchange(m3, cur, to).(sched := there);
            var m5 := Exchange(m4, to, cur).(sched := back);
            && !CleanExchange(m3, i.base, to)
            && View(m4) == i3.own[to]
            && i3.own[cur].level == 0 && View(m5).level == i.base
  {
    var m3, i3 := NestedSilence(m), IdealNestedSilence(i);
    NestedSilenceIs(m, i);
    assert ParkedRight(m, i, to) && ParkedRight(m3, i3, to);
    ComerExact(m3, i3, to, there);
  }

  lemma {:induction false} RunMachineThree(m: Machine, a: VmEvent, b: VmEvent, c: VmEvent)
    ensures RunMachine(m, [a, b]) == MachineStep(MachineStep(m, a), b)
    ensures RunMachine(m, [a, b, c]) == MachineStep(RunMachine(m, [a, b]), c)
  {
    assert [a, b, c][..2] == [a, b] && [a, b][..1] == [a] && [a][..0] == [];
    assert RunMachine(m, [a]) == MachineStep(m, a);
  }

  lemma {:induction false} RunIdealThree(i: Ideal, a: VmEvent, b: VmEvent, c: VmEvent)
    ensures RunIdeal(i, [a, b, c]) == IdealStep(IdealStep(IdealStep(i, a), b), c)
  {
    assert [a, b, c][..2] == [a, b] && [a, b][..1] == [a] && [a][..0] == [];
    assert RunIdeal(i, [a]) == IdealStep(i, a);
    assert RunIdeal(i, [a, b]) == IdealStep(IdealStep(i, a), b);
  }

  /** The main program creates a coroutine, which does one thing and ends. */
  function CreateAndClose(maxNum: nat, vm: Vm, start: Vm, base: int, e: VmEvent): Program {
    Program(maxNum, vm, base, [Swap(Create, start), e, Swap(Close, NO_VM)])
  }

  /** The shared and the private machine once the coroutine has been created. */
  function Created(maxNum: nat, vm: Vm, start: Vm, base: int): Machine {
    Machine(Sched(maxNum, {1}, 1, 1, map[1 := MAIN], map[], {}, []),
            Globals(start, NO_WALK, NO_OUTPUT, base),
            map[MAIN := ZERO_TASK.(vm := vm), 1 := ZERO_TASK.(vm := start)],
            map[MAIN := [], 1 := []])
  }

  lemma CreatedIs(maxNum: nat, vm: Vm, start: Vm, base: int)
    requires maxNum >= 1
    ensures MachineStep(Boot(maxNum, vm, base), Swap(Create, start)) == Created(maxNum, vm, start, base)
  {
    var s := Init(maxNum);
    assert Step(s, Create) == Created(maxNum, vm, start, base).sched;
    var m := Launch(Boot(maxNum, vm, base), MAIN, 1, start);
    assert m.tasks == Created(maxNum, vm, start, base).tasks && m.saves == Created(maxNum, vm, start, base).saves;
  }

  lemma CreateAndCloseRuns(maxNum: nat, vm: Vm, start: Vm, base: int, e: VmEvent)
    requires maxNum >= 1
    ensures var p := CreateAndClose(maxNum, vm, start, base, e);
            && MachineAt(p, 2) == MachineStep(Created(maxNum, vm, start, base), e)
            && MachineAt(p, 3) == MachineStep(MachineAt(p, 2), Swap(Close, NO_VM))
            && var i1 := IdealStep(IdealBoot(maxNum, vm, base), Swap(Create, start));
            IdealAt(p, 3) == IdealStep(IdealStep(i1, e), Swap(Close, NO_VM))
  {
    var p := CreateAndClose(maxNum, vm, start, base, e);
    assert p.es[..2] == [Swap(Create, start), e] && p.es[..3] == [Swap(Create, start), e, Swap(Close, NO_VM)];
    RunMachineThree(Boot(maxNum, vm, base), Swap(Create, start), e, Swap(Close, NO_VM));
    RunIdealThree(IdealBoot(maxNum, vm, base), Swap(Create, start), e, Swap(Close, NO_VM));
    CreatedIs(maxNum, vm, start, base);
  }

  /** What a coroutine does to its own globals, and its end, leave what another one owns as it was. */
  lemma OthersKeepTheirOwn(i: Ideal, e: VmEvent, c: Cid)
    requires c in i.own && c != i.sched.current && !e.Swap?
    ensures var i2 := IdealStep(i, e);
            var i3 := IdealStep(i2, Swap(Close, NO_VM));
            i2.sched == i.sched && OwnOf(i3, c) == i.own[c]
  {
    var i2 := IdealStep(i, e);
    assert c in i2.own && i2.own[c] == i.own[c];
  }

  lemma MainKeepsItsOwn(maxNum: nat, vm: Vm, start: Vm, base: int, e: VmEvent)
    requires maxNum >= 1 && !e.Swap?
    ensures OwnOf(IdealAt(CreateAndClose(maxNum, vm, start, base, e), 3), MAIN) == Private(vm, None, None, base, [])
  {
    CreateAndCloseRuns(maxNum, vm, start, base, e);
    var i1 := IdealStep(IdealBoot(maxNum, vm, base), Swap(Create, start));
    assert i1.sched.current == 1 && MAIN in i1.own && i1.own[MAIN] == Private(vm, None, None, base, []);
    OthersKeepTheirOwn(i1, e, MAIN);
  }

  /** The close restores the main program's record over the level and the `array_walk` state that it finds. */
  lemma CloseOf(m: Machine, base: int)
    requires m.sched.current == 1 && Origin(m.sched, 1) == MAIN
    requires TaskOf(m, MAIN).walkFci == None && !TaskOf(m, MAIN).inSilence
    ensures var m1 := MachineStep(m, Swap(Close, NO_VM));
            View(m1).level == m.g.level && View(m1).walk == InWalk(m.g.walk)
    ensures Clean(m, base, Swap(Close, NO_VM)) <==> m.g.level == base && m.g.walk.size == 0
  {
    var m1 := Leave(m, 1, MAIN);
    assert SwitchOf(m.sched, Close) == Finish(1) && Step(m.sched, Close).current == MAIN;
    assert m1.g.level == m.g.level && m1.g.walk == m.g.walk;
  }

  lemma UncleanRun(p: Program, k: nat, n: nat)
    requires k < n <= |p.es| && !Clean(MachineAt(p, k), p.base, p.es[k])
    ensures !CleanUpTo(p, n)
  {
    assert !CleanAt(p, k);
  }

  /** A real run: a coroutine that ends inside `@` leaves its creator silenced. */
  lemma CloseInsideSilence(maxNum: nat, vm: Vm, start: Vm, base: int)
    requires maxNum >= 1 && base != 0
    ensures var p := CreateAndClose(maxNum, vm, start, base, BeginSilence);
            && !CleanUpTo(p, 3)
            && View(MachineAt(p, 3)).level == 0 && OwnOf(IdealAt(p, 3), MAIN).level == base
  {
    var p := CreateAndClose(maxNum, vm, start, base, BeginSilence);
    CreateAndCloseRuns(maxNum, vm, start, base, BeginSilence);
    MainKeepsItsOwn(maxNum, vm, start, base, BeginSilence);
    CloseOf(MachineAt(p, 2), base);
    UncleanRun(p, 2, 3);
  }

  /** Another: one that ends inside `array_walk` leaves its creator inside it. */
  lemma CloseInsideWalk(maxNum: nat, vm: Vm, start: Vm, base: int, walk: Walk)
    requires maxNum >= 1 && walk.size != 0
    ensures var p := CreateAndClose(maxNum, vm, start, base, SetWalk(walk));
            && !CleanUpTo(p, 3)
            && View(MachineAt(p, 3)).walk == Some(walk) && OwnOf(IdealAt(p, 3), MAIN).walk == None
  {
    var p := CreateAndClose(maxNum, vm, start, base, SetWalk(walk));
    CreateAndCloseRuns(maxNum, vm, start, base, SetWalk(walk));
    MainKeepsItsOwn(maxNum, vm, start, base, SetWalk(walk));
    CloseOf(MachineAt(p, 2), base);
    UncleanRun(p, 2, 3);
  }
}
