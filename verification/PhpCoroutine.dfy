/**
 `PHPCoroutine` as it stands in the source: static fields overwritten in place. Every operation is
 proved to do what the value-level machine of `ContextSwitch` does, so the refinement there is
 about this class.
 */
module PhpCoroutine {
  import opened Coroutines
  import opened PhpBytes
  import opened Scheduler
  import opened C = ContextSwitch

  class Engine {
    // engine globals
    var vm: Vm
    var walk: Walk
    var out: Output
    var level: int
    // task records, and the `@` operands in each coroutine's own frames
    var tasks: map<Cid, Task>
    var saves: map<Cid, seq<int>>
    // the base Coroutine class and the two resume tables
    const maxNum: nat
    var alive: set<Cid>
    var lastCid: nat
    var current: Cid
    var origin: map<Cid, Cid>
    var userYieldCoros: set<Cid>
    var deferred: seq<Cid>
    // history: why each waiting coroutine waits, and the origins below the current one
    ghost var parked: map<Cid, Reason>
    ghost var chain: seq<Cid>

    ghost function Schedule(): Sched
      reads this
    {
      Sched(maxNum, alive, lastCid, current, origin, parked, userYieldCoros, deferred)
    }

    function Current(): Globals
      reads this
    {
      Globals(vm, walk, out, level)
    }

    ghost function State(): Machine
      reads this
    {
      Machine(Schedule(), Current(), tasks, saves)
    }

    ghost predicate Valid()
      reads this
    {
      Intact(State(), chain)
    }

    constructor (maxNum: nat, vm: Vm, base: int)
      ensures Valid() && State() == Boot(maxNum, vm, base)
    {
      this.vm, walk, out, level := vm, NO_WALK, NO_OUTPUT, base;
      tasks, saves := map[MAIN := ZERO_TASK], map[MAIN := []];
      this.maxNum := maxNum;
      alive, lastCid, current, origin := {}, 0, MAIN, map[];
      userYieldCoros, deferred := {}, [];
      parked, chain := map[], [MAIN];
    }

    method SaveVmStack(c: Cid)
      requires c in tasks
      modifies `walk, `level, `tasks
      ensures (Current(), TaskOf(State(), c)) == C.SaveVmStack(old(Current()), old(tasks[c]))
      ensures tasks == old(tasks)[c := TaskOf(State(), c)]
    {
      var task := tasks[c].(vm := vm);
      if walk.size != 0 {
        task := task.(walkFci := Some(walk));
        walk := NO_WALK;
      }
      if task.inSilence {
        task := task.(tmpLevel := level);
        level := task.oriLevel;
      }
      tasks := tasks[c := task];
    }

    method RestoreVmStack(c: Cid)
      requires c in tasks
      modifies `vm, `walk, `level, `tasks
      ensures (Current(), TaskOf(State(), c)) == C.RestoreVmStack(old(Current()), old(tasks[c]))
      ensures tasks == old(tasks)[c := TaskOf(State(), c)]
    {
      var task := tasks[c];
      vm := task.vm;
      if task.walkFci.Some? && task.walkFci.value.size != 0 {
        walk := task.walkFci.value;
        task := task.(walkFci := Some(walk.(size := 0)));
      }
      if task.inSilence {
        level := task.tmpLevel;
      }
      tasks := tasks[c := task];
    }

    method SaveOg(c: Cid)
      requires c in tasks
      modifies `out, `tasks
      ensures (Current(), TaskOf(State(), c)) == C.SaveOg(old(Current()), old(tasks[c]))
      ensures tasks == old(tasks)[c := TaskOf(State(), c)]
    {
      if out.handlers != [] {
        tasks := tasks[c := tasks[c].(outputPtr := Some(out))];
        out := NO_OUTPUT;
      } else {
        tasks := tasks[c := tasks[c].(outputPtr := None)];
      }
    }

    method RestoreOg(c: Cid)
      requires c in tasks
      modifies `out, `tasks
      ensures (Current(), TaskOf(State(), c)) == C.RestoreOg(old(Current()), old(tasks[c]))
      ensures tasks == old(tasks)[c := TaskOf(State(), c)]
    {
      if tasks[c].outputPtr.Some? {
        out := tasks[c].outputPtr.value;
        tasks := tasks[c := tasks[c].(outputPtr := None)];
      }
    }

    method SaveTask(c: Cid)
      requires c in tasks
      modifies `walk, `level, `out, `tasks
      ensures (Current(), TaskOf(State(), c)) == C.SaveTask(old(Current()), old(tasks[c]))
      ensures tasks == old(tasks)[c := TaskOf(State(), c)]
    {
      SaveVmStack(c);
      SaveOg(c);
    }

    method RestoreTask(c: Cid)
      requires c in tasks
      modifies `vm, `walk, `level, `out, `tasks
      ensures (Current(), TaskOf(State(), c)) == C.RestoreTask(old(Current()), old(tasks[c]))
      ensures tasks == old(tasks)[c := TaskOf(State(), c)]
    {
      RestoreVmStack(c);
      RestoreOg(c);
    }

    /** `on_yield` and `on_resume`: save the record of the one that stops, restore the other. */
    method SwapTasks(from: Cid, to: Cid)
      requires from in tasks && to in tasks && from != to
      modifies `vm, `walk, `out, `level, `tasks
      ensures State() == Exchange(old(State()), from, to)
      ensures tasks.Keys == old(tasks.Keys)
    {
      SaveTask(from);
      RestoreTask(to);
    }

    /** `main_func` up to the first user instruction. */
    method MainFunc(cid: Cid, start: Vm)
      requires walk.size == 0
      modifies `vm, `walk, `level, `tasks, `saves
      ensures (Current(), TaskOf(State(), cid)) == C.SaveVmStack(old(Current()).(vm := start), ZERO_TASK)
      ensures tasks == old(tasks)[cid := TaskOf(State(), cid)] && saves == old(saves)[cid := []]
    {
      vm := start;
      tasks := tasks[cid := ZERO_TASK];
      saves := saves[cid := []];
      SaveVmStack(cid);
    }

    /** The creator's record is saved and the new coroutine gets its frame and its record. */
    method Enter(cid: Cid, start: Vm)
      requires current in tasks && cid != current
      modifies `vm, `walk, `level, `out, `tasks, `saves
      ensures State() == Launch(old(State()), current, cid, start)
    {
      SaveTask(current);
      MainFunc(cid, start);
    }

    /** `save_task(get_task())`, `new Coroutine(...)->run()`, `main_func`. */
    method Spawn(start: Vm) returns (cid: int)
      requires current in tasks && lastCid + 1 != current
      modifies `vm, `walk, `level, `out, `tasks, `saves, `alive, `lastCid, `origin, `current
      ensures State() == SwapStep(old(State()), Event.Create, start)
      ensures if |old(alive)| >= maxNum then cid == -1 else cid == current == old(lastCid) + 1
    {
      if |alive| >= maxNum {
        return -1;
      }
      cid := lastCid + 1;
      Enter(cid, start);
      lastCid := cid;
      alive := alive + {cid};
      origin := origin[cid := current];
      current := cid;
    }

    /** `PHPCoroutine::create`; the new coroutine runs up to its first user instruction. */
    method Create(start: Vm) returns (cid: int)
      requires Valid()
      modifies this
      ensures Valid() && State() == SwapStep(old(State()), Event.Create, start)
      ensures if |old(alive)| >= maxNum then cid == -1 else cid == current == old(lastCid) + 1
    {
      IntactIsReady(State(), chain);
      ghost var after := SwapIntact(State(), Event.Create, start, chain);
      cid := Spawn(start);
      chain := after;
    }

    /** `Coroutine::yield()` called by the running coroutine, with its `on_yield` hook. */
    method Suspend(ghost why: Reason)
      requires current != MAIN && Origin(Schedule(), current) in tasks && Origin(Schedule(), current) != current
      requires current in tasks
      modifies `vm, `walk, `out, `level, `tasks, `current, `parked
      ensures State() == Exchange(old(State()), old(current), Origin(old(Schedule()), old(current)))
                         .(sched := SuspendFor(old(Schedule()), why))
    {
      var below := if current in origin then origin[current] else MAIN;
      SwapTasks(current, below);
      parked := parked[current := why];
      current := below;
    }

    /** `Coroutine::resume()` with its `on_resume` hook. */
    method Resume(cid: Cid)
      requires current in tasks && cid in tasks && cid != current
      modifies `vm, `walk, `out, `level, `tasks, `current, `parked, `origin
      ensures State() == Exchange(old(State()), old(current), cid).(sched := WakeUp(old(Schedule()), cid))
    {
      SwapTasks(current, cid);
      parked := parked - {cid};
      origin := origin[cid := current];
      current := cid;
    }

    /** `Co::yield()`: outside a coroutine the source aborts; the model does nothing. */
    method UserYield()
      requires Valid()
      modifies this
      ensures Valid() && State() == SwapStep(old(State()), YieldByUser, NO_VM)
    {
      IntactIsReady(State(), chain);
      ghost var after := SwapIntact(State(), YieldByUser, NO_VM, chain);
      ParkByUser();
      chain := after;
    }

    method ParkByUser()
      requires Ready(State())
      modifies `vm, `walk, `out, `level, `tasks, `current, `parked, `userYieldCoros
      ensures State() == SwapStep(old(State()), YieldByUser, NO_VM)
    {
      if current != MAIN {
        userYieldCoros := userYieldCoros + {current};
        Suspend(Reason.UserYield);
      }
    }

    /** `Co::resume($cid)`: only coroutines in the user table can be resumed. */
    method UserResume(cid: Cid) returns (ok: bool)
      requires Valid()
      modifies this
      ensures Valid() && State() == SwapStep(old(State()), ResumeByUser(cid), NO_VM)
      ensures ok == (cid in old(userYieldCoros))
    {
      IntactIsReady(State(), chain);
      ghost var after := SwapIntact(State(), ResumeByUser(cid), NO_VM, chain);
      ok := WakeByUser(cid);
      chain := after;
    }

    method WakeByUser(cid: Cid) returns (ok: bool)
      requires Ready(State())
      modifies `vm, `walk, `out, `level, `tasks, `current, `parked, `origin, `userYieldCoros
      ensures State() == SwapStep(old(State()), ResumeByUser(cid), NO_VM)
      ensures ok == (cid in old(userYieldCoros))
    {
      ok := cid in userYieldCoros;
      if ok {
        userYieldCoros := userYieldCoros - {cid};
        Resume(cid);
      }
    }

    /** A blocking call inside the extension parks the running coroutine. */
    method IoYield()
      requires Valid()
      modifies this
      ensures Valid() && State() == SwapStep(old(State()), YieldForIo, NO_VM)
    {
      IntactIsReady(State(), chain);
      ghost var after := SwapIntact(State(), YieldForIo, NO_VM, chain);
      if current != MAIN {
        Suspend(Io);
      }
      chain := after;
    }

    /** The event that a blocking call waits for resumes its coroutine, and nobody else's. */
    method IoResume(cid: Cid)
      requires Valid() && cid in parked && parked[cid] == Io
      modifies this
      ensures Valid() && State() == SwapStep(old(State()), ResumeByIo(cid), NO_VM)
    {
      IntactIsReady(State(), chain);
      ghost var after := SwapIntact(State(), ResumeByIo(cid), NO_VM, chain);
      Resume(cid);
      chain := after;
    }

    /** `coro_interrupt_function` on a schedulable task. */
    method InterruptYield()
      requires Valid()
      modifies this
      ensures Valid() && State() == SwapStep(old(State()), YieldByInterrupt, NO_VM)
    {
      IntactIsReady(State(), chain);
      ghost var after := SwapIntact(State(), YieldByInterrupt, NO_VM, chain);
      ParkByInterrupt();
      chain := after;
    }

    method ParkByInterrupt()
      requires Ready(State())
      modifies `vm, `walk, `out, `level, `tasks, `current, `parked, `deferred
      ensures State() == SwapStep(old(State()), YieldByInterrupt, NO_VM)
    {
      if current != MAIN {
        deferred := deferred + [current];
        Suspend(Interrupt);
      }
    }

    /** The event loop runs the oldest deferred `coro_interrupt_resume`. */
    method InterruptResume()
      requires Valid()
      modifies this
      ensures Valid() && State() == SwapStep(old(State()), RunDeferred, NO_VM)
    {
      IntactIsReady(State(), chain);
      ghost var after := SwapIntact(State(), RunDeferred, NO_VM, chain);
      WakeDeferred();
      chain := after;
    }

    method WakeDeferred()
      requires Ready(State())
      modifies `vm, `walk, `out, `level, `tasks, `current, `parked, `origin, `deferred
      ensures State() == SwapStep(old(State()), RunDeferred, NO_VM)
    {
      if deferred != [] {
        var co := deferred[0];
        deferred := deferred[1..];
        if co in alive {
          Resume(co);
        }
      }
    }

    /** The `on_close` hook: flush the output, restore the origin, drop the record. */
    method OnClose(below: Cid)
      requires current in tasks && below in tasks && below != current
      modifies `vm, `walk, `level, `out, `tasks, `saves
      ensures State() == Leave(old(State()), current, below)
    {
      if out.handlers != [] {
        out := NO_OUTPUT;
      }
      RestoreTask(below);
      tasks := tasks - {current};
      saves := saves - {current};
    }

    method Retire()
      requires Ready(State())
      modifies `vm, `walk, `level, `out, `tasks, `saves, `alive, `current
      ensures State() == SwapStep(old(State()), Close, NO_VM)
    {
      if current != MAIN {
        var below := if current in origin then origin[current] else MAIN;
        OnClose(below);
        alive := alive - {current};
        current := below;
      }
    }

    /** `Coroutine::close()`, once the coroutine's function has returned. */
    method CloseCurrent()
      requires Valid()
      modifies this
      ensures Valid() && State() == SwapStep(old(State()), Close, NO_VM)
    {
      IntactIsReady(State(), chain);
      ghost var after := SwapIntact(State(), Close, NO_VM, chain);
      Retire();
      chain := after;
    }

    /** `coro_begin_silence_handler`, then the engine's own BEGIN_SILENCE. */
    method BeginSilence()
      requires Valid()
      modifies `tasks, `saves, `level
      ensures Valid() && State() == MachineStep(old(State()), VmEvent.BeginSilence)
    {
      IntactIsReady(State(), chain);
      SilenceIntact(State(), VmEvent.BeginSilence, chain);
      Silence();
    }

    method Silence()
      requires current in tasks && current in saves
      modifies `tasks, `saves, `level
      ensures State() == MachineStep(old(State()), VmEvent.BeginSilence)
    {
      tasks := tasks[current := tasks[current].(inSilence := true, oriLevel := level)];
      saves := saves[current := saves[current] + [level]];
      level := 0;
    }

    /** `coro_end_silence_handler`, then the engine's own END_SILENCE. */
    method EndSilence()
      requires Valid()
      modifies `tasks, `saves, `level
      ensures Valid() && State() == MachineStep(old(State()), VmEvent.EndSilence)
    {
      IntactIsReady(State(), chain);
      SilenceIntact(State(), VmEvent.EndSilence, chain);
      Unsilence();
    }

    method Unsilence()
      requires current in tasks && current in saves
      modifies `tasks, `saves, `level
      ensures State() == MachineStep(old(State()), VmEvent.EndSilence)
    {
      var open := saves[current];
      if open != [] {
        tasks := tasks[current := tasks[current].(inSilence := false)];
        saves := saves[current := open[..|open| - 1]];
        if level == 0 && open[|open| - 1] != 0 {
          level := open[|open| - 1];
        }
      }
    }

    /** The event that the scheduler is told about, as a call. */
    method Switch(e: Event, start: Vm)
      requires Valid() && Honest(Schedule(), Swap(e, start))
      modifies this
      ensures Valid() && State() == SwapStep(old(State()), e, start)
    {
      if !e.Create? {
        StartIsForCreate(State(), e, start);
      }
      match e {
        case Create =>
          var _ := Create(start);
        case YieldByUser => UserYield();
        case YieldForIo => IoYield();
        case YieldByInterrupt => InterruptYield();
        case ResumeByUser(cid) =>
          var _ := UserResume(cid);
        case ResumeByIo(cid) => IoResume(cid);
        case RunDeferred => InterruptResume();
        case Close => CloseCurrent();
      }
    }

    method Perform(e: VmEvent)
      requires Valid() && Honest(Schedule(), e)
      modifies this
      ensures Valid() && State() == MachineStep(old(State()), e)
    {
      if !e.Swap? {
        LocalIntact(State(), e, chain);
      }
      match e {
        case Swap(event, start) => Switch(event, start);
        case SetVm(v) => vm := v;
        case SetWalk(w) => walk := w;
        case SetOutput(o) => out := o;
        case BeginSilence => BeginSilence();
        case EndSilence => EndSilence();
      }
    }

    /** Any sequence of engine instructions and switches, performed on the fields in place. */
    method Execute(es: seq<VmEvent>)
      requires Valid() && HonestRun(State(), es)
      modifies this
      ensures Valid() && State() == RunMachine(old(State()), es)
    {
      var i := 0;
      assert es[..0] == [];
      while i < |es|
        invariant 0 <= i <= |es|
        invariant Valid() && State() == RunMachine(old(State()), es[..i])
      {
        assert es[..i + 1][..i] == es[..i];
        Perform(es[i]);
        i := i + 1;
      }
      assert es[..i] == es;
    }
  }

  lemma ProgramIsRight(p: Program)
    requires TameRun(p) || CleanUpTo(p, |p.es|)
    ensures var m, i := MachineAt(p, |p.es|), IdealAt(p, |p.es|);
            m.sched.current in i.own && View(m) == i.own[m.sched.current]
  {
    if TameRun(p) {
      SwitchingRefinesPrivateGlobals(p, |p.es|);
    } else {
      RunExact(p, |p.es|);
      assert RightAt(p, |p.es|);
    }
  }

  /**
   The main theorem as a contract about the object: after any program whose switches all happen in clean
   states, and so after any tame one, the engine shows the running coroutine its own globals.
   */
  method RunProgram(p: Program) returns (engine: Engine)
    requires HonestRun(Boot(p.maxNum, p.vm, p.base), p.es)
    ensures engine.Valid() && engine.State() == MachineAt(p, |p.es|)
    ensures TameRun(p) || CleanUpTo(p, |p.es|) ==>
              var i := IdealAt(p, |p.es|);
              engine.current in i.own && View(engine.State()) == i.own[engine.current]
  {
    engine := new Engine(p.maxNum, p.vm, p.base);
    engine.Execute(p.es);
    assert p.es[..|p.es|] == p.es;
    if TameRun(p) || CleanUpTo(p, |p.es|) {
      ProgramIsRight(p);
    }
  }
}
