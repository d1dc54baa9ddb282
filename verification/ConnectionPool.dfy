/**
 `Swoole\ConnectionPool` over the real channel. The constructor callback may yield, so building a
 connection takes two steps and any number of coroutines may be inside it at once.
 */
module ConnectionPool {
  import opened Channel
  import opened Coroutines
  import opened PhpBytes

  type Conn = nat

  /** What a coroutine goes on to do once the connection it is building has been put. */
  datatype Then = ThenPop | ThenFill | ThenReturn

  /** `making` are the coroutines inside the constructor, `popping` those that were overtaken
      between their own put and their pop, `filling` those in the loop of `fill`, `lent` the
      connections that clients hold, `built` the connections constructed so far. */
  datatype Pool = Pool(
    size: int,
    num: int,
    chan: Chan<Conn>,
    making: map<Cid, Then>,
    popping: set<Cid>,
    filling: set<Cid>,
    lent: multiset<Conn>,
    built: nat)

  datatype Call =
    | Fill(co: Cid)
    | FillOn(co: Cid)                  // one test of the loop in `fill`
    | Get(co: Cid)
    | PopOn(co: Cid)                   // the pop of an overtaken `get`
    | Built(co: Cid)                   // the constructor returns a fresh connection
    | BuildFails(co: Cid)              // the constructor throws
    | Put(co: Cid, conn: Conn)         // a client returns what it borrowed
    | PutNull(co: Cid, conn: Conn)     // a client drops a broken connection it borrowed

  function New(size: int): Pool {
    Pool(size, 0, Channel.New(size), map[], {}, {}, multiset{}, 0)
  }

  predicate Idle(p: Pool, co: Cid) {
    co !in p.making && co !in p.popping && co !in p.filling && co !in p.chan.consumers
  }

  predicate Enabled(p: Pool, c: Call) {
    match c
    case Fill(co) => Idle(p, co)
    case FillOn(co) => co in p.filling && co !in p.making
    case Get(co) => Idle(p, co)
    case PopOn(co) => co in p.popping
    case Built(co) => co in p.making
    case BuildFails(co) => co in p.making
    case Put(co, conn) => Idle(p, co) && conn in p.lent
    case PutNull(co, conn) => Idle(p, co) && conn in p.lent
  }

  /** `make` up to the call of the constructor. */
  function StartMaking(p: Pool, co: Cid, k: Then): Pool {
    p.(num := p.num + 1, making := p.making[co := k])
  }

  /** `$this->pool->push($connection)`; a hand-over lends the connection to the waiting `get`. */
  function PushConn(p: Pool, co: Cid, conn: Conn): Pool {
    var (ch, out) := Push(p.chan, co, conn);
    p.(chan := ch, lent := if out.Handed? then p.lent + multiset{out.got} else p.lent)
  }

  function PopConn(p: Pool, co: Cid): Pool {
    var (ch, out) := Pop(p.chan, co);
    p.(chan := ch, lent := if out.Got? then p.lent + multiset{out.value} else p.lent)
  }

  /** The end of `make`: the new connection is put into the pool. */
  function PushBuilt(p: Pool, co: Cid): Pool {
    PushConn(p.(making := p.making - {co}, built := p.built + 1), co, p.built)
  }

  /** What the builder does next; if its push woke a waiting `get`, it runs on only later. */
  function GoOn(q: Pool, co: Cid, k: Then, overtaken: bool): Pool {
    match k
    case ThenReturn => q
    case ThenFill => q.(filling := q.filling + {co})
    case ThenPop => if overtaken then q.(popping := q.popping + {co}) else PopConn(q, co)
  }

  function Step(p: Pool, c: Call): Pool {
    match c
    case Fill(co) => p.(filling := p.filling + {co})
    case FillOn(co) =>
      if p.size > p.num then StartMaking(p.(filling := p.filling - {co}), co, ThenFill)
      else p.(filling := p.filling - {co})
    case Get(co) =>
      if p.chan.data == [] && p.num < p.size then StartMaking(p, co, ThenPop) else PopConn(p, co)
    case PopOn(co) => PopConn(p.(popping := p.popping - {co}), co)
    case Built(co) =>
      var k := if co in p.making then p.making[co] else ThenReturn;
      var overtaken := p.chan.consumers != [];
      GoOn(PushBuilt(p, co), co, k, overtaken)
    case BuildFails(co) => p.(making := p.making - {co}, num := p.num - 1)
    case Put(co, conn) => PushConn(p.(lent := p.lent - multiset{conn}), co, conn)
    case PutNull(co, conn) =>
      StartMaking(p.(lent := p.lent - multiset{conn}, num := p.num - 1), co, ThenReturn)
  }

  function Run(p: Pool, cs: seq<Call>): Pool {
    if cs == [] then p else Step(Run(p, cs[..|cs| - 1]), cs[|cs| - 1])
  }

  ghost predicate IsRun(p: Pool, cs: seq<Call>) {
    forall i :: 0 <= i < |cs| ==> Enabled(Run(p, cs[..i]), cs[i])
  }

  /** Where every connection is. */
  function Everywhere(p: Pool): multiset<Conn> {
    multiset(p.chan.data) + p.lent
  }

  /** Every connection counted by `num` is idle, lent or under construction; no connection is in
      two places or with two clients; nobody waits in a push. */
  ghost predicate Sound(p: Pool) {
    && Valid(p.chan) && !p.chan.closed
    && p.chan.capacity == (if p.size <= 0 then 1 else p.size)
    && p.chan.producers == []
    && p.num == |p.chan.data| + |p.lent| + |p.making|
    && p.num <= (if p.size <= 0 then 0 else p.size)
    && (forall c :: c in Everywhere(p) ==> Everywhere(p)[c] == 1 && c < p.built)
  }

  /** A coroutine waits for a connection only when all of them exist. */
  ghost predicate WaitsOnlyWhenFull(p: Pool) {
    p.chan.consumers != [] || p.popping != {} ==> p.num >= p.size
  }

  lemma MapMinusOne<K, V>(m: map<K, V>, k: K)
    requires k in m
    ensures |m - {k}| == |m| - 1
  {
    assert (m - {k}).Keys == m.Keys - {k};
    assert |m.Keys - {k}| == |m.Keys| - 1;
  }

  /** Pushing one connection that is nowhere else moves it to the idle queue or to a waiting client. */
  lemma PushKeeps(p: Pool, co: Cid, conn: Conn)
    requires Valid(p.chan) && !p.chan.closed && p.chan.producers == []
    requires |p.chan.data| < p.chan.capacity
    ensures var q := PushConn(p, co, conn);
            && q == p.(chan := q.chan, lent := q.lent)
            && Valid(q.chan) && !q.chan.closed && q.chan.producers == [] && q.chan.capacity == p.chan.capacity
            && |q.chan.data| + |q.lent| == |p.chan.data| + |p.lent| + 1
            && Everywhere(q) == Everywhere(p) + multiset{conn}
            && (p.chan.consumers == [] ==> q.chan.consumers == [] && q.chan.data == p.chan.data + [conn])
            && |q.chan.consumers| <= |p.chan.consumers|
  {
    PushIsFifo(p.chan, co, conn);
    var q := PushConn(p, co, conn);
    assert Pending(p.chan.producers) == [];
    if p.chan.consumers == [] {
      assert multiset(p.chan.data + [conn]) == multiset(p.chan.data) + multiset{conn};
    }
  }

  lemma PopKeeps(p: Pool, co: Cid)
    requires Valid(p.chan) && !p.chan.closed && p.chan.producers == []
    ensures var q := PopConn(p, co);
            && q == p.(chan := q.chan, lent := q.lent)
            && Valid(q.chan) && !q.chan.closed && q.chan.producers == [] && q.chan.capacity == p.chan.capacity
            && |q.chan.data| + |q.lent| == |p.chan.data| + |p.lent|
            && Everywhere(q) == Everywhere(p)
            && (p.chan.data != [] ==> q.chan.consumers == p.chan.consumers)
  {
    PopIsFifo(p.chan, co);
    assert Pending(p.chan.producers) == [];
    if p.chan.data != [] {
      assert p.chan.data == [p.chan.data[0]] + p.chan.data[1..];
      assert multiset(p.chan.data) == multiset{p.chan.data[0]} + multiset(p.chan.data[1..]);
    }
  }

  /** `Sound` is about where connections are, not about who moves them. */
  lemma MoveKeeps(p: Pool, q: Pool)
    requires Sound(p) && Valid(q.chan) && !q.chan.closed && q.chan.producers == []
    requires q.size == p.size && q.num == p.num && q.built == p.built && q.chan.capacity == p.chan.capacity
    requires Everywhere(q) == Everywhere(p)
    requires |q.chan.data| + |q.lent| + |q.making| == |p.chan.data| + |p.lent| + |p.making|
    ensures Sound(q)
  {
  }

  lemma PushBuiltKeeps(p: Pool, co: Cid)
    requires Sound(p) && co in p.making
    ensures var q := PushBuilt(p, co);
            && Sound(q) && q.num == p.num && q.size == p.size && (WaitsOnlyWhenFull(p) ==> WaitsOnlyWhenFull(q))
            && (p.chan.consumers == [] ==> q.chan.consumers == [] && q.chan.data != [])
  {
    MapMinusOne(p.making, co);
    var p1 := p.(making := p.making - {co}, built := p.built + 1);
    assert p.built !in Everywhere(p);
    assert Everywhere(p1) == Everywhere(p);
    PushKeeps(p1, co, p.built);
  }

  lemma GoOnKeeps(q: Pool, co: Cid, k: Then, overtaken: bool)
    requires Sound(q) && (!overtaken ==> q.chan.data != [])
    ensures Sound(GoOn(q, co, k, overtaken))
    ensures WaitsOnlyWhenFull(q) && (overtaken ==> q.num >= q.size) ==> WaitsOnlyWhenFull(GoOn(q, co, k, overtaken))
  {
    if k.ThenPop? && !overtaken {
      PopKeeps(q, co);
    }
    MoveKeeps(q, GoOn(q, co, k, overtaken));
  }

  lemma BuiltKeeps(p: Pool, co: Cid)
    requires Sound(p) && co in p.making
    ensures Sound(Step(p, Built(co)))
    ensures WaitsOnlyWhenFull(p) ==> WaitsOnlyWhenFull(Step(p, Built(co)))
  {
    PushBuiltKeeps(p, co);
    GoOnKeeps(PushBuilt(p, co), co, p.making[co], p.chan.consumers != []);
  }

  lemma GetKeeps(p: Pool, co: Cid)
    requires Sound(p) && Idle(p, co)
    ensures Sound(Step(p, Get(co)))
    ensures WaitsOnlyWhenFull(p) ==> WaitsOnlyWhenFull(Step(p, Get(co)))
  {
    if p.chan.data == [] && p.num < p.size {
      assert Everywhere(StartMaking(p, co, ThenPop)) == Everywhere(p);
    } else {
      PopKeeps(p, co);
      MoveKeeps(p, PopConn(p, co));
    }
  }

  lemma PopOnKeeps(p: Pool, co: Cid)
    requires Sound(p) && co in p.popping
    ensures Sound(Step(p, PopOn(co)))
    ensures WaitsOnlyWhenFull(p) ==> WaitsOnlyWhenFull(Step(p, PopOn(co)))
  {
    PopKeeps(p.(popping := p.popping - {co}), co);
    MoveKeeps(p, Step(p, PopOn(co)));
  }

  lemma RoomToPut(p: Pool, conn: Conn)
    requires Sound(p) && conn in p.lent
    ensures var p1 := p.(lent := p.lent - multiset{conn});
            && |p1.chan.data| < p1.chan.capacity && |p1.lent| == |p.lent| - 1
            && Everywhere(p1) + multiset{conn} == Everywhere(p)
  {
    assert |p.lent - multiset{conn}| == |p.lent| - 1;
  }

  lemma PutMoves(p: Pool, co: Cid, conn: Conn)
    requires Sound(p) && conn in p.lent
    ensures var q := Step(p, Put(co, conn));
            && q == p.(chan := q.chan, lent := q.lent)
            && Valid(q.chan) && !q.chan.closed && q.chan.producers == [] && q.chan.capacity == p.chan.capacity
            && |q.chan.data| + |q.lent| == |p.chan.data| + |p.lent| && Everywhere(q) == Everywhere(p)
            && |q.chan.consumers| <= |p.chan.consumers|
  {
    RoomToPut(p, conn);
    PushKeeps(p.(lent := p.lent - multiset{conn}), co, conn);
  }

  lemma PutKeeps(p: Pool, co: Cid, conn: Conn)
    requires Sound(p) && conn in p.lent
    ensures Sound(Step(p, Put(co, conn)))
    ensures WaitsOnlyWhenFull(p) ==> WaitsOnlyWhenFull(Step(p, Put(co, conn)))
  {
    PutMoves(p, co, conn);
    MoveKeeps(p, Step(p, Put(co, conn)));
  }

  lemma FillOnKeeps(p: Pool, co: Cid)
    requires Sound(p) && co !in p.making
    ensures Sound(Step(p, FillOn(co)))
    ensures WaitsOnlyWhenFull(p) ==> WaitsOnlyWhenFull(Step(p, FillOn(co)))
  {
    assert Everywhere(Step(p, FillOn(co))) == Everywhere(p);
  }

  lemma BuildFailsKeeps(p: Pool, co: Cid)
    requires Sound(p) && co in p.making
    ensures Sound(Step(p, BuildFails(co)))
  {
    MapMinusOne(p.making, co);
    assert Everywhere(Step(p, BuildFails(co))) == Everywhere(p);
  }

  lemma PutNullKeeps(p: Pool, co: Cid, conn: Conn)
    requires Sound(p) && conn in p.lent && co !in p.making
    ensures Sound(Step(p, PutNull(co, conn)))
    ensures WaitsOnlyWhenFull(p) ==> WaitsOnlyWhenFull(Step(p, PutNull(co, conn)))
  {
    var q := Step(p, PutNull(co, conn));
    assert Everywhere(q) + multiset{conn} == Everywhere(p);
    forall c | c in Everywhere(q) ensures Everywhere(q)[c] == 1 && c < q.built {
      assert c in Everywhere(p);
    }
  }

  lemma StepKeeps(p: Pool, c: Call)
    requires Sound(p) && Enabled(p, c)
    ensures Sound(Step(p, c))
    ensures WaitsOnlyWhenFull(p) && !c.BuildFails? ==> WaitsOnlyWhenFull(Step(p, c))
  {
    match c
    case Get(co) => GetKeeps(p, co);
    case PopOn(co) => PopOnKeeps(p, co);
    case Built(co) => BuiltKeeps(p, co);
    case Put(co, conn) => PutKeeps(p, co, conn);
    case Fill(co) => MoveKeeps(p, Step(p, c));
    case FillOn(co) => FillOnKeeps(p, co);
    case BuildFails(co) => BuildFailsKeeps(p, co);
    case PutNull(co, conn) => PutNullKeeps(p, co, conn);
  }

  /** At every yield point of every run, constructor failures and dropped connections included:
      num = idle + lent + under construction <= size, no connection is shared, and the push in
      `put` has never had to wait. */
  lemma {:induction false} EveryRunIsSound(size: int, cs: seq<Call>)
    requires IsRun(New(size), cs)
    ensures Sound(Run(New(size), cs))
    ensures (forall c :: c in cs ==> !c.BuildFails?) ==> WaitsOnlyWhenFull(Run(New(size), cs))
  {
    if cs != [] {
      var before := cs[..|cs| - 1];
      forall i | 0 <= i < |before| ensures Enabled(Run(New(size), before[..i]), before[i]) {
        assert before[..i] == cs[..i];
      }
      EveryRunIsSound(size, before);
      StepKeeps(Run(New(size), before), cs[|cs| - 1]);
    }
  }

  // ---------------------------------------------------------------- what single calls bring about

  /** `get` lends the connection that has been idle longest if there is one, builds one if there is room, and
      otherwise waits behind those that wait already. */
  lemma GetExactly(p: Pool, co: Cid)
    requires Sound(p) && Idle(p, co)
    ensures var q := Step(p, Get(co));
            if p.chan.data != [] then
              q == p.(chan := p.chan.(data := p.chan.data[1..]), lent := p.lent + multiset{p.chan.data[0]})
            else if p.num < p.size then q == p.(num := p.num + 1, making := p.making[co := ThenPop])
            else q == p.(chan := p.chan.(consumers := p.chan.consumers + [co]))
  {
    PopIsFifo(p.chan, co);
  }

  /** `put` gives the connection to the `get` that has waited longest, or adds it to the idle ones; `put(null)`
      takes it out of the pool and starts to build another. */
  lemma PutExactly(p: Pool, co: Cid, conn: Conn)
    requires Sound(p) && conn in p.lent
    ensures var q := Step(p, Put(co, conn));
            if p.chan.consumers != [] then q == p.(chan := p.chan.(consumers := p.chan.consumers[1..]))
            else q == p.(chan := p.chan.(data := p.chan.data + [conn]), lent := p.lent - multiset{conn})
    ensures var q := Step(p, PutNull(co, conn));
            q == p.(lent := p.lent - multiset{conn}, making := p.making[co := ThenReturn])
  {
    RoomToPut(p, conn);
    PushIsFifo(p.chan, co, conn);
    assert p.lent - multiset{conn} + multiset{conn} == p.lent;
    assert p.chan.data == [] ==> (p.chan.data + [conn])[1..] == [];
  }

  /** What becomes of a new connection: the `get` that waits longest has it, or it is idle; and then the `get` that
      built it takes the one that is idle longest, unless it was overtaken and takes its turn later. */
  lemma BuiltExactly(p: Pool, co: Cid)
    requires Sound(p) && co in p.making && p.making[co] == ThenPop
    ensures var q := Step(p, Built(co));
            if p.chan.consumers != [] then
              q == p.(making := p.making - {co}, built := p.built + 1, popping := p.popping + {co},
                      lent := p.lent + multiset{p.built}, chan := p.chan.(consumers := p.chan.consumers[1..]))
            else
              var idle := p.chan.data + [p.built];
              q == p.(making := p.making - {co}, built := p.built + 1,
                      lent := p.lent + multiset{idle[0]}, chan := p.chan.(data := idle[1..]))
  {
    MapMinusOne(p.making, co);
    PushIsFifo(p.chan, co, p.built);
    if p.chan.consumers != [] {
      assert (p.chan.data + [p.built])[1..] == [];
    } else {
      PopIsFifo(p.chan.(data := p.chan.data + [p.built]), co);
    }
  }

  /** An overtaken `get` takes the connection that is idle longest, or waits behind the others. */
  lemma PopOnExactly(p: Pool, co: Cid)
    requires Sound(p) && co in p.popping
    ensures var q := Step(p, PopOn(co));
            if p.chan.data != [] then
              q == p.(popping := p.popping - {co}, lent := p.lent + multiset{p.chan.data[0]},
                      chan := p.chan.(data := p.chan.data[1..]))
            else q == p.(popping := p.popping - {co}, chan := p.chan.(consumers := p.chan.consumers + [co]))
  {
    PopIsFifo(p.chan, co);
  }

  /** The loop of `fill` is left exactly when the pool has its size; otherwise a connection is built, and after
      it, if nobody overtakes, the loop goes on with one more idle connection. */
  lemma FillExactly(p: Pool, co: Cid)
    requires Sound(p) && co in p.filling && co !in p.making && p.chan.consumers == []
    ensures var q := Step(p, FillOn(co));
            if p.num >= p.size then q == p.(filling := p.filling - {co})
            else
              && q == p.(num := p.num + 1, filling := p.filling - {co}, making := p.making[co := ThenFill])
              && Step(q, Built(co)) == p.(num := p.num + 1, built := p.built + 1,
                                          chan := p.chan.(data := p.chan.data + [p.built]))
  {
    if p.num < p.size {
      var q := Step(p, FillOn(co));
      assert q.making - {co} == p.making;
      var q1 := q.(making := p.making, built := p.built + 1);
      PushIsFifo(q1.chan, co, p.built);
      assert q1.filling + {co} == p.filling;
    }
  }

  /** The connections built one after the other from number n on. */
  function Fresh(n: nat, count: nat): seq<Conn> {
    if count == 0 then [] else Fresh(n, count - 1) + [n + count - 1]
  }

  /** The pool in the loop of `fill` after some turns. */
  function Filling(p: Pool, co: Cid, turns: nat): Pool {
    p.(filling := p.filling + {co}, num := p.num + turns, built := p.built + turns,
       chan := p.chan.(data := p.chan.data + Fresh(p.built, turns)))
  }

  lemma FillingOn(p: Pool, co: Cid, turns: nat)
    ensures var q := Filling(p, co, turns);
            Filling(p, co, turns + 1)
            == q.(num := q.num + 1, built := q.built + 1, chan := q.chan.(data := q.chan.data + [q.built]))
  {
    Regroup(p.chan.data, Fresh(p.built, turns), [p.built + turns]);
  }

  /** One turn of the loop of `fill`: a test, and the connection that it makes the loop build. */
  function Turn(p: Pool, co: Cid): Pool {
    Step(Step(p, FillOn(co)), Built(co))
  }

  ghost predicate InFill(p: Pool, co: Cid) {
    Sound(p) && co in p.filling && co !in p.making && p.chan.consumers == []
  }

  lemma TurnBuilds(p: Pool, co: Cid)
    requires InFill(p, co) && p.num < p.size
    ensures Enabled(p, FillOn(co)) && Enabled(Step(p, FillOn(co)), Built(co)) && InFill(Turn(p, co), co)
    ensures Turn(p, co) == p.(num := p.num + 1, built := p.built + 1, chan := p.chan.(data := p.chan.data + [p.built]))
  {
    FillExactly(p, co);
    StepKeeps(p, FillOn(co));
    StepKeeps(Step(p, FillOn(co)), Built(co));
  }

  lemma FillBegins(p: Pool, co: Cid)
    requires Sound(p) && Idle(p, co) && p.chan.consumers == []
    ensures InFill(Step(p, Fill(co)), co) && Step(p, Fill(co)) == Filling(p, co, 0)
  {
    assert p.chan.data + [] == p.chan.data;
    MoveKeeps(p, Step(p, Fill(co)));
  }

  /** The turn after `turns` turns builds one more connection. */
  ghost predicate TurnFills(p: Pool, co: Cid, turns: nat) {
    var q := Filling(p, co, turns);
    && Enabled(q, FillOn(co)) && Enabled(Step(q, FillOn(co)), Built(co))
    && Turn(q, co) == Filling(p, co, turns + 1)
  }

  lemma NextTurnFills(p: Pool, co: Cid, turns: nat)
    requires InFill(Filling(p, co, turns), co) && p.num + turns < p.size
    ensures TurnFills(p, co, turns) && InFill(Filling(p, co, turns + 1), co)
  {
    TurnBuilds(Filling(p, co, turns), co);
    FillingOn(p, co, turns);
  }

  lemma {:induction false} StillFilling(p: Pool, co: Cid, turns: nat)
    requires InFill(Filling(p, co, 0), co) && p.num + turns <= p.size
    ensures InFill(Filling(p, co, turns), co)
  {
    if turns > 0 {
      StillFilling(p, co, turns - 1);
      NextTurnFills(p, co, turns - 1);
    }
  }

  lemma FillEnds(p: Pool, co: Cid, turns: nat)
    requires InFill(Filling(p, co, turns), co) && co !in p.filling && p.num + turns == p.size
    ensures Step(Filling(p, co, turns), FillOn(co)) == Filling(p, co, turns).(filling := p.filling)
  {
    FillExactly(Filling(p, co, turns), co);
    assert p.filling + {co} - {co} == p.filling;
  }

  /** So `fill`, if nobody comes in between, takes one turn for each missing connection. */
  lemma FillFills(p: Pool, co: Cid, turns: nat)
    requires Sound(p) && Idle(p, co) && p.chan.consumers == [] && p.num + turns < p.size
    ensures Step(p, Fill(co)) == Filling(p, co, 0) && TurnFills(p, co, turns)
  {
    FillBegins(p, co);
    StillFilling(p, co, turns);
    NextTurnFills(p, co, turns);
  }

  /** And it returns when the pool holds `size`, the new ones last. */
  lemma FillReturns(p: Pool, co: Cid, missing: nat)
    requires Sound(p) && Idle(p, co) && p.chan.consumers == [] && p.num + missing == p.size
    ensures Step(Filling(p, co, missing), FillOn(co))
            == p.(num := p.size, built := p.built + missing,
                  chan := p.chan.(data := p.chan.data + Fresh(p.built, missing)))
  {
    FillBegins(p, co);
    StillFilling(p, co, missing);
    FillEnds(p, co, missing);
  }

  /** Nobody waits for a connection. */
  predicate NobodyWaits(p: Pool) {
    p.chan.consumers == [] && p.popping == {}
  }

  /** A failed construction leaves a client waiting beside free room exactly if somebody was waiting. */
  lemma BuildFailsExact(p: Pool, co: Cid)
    requires Sound(p) && Enabled(p, BuildFails(co))
    ensures WaitsOnlyWhenFull(Step(p, BuildFails(co))) <==> NobodyWaits(p)
  {
    BuildFailsKeeps(p, co);
  }

  /** After n calls nobody waits beside free room. */
  ghost predicate FullAt(size: int, cs: seq<Call>, n: nat)
    requires n <= |cs|
  {
    WaitsOnlyWhenFull(Run(New(size), cs[..n]))
  }

  /** If call n is a failed construction, nobody waits there. */
  ghost predicate UnawaitedAt(size: int, cs: seq<Call>, n: nat)
    requires n < |cs|
  {
    cs[n].BuildFails? ==> NobodyWaits(Run(New(size), cs[..n]))
  }

  ghost predicate NeverWaitsInVain(size: int, cs: seq<Call>) {
    forall n: nat | n <= |cs| :: FullAt(size, cs, n)
  }

  ghost predicate FailsOnlyUnawaited(size: int, cs: seq<Call>) {
    forall n: nat | n < |cs| :: UnawaitedAt(size, cs, n)
  }

  lemma PrefixIsRun(size: int, cs: seq<Call>, n: nat)
    requires IsRun(New(size), cs) && n <= |cs|
    ensures IsRun(New(size), cs[..n])
  {
    forall i | 0 <= i < n ensures Enabled(Run(New(size), cs[..n][..i]), cs[..n][i]) {
      assert cs[..n][..i] == cs[..i];
    }
  }

  lemma NextFull(size: int, cs: seq<Call>, n: nat)
    requires IsRun(New(size), cs) && n < |cs| && FullAt(size, cs, n)
    ensures FullAt(size, cs, n + 1) <==> UnawaitedAt(size, cs, n)
  {
    PrefixIsRun(size, cs, n);
    EveryRunIsSound(size, cs[..n]);
    assert cs[..n + 1][..n] == cs[..n];
    StepWaitsExact(Run(New(size), cs[..n]), cs[n]);
  }

  /** If each step keeps a property exactly when it is harmless, the property holds throughout exactly if all steps are. */
  lemma {:induction false} ThroughoutIff(holds: nat -> bool, harmless: nat -> bool, n: nat)
    requires holds(0) && forall k: nat | k < n && holds(k) :: holds(k + 1) <==> harmless(k)
    ensures (forall k: nat | k <= n :: holds(k)) <==> (forall k: nat | k < n :: harmless(k))
  {
    if n > 0 {
      ThroughoutIff(holds, harmless, n - 1);
      assert holds(n - 1) ==> (holds(n) <==> harmless(n - 1));
    }
  }

  /**
   Over every run: clients wait only while the pool is full, at every point, if and only if no construction
   fails while somebody waits.
   */
  lemma WaitsInVainIff(size: int, cs: seq<Call>)
    requires IsRun(New(size), cs)
    ensures NeverWaitsInVain(size, cs) <==> FailsOnlyUnawaited(size, cs)
  {
    ghost var full: nat -> bool := (k: nat) => k <= |cs| && FullAt(size, cs, k);
    ghost var unawaited: nat -> bool := (k: nat) => k < |cs| && UnawaitedAt(size, cs, k);
    NobodyYet(size, cs);
    forall k: nat | k < |cs| && full(k) ensures full(k + 1) <==> unawaited(k) {
      NextFull(size, cs, k);
    }
    ThroughoutIff(full, unawaited, |cs|);
    if NeverWaitsInVain(size, cs) {
      forall k: nat | k <= |cs| ensures full(k) { assert FullAt(size, cs, k); }
      forall k: nat | k < |cs| ensures UnawaitedAt(size, cs, k) { assert unawaited(k); }
    }
    if FailsOnlyUnawaited(size, cs) {
      forall k: nat | k < |cs| ensures unawaited(k) { assert UnawaitedAt(size, cs, k); }
      forall k: nat | k <= |cs| ensures FullAt(size, cs, k) { assert full(k); }
    }
  }

  lemma NobodyYet(size: int, cs: seq<Call>)
    ensures FullAt(size, cs, 0)
  {
    assert WaitsOnlyWhenFull(New(size));
  }

  lemma StepWaitsExact(p: Pool, c: Call)
    requires Sound(p) && Enabled(p, c) && WaitsOnlyWhenFull(p)
    ensures WaitsOnlyWhenFull(Step(p, c)) <==> (c.BuildFails? ==> NobodyWaits(p))
  {
    if c.BuildFails? {
      BuildFailsExact(p, c.co);
    } else {
      StepKeeps(p, c);
    }
  }

  /** A listed trace is a run. */
  lemma {:induction false} TraceIsRun(ps: seq<Pool>, cs: seq<Call>)
    requires |ps| == |cs| + 1
    requires forall i :: 0 <= i < |cs| ==> Enabled(ps[i], cs[i]) && Step(ps[i], cs[i]) == ps[i + 1]
    ensures IsRun(ps[0], cs) && Run(ps[0], cs) == ps[|cs|]
  {
    if cs != [] {
      var n := |cs| - 1;
      TraceIsRun(ps[..n + 1], cs[..n]);
      forall i | 0 <= i < |cs| ensures Enabled(Run(ps[0], cs[..i]), cs[i]) {
        if i < n {
          assert cs[..n][..i] == cs[..i];
          assert Enabled(Run(ps[0], cs[..n][..i]), cs[..n][i]);
        }
      }
    }
  }

  const STRANDING: seq<Call> := [Get(1), Built(1), Get(2), PutNull(1, 0), BuildFails(1)]

  function Stranded(i: nat): Pool {
    var p: Pool := New(1);
    if i == 0 then p
    else if i == 1 then p.(num := 1, making := map[1 := ThenPop])
    else if i == 2 then p.(num := 1, built := 1, lent := multiset{0})
    else
      var q := p.(num := 1, built := 1, chan := p.chan.(consumers := [2]));
      if i == 3 then q.(lent := multiset{0})
      else if i == 4 then q.(making := map[1 := ThenReturn])
      else q.(num := 0)
  }

  lemma StrandedStep(i: nat)
    requires i < |STRANDING|
    ensures Enabled(Stranded(i), STRANDING[i]) && Step(Stranded(i), STRANDING[i]) == Stranded(i + 1)
  {
    var p := Stranded(i);
    if i == 0 {
      assert Step(p, Get(1)) == StartMaking(p, 1, ThenPop);
    } else if i == 1 {
      BuiltAlone(Stranded(0), 1);
    } else if i == 2 {
      assert p.chan.consumers + [2] == [2];
    } else if i == 3 {
      assert p.lent - multiset{0} == multiset{};
    } else {
      assert p.making - {1} == map[];
    }
  }

  /** One failed replacement can strand a waiting `get`: nothing is lent or under construction,
      there is room for a connection, and nobody is left to build it. */
  lemma FailureCanStrandAGetter()
    ensures IsRun(New(1), STRANDING)
    ensures var p := Run(New(1), STRANDING);
            && p.chan.consumers == [2] && p.num == 0 < p.size
            && p.lent == multiset{} && p.making == map[] && p.popping == {} && p.filling == {}
    ensures !FailsOnlyUnawaited(1, STRANDING) && !NeverWaitsInVain(1, STRANDING)
  {
    var ps := seq(6, i requires 0 <= i => Stranded(i));
    forall i | 0 <= i < |STRANDING| ensures Enabled(ps[i], STRANDING[i]) && Step(ps[i], STRANDING[i]) == ps[i + 1] {
      StrandedStep(i);
    }
    TraceIsRun(ps, STRANDING);
    TraceIsRun(ps[..5], STRANDING[..4]);
    assert !UnawaitedAt(1, STRANDING, 4);
    WaitsInVainIff(1, STRANDING);
  }

  /** The first `get` of an empty pool ends up with the connection it built. */
  lemma BuiltAlone(p: Pool, co: Cid)
    requires p == New(1)
    ensures Step(p.(num := 1, making := map[co := ThenPop]), Built(co))
            == p.(num := 1, built := 1, lent := multiset{0})
  {
    var q := p.(num := 1, making := map[], built := 1);
    assert map[co := ThenPop] - {co} == map[];
    assert PushConn(q, co, 0) == q.(chan := q.chan.(data := [0]));
    assert [0][1..] == [];
  }
}
