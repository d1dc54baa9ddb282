/**
 The bounded channel between coroutines. A call is cut at its yield points; resuming a waiting
 coroutine runs it at once, so a hand-over is part of the step that causes it.
 */
module Channel {
  import opened Coroutines
  import opened PhpBytes

  /** `consumers` and `producers` are the waiting coroutines, oldest first. */
  datatype Chan<T> = Chan(
    capacity: nat, closed: bool, data: seq<T>, consumers: seq<Cid>, producers: seq<(Cid, T)>)

  datatype Pushed<T> =
    | Stored                        // the push returned true
    | Handed(consumer: Cid, got: T) // it returned true, and `consumer`'s pop returned `got`
    | PushWaits
    | PushRefused                   // closed: the push returned false

  datatype Popped<T> =
    | Got(value: T)
    | PopWaits
    | PopRefused

  /** PHP's constructor turns a capacity below 1 into 1. */
  function New<T>(capacity: int): Chan<T> {
    Chan(if capacity <= 0 then 1 else capacity, false, [], [], [])
  }

  ghost predicate Valid<T>(ch: Chan<T>) {
    && ch.capacity >= 1
    && |ch.data| <= ch.capacity
    && (ch.consumers != [] ==> ch.data == [])
    && (ch.producers != [] ==> |ch.data| == ch.capacity)
    && (ch.closed ==> ch.consumers == [] && ch.producers == [])
  }

  /** Everything sent and not yet received, in order, wherever it is held. */
  function Pending<T>(ps: seq<(Cid, T)>): seq<T> {
    if ps == [] then [] else [ps[0].1] + Pending(ps[1..])
  }

  function Queue<T>(ch: Chan<T>): seq<T> {
    ch.data + Pending(ch.producers)
  }

  /** The tail of `push`: store, then resume the oldest waiting consumer, whose pop takes the front. */
  function Store<T>(ch: Chan<T>, v: T): (r: (Chan<T>, Pushed<T>)) {
    var data := ch.data + [v];
    if ch.consumers == [] then (ch.(data := data), Stored)
    else (ch.(data := data[1..], consumers := ch.consumers[1..]), Handed(ch.consumers[0], data[0]))
  }

  function Push<T>(ch: Chan<T>, who: Cid, v: T): (r: (Chan<T>, Pushed<T>)) {
    if ch.closed then (ch, PushRefused)
    else if |ch.data| == ch.capacity || ch.producers != []
    then (ch.(producers := ch.producers + [(who, v)]), PushWaits)
    else Store(ch, v)
  }

  /** A pop that finds data takes the front, then resumes the oldest waiting producer. */
  function Pop<T>(ch: Chan<T>, who: Cid): (r: (Chan<T>, Popped<T>)) {
    if ch.closed then (ch, PopRefused)
    else if ch.data == [] || ch.consumers != []
    then (ch.(consumers := ch.consumers + [who]), PopWaits)
    else
      var rest := ch.(data := ch.data[1..]);
      if ch.producers == [] then (rest, Got(ch.data[0]))
      else (Store(rest.(producers := ch.producers[1..]), ch.producers[0].1).0, Got(ch.data[0]))
  }

  /** `timer_callback` for a consumer: it leaves the queue and its pop returns false. */
  function ConsumerTimeout<T>(ch: Chan<T>, who: Cid): Chan<T> {
    ch.(consumers := Without(ch.consumers, who))
  }

  function Without(cs: seq<Cid>, who: Cid): seq<Cid> {
    if cs == [] then [] else (if cs[0] == who then [] else [cs[0]]) + Without(cs[1..], who)
  }

  lemma {:induction false} PendingSnoc<T>(ps: seq<(Cid, T)>, p: (Cid, T))
    ensures Pending(ps + [p]) == Pending(ps) + [p.1]
  {
    if ps != [] {
      assert (ps + [p])[1..] == ps[1..] + [p];
      PendingSnoc(ps[1..], p);
    }
  }

  /** A push appends to one unbounded FIFO queue, or hands its own value to the consumer that has
      waited longest; it waits only when the channel is full. */
  lemma PushIsFifo<T>(ch: Chan<T>, who: Cid, v: T)
    requires Valid(ch)
    ensures var (ch', out) := Push(ch, who, v);
            && Valid(ch')
            && (ch.closed <==> out == PushRefused)
            && (out == PushRefused ==> ch' == ch)
            && (out.Handed? <==> !ch.closed && ch.consumers != [])
            && (out.Handed? ==> out == Handed(ch.consumers[0], v) && Queue(ch') == Queue(ch) == []
                                && ch'.consumers == ch.consumers[1..])
            && (out == Stored || out == PushWaits ==> Queue(ch') == Queue(ch) + [v] && ch'.consumers == [])
            && (out == PushWaits <==> !ch.closed && |ch.data| == ch.capacity)
            && ch'.producers == ch.producers + (if out == PushWaits then [(who, v)] else [])
  {
    PendingSnoc(ch.producers, (who, v));
  }

  /** A pop takes the head of that queue; it waits exactly when the queue is empty. */
  lemma PopIsFifo<T>(ch: Chan<T>, who: Cid)
    requires Valid(ch)
    ensures var (ch', out) := Pop(ch, who);
            && Valid(ch')
            && (ch.closed <==> out == PopRefused)
            && (out == PopRefused ==> ch' == ch)
            && (out == PopWaits <==> !ch.closed && Queue(ch) == [])
            && (out == PopWaits ==> Queue(ch') == [] && ch'.consumers == ch.consumers + [who])
            && (out.Got? ==> Queue(ch) == [out.value] + Queue(ch') && ch'.consumers == ch.consumers)
            && ch'.producers == (if out.Got? && ch.producers != [] then ch.producers[1..] else ch.producers)
  {
    if !ch.closed && ch.data != [] {
      assert ch.consumers == [];
      if ch.producers != [] {
        var rest := ch.(data := ch.data[1..], producers := ch.producers[1..]);
        assert Pop(ch, who).0 == rest.(data := rest.data + [ch.producers[0].1]);
      }
      assert ch.data == [ch.data[0]] + ch.data[1..];
    } else if !ch.closed {
      assert ch.producers == [];
    }
  }

  lemma TimeoutKeeps<T>(ch: Chan<T>, who: Cid)
    requires Valid(ch)
    ensures Valid(ConsumerTimeout(ch, who)) && Queue(ConsumerTimeout(ch, who)) == Queue(ch)
    ensures who !in ConsumerTimeout(ch, who).consumers
  {
    WithoutDrops(ch.consumers, who);
  }

  lemma {:induction false} WithoutDrops(cs: seq<Cid>, who: Cid)
    ensures who !in Without(cs, who)
    ensures who !in cs ==> Without(cs, who) == cs
  {
    if cs != [] {
      WithoutDrops(cs[1..], who);
      assert cs == [cs[0]] + cs[1..];
    }
  }

  /** The others keep their places. */
  lemma {:induction false} WithoutKeeps(before: seq<Cid>, who: Cid, after: seq<Cid>)
    requires who !in before && who !in after
    ensures Without(before + [who] + after, who) == before + after
  {
    var cs := before + [who] + after;
    if before == [] {
      assert cs[1..] == after;
      WithoutDrops(after, who);
    } else {
      assert cs[1..] == before[1..] + [who] + after;
      WithoutKeeps(before[1..], who, after);
    }
  }

  // ---------------------------------------------------------------- whole runs

  datatype Call<T> = Send(who: Cid, value: T) | Receive(who: Cid) | TimeUp(who: Cid)

  function Step<T>(ch: Chan<T>, c: Call<T>): Chan<T> {
    match c
    case Send(who, value) => Push(ch, who, value).0
    case Receive(who) => Pop(ch, who).0
    case TimeUp(who) => ConsumerTimeout(ch, who)
  }

  function Run<T>(ch: Chan<T>, cs: seq<Call<T>>): Chan<T> {
    if cs == [] then ch else Step(Run(ch, cs[..|cs| - 1]), cs[|cs| - 1])
  }

  /** The values that the senders passed, in order. */
  function SentBy<T>(cs: seq<Call<T>>): seq<T> {
    if cs == [] then []
    else
      var c := cs[|cs| - 1];
      SentBy(cs[..|cs| - 1]) + (if c.Send? then [c.value] else [])
  }

  /** What a call lets some receiver's pop return. */
  function ReceivedIn<T>(ch: Chan<T>, c: Call<T>): seq<T> {
    match c
    case Send(who, value) => (var out := Push(ch, who, value).1; if out.Handed? then [out.got] else [])
    case Receive(who) => (var out := Pop(ch, who).1; if out.Got? then [out.value] else [])
    case TimeUp(_) => []
  }

  function ReceivedBy<T>(ch: Chan<T>, cs: seq<Call<T>>): seq<T> {
    if cs == [] then []
    else ReceivedBy(ch, cs[..|cs| - 1]) + ReceivedIn(Run(ch, cs[..|cs| - 1]), cs[|cs| - 1])
  }

  lemma StepIsFifo<T>(ch: Chan<T>, c: Call<T>)
    requires Valid(ch) && !ch.closed
    ensures Valid(Step(ch, c)) && !Step(ch, c).closed && Step(ch, c).capacity == ch.capacity
    ensures Queue(ch) + (if c.Send? then [c.value] else []) == ReceivedIn(ch, c) + Queue(Step(ch, c))
  {
    match c
    case Send(who, value) => PushIsFifo(ch, who, value);
    case Receive(who) => PopIsFifo(ch, who);
    case TimeUp(who) => TimeoutKeeps(ch, who);
  }

  /** Over every run of any number of senders and receivers: what was sent is what was received and, in order,
      what is held in the channel and by waiting senders; nothing is lost, repeated or overtaken. */
  lemma {:induction false} EveryRunIsFifo<T>(capacity: int, cs: seq<Call<T>>)
    ensures var ch := Run(New<T>(capacity), cs);
            && Valid(ch) && !ch.closed && ch.capacity == (if capacity <= 0 then 1 else capacity)
            && SentBy(cs) == ReceivedBy(New<T>(capacity), cs) + Queue(ch)
  {
    if cs != [] {
      var before, c := cs[..|cs| - 1], cs[|cs| - 1];
      var ch: Chan<T> := Run(New<T>(capacity), before);
      var received := ReceivedBy(New<T>(capacity), before);
      EveryRunIsFifo(capacity, before);
      StepIsFifo(ch, c);
      Shift(received, Queue(ch), if c.Send? then [c.value] else [], ReceivedIn(ch, c), Queue(Step(ch, c)));
    }
  }
}
