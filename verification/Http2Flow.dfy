/**
 Receive-side flow control (section 6.9 of RFC 7540) as both peers do it, and the ledger between a
 receiver and a peer that honours its credit, with frames in flight in both directions.
 */
module Http2Flow {
  import opened PhpBytes
  import opened Http2Frames

  const LOW_WINDOW: nat := MAX_WINDOW / 4

  /** A window after `length` bytes in 32-bit arithmetic, and the increment that tops it up. */
  function Consume(window: nat, length: nat): (nat, Option<nat>) {
    var w := (window - length) % TWO_32;
    if length > 0 && w < LOW_WINDOW then (MAX_WINDOW, Some(MAX_WINDOW - w)) else (w, None)
  }

  function Update(id: nat, increment: Option<nat>): seq<Frame> {
    if increment.None? then [] else [WindowUpdate(id, increment.value)]
  }

  /** The windows of a receiver: the connection's and those of the streams it knows. */
  datatype Receiver = Receiver(window: nat, streams: map<nat, nat>)

  /** A DATA frame at the receiver; on a stream it does not know the frame leaves no trace. */
  function Accept(r: Receiver, id: nat, length: nat): (Receiver, seq<Frame>) {
    if id !in r.streams then (r, [])
    else
      var (window, update) := Consume(r.window, length);
      var (streamWindow, streamUpdate) := Consume(r.streams[id], length);
      (Receiver(window, r.streams[id := streamWindow]), Update(0, update) + Update(id, streamUpdate))
  }

  // ---------------------------------------------------------------- a receiver and its peer

  datatype Link = Link(
    frameSize: nat,  // the peer's frames are no larger
    opening: nat,  // the receiver's connection window when the connection was opened
    initial: nat,  // the credit that the peer was told to start every stream with
    rx: Receiver,
    credit: nat,  // what the peer may still send
    streamCredit: map<nat, nat>,
    data: seq<Frame>,  // DATA frames on their way to the receiver
    updates: seq<Frame>,  // WINDOW_UPDATE frames on their way to the peer
    dropped: nat,
    droppedOn: map<nat, nat>,
    entry: map<nat, nat>)  // what the peer's side of a stream came to when the receiver last registered it

  datatype Event =
    | Spend(f: Frame)
    | Arrive
    | Credit
    | Register(id: nat)
    | Unregister(ids: set<nat>)

  function CreditOf(l: Link, id: nat): nat {
    if id in l.streamCredit then l.streamCredit[id] else l.initial
  }

  function DroppedOn(l: Link, id: nat): nat {
    if id in l.droppedOn then l.droppedOn[id] else 0
  }

  function EntryOf(l: Link, id: nat): nat {
    if id in l.entry then l.entry[id] else l.initial
  }

  function Sum(fs: seq<Frame>, weigh: Frame -> nat): nat {
    if fs == [] then 0 else weigh(fs[0]) + Sum(fs[1..], weigh)
  }

  function Size(): Frame -> nat {
    (f: Frame) => if f.Data? then |f.payload| else 0
  }

  function SizeOn(id: nat): Frame -> nat {
    (f: Frame) => if f.Data? && f.id == id then |f.payload| else 0
  }

  function Grant(id: nat): Frame -> nat {
    (f: Frame) => if f.WindowUpdate? && f.id == id then f.increment else 0
  }

  /** Credit, DATA and updates on the way, and what was dropped, on the connection and on a stream. */
  function PeerSide(l: Link): nat {
    l.credit + Sum(l.data, Size()) + Sum(l.updates, Grant(0)) + l.dropped
  }

  function PeerSideOn(l: Link, id: nat): nat {
    CreditOf(l, id) + Sum(l.data, SizeOn(id)) + Sum(l.updates, Grant(id)) + DroppedOn(l, id)
  }

  /**
   The peer stays within both credits and its frame size, and frames arrive in order. A stream on which
   the peer may send more than the default window, because it was told so or because the id is used
   again, is considered for frames up to 65535 bytes; both peers announce 16384.
   */
  predicate Enabled(l: Link, e: Event) {
    match e
    case Spend(f) =>
      && f.Data? && f.id != 0 && |f.payload| <= l.frameSize
      && |f.payload| <= l.credit && |f.payload| <= CreditOf(l, f.id)
    case Arrive => l.data != [] && l.data[0].Data?
    case Credit => l.updates != [] && l.updates[0].WindowUpdate?
    case Register(id) =>
      id != 0 && id !in l.rx.streams && (PeerSideOn(l, id) > DEFAULT_WINDOW ==> l.frameSize <= DEFAULT_WINDOW)
    case Unregister(_) => true
  }

  function Step(l: Link, e: Event): Link
    requires Enabled(l, e)
  {
    match e
    case Spend(f) =>
      l.(credit := l.credit - |f.payload|,
         streamCredit := l.streamCredit[f.id := CreditOf(l, f.id) - |f.payload|],
         data := l.data + [f])
    case Arrive =>
      var id, n := l.data[0].id, |l.data[0].payload|;
      var (rx, out) := Accept(l.rx, id, n);
      var lost := if id in l.rx.streams then 0 else n;
      l.(rx := rx, data := l.data[1..], updates := l.updates + out,
         dropped := l.dropped + lost, droppedOn := l.droppedOn[id := DroppedOn(l, id) + lost])
    case Credit =>
      var u := l.updates[0];
      if u.id == 0 then l.(updates := l.updates[1..], credit := l.credit + u.increment)
      else l.(updates := l.updates[1..], streamCredit := l.streamCredit[u.id := CreditOf(l, u.id) + u.increment])
    case Register(id) =>
      l.(rx := l.rx.(streams := l.rx.streams[id := DEFAULT_WINDOW]), entry := l.entry[id := PeerSideOn(l, id)])
    case Unregister(ids) =>
      l.(rx := l.rx.(streams := l.rx.streams - ids))
  }

  /** A new connection: the peer starts with the default credit there, and on streams with what it was told. */
  function Fresh(frameSize: nat, opening: nat, initial: nat): Link {
    Link(frameSize, opening, initial, Receiver(opening, map[]), DEFAULT_WINDOW, map[], [], [], 0, map[], map[])
  }

  // ---------------------------------------------------------------- the ledger

  lemma {:induction false} SumAppend(fs: seq<Frame>, gs: seq<Frame>, weigh: Frame -> nat)
    ensures Sum(fs + gs, weigh) == Sum(fs, weigh) + Sum(gs, weigh)
  {
    if fs == [] {
      assert fs + gs == gs;
    } else {
      assert (fs + gs)[1..] == fs[1..] + gs;
      SumAppend(fs[1..], gs, weigh);
    }
  }

  predicate InBounds(window: nat) {
    window == DEFAULT_WINDOW || LOW_WINDOW <= window <= MAX_WINDOW
  }

  /** The window is the peer's side, up to what the window was ahead of it when the connection opened. */
  ghost predicate ConnectionBalanced(l: Link) {
    && l.rx.window + DEFAULT_WINDOW == PeerSide(l) + l.opening
    && InBounds(l.rx.window) && InBounds(l.opening)
  }

  /** So is a stream's window, up to what the peer's side was ahead of it when the stream was registered. */
  ghost predicate StreamBalanced(l: Link, id: nat) {
    && (id in l.rx.streams ==>
          && id in l.entry
          && l.rx.streams[id] + EntryOf(l, id) == DEFAULT_WINDOW + PeerSideOn(l, id)
          && InBounds(l.rx.streams[id])
          && (EntryOf(l, id) > DEFAULT_WINDOW ==> l.frameSize <= DEFAULT_WINDOW))
    && (id !in l.entry ==> PeerSideOn(l, id) == l.initial)
  }

  ghost predicate Framed(l: Link) {
    forall f | f in l.data :: f.Data? && f.id != 0 && |f.payload| <= l.frameSize
  }

  ghost predicate Balanced(l: Link) {
    ConnectionBalanced(l) && Framed(l) && 0 !in l.rx.streams && forall id: nat | id != 0 :: StreamBalanced(l, id)
  }

  /** The subtraction does not wrap for what is covered, and a window that runs low is filled up. */
  lemma ConsumeBalances(window: nat, length: nat)
    requires InBounds(window) && length <= window
    ensures var (w, u) := Consume(window, length);
            && InBounds(w)
            && w == window - length + (if u.Some? then u.value else 0)
            && (length > 0 ==> w >= LOW_WINDOW)
  {
  }

  lemma UpdateSum(id: nat, increment: Option<nat>, other: nat)
    ensures Sum(Update(id, increment), Grant(other)) == if id == other && increment.Some? then increment.value else 0
  {
    if increment.Some? {
      assert Update(id, increment)[1..] == [];
    }
  }

  lemma SpendKeeps(l: Link, f: Frame)
    requires Balanced(l) && Enabled(l, Spend(f))
    ensures Balanced(Step(l, Spend(f)))
  {
    var l2 := Step(l, Spend(f));
    SumAppend(l.data, [f], Size());
    assert [f][1..] == [];
    forall id: nat | id != 0 ensures StreamBalanced(l2, id) {
      assert StreamBalanced(l, id);
      SpendKeepsStream(l, f, id);
    }
  }

  lemma SpendKeepsStream(l: Link, f: Frame, id: nat)
    requires Enabled(l, Spend(f)) && StreamBalanced(l, id)
    ensures StreamBalanced(Step(l, Spend(f)), id)
  {
    SumAppend(l.data, [f], SizeOn(id));
    assert [f][1..] == [];
  }

  lemma CreditKeepsStream(l: Link, id: nat)
    requires Enabled(l, Credit) && id != 0 && StreamBalanced(l, id)
    ensures StreamBalanced(Step(l, Credit), id)
  {
  }

  lemma CreditKeeps(l: Link)
    requires Balanced(l) && Enabled(l, Credit)
    ensures Balanced(Step(l, Credit))
  {
    forall id: nat | id != 0 ensures StreamBalanced(Step(l, Credit), id) {
      CreditKeepsStream(l, id);
    }
  }

  lemma RegisterKeeps(l: Link, id: nat)
    requires Balanced(l) && Enabled(l, Register(id))
    ensures Balanced(Step(l, Register(id)))
  {
    var l2 := Step(l, Register(id));
    forall other: nat | other != 0 ensures StreamBalanced(l2, other) {
      assert StreamBalanced(l, other);
    }
  }

  lemma UnregisterKeeps(l: Link, ids: set<nat>)
    requires Balanced(l)
    ensures Balanced(Step(l, Unregister(ids)))
  {
    var l2 := Step(l, Unregister(ids));
    forall other: nat | other != 0 ensures StreamBalanced(l2, other) {
      assert StreamBalanced(l, other);
    }
  }

  /** What is on the way is covered by the windows, so accepting it keeps the balance. */
  lemma ArriveKeeps(l: Link)
    requires Balanced(l) && Enabled(l, Arrive)
    ensures Balanced(Step(l, Arrive))
  {
    var l2 := Step(l, Arrive);
    if l.data[0].id in l.rx.streams {
      ArriveConnection(l);
    } else {
      assert l.updates + [] == l.updates;
    }
    forall other: nat | other != 0 ensures StreamBalanced(l2, other) {
      assert StreamBalanced(l, other);
      ArriveStream(l, other);
    }
  }

  lemma ArriveConnection(l: Link)
    requires Balanced(l) && Enabled(l, Arrive) && l.data[0].id in l.rx.streams
    ensures ConnectionBalanced(Step(l, Arrive))
  {
    var id, n := l.data[0].id, |l.data[0].payload|;
    var u, su := Consume(l.rx.window, n).1, Consume(l.rx.streams[id], n).1;
    ConsumeBalances(l.rx.window, n);
    SumAppend(l.updates, Update(0, u) + Update(id, su), Grant(0));
    SumAppend(Update(0, u), Update(id, su), Grant(0));
    UpdateSum(0, u, 0);
    UpdateSum(id, su, 0);
  }

  /** What an accepted frame sends back on a stream is what its window gained. */
  lemma AcceptGrants(r: Receiver, id: nat, n: nat, other: nat)
    requires id in r.streams && other != 0
    ensures var (r2, out) := Accept(r, id, n);
            && Sum(out, Grant(other))
               == (if id == other && Consume(r.streams[id], n).1.Some? then Consume(r.streams[id], n).1.value else 0)
            && r2.streams == r.streams[id := Consume(r.streams[id], n).0]
  {
    var u, su := Consume(r.window, n).1, Consume(r.streams[id], n).1;
    SumAppend(Update(0, u), Update(id, su), Grant(other));
    UpdateSum(0, u, other);
    UpdateSum(id, su, other);
  }

  /** The stream's window covers the next frame: by the balance, or because no frame is that large. */
  lemma StreamCovers(l: Link)
    requires Enabled(l, Arrive) && Framed(l) && StreamBalanced(l, l.data[0].id) && l.data[0].id in l.rx.streams
    ensures |l.data[0].payload| <= l.rx.streams[l.data[0].id]
  {
    assert l.data[0] in l.data;
  }

  lemma ArriveOwnStream(l: Link)
    requires Enabled(l, Arrive) && Framed(l) && StreamBalanced(l, l.data[0].id) && l.data[0].id in l.rx.streams
    ensures StreamBalanced(Step(l, Arrive), l.data[0].id)
  {
    var id, n := l.data[0].id, |l.data[0].payload|;
    StreamCovers(l);
    AcceptGrants(l.rx, id, n, id);
    SumAppend(l.updates, Accept(l.rx, id, n).1, Grant(id));
    ConsumeBalances(l.rx.streams[id], n);
  }

  lemma ArriveOtherStream(l: Link, other: nat)
    requires Enabled(l, Arrive) && other != 0 && StreamBalanced(l, other) && l.data[0].id != other
    ensures StreamBalanced(Step(l, Arrive), other)
  {
    var id, n := l.data[0].id, |l.data[0].payload|;
    SumAppend(l.updates, Accept(l.rx, id, n).1, Grant(other));
    if id in l.rx.streams {
      AcceptGrants(l.rx, id, n, other);
    }
  }

  lemma ArriveUnknownStream(l: Link)
    requires Enabled(l, Arrive) && l.data[0].id != 0 && StreamBalanced(l, l.data[0].id) && l.data[0].id !in l.rx.streams
    ensures StreamBalanced(Step(l, Arrive), l.data[0].id)
  {
    assert l.updates + [] == l.updates;
  }

  lemma ArriveStream(l: Link, other: nat)
    requires Enabled(l, Arrive) && Framed(l) && other != 0 && StreamBalanced(l, other)
    ensures StreamBalanced(Step(l, Arrive), other)
  {
    if l.data[0].id != other {
      ArriveOtherStream(l, other);
    } else if other in l.rx.streams {
      ArriveOwnStream(l);
    } else {
      ArriveUnknownStream(l);
    }
  }

  lemma StepKeeps(l: Link, e: Event)
    requires Balanced(l) && Enabled(l, e)
    ensures Balanced(Step(l, e))
  {
    match e
    case Spend(f) => SpendKeeps(l, f);
    case Arrive => ArriveKeeps(l);
    case Credit => CreditKeeps(l);
    case Register(id) => RegisterKeeps(l, id);
    case Unregister(ids) => UnregisterKeeps(l, ids);
  }

  /** Nothing wraps: a frame that arrives on a known stream is covered by both windows. */
  lemma ArrivalIsCovered(l: Link)
    requires Balanced(l) && Enabled(l, Arrive) && l.data[0].id in l.rx.streams
    ensures |l.data[0].payload| <= l.rx.window && |l.data[0].payload| <= l.rx.streams[l.data[0].id]
    ensures l.data[0].payload != [] ==>
              Step(l, Arrive).rx.window >= LOW_WINDOW && Step(l, Arrive).rx.streams[l.data[0].id] >= LOW_WINDOW
  {
    var id := l.data[0].id;
    assert l.data[0] in l.data;
    assert StreamBalanced(l, id);
    StreamCovers(l);
    ConsumeBalances(l.rx.window, |l.data[0].payload|);
    ConsumeBalances(l.rx.streams[id], |l.data[0].payload|);
  }

  /**
   With nothing on its way and nothing dropped, the peer has credit on the connection if the window was
   not more than MAX/4 ahead of it when the connection opened, and on a stream that it was told to start
   with at least the default.
   */
  lemma NeverStarved(l: Link, id: nat)
    requires Balanced(l) && l.data == [] && l.updates == [] && id in l.rx.streams
    ensures l.credit + l.dropped + l.opening == l.rx.window + DEFAULT_WINDOW
    ensures CreditOf(l, id) + DroppedOn(l, id) + DEFAULT_WINDOW == l.rx.streams[id] + EntryOf(l, id)
    ensures l.dropped == 0 && l.opening < LOW_WINDOW + DEFAULT_WINDOW ==> l.credit > 0
    ensures l.dropped < DEFAULT_WINDOW && l.opening == DEFAULT_WINDOW ==> l.credit > 0
    ensures DroppedOn(l, id) < DEFAULT_WINDOW && EntryOf(l, id) >= DEFAULT_WINDOW ==> CreditOf(l, id) > 0
  {
    assert StreamBalanced(l, id);
  }

  // ---------------------------------------------------------------- when the window was not the default

  lemma FreshBalances(frameSize: nat, opening: nat, initial: nat)
    requires InBounds(opening)
    ensures Balanced(Fresh(frameSize, opening, initial))
  {
    forall id: nat | id != 0 ensures StreamBalanced(Fresh(frameSize, opening, initial), id) {
    }
  }

  /** In plain terms: windows and the peer's side agree throughout exactly if they agreed at the start. */
  lemma AgreesIff(l: Link, id: nat)
    requires Balanced(l) && id in l.rx.streams
    ensures l.rx.window == PeerSide(l) <==> l.opening == DEFAULT_WINDOW
    ensures l.rx.streams[id] == PeerSideOn(l, id) <==> EntryOf(l, id) == DEFAULT_WINDOW
  {
    assert StreamBalanced(l, id);
  }

  /** The first DATA on a stream fills its window up, whatever the peer was told to start with. */
  lemma FirstDataFillsUp(l: Link)
    requires Balanced(l) && Enabled(l, Arrive) && l.data[0].id in l.rx.streams
    requires l.rx.streams[l.data[0].id] == DEFAULT_WINDOW && l.data[0].payload != []
    ensures Step(l, Arrive).rx.streams[l.data[0].id] == MAX_WINDOW
  {
    ArrivalIsCovered(l);
  }

  /**
   When that has reached it, the peer's credit exceeds the maximum of section 6.9.1 of RFC 7540 exactly if
   it was told to start the stream with more than the default.
   */
  lemma OverflowIff(l: Link, id: nat)
    requires Balanced(l) && id in l.rx.streams && l.rx.streams[id] == MAX_WINDOW
    requires Sum(l.data, SizeOn(id)) == 0 && Sum(l.updates, Grant(id)) == 0 && DroppedOn(l, id) == 0
    ensures CreditOf(l, id) == MAX_WINDOW - DEFAULT_WINDOW + EntryOf(l, id)
    ensures CreditOf(l, id) > MAX_WINDOW <==> EntryOf(l, id) > DEFAULT_WINDOW
  {
    assert StreamBalanced(l, id);
  }

  /** A peer that was told no more than the default never holds more credit than the maximum. */
  lemma CreditInRange(l: Link, id: nat)
    requires Balanced(l) && id in l.rx.streams && EntryOf(l, id) <= DEFAULT_WINDOW
    ensures CreditOf(l, id) <= MAX_WINDOW && l.credit <= MAX_WINDOW
  {
    assert StreamBalanced(l, id);
  }

  // ---------------------------------------------------------------- running dry

  /** The peer has no credit on the connection, and none is on its way. */
  ghost predicate Starved(l: Link) {
    l.credit == 0 && Sum(l.data, Size()) == 0 && Sum(l.updates, Grant(0)) == 0 && 0 !in l.rx.streams
  }

  lemma StarvedArrival(l: Link)
    requires Starved(l) && Enabled(l, Arrive)
    ensures Starved(Step(l, Arrive))
  {
    var id, n := l.data[0].id, |l.data[0].payload|;
    assert n == 0;
    if id in l.rx.streams {
      var su := Consume(l.rx.streams[id], n).1;
      assert Update(0, Consume(l.rx.window, n).1) + Update(id, su) == Update(id, su);
      SumAppend(l.updates, Update(id, su), Grant(0));
      UpdateSum(id, su, 0);
    } else {
      assert l.updates + [] == l.updates;
    }
  }

  /** Then it stays that way, whatever happens. */
  lemma StarvedStays(l: Link, e: Event)
    requires Starved(l) && Enabled(l, e)
    ensures Starved(Step(l, e))
  {
    match e
    case Spend(f) =>
      SumAppend(l.data, [f], Size());
      assert [f][1..] == [];
    case Arrive => StarvedArrival(l);
    case Credit =>
    case Register(id) =>
    case Unregister(ids) =>
  }

  /** A window so far ahead of the peer's credit that the credit is used up before the window runs low. */
  predicate FarAhead(l: Link) {
    l.opening >= LOW_WINDOW + DEFAULT_WINDOW
  }

  /** No update of the connection window is on its way. */
  ghost predicate NoTopUp(l: Link) {
    Sum(l.updates, Grant(0)) == 0 && PeerSide(l) <= DEFAULT_WINDOW
  }

  lemma ArriveStaysDry(l: Link)
    requires Balanced(l) && FarAhead(l) && NoTopUp(l) && Enabled(l, Arrive)
    ensures NoTopUp(Step(l, Arrive))
  {
    var id, n := l.data[0].id, |l.data[0].payload|;
    if id in l.rx.streams {
      var su := Consume(l.rx.streams[id], n).1;
      assert Update(0, Consume(l.rx.window, n).1) + Update(id, su) == Update(id, su);
      SumAppend(l.updates, Update(id, su), Grant(0));
      UpdateSum(id, su, 0);
    } else {
      assert l.updates + [] == l.updates;
    }
  }

  /** On such a connection the window is never filled up, whatever the peer sends in frames of any sizes. */
  lemma StepStaysDry(l: Link, e: Event)
    requires Balanced(l) && FarAhead(l) && NoTopUp(l) && Enabled(l, e)
    ensures NoTopUp(Step(l, e))
  {
    match e
    case Spend(f) =>
      SumAppend(l.data, [f], Size());
      assert [f][1..] == [];
    case Arrive => ArriveStaysDry(l);
    case Credit =>
    case Register(id) =>
    case Unregister(ids) =>
  }

  /**
   On every balanced link, whatever window it opened with: the peer is starved exactly when the bytes that
   were taken off the window and not given back, and those that were dropped, come to 65535.
   */
  lemma StarvedIff(l: Link)
    requires Balanced(l)
    ensures Starved(l) <==> l.rx.window + DEFAULT_WINDOW == l.opening + l.dropped
  {
  }
}
