/**
 What the client's requests look like on the wire, over every run of one connection: stream ids
 (section 5.1.1 of RFC 7540), the place of END_STREAM (section 5.1), and the bodies.
 */
module Http2Requests {
  import opened PhpBytes
  import opened Http2Frames
  import opened Http2Client

  datatype Call =
    | Send(r: Request)
    | Put(id: nat, b: Body, end: bool)
    | Hear(f: Frame, partly: bool)

  /** The client, all frames sent, the ids returned, and what the callers asked for on each stream. */
  datatype World = World(
    client: Client,
    sent: seq<Frame>,
    ids: seq<nat>,
    heads: map<nat, Fields>,
    bodies: map<nat, Bytes>,
    done: set<nat>)

  function Start(): World {
    World(Connect(NewClient()), [], [], map[], map[], {})
  }

  /** The bytes that a caller passes: the string itself, or the form encoding of the array. */
  function Passed(b: Body): Bytes {
    match b
    case Text(s) => s
    case Form(_, encoded) => encoded
  }

  /** An array with entries that encodes to nothing. */
  predicate IsFailing(b: Body) {
    b.Form? && b.entries && b.encoded == []
  }

  /** Such a body makes `send` fail halfway. */
  predicate Proper(call: Call) {
    call.Send? ==> !IsFailing(call.r.body)
  }

  /** Calls are refused without a connection, and a frame size of 0 would keep `send` busy for ever. */
  predicate Enabled(w: World, call: Call) {
    w.client.connected && (call.Send? ==> w.client.remote.maxFrameSize >= 1)
  }

  function SendStep(w: World, r: Request): World
    requires w.client.remote.maxFrameSize >= 1
  {
    var sent := Submit(w.client, r);
    var w2 := w.(client := sent.client, sent := w.sent + sent.out);
    if sent.id == 0 then w2
    else
      w2.(ids := w.ids + [sent.id],
          heads := w.heads[sent.id := r.fields],
          bodies := w.bodies[sent.id := Passed(r.body)],
          done := if r.pipeline then w.done else w.done + {sent.id})
  }

  function PutStep(w: World, id: nat, b: Body, end: bool): World {
    var (client, out, ok) := Write(w.client, id, b, end);
    var w2 := w.(client := client, sent := w.sent + out);
    if !ok || id !in w.bodies then w2
    else w2.(bodies := w.bodies[id := w.bodies[id] + Passed(b)], done := if end then w.done + {id} else w.done)
  }

  function HearStep(w: World, f: Frame, partly: bool): World {
    var parsed := Parse(w.client, f, partly);
    w.(client := parsed.client, sent := w.sent + parsed.out)
  }

  function Step(w: World, call: Call): World {
    if !Enabled(w, call) then w
    else
      match call
      case Send(r) => SendStep(w, r)
      case Put(id, b, end) => PutStep(w, id, b, end)
      case Hear(f, partly) => HearStep(w, f, partly)
  }

  function Run(calls: seq<Call>): World {
    if calls == [] then Start() else Step(Run(calls[..|calls| - 1]), calls[|calls| - 1])
  }

  /** Any such run, performed on a client object. */
  method Perform(calls: seq<Call>) returns (client: CoroutineClient, sent: seq<Frame>, ids: seq<nat>)
    ensures client.State() == Run(calls).client && sent == Run(calls).sent && ids == Run(calls).ids
  {
    client := new CoroutineClient();
    var _ := client.Open();
    sent, ids := [], [];
    var i := 0;
    assert calls[..0] == [];
    while i < |calls|
      invariant 0 <= i <= |calls| && fresh(client)
      invariant client.State() == Run(calls[..i]).client && sent == Run(calls[..i]).sent && ids == Run(calls[..i]).ids
    {
      assert calls[..i + 1][..i] == calls[..i];
      if client.connected {
        var out, newIds := PerformOne(client, calls[i], Run(calls[..i]));
        sent, ids := sent + out, ids + newIds;
      }
      i := i + 1;
    }
    assert calls[..i] == calls;
  }

  /** One call on a connected client: what it sends and the id it returns, if any. */
  method PerformOne(client: CoroutineClient, call: Call, ghost w: World) returns (out: seq<Frame>, ids: seq<nat>)
    requires client.connected && w.client == client.State()
    modifies client
    ensures var w2 := Step(w, call);
            w2.client == client.State() && w2.sent == w.sent + out && w2.ids == w.ids + ids
  {
    out, ids := [], [];
    match call {
      case Send(r) =>
        if client.remote.maxFrameSize >= 1 {
          var id;
          out, id := client.SendRequest(r);
          if id != 0 {
            ids := [id];
          }
        }
      case Put(id, b, end) =>
        var ok;
        out, ok := client.WriteData(id, b, end);
      case Hear(f, partly) =>
        var result;
        out, result := client.ParseFrame(f, partly);
    }
  }

  // ---------------------------------------------------------------- what holds on every stream

  const ID_SPACE: nat := 0x4000_0000

  function Wire(w: World, id: nat): seq<Frame> {
    OnStream(w.sent, id)
  }

  /** Streams that were not returned are untouched; the others carry their body and end when they should. */
  ghost predicate StreamKept(w: World, id: nat) {
    if id in w.ids then
      && id in w.bodies && Payloads(Wire(w, id)) == w.bodies[id]
      && id in w.heads && Heads(Wire(w, id)) == w.heads[id]
      && PhaseOf(Wire(w, id)) == (if id in w.done then Done else Open)
      && (id in w.client.streams ==> (id in w.done <==> !IsWritable(w.client, id)))
    else
      Wire(w, id) == [] && id !in w.bodies && id !in w.done && id !in w.client.streams
  }

  /** The k-th id is 2k+1. */
  ghost predicate IdsKept(w: World) {
    && (forall k :: 0 <= k < |w.ids| ==> w.ids[k] == 2 * k + 1)
    && (w.client.connected ==> w.client.nextId == (2 * |w.ids| + 1) % TWO_32)
  }

  ghost predicate Kept(w: World) {
    IdsKept(w) && forall id: nat :: StreamKept(w, id)
  }

  lemma FreshId(w: World)
    requires IdsKept(w) && w.client.connected && |w.ids| <= ID_SPACE
    ensures w.client.nextId == 2 * |w.ids| + 1 && w.client.nextId !in w.ids
  {
  }

  /** The frames of a request are one HEADERS frame and its body in pieces. */
  lemma SubmitShape(c: Client, r: Request)
    requires c.remote.maxFrameSize >= 1 && Proper(Send(r)) && c.nextId != 0
    ensures Submit(c, r).id == c.nextId
    ensures Submit(c, r).out == [RequestHead(c, r)] + Cut(c.nextId, Passed(r.body), c.remote.maxFrameSize, !r.pipeline)
    ensures IsEmpty(r.body) <==> Passed(r.body) == []
  {
  }

  lemma RequestStays(head: Frame, id: nat, body: Bytes, maxSize: nat, end: bool, other: nat)
    requires maxSize >= 1 && Carries(head, id)
    ensures OnStream([head] + Cut(id, body, maxSize, end), other)
            == if other == id then [head] + Cut(id, body, maxSize, end) else []
  {
    CutFits(id, body, maxSize, end);
    if other == id {
      AllOnStream([head] + Cut(id, body, maxSize, end), id);
    } else {
      NoneOnStream([head] + Cut(id, body, maxSize, end), other);
    }
  }

  lemma RequestHeads(head: Frame, body: Bytes, maxSize: nat, end: bool)
    requires maxSize >= 1 && head.Headers?
    ensures Heads([head] + Cut(head.id, body, maxSize, end)) == head.fields
  {
    var data := Cut(head.id, body, maxSize, end);
    CutFits(head.id, body, maxSize, end);
    NoHeads(data);
    HeadsAppend([head], data);
    HeadOfOne(head);
  }

  /** A request ends its stream unless it is pipelined, and carries its body. */
  lemma RequestCarries(id: nat, fields: Fields, body: Bytes, maxSize: nat, pipeline: bool)
    requires maxSize >= 1
    ensures var fs := [Headers(id, fields, body == [] && !pipeline)] + Cut(id, body, maxSize, !pipeline);
            Heads(fs) == fields && Payloads(fs) == body && PhaseOf(fs) == if pipeline then Open else Done
  {
    var head := Headers(id, fields, body == [] && !pipeline);
    RequestHeads(head, body, maxSize, !pipeline);
    assert [] + [head] == [head];
    PhaseSnoc([], head);
    PayloadOfOne(head);
    CutCarries(id, body, maxSize, !pipeline);
    PayloadsAppend([head], Cut(id, body, maxSize, !pipeline));
    if body == [] {
      assert [head] + [] == [head];
    } else {
      CutEnds([head], id, body, maxSize, !pipeline);
    }
  }

  /** A successful request on a fresh stream, field by field. */
  lemma SendEffect(w: World, r: Request)
    requires Kept(w) && Enabled(w, Send(r)) && Proper(Send(r)) && |w.ids| < ID_SPACE
    ensures var w2, id := SendStep(w, r), w.client.nextId;
            && id == 2 * |w.ids| + 1 && id !in w.ids
            && w2.client.nextId == (id + 2) % TWO_32 && w2.client.connected
            && w2.client.streams == w.client.streams[id := NewStream(r.pipeline)]
            && w2.sent == w.sent + Submit(w.client, r).out
            && w2.ids == w.ids + [id]
            && w2.heads == w.heads[id := r.fields]
            && w2.bodies == w.bodies[id := Passed(r.body)]
            && w2.done == (if r.pipeline then w.done else w.done + {id})
  {
    FreshId(w);
    SubmitShape(w.client, r);
    assert StreamKept(w, w.client.nextId);
  }

  /** The new stream carries the frames of its request and nothing else. */
  lemma NewWire(w: World, r: Request)
    requires Kept(w) && Enabled(w, Send(r)) && Proper(Send(r)) && |w.ids| < ID_SPACE
    ensures Wire(SendStep(w, r), w.client.nextId)
            == [RequestHead(w.client, r)] + Cut(w.client.nextId, Passed(r.body), w.client.remote.maxFrameSize, !r.pipeline)
  {
    FreshId(w);
    SubmitShape(w.client, r);
    assert StreamKept(w, w.client.nextId);
    FirstFrames(w.sent, RequestHead(w.client, r), w.client.nextId, Passed(r.body), w.client.remote.maxFrameSize, !r.pipeline);
  }

  lemma FirstFrames(sent: seq<Frame>, head: Frame, id: nat, body: Bytes, maxSize: nat, end: bool)
    requires OnStream(sent, id) == [] && maxSize >= 1 && Carries(head, id)
    ensures var out := [head] + Cut(id, body, maxSize, end);
            OnStream(sent + out, id) == out
  {
    var out := [head] + Cut(id, body, maxSize, end);
    OnStreamAppend(sent, out, id);
    RequestStays(head, id, body, maxSize, end, id);
    assert [] + out == out;
  }

  lemma SendKeepsNew(w: World, r: Request)
    requires Kept(w) && Enabled(w, Send(r)) && Proper(Send(r)) && |w.ids| < ID_SPACE
    ensures StreamKept(SendStep(w, r), w.client.nextId)
  {
    assert StreamKept(w, w.client.nextId);
    NewWire(w, r);
    SendEffect(w, r);
    SubmitShape(w.client, r);
    RequestCarries(w.client.nextId, r.fields, Passed(r.body), w.client.remote.maxFrameSize, r.pipeline);
  }

  lemma SendKeepsOther(w: World, r: Request, id: nat)
    requires Kept(w) && Enabled(w, Send(r)) && Proper(Send(r)) && |w.ids| < ID_SPACE && id != w.client.nextId
    ensures StreamKept(SendStep(w, r), id)
  {
    var c := w.client;
    var out := Submit(c, r).out;
    SendEffect(w, r);
    SubmitShape(c, r);
    assert StreamKept(w, id);
    OnStreamAppend(w.sent, out, id);
    RequestStays(RequestHead(c, r), c.nextId, Passed(r.body), c.remote.maxFrameSize, !r.pipeline, id);
    assert Wire(w, id) + [] == Wire(w, id);
    assert id in w.ids + [c.nextId] <==> id in w.ids;
  }

  lemma SendKeeps(w: World, r: Request)
    requires Kept(w) && Enabled(w, Send(r)) && Proper(Send(r)) && |w.ids| < ID_SPACE
    ensures Kept(SendStep(w, r))
  {
    SendEffect(w, r);
    forall id: nat ensures StreamKept(SendStep(w, r), id) {
      if id == w.client.nextId {
        SendKeepsNew(w, r);
      } else {
        SendKeepsOther(w, r, id);
      }
    }
  }

  /** An accepted write, field by field. */
  lemma PutEffect(w: World, id: nat, b: Body, end: bool)
    requires StreamKept(w, id) && IsWritable(w.client, id) && Encode(b).Some?
    ensures var w2 := PutStep(w, id, b, end);
            && id in w.ids && id !in w.done && id in w.bodies
            && w2.ids == w.ids && w2.client.nextId == w.client.nextId && w2.client.connected == w.client.connected
            && w2.sent == w.sent + [Data(id, Passed(b), end)] && w2.heads == w.heads
            && w2.bodies == w.bodies[id := w.bodies[id] + Passed(b)]
            && w2.done == (if end then w.done + {id} else w.done)
            && w2.client.streams.Keys == w.client.streams.Keys
            && (forall k: nat :: IsWritable(w2.client, k) <==> IsWritable(w.client, k) && !(end && k == id))
  {
  }

  lemma PutKeepsStream(w: World, id: nat, b: Body, end: bool, other: nat)
    requires StreamKept(w, id) && StreamKept(w, other) && IsWritable(w.client, id) && Encode(b).Some?
    ensures StreamKept(PutStep(w, id, b, end), other)
  {
    var f := Data(id, Passed(b), end);
    PutEffect(w, id, b, end);
    OnStreamSnoc(w.sent, f, other);
    if other == id {
      PhaseSnoc(Wire(w, id), f);
      PayloadsSnoc(Wire(w, id), f);
      HeadsSnoc(Wire(w, id), f);
    } else {
      assert Wire(w, other) + [] == Wire(w, other);
    }
  }

  lemma PutKeeps(w: World, id: nat, b: Body, end: bool)
    requires Kept(w) && w.client.connected
    ensures Kept(PutStep(w, id, b, end))
  {
    if IsWritable(w.client, id) && Encode(b).Some? {
      assert StreamKept(w, id);
      PutEffect(w, id, b, end);
      forall other: nat ensures StreamKept(PutStep(w, id, b, end), other) {
        assert StreamKept(w, other);
        PutKeepsStream(w, id, b, end, other);
      }
    } else {
      assert w.sent + [] == w.sent;
      assert PutStep(w, id, b, end) == w;
    }
  }

  /** Streams may be closed, but what may be written to the others is the same. */
  predicate SameRequests(c: Client, c2: Client) {
    && c2.nextId == c.nextId && (c2.connected ==> c.connected)
    && forall id | id in c2.streams ::
         id in c.streams && c2.streams[id].pipeline == c.streams[id].pipeline
         && c2.streams[id].requestEnd == c.streams[id].requestEnd
  }

  lemma CollectKeepsRequests(c: Client, id: nat, payload: Bytes, end: bool)
    requires id in c.streams
    ensures SameRequests(c, Collect(c, id, payload, end).0) && id in Collect(c, id, payload, end).0.streams
    ensures forall g | g in Collect(c, id, payload, end).1 :: g.WindowUpdate?
  {
  }

  lemma DeliverKeepsRequests(c: Client, id: nat, end: bool, partly: bool)
    requires id in c.streams
    ensures SameRequests(c, Deliver(c, id, end, partly).0)
  {
  }

  lemma MessageKeepsRequests(c: Client, f: Frame, partly: bool)
    requires f.Headers? || f.Data? || f.Unknown?
    ensures SameRequests(c, OnMessage(c, f, partly).client)
    ensures forall g | g in OnMessage(c, f, partly).out :: g.WindowUpdate?
  {
    if f.id in c.streams {
      if f.Data? {
        CollectKeepsRequests(c, f.id, f.payload, f.end);
        DeliverKeepsRequests(Collect(c, f.id, f.payload, f.end).0, f.id, f.end, partly);
      } else {
        DeliverKeepsRequests(c, f.id, f.end, partly);
      }
    }
  }

  /** Received frames change neither what may be written nor what was sent on any stream. */
  lemma ParseKeepsRequests(c: Client, f: Frame, partly: bool)
    ensures SameRequests(c, Parse(c, f, partly).client)
    ensures forall g | g in Parse(c, f, partly).out :: !g.Headers? && !g.Data? && !g.RstStream?
  {
    var c2 := Note(c, f);
    if f.Headers? || f.Data? || f.Unknown? {
      MessageKeepsRequests(c2, f, partly);
    }
  }

  lemma HearKeepsWire(w: World, f: Frame, partly: bool, id: nat)
    ensures Wire(HearStep(w, f, partly), id) == Wire(w, id)
    ensures StreamKept(w, id) ==> StreamKept(HearStep(w, f, partly), id)
  {
    var p := Parse(w.client, f, partly);
    ParseKeepsRequests(w.client, f, partly);
    OnStreamAppend(w.sent, p.out, id);
    NoneOnStream(p.out, id);
    assert Wire(w, id) + [] == Wire(w, id);
  }

  lemma HearKeeps(w: World, f: Frame, partly: bool)
    requires Kept(w)
    ensures Kept(HearStep(w, f, partly))
  {
    ParseKeepsRequests(w.client, f, partly);
    forall id: nat ensures StreamKept(HearStep(w, f, partly), id) {
      assert StreamKept(w, id);
      HearKeepsWire(w, f, partly, id);
    }
  }

  lemma {:induction false} IdsGrow(calls: seq<Call>, n: nat)
    requires n <= |calls|
    ensures |Run(calls[..n]).ids| <= |Run(calls).ids|
  {
    if n < |calls| {
      var before := calls[..|calls| - 1];
      IdsGrow(before, n);
      assert before[..n] == calls[..n];
    } else {
      assert calls[..n] == calls;
    }
  }

  /**
   Over any mix of sends, writes and received frames: as long as the 31-bit ids last, every stream sends
   HEADERS first, then DATA, END_STREAM once if its caller ended it and nothing after it, and its payloads
   are exactly what the callers passed.
   */
  lemma {:induction false} EveryRunKeeps(calls: seq<Call>)
    requires forall i :: 0 <= i < |calls| ==> Proper(calls[i])
    requires |Run(calls).ids| <= ID_SPACE
    ensures Kept(Run(calls))
  {
    if calls != [] {
      var before, call := calls[..|calls| - 1], calls[|calls| - 1];
      IdsGrow(calls, |calls| - 1);
      EveryRunKeeps(before);
      StepKeeps(Run(before), call);
    }
  }

  lemma StepKeeps(w: World, call: Call)
    requires Kept(w) && Proper(call) && |w.ids| <= |Step(w, call).ids| <= ID_SPACE
    ensures Kept(Step(w, call))
  {
    if Enabled(w, call) {
      match call
      case Send(r) =>
        SubmitSucceeds(w, r);
        SendKeeps(w, r);
      case Put(id, b, end) => PutKeeps(w, id, b, end);
      case Hear(f, partly) => HearKeeps(w, f, partly);
    }
  }

  /** A proper request gets an id as long as there are any. */
  lemma SubmitSucceeds(w: World, r: Request)
    requires Kept(w) && Enabled(w, Send(r)) && Proper(Send(r)) && |w.ids| <= ID_SPACE
    ensures |SendStep(w, r).ids| == |w.ids| + 1
  {
    SubmitShape(w.client, r);
  }

  /** A request with a string body sends exactly that string on the id that it returns, behind exactly its fields; so does
      one with an array, in its form encoding. */
  lemma SendCarries(w: World, r: Request)
    requires Kept(w) && Enabled(w, Send(r)) && Proper(Send(r)) && |w.ids| < ID_SPACE
    ensures var w2, id := Step(w, Send(r)), w.client.nextId;
            && w2.ids == w.ids + [id] && Wire(w, id) == []
            && Heads(Wire(w2, id)) == r.fields
            && (r.body.Text? ==> Payloads(Wire(w2, id)) == r.body.s)
            && (r.body.Form? ==> Payloads(Wire(w2, id)) == r.body.encoded)
            && PhaseOf(Wire(w2, id)) == (if r.pipeline then Open else Done)
  {
    SendEffect(w, r);
    SendKeepsNew(w, r);
    assert StreamKept(w, w.client.nextId);
    assert StreamKept(Step(w, Send(r)), w.client.nextId);
  }

  /** A write is accepted exactly on a stream that takes data, unless it is an array that encodes to nothing; then it
      appends exactly its bytes there, and ends the stream if it is the last. */
  lemma PutCarries(w: World, id: nat, b: Body, end: bool)
    requires Kept(w) && w.client.connected
    ensures var w2, accepted := Step(w, Put(id, b, end)), IsWritable(w.client, id) && (b.Text? || b.encoded != []);
            && Write(w.client, id, b, end).2 == accepted
            && (!accepted ==> w2 == w)
            && (accepted && b.Text? ==> Payloads(Wire(w2, id)) == Payloads(Wire(w, id)) + b.s)
            && (accepted && b.Form? ==> Payloads(Wire(w2, id)) == Payloads(Wire(w, id)) + b.encoded)
            && (accepted ==> PhaseOf(Wire(w, id)) == Open && PhaseOf(Wire(w2, id)) == (if end then Done else Open))
  {
    assert StreamKept(w, id);
    if IsWritable(w.client, id) && Encode(b).Some? {
      PutEffect(w, id, b, end);
      PutKeepsStream(w, id, b, end, id);
    } else {
      assert w.sent + [] == w.sent;
    }
  }

  predicate OddAndIncreasing(ids: seq<nat>) {
    && (forall k :: 0 <= k < |ids| ==> ids[k] % 2 == 1 && ids[k] < 0x8000_0000)
    && (forall j, k :: 0 <= j < k < |ids| ==> ids[j] < ids[k])
  }

  lemma IdsAreOdd(w: World)
    requires IdsKept(w) && |w.ids| <= ID_SPACE
    ensures OddAndIncreasing(w.ids)
  {
  }

  /** Returned ids are odd, strictly increasing and fit into 31 bits. */
  lemma IdsIncrease(calls: seq<Call>)
    requires forall i :: 0 <= i < |calls| ==> Proper(calls[i])
    requires |Run(calls).ids| <= ID_SPACE
    ensures OddAndIncreasing(Run(calls).ids)
  {
    EveryRunKeeps(calls);
    IdsAreOdd(Run(calls));
  }

  // ---------------------------------------------------------------- failed forms

  /** Stream id was opened by a failed form: it is not returned, and may still be written to if it is pipelined. */
  ghost predicate FailedStream(w: World, id: nat) {
    && id !in w.ids && id !in w.bodies && id !in w.done
    && (PhaseOf(Wire(w, id)) == Open || PhaseOf(Wire(w, id)) == Done)
    && (IsWritable(w.client, id) ==> PhaseOf(Wire(w, id)) == Open)
  }

  ghost predicate FailedKept(w: World, id: nat) {
    && w.client.nextId == id && FailedStream(w, id)
    && forall other: nat | other != id :: StreamKept(w, other)
  }

  /** A failed form has sent HEADERS and not moved on to the next id. */
  lemma FailedEffect(w: World, bad: Request)
    requires Enabled(w, Send(bad)) && !Proper(Send(bad))
    ensures var w2, id, first := Step(w, Send(bad)), w.client.nextId, RequestHead(w.client, bad);
            && w2.client == AddStream(w.client, bad.pipeline) && w2.sent == w.sent + [first]
            && w2.ids == w.ids && w2.bodies == w.bodies && w2.done == w.done
            && first.Headers? && first.id == id && !first.end
  {
  }

  lemma FailedFormOther(w: World, bad: Request, other: nat)
    requires StreamKept(w, other) && Enabled(w, Send(bad)) && !Proper(Send(bad)) && other != w.client.nextId
    ensures StreamKept(Step(w, Send(bad)), other)
  {
    FailedEffect(w, bad);
    OnStreamSnoc(w.sent, RequestHead(w.client, bad), other);
    assert Wire(w, other) + [] == Wire(w, other);
  }

  lemma FailedForm(w: World, bad: Request)
    requires Kept(w) && Enabled(w, Send(bad)) && |w.ids| <= ID_SPACE && !Proper(Send(bad))
    ensures FailedKept(Step(w, Send(bad)), w.client.nextId)
  {
    var id, first := w.client.nextId, RequestHead(w.client, bad);
    FreshId(w);
    assert StreamKept(w, id);
    FailedEffect(w, bad);
    OnStreamSnoc(w.sent, first, id);
    assert [] + [first] == [first];
    PhaseSnoc([], first);
    forall other: nat | other != id ensures StreamKept(Step(w, Send(bad)), other) {
      assert StreamKept(w, other);
      FailedFormOther(w, bad, other);
    }
  }

  lemma PutOnFailed(w: World, id: nat, b: Body, end: bool)
    requires FailedKept(w, id) && IsWritable(w.client, id) && Encode(b).Some?
    ensures FailedKept(PutStep(w, id, b, end), id)
  {
    var f, w2 := Data(id, Encode(b).value, end), PutStep(w, id, b, end);
    assert w2.sent == w.sent + [f];
    OnStreamSnoc(w.sent, f, id);
    PhaseSnoc(Wire(w, id), f);
    forall other: nat | other != id ensures StreamKept(w2, other) {
      assert StreamKept(w, other);
      OnStreamSnoc(w.sent, f, other);
      assert Wire(w, other) + [] == Wire(w, other);
    }
  }

  lemma PutBesideFailed(w: World, failed: nat, id: nat, b: Body, end: bool)
    requires FailedKept(w, failed) && id != failed && IsWritable(w.client, id) && Encode(b).Some?
    ensures FailedKept(PutStep(w, id, b, end), failed)
  {
    var f, w2 := Data(id, Encode(b).value, end), PutStep(w, id, b, end);
    assert StreamKept(w, id);
    PutEffect(w, id, b, end);
    OnStreamSnoc(w.sent, f, failed);
    assert Wire(w, failed) + [] == Wire(w, failed);
    forall other: nat | other != failed ensures StreamKept(w2, other) {
      assert StreamKept(w, other);
      PutKeepsStream(w, id, b, end, other);
    }
  }

  lemma HearKeepsFailed(w: World, failed: nat, f: Frame, partly: bool)
    requires FailedKept(w, failed)
    ensures FailedKept(HearStep(w, f, partly), failed)
  {
    ParseKeepsRequests(w.client, f, partly);
    HearKeepsWire(w, f, partly, failed);
    forall other: nat | other != failed ensures StreamKept(HearStep(w, f, partly), other) {
      assert StreamKept(w, other);
      HearKeepsWire(w, f, partly, other);
    }
  }

  /** Until the next request, all streams stay unbroken. */
  lemma FailedStays(w: World, failed: nat, call: Call)
    requires FailedKept(w, failed) && !call.Send?
    ensures FailedKept(Step(w, call), failed)
  {
    if Enabled(w, call) {
      match call
      case Put(id, b, end) =>
        if !IsWritable(w.client, id) || Encode(b).None? {
          assert w.sent + [] == w.sent;
        } else if id == failed {
          PutOnFailed(w, id, b, end);
        } else {
          PutBesideFailed(w, failed, id, b, end);
        }
      case Hear(f, partly) => HearKeepsFailed(w, failed, f, partly);
    }
  }

  lemma SubmitStarts(c: Client, r: Request)
    requires c.remote.maxFrameSize >= 1
    ensures var out := Submit(c, r).out;
            out != [] && out == [RequestHead(c, r)] + out[1..]
  {
  }

  lemma HeadBreaks(sent: seq<Frame>, head: Frame, rest: seq<Frame>, id: nat)
    requires PhaseOf(OnStream(sent, id)) != Idle && head.Headers? && head.id == id
    ensures PhaseOf(OnStream(sent + ([head] + rest), id)) == Broken
  {
    assert sent + ([head] + rest) == sent + [head] + rest;
    OnStreamSnoc(sent, head, id);
    PhaseSnoc(OnStream(sent, id), head);
    OnStreamAppend(sent + [head], rest, id);
    BrokenStays(OnStream(sent, id) + [head], OnStream(rest, id));
  }

  /** The next request, whatever it is, uses the same stream and breaks it. */
  lemma FailedFormBreaks(w: World, id: nat, r: Request)
    requires FailedKept(w, id) && Enabled(w, Send(r))
    ensures PhaseOf(Wire(Step(w, Send(r)), id)) == Broken
  {
    SubmitStarts(w.client, r);
    HeadBreaks(w.sent, RequestHead(w.client, r), Submit(w.client, r).out[1..], id);
  }

  lemma BrokenForGood(w: World, id: nat, call: Call)
    requires PhaseOf(Wire(w, id)) == Broken
    ensures PhaseOf(Wire(Step(w, call), id)) == Broken
  {
    var w2 := Step(w, call);
    assert w2 == w || w.sent <= w2.sent;
    var more := w2.sent[|w.sent|..];
    assert w2.sent == w.sent + more;
    OnStreamAppend(w.sent, more, id);
    BrokenStays(Wire(w, id), OnStream(more, id));
  }

  /** Where the calls of a run stand: no form has failed, one has since the last request, or a request came after that. */
  datatype Course = Healthy | Failed | Wrecked

  function CourseOf(calls: seq<Call>): Course {
    if calls == [] then Healthy
    else
      var before, call := calls[..|calls| - 1], calls[|calls| - 1];
      var course := CourseOf(before);
      if !call.Send? || !Enabled(Run(before), call) then course
      else if course != Healthy then Wrecked
      else if Proper(call) then Healthy
      else Failed
  }

  ghost predicate CourseKept(w: World, course: Course, id: nat) {
    match course
    case Healthy => Kept(w)
    case Failed => FailedKept(w, id)
    case Wrecked => PhaseOf(Wire(w, id)) == Broken
  }

  lemma {:induction false} RunCourse(calls: seq<Call>) returns (id: nat)
    requires |Run(calls).ids| <= ID_SPACE
    ensures CourseKept(Run(calls), CourseOf(calls), id)
  {
    id := 0;
    if calls != [] {
      var before, call := calls[..|calls| - 1], calls[|calls| - 1];
      IdsGrow(calls, |calls| - 1);
      id := RunCourse(before);
      id := StepCourse(Run(before), CourseOf(before), call, id);
    }
  }

  lemma StepCourse(w: World, course: Course, call: Call, id: nat) returns (after: nat)
    requires CourseKept(w, course, id) && |w.ids| <= ID_SPACE && |Step(w, call).ids| <= ID_SPACE
    ensures CourseKept(Step(w, call),
                       if !call.Send? || !Enabled(w, call) then course
                       else if course != Healthy then Wrecked
                       else if Proper(call) then Healthy else Failed,
                       after)
  {
    after := id;
    match course
    case Healthy =>
      if Enabled(w, call) {
        match call
        case Send(r) =>
          if Proper(call) {
            SubmitSucceeds(w, r);
            SendKeeps(w, r);
          } else {
            after := w.client.nextId;
            FailedForm(w, r);
          }
        case Put(k, b, end) => PutKeeps(w, k, b, end);
        case Hear(f, partly) => HearKeeps(w, f, partly);
      }
    case Failed =>
      if !call.Send? {
        FailedStays(w, id, call);
      } else if Enabled(w, call) {
        FailedFormBreaks(w, id, call.r);
      }
    case Wrecked => BrokenForGood(w, id, call);
  }

  /** Over every run: no stream is ever broken if and only if no request is sent after a form has failed. */
  lemma UnbrokenIff(calls: seq<Call>)
    requires |Run(calls).ids| <= ID_SPACE
    ensures (forall id: nat :: PhaseOf(Wire(Run(calls), id)) != Broken) <==> CourseOf(calls) != Wrecked
  {
    var w := Run(calls);
    var failed := RunCourse(calls);
    if CourseOf(calls) != Wrecked {
      forall id: nat ensures PhaseOf(Wire(w, id)) != Broken {
        if CourseOf(calls) == Healthy || id != failed {
          assert StreamKept(w, id);
        }
      }
    }
  }
}
