/**
 One connection between the client and the server, with frames in flight both ways: every caller's request
 reaches the application once with exactly its body, and every caller gets exactly the body that the
 application answered with.
 */
module Http2RoundTrip {
  import opened PhpBytes
  import opened Http2Frames
  import opened Http2Response
  import Client = Http2Client
  import Delivery = Http2Delivery
  import Reading = Http2Reading
  import Requests = Http2Requests
  import Server = Http2Server

  /** What the application answered, the frame size at that time, and the frames that were sent for it. */
  datatype Given = Given(a: Answer, c: Context, maxSize: nat, frames: seq<Frame>)

  datatype World = World(
    client: Requests.World,
    server: Delivery.World,
    up: seq<Frame>,  // frames on their way to the server
    down: seq<Frame>,  // frames on their way to the client
    sent: seq<Frame>,  // all frames of the server
    heard: seq<Frame>,  // all frames that the client has received
    given: map<nat, Given>,
    returned: seq<Client.Response>)

  datatype Event =
    | Call(call: Requests.Call)  // a caller sends a request or writes to a pipelined one
    | Up  // the next frame reaches the server
    | Reply(id: nat, a: Answer, c: Context)
    | Down(partly: bool)  // the next frame reaches the client, in `recv` or in `read`

  /** Both peers open with their SETTINGS, whatever these say. */
  datatype Opening = Opening(client: seq<(nat, nat)>, server: seq<(nat, nat)>)

  function Start(o: Opening): World {
    World(Requests.Start(), Delivery.Start(), [Settings(false, o.client)], [Settings(false, o.server)],
          [Settings(false, o.server)], [], map[], [])
  }

  function News(before: Requests.World, after: Requests.World): seq<Frame> {
    if |before.sent| <= |after.sent| then after.sent[|before.sent|..] else []
  }

  function CallStep(w: World, call: Requests.Call): World {
    var client := Requests.Step(w.client, call);
    w.(client := client, up := w.up + News(w.client, client))
  }

  function UpStep(w: World): World
    requires w.up != []
  {
    var out := Server.Receive(w.server.session, w.up[0]).out;
    w.(server := Delivery.Step(w.server, Delivery.Recv(w.up[0])), up := w.up[1..],
       down := w.down + out, sent := w.sent + out)
  }

  function ReplyStep(w: World, id: nat, a: Answer, c: Context): World
    requires Delivery.Enabled(w.server, Delivery.Reply(id, a, c))
  {
    var maxSize := w.server.session.maxFrameSize;
    var out := ResponseFrames(id, a, c, maxSize);
    w.(server := Delivery.Step(w.server, Delivery.Reply(id, a, c)), down := w.down + out, sent := w.sent + out,
       given := w.given[id := Given(a, c, maxSize, out)])
  }

  function Returned(p: Client.Parsed): seq<Client.Response> {
    if p.result.Ready? then [p.result.response] else []
  }

  function DownStep(w: World, partly: bool): World
    requires w.down != []
  {
    var f := w.down[0];
    var client := Requests.Step(w.client, Requests.Hear(f, partly));
    w.(client := client, up := w.up + News(w.client, client), down := w.down[1..], heard := w.heard + [f],
       returned := w.returned + Returned(Client.Parse(w.client.client, f, partly)))
  }

  /** Events that cannot happen in a state leave it as it is. */
  function Step(w: World, e: Event): World {
    match e
    case Call(call) => if call.Hear? then w else CallStep(w, call)
    case Up => if w.up == [] then w else UpStep(w)
    case Reply(id, a, c) => if Delivery.Enabled(w.server, Delivery.Reply(id, a, c)) then ReplyStep(w, id, a, c) else w
    case Down(partly) => if w.down == [] || !w.client.client.connected then w else DownStep(w, partly)
  }

  function Run(o: Opening, es: seq<Event>): World {
    if es == [] then Start(o) else Step(Run(o, es[..|es| - 1]), es[|es| - 1])
  }

  // ---------------------------------------------------------------- the two objects

  lemma NewsIs(before: Requests.World, after: Requests.World, out: seq<Frame>)
    requires after.sent == before.sent + out
    ensures News(before, after) == out
  {
  }

  /** What an event does to the client object: what it sends, and the response that it returns, if any. */
  method AtClient(client: Client.CoroutineClient, down: seq<Frame>, e: Event, ghost w: World)
    returns (out: seq<Frame>, rest: seq<Frame>, response: seq<Client.Response>)
    requires client.State() == w.client.client && down == w.down && (e.Call? || e.Down?)
    modifies client
    ensures var w2 := Step(w, e);
            && client.State() == w2.client.client && w2.server == w.server
            && w2.up == w.up + out && w2.down == rest && w2.returned == w.returned + response
  {
    out, rest, response := [], down, [];
    if e.Call? {
      if !e.call.Hear? && client.connected {
        var ids;
        out, ids := Requests.PerformOne(client, e.call, w.client);
        NewsIs(w.client, Requests.Step(w.client, e.call), out);
      }
    } else if down != [] && client.connected {
      var result;
      out, result := client.ParseFrame(down[0], e.partly);
      NewsIs(w.client, Requests.Step(w.client, Requests.Hear(down[0], e.partly)), out);
      rest := down[1..];
      response := if result.Ready? then [result.response] else [];
    }
  }

  /** And what one does to the session object: what it sends, and the requests that it hands over. */
  method AtServer(session: Server.ServerSession, up: seq<Frame>, log: seq<Server.Request>, e: Event, ghost w: World)
    returns (out: seq<Frame>, rest: seq<Frame>, handled: seq<Server.Request>)
    requires session.State() == w.server.session && up == w.up && log == w.server.log && (e.Up? || e.Reply?)
    modifies session
    ensures var w2 := Step(w, e);
            && session.State() == w2.server.session && w2.client == w.client && w2.returned == w.returned
            && w2.down == w.down + out && w2.up == rest && w2.server.log == log + handled
  {
    out, rest, handled := [], up, [];
    if e.Up? {
      if up != [] {
        var ok;
        out, handled, ok := session.Parse(up[0]);
        rest := up[1..];
      }
    } else if e.id in session.streams && Delivery.HandledFor(log, e.id) != [] && session.maxFrameSize >= 1 {
      out := session.Respond(e.id, e.a, e.c);
    }
  }

  /** Any such run, performed on a client object and a session object. */
  method Converse(o: Opening, es: seq<Event>)
    returns (client: Client.CoroutineClient, session: Server.ServerSession, returned: seq<Client.Response>)
    ensures var w := Run(o, es);
            client.State() == w.client.client && session.State() == w.server.session && returned == w.returned
  {
    client := new Client.CoroutineClient();
    var _ := client.Open();
    session := new Server.ServerSession();
    var up, down, log := [Settings(false, o.client)], [Settings(false, o.server)], [];
    returned := [];
    var i := 0;
    assert es[..0] == [];
    while i < |es|
      invariant 0 <= i <= |es| && fresh(client) && fresh(session)
      invariant var w := Run(o, es[..i]);
                && client.State() == w.client.client && session.State() == w.server.session
                && up == w.up && down == w.down && log == w.server.log && returned == w.returned
    {
      ghost var w := Run(o, es[..i]);
      assert es[..i + 1][..i] == es[..i];
      if es[i].Call? || es[i].Down? {
        var out, rest, response := AtClient(client, down, es[i], w);
        up, down, returned := up + out, rest, returned + response;
      } else {
        var out, rest, handled := AtServer(session, up, log, es[i], w);
        up, down, log := rest, down + out, log + handled;
      }
      i := i + 1;
    }
    assert es[..i] == es;
  }

  // ---------------------------------------------------------------- the invariant

  /** The kinds of frames that this server sends. */
  predicate FromServer(f: Frame) {
    f.Headers? || f.Data? || f.WindowUpdate? || f.Ping? || f.Settings?
  }

  predicate Ended(fs: seq<Frame>) {
    fs != [] && Reading.HasEnd(fs[|fs| - 1])
  }

  /** On each stream nothing is lost, repeated or reordered on the way. */
  ghost predicate Carried(w: World, id: nat) {
    && OnStream(w.server.received, id) + OnStream(w.up, id) == Requests.Wire(w.client, id)
    && OnStream(w.heard, id) + OnStream(w.down, id) == OnStream(w.sent, id)
  }

  /** The server has sent one response on the streams that were answered, and nothing on any other. */
  ghost predicate Answered(w: World, id: nat) {
    var phase := PhaseOf(OnStream(w.server.received, id));
    if id in w.given then
      phase == Done && id !in w.server.session.streams && OnStream(w.sent, id) == w.given[id].frames
    else
      OnStream(w.sent, id) == [] && (phase == Done ==> id in w.server.session.streams)
  }

  /** The recorded frames are those of the recorded answer. */
  ghost predicate Recorded(w: World, id: nat) {
    id in w.given ==>
      var g := w.given[id];
      g.maxSize >= 1 && g.frames == ResponseFrames(id, g.a, g.c, g.maxSize)
  }

  /** What was returned to the callers and what is buffered for them is what has been heard. */
  ghost predicate Got(w: World, id: nat) {
    var fs, c := OnStream(w.heard, id), w.client.client;
    && Reading.DataFor(w.returned, id) + Reading.Buffer(c, id) == Payloads(fs)
    && (if id in w.client.ids then id in c.streams <==> !Ended(fs) else fs == [])
  }

  ghost predicate StreamJoined(w: World, id: nat) {
    Carried(w, id) && Delivery.StreamKept(w.server, id) && Answered(w, id) && Recorded(w, id) && Got(w, id)
  }

  ghost predicate Joined(w: World) {
    && Requests.Kept(w.client) && w.client.client.connected
    && (forall f | f in w.up :: !f.RstStream?)
    && (forall f | f in w.down :: FromServer(f))
    && forall id: nat :: StreamJoined(w, id)
  }

  lemma StartJoins(o: Opening)
    ensures Joined(Start(o))
  {
    var w := Start(o);
    forall id: nat ensures StreamJoined(w, id) {
      OnStreamSnoc([], Settings(false, o.client), id);
      OnStreamSnoc([], Settings(false, o.server), id);
      assert [] + [Settings(false, o.client)] == [Settings(false, o.client)];
      assert [] + [Settings(false, o.server)] == [Settings(false, o.server)];
    }
    assert Requests.Kept(w.client) by {
      forall id: nat ensures Requests.StreamKept(w.client, id) { }
    }
  }

  /** What the server has received of a stream is in order. */
  lemma ReceivedInOrder(w: World, id: nat)
    requires Requests.StreamKept(w.client, id)
    requires OnStream(w.server.received, id) <= Requests.Wire(w.client, id)
    ensures PhaseOf(OnStream(w.server.received, id)) != Broken
    ensures id !in w.client.ids ==> OnStream(w.server.received, id) == []
  {
    Delivery.UnbrokenPrefix(OnStream(w.server.received, id), Requests.Wire(w.client, id));
  }

  // ---------------------------------------------------------------- callers

  lemma SentGrows(w: Requests.World, call: Requests.Call)
    ensures var w2 := Requests.Step(w, call);
            && w2.sent == w.sent + News(w, w2)
            && |w.ids| <= |w2.ids|
  {
    var w2 := Requests.Step(w, call);
    assert w2 == w || w.sent <= w2.sent;
  }

  lemma NewsCarried(w: World, call: Requests.Call, id: nat)
    requires Carried(w, id)
    ensures var client := Requests.Step(w.client, call);
            OnStream(w.server.received, id) + OnStream(w.up + News(w.client, client), id) == Requests.Wire(client, id)
  {
    var client := Requests.Step(w.client, call);
    var news := News(w.client, client);
    SentGrows(w.client, call);
    OnStreamAppend(w.client.sent, news, id);
    OnStreamAppend(w.up, news, id);
    Regroup(OnStream(w.server.received, id), OnStream(w.up, id), OnStream(news, id));
  }

  lemma SendLeavesBuffers(w: Requests.World, r: Client.Request, id: nat)
    requires Requests.Kept(w) && Requests.Enabled(w, Requests.Send(r)) && Requests.Proper(Requests.Send(r))
    requires |w.ids| < Requests.ID_SPACE
    ensures var w2 := Requests.Step(w, Requests.Send(r));
            && Reading.Buffer(w2.client, id) == Reading.Buffer(w.client, id) && w2.client.connected
            && (if id == w.client.nextId then id !in w.ids && id in w2.ids && id in w2.client.streams
                else (id in w2.ids <==> id in w.ids) && (id in w2.client.streams <==> id in w.client.streams))
  {
    Requests.SendEffect(w, r);
    assert Requests.StreamKept(w, w.client.nextId);
    assert id in w.ids + [w.client.nextId] <==> id in w.ids || id == w.client.nextId;
  }

  lemma PutLeavesBuffers(w: Requests.World, at: nat, b: Client.Body, end: bool, id: nat)
    ensures var w2 := Requests.Step(w, Requests.Put(at, b, end));
            && Reading.Buffer(w2.client, id) == Reading.Buffer(w.client, id) && w2.ids == w.ids
            && w2.client.connected == w.client.connected
            && (id in w2.client.streams <==> id in w.client.streams)
  {
  }

  lemma CallGot(w: World, call: Requests.Call, id: nat)
    requires Requests.Kept(w.client) && Requests.Proper(call) && !call.Hear?
    requires |Requests.Step(w.client, call).ids| <= Requests.ID_SPACE && Got(w, id)
    ensures Got(CallStep(w, call), id)
    ensures CallStep(w, call).client.client.connected == w.client.client.connected
  {
    if Requests.Enabled(w.client, call) {
      match call
      case Send(r) =>
        Requests.SubmitSucceeds(w.client, r);
        SendLeavesBuffers(w.client, r, id);
      case Put(at, b, end) => PutLeavesBuffers(w.client, at, b, end, id);
      case Hear(_, _) =>
    }
  }

  lemma NewsAreRequests(w: Requests.World, call: Requests.Call)
    requires !call.Hear?
    ensures forall f | f in News(w, Requests.Step(w, call)) :: f.Headers? || f.Data?
  {
    if Requests.Enabled(w, call) && call.Send? {
      SubmitIsRequest(w.client, call.r);
    }
  }

  lemma SubmitIsRequest(c: Client.Client, r: Client.Request)
    requires c.remote.maxFrameSize >= 1
    ensures forall f | f in Client.Submit(c, r).out :: f.Headers? || f.Data?
  {
    if !Client.IsEmpty(r.body) && Client.Encode(r.body).Some? {
      CutFits(c.nextId, Client.Encode(r.body).value, c.remote.maxFrameSize, !r.pipeline);
    }
  }

  lemma CallKeeps(w: World, call: Requests.Call)
    requires Joined(w) && Requests.Proper(call) && !call.Hear?
    requires |Requests.Step(w.client, call).ids| <= Requests.ID_SPACE
    ensures Joined(CallStep(w, call))
  {
    var w2 := CallStep(w, call);
    SentGrows(w.client, call);
    Requests.StepKeeps(w.client, call);
    NewsAreRequests(w.client, call);
    forall id: nat ensures StreamJoined(w2, id) && w2.client.client.connected {
      assert StreamJoined(w, id);
      NewsCarried(w, call, id);
      CallGot(w, call, id);
    }
  }

  // ---------------------------------------------------------------- the server

  lemma FirstOnStream(fs: seq<Frame>, id: nat)
    requires fs != []
    ensures OnStream(fs, id) == (if Carries(fs[0], id) then [fs[0]] else []) + OnStream(fs[1..], id)
  {
    assert fs == [fs[0]] + fs[1..];
    OnStreamAppend([fs[0]], fs[1..], id);
    OnStreamSnoc([], fs[0], id);
    assert [] + [fs[0]] == [fs[0]];
  }

  /** The first frame on the way moves over to those that have arrived. */
  lemma Arrives(arrived: seq<Frame>, way: seq<Frame>, id: nat)
    requires way != []
    ensures OnStream(arrived + [way[0]], id) + OnStream(way[1..], id) == OnStream(arrived, id) + OnStream(way, id)
  {
    FirstOnStream(way, id);
    OnStreamSnoc(arrived, way[0], id);
    Regroup(OnStream(arrived, id), if Carries(way[0], id) then [way[0]] else [], OnStream(way[1..], id));
  }

  /** What a peer sends goes on the way at the end. */
  lemma Departs(heard: seq<Frame>, way: seq<Frame>, sent: seq<Frame>, out: seq<Frame>, id: nat)
    requires OnStream(heard, id) + OnStream(way, id) == OnStream(sent, id)
    ensures OnStream(heard, id) + OnStream(way + out, id) == OnStream(sent + out, id)
    ensures OnStream(sent + out, id) == OnStream(sent, id) + OnStream(out, id)
  {
    OnStreamAppend(way, out, id);
    OnStreamAppend(sent, out, id);
    Regroup(OnStream(heard, id), OnStream(way, id), OnStream(out, id));
  }

  /** While it receives, the server sends no message. */
  predicate IsQuiet(f: Frame) {
    f.WindowUpdate? || f.Ping?
  }

  lemma DataIsQuiet(s: Server.Session, id: nat, payload: Bytes, end: bool)
    ensures forall g | g in Server.OnData(s, id, payload, end).out :: IsQuiet(g)
  {
  }

  lemma ReceiveIsQuiet(s: Server.Session, f: Frame)
    ensures forall g | g in Server.Receive(s, f).out :: IsQuiet(g)
  {
    if f.Data? {
      DataIsQuiet(s, f.id, f.payload, f.end);
    }
  }

  lemma QuietOnStream(fs: seq<Frame>, id: nat)
    requires forall f | f in fs :: IsQuiet(f)
    ensures OnStream(fs, id) == []
  {
    NoneOnStream(fs, id);
  }

  lemma UpSendsNothing(w: World, id: nat)
    requires w.up != []
    ensures OnStream(UpStep(w).sent, id) == OnStream(w.sent, id)
  {
    var out := Server.Receive(w.server.session, w.up[0]).out;
    ReceiveIsQuiet(w.server.session, w.up[0]);
    QuietOnStream(out, id);
    OnStreamAppend(w.sent, out, id);
    assert OnStream(w.sent, id) + [] == OnStream(w.sent, id);
  }

  /** A frame on a stream that had ended would break it; and a stream that ends is known to the server. */
  lemma EndsKnown(v: Delivery.World, f: Frame, id: nat)
    requires !f.RstStream? && Delivery.StreamKept(v, id) && PhaseOf(OnStream(v.received + [f], id)) != Broken
    ensures var streams := Server.Receive(v.session, f).session.streams;
            var phase, phase2 := PhaseOf(OnStream(v.received, id)), PhaseOf(OnStream(v.received + [f], id));
            if phase == Done then phase2 == Done && (id in streams <==> id in v.session.streams)
            else phase2 == Done ==> id in streams
  {
    var fs := OnStream(v.received, id);
    OnStreamSnoc(v.received, f, id);
    if Carries(f, id) {
      PhaseSnoc(fs, f);
      OwnFrameIsKnown(v.session, f, id);
    } else {
      assert fs + [] == fs;
      Delivery.OtherFrame(v.session, f, id);
    }
  }

  lemma OwnFrameIsKnown(s: Server.Session, f: Frame, id: nat)
    requires Carries(f, id)
    ensures id in s.streams || f.Headers? ==> id in Server.Receive(s, f).session.streams
  {
  }

  lemma UpAnswered(w: World, id: nat)
    requires w.up != [] && !w.up[0].RstStream? && Delivery.StreamKept(w.server, id) && Answered(w, id)
    requires PhaseOf(OnStream(w.server.received + [w.up[0]], id)) != Broken
    ensures Answered(UpStep(w), id)
  {
    UpSendsNothing(w, id);
    EndsKnown(w.server, w.up[0], id);
  }

  lemma UpCarried(w: World, id: nat)
    requires w.up != [] && Carried(w, id)
    ensures Carried(UpStep(w), id)
  {
    Arrives(w.server.received, w.up, id);
    Departs(w.heard, w.down, w.sent, Server.Receive(w.server.session, w.up[0]).out, id);
  }

  lemma UpKeepsStream(w: World, id: nat)
    requires Joined(w) && w.up != []
    ensures StreamJoined(UpStep(w), id)
  {
    assert StreamJoined(w, id) && Requests.StreamKept(w.client, id);
    UpCarried(w, id);
    ReceivedInOrder(UpStep(w), id);
    UpAnswered(w, id);
    Delivery.RecvKeeps(w.server, w.up[0], id);
  }

  lemma UpKeeps(w: World)
    requires Joined(w) && w.up != []
    ensures Joined(UpStep(w))
  {
    forall id: nat ensures StreamJoined(UpStep(w), id) {
      UpKeepsStream(w, id);
    }
    ReceiveIsQuiet(w.server.session, w.up[0]);
  }

  /** The answered request had ended and was not answered before. */
  lemma ReplyIsFirst(w: World, id: nat, a: Answer, c: Context)
    requires Delivery.Enabled(w.server, Delivery.Reply(id, a, c))
    requires Delivery.StreamKept(w.server, id) && Answered(w, id) && PhaseOf(OnStream(w.server.received, id)) != Broken
    ensures PhaseOf(OnStream(w.server.received, id)) == Done && id !in w.given
  {
  }

  lemma ReplyOnStream(at: nat, a: Answer, c: Context, maxSize: nat, id: nat)
    requires maxSize >= 1
    ensures var out := ResponseFrames(at, a, c, maxSize);
            OnStream(out, id) == if id == at then out else []
  {
    ResponseStays(at, a, c, maxSize);
    if id != at {
      NoneOnStream(ResponseFrames(at, a, c, maxSize), id);
    }
  }

  lemma ReplyCarried(w: World, at: nat, a: Answer, c: Context, id: nat)
    requires Carried(w, id) && Delivery.Enabled(w.server, Delivery.Reply(at, a, c))
    ensures Carried(ReplyStep(w, at, a, c), id)
  {
    Departs(w.heard, w.down, w.sent, ResponseFrames(at, a, c, w.server.session.maxFrameSize), id);
  }

  lemma AnsweredAfter(w: World, w2: World, at: nat, g: Given, out: seq<Frame>, id: nat)
    requires Answered(w, id) && w2.sent == w.sent + out && w2.given == w.given[at := g]
    requires w2.server.received == w.server.received && w2.server.session.streams == w.server.session.streams - {at}
    requires OnStream(out, id) == if id == at then out else []
    requires id == at ==> g.frames == out && PhaseOf(OnStream(w.server.received, id)) == Done && id !in w.given
    ensures Answered(w2, id)
  {
    OnStreamAppend(w.sent, out, id);
    assert [] + out == out && OnStream(w.sent, id) + [] == OnStream(w.sent, id);
  }

  lemma ReplyAnswered(w: World, at: nat, a: Answer, c: Context, id: nat)
    requires Answered(w, id) && Delivery.Enabled(w.server, Delivery.Reply(at, a, c))
    requires id == at ==> PhaseOf(OnStream(w.server.received, id)) == Done && id !in w.given
    ensures Answered(ReplyStep(w, at, a, c), id)
  {
    var maxSize := w.server.session.maxFrameSize;
    var out := ResponseFrames(at, a, c, maxSize);
    ReplyOnStream(at, a, c, maxSize, id);
    AnsweredAfter(w, ReplyStep(w, at, a, c), at, Given(a, c, maxSize, out), out, id);
  }

  lemma ReplyStreamKept(w: World, at: nat, a: Answer, c: Context, id: nat)
    requires Delivery.StreamKept(w.server, id) && Delivery.Enabled(w.server, Delivery.Reply(at, a, c))
    requires id == at ==> PhaseOf(OnStream(w.server.received, id)) == Done
    ensures Delivery.StreamKept(ReplyStep(w, at, a, c).server, id)
  {
  }

  lemma ReplyKeepsStream(w: World, at: nat, a: Answer, c: Context, id: nat)
    requires Joined(w) && Delivery.Enabled(w.server, Delivery.Reply(at, a, c))
    ensures StreamJoined(ReplyStep(w, at, a, c), id)
  {
    assert StreamJoined(w, id) && Requests.StreamKept(w.client, id);
    ReceivedInOrder(w, id);
    if id == at {
      ReplyIsFirst(w, id, a, c);
    }
    ReplyCarried(w, at, a, c, id);
    ReplyAnswered(w, at, a, c, id);
    ReplyStreamKept(w, at, a, c, id);
    assert Recorded(ReplyStep(w, at, a, c), id);
    assert Got(ReplyStep(w, at, a, c), id);
  }

  lemma ReplyKeeps(w: World, at: nat, a: Answer, c: Context)
    requires Joined(w) && Delivery.Enabled(w.server, Delivery.Reply(at, a, c))
    ensures Joined(ReplyStep(w, at, a, c))
  {
    forall id: nat ensures StreamJoined(ReplyStep(w, at, a, c), id) {
      ReplyKeepsStream(w, at, a, c, id);
    }
    ResponseStays(at, a, c, w.server.session.maxFrameSize);
  }

  // ---------------------------------------------------------------- the client

  /** A response ends on its last frame, if at all. */
  lemma ResponseEndsLate(id: nat, g: Given)
    requires g.maxSize >= 1 && g.frames == ResponseFrames(id, g.a, g.c, g.maxSize)
    ensures var fs := g.frames;
            && fs != [] && Reading.EndsLate(fs)
            && (Ended(fs) <==> g.a.trailer == [] || Usable(g.a.trailer) != [])
  {
    var fs := ResponseFrames(id, g.a, g.c, g.maxSize);
    ResponseTerminates(id, g.a, g.c, g.maxSize);
    ResponseStays(id, g.a, g.c, g.maxSize);
    forall i | 0 <= i < |fs| ensures Reading.HasEnd(fs[i]) == EndsStream(fs[i]) {
      assert fs[i] in fs;
    }
  }

  /** So a response of which a frame is still to come has not ended. */
  lemma NotEndedYet(heard: seq<Frame>, f: Frame, rest: seq<Frame>, all: seq<Frame>)
    requires heard + ([f] + rest) == all && Reading.EndsLate(all)
    ensures !Ended(heard)
  {
    if heard != [] {
      assert all[|heard| - 1] == heard[|heard| - 1];
    }
  }

  lemma DataGrows(returned: seq<Client.Response>, p: Client.Parsed, id: nat)
    ensures Reading.DataFor(returned + Returned(p), id) == Reading.DataFor(returned, id) + Reading.ReturnedFor(p.result, id)
  {
    if p.result.Ready? {
      Reading.DataSnoc(returned, p.result.response, id);
    } else {
      assert returned + [] == returned;
    }
  }

  /** A frame of a response comes on a stream that the client knows. */
  lemma OwnFrameIsExpected(w: World, id: nat)
    requires w.down != [] && Carries(w.down[0], id)
    requires StreamJoined(w, id) && Requests.StreamKept(w.client, id)
    ensures id in w.client.ids && id in w.client.client.streams
  {
    var heard, rest := OnStream(w.heard, id), OnStream(w.down[1..], id);
    FirstOnStream(w.down, id);
    ReceivedInOrder(w, id);
    assert OnStream(w.sent, id) != [];
    ResponseEndsLate(id, w.given[id]);
    NotEndedYet(heard, w.down[0], rest, OnStream(w.sent, id));
  }

  /** One parsed frame: what is returned and what stays buffered gains what the frame carries. */
  lemma ParsedGot(returned: seq<Client.Response>, c: Client.Client, f: Frame, partly: bool, id: nat)
    requires FromServer(f) && (Carries(f, id) ==> id in c.streams)
    ensures var p := Client.Parse(c, f, partly);
            && Reading.DataFor(returned + Returned(p), id) + Reading.Buffer(p.client, id)
               == Reading.DataFor(returned, id) + Reading.Buffer(c, id)
                  + (if Carries(f, id) then Reading.PayloadOf(f) else [])
            && (id in p.client.streams <==> if Carries(f, id) then !f.end else id in c.streams)
  {
    var p, data := Client.Parse(c, f, partly), Reading.DataFor(returned, id);
    Reading.ParseMoves(c, f, partly, id);
    DataGrows(returned, p, id);
    Regroup(data, Reading.ReturnedFor(p.result, id), Reading.Buffer(p.client, id));
    Regroup(data, Reading.Buffer(c, id), Reading.PayloadOf(f));
    assert data + [] == data;
  }

  lemma GotMore(w: World, w2: World, f: Frame, id: nat)
    requires Got(w, id) && w2.heard == w.heard + [f] && w2.client.ids == w.client.ids
    requires Carries(f, id) ==> id in w.client.ids
    requires Reading.DataFor(w2.returned, id) + Reading.Buffer(w2.client.client, id)
             == Reading.DataFor(w.returned, id) + Reading.Buffer(w.client.client, id)
                + (if Carries(f, id) then Reading.PayloadOf(f) else [])
    requires id in w2.client.client.streams <==> if Carries(f, id) then !f.end else id in w.client.client.streams
    ensures Got(w2, id)
  {
    var fs := OnStream(w.heard, id);
    OnStreamSnoc(w.heard, f, id);
    PayloadsSnoc(fs, f);
    assert fs + [] == fs && Payloads(fs) + [] == Payloads(fs);
  }

  lemma DownGot(w: World, partly: bool, id: nat)
    requires w.down != [] && FromServer(w.down[0]) && w.client.client.connected && Got(w, id)
    requires Carries(w.down[0], id) ==> id in w.client.ids && id in w.client.client.streams
    ensures Got(DownStep(w, partly), id)
  {
    ParsedGot(w.returned, w.client.client, w.down[0], partly, id);
    GotMore(w, DownStep(w, partly), w.down[0], id);
  }

  lemma StaysOpen(c: Client.Client, f: Frame, partly: bool)
    requires FromServer(f)
    ensures Client.Parse(c, f, partly).client.connected == c.connected
  {
  }

  lemma DownKeepsStream(w: World, partly: bool, id: nat)
    requires Joined(w) && w.down != []
    ensures StreamJoined(DownStep(w, partly), id)
  {
    assert StreamJoined(w, id) && Requests.StreamKept(w.client, id);
    assert w.down[0] in w.down;
    if Carries(w.down[0], id) {
      OwnFrameIsExpected(w, id);
    }
    DownGot(w, partly, id);
    NewsCarried(w, Requests.Hear(w.down[0], partly), id);
    Arrives(w.heard, w.down, id);
  }

  lemma DownKeeps(w: World, partly: bool)
    requires Joined(w) && w.down != []
    ensures Joined(DownStep(w, partly))
  {
    var f := w.down[0];
    assert f in w.down;
    Requests.HearKeeps(w.client, f, partly);
    Requests.ParseKeepsRequests(w.client.client, f, partly);
    forall id: nat ensures StreamJoined(DownStep(w, partly), id) {
      DownKeepsStream(w, partly, id);
    }
    StaysOpen(w.client.client, f, partly);
  }

  // ---------------------------------------------------------------- whole runs

  predicate ProperCalls(es: seq<Event>) {
    forall i :: 0 <= i < |es| && es[i].Call? ==> Requests.Proper(es[i].call)
  }

  lemma IdsStay(w: World, e: Event)
    ensures |w.client.ids| <= |Step(w, e).client.ids|
  {
    match e
    case Call(call) => SentGrows(w.client, call);
    case Down(partly) =>
    case _ =>
  }

  lemma {:induction false} EveryRunJoins(o: Opening, es: seq<Event>)
    requires ProperCalls(es) && |Run(o, es).client.ids| <= Requests.ID_SPACE
    ensures Joined(Run(o, es))
  {
    if es == [] {
      StartJoins(o);
    } else {
      var w, e := Run(o, es[..|es| - 1]), es[|es| - 1];
      IdsStay(w, e);
      EveryRunJoins(o, es[..|es| - 1]);
      match e
      case Call(call) => if !call.Hear? { CallKeeps(w, call); }
      case Up => if w.up != [] { UpKeeps(w); }
      case Reply(id, a, c) => if Delivery.Enabled(w.server, Delivery.Reply(id, a, c)) { ReplyKeeps(w, id, a, c); }
      case Down(partly) => if w.down != [] { DownKeeps(w, partly); }
    }
  }

  /**
   At every point of every run: a request was handled at most once, only if its caller completed it, and with
   exactly its body; it was, if all its frames have arrived. Only handled requests are answered, each once.
   */
  lemma RequestsArrive(o: Opening, es: seq<Event>, id: nat)
    requires ProperCalls(es) && |Run(o, es).client.ids| <= Requests.ID_SPACE
    ensures var w := Run(o, es);
            var handled := Delivery.HandledFor(w.server.log, id);
            && (handled == [] || (id in w.client.done && id in w.client.heads && id in w.client.bodies
                                  && handled == [Delivery.Asked(w.client, id)]))
            && (OnStream(w.up, id) == [] && id in w.client.done ==> handled != [])
            && (id in w.given ==> handled != [])
  {
    var w := Run(o, es);
    var fs, all := OnStream(w.server.received, id), Requests.Wire(w.client, id);
    EveryRunJoins(o, es);
    assert StreamJoined(w, id) && Requests.StreamKept(w.client, id);
    ReceivedInOrder(w, id);
    if PhaseOf(fs).Done? {
      Delivery.EndedIsAll(fs, all);
    }
    if OnStream(w.up, id) == [] {
      assert fs + [] == fs;
    }
  }

  predicate Terminates(g: Given) {
    g.a.trailer == [] || Usable(g.a.trailer) != []
  }

  /**
   And the server's frames on a stream are those of the one response that was given there, or none. What the
   callers got and what is buffered for them is the beginning of its body, and once all has arrived the whole of
   it. Then the stream is closed, and all of the body was returned, exactly if the response ends.
   */
  lemma ResponsesArrive(o: Opening, es: seq<Event>, id: nat)
    requires ProperCalls(es) && |Run(o, es).client.ids| <= Requests.ID_SPACE
    ensures var w := Run(o, es);
            var c, data := w.client.client, Reading.DataFor(w.returned, id);
            if id !in w.given then OnStream(w.sent, id) == [] && data == [] && Reading.Buffer(c, id) == []
            else
              var g := w.given[id];
              && g.maxSize >= 1 && OnStream(w.sent, id) == ResponseFrames(id, g.a, g.c, g.maxSize)
              && Conveys(Payloads(OnStream(w.sent, id)), g.a, g.c)
              && data + Reading.Buffer(c, id) <= Payloads(OnStream(w.sent, id))
              && (OnStream(w.down, id) == [] ==>
                    && Conveys(data + Reading.Buffer(c, id), g.a, g.c)
                    && (id !in c.streams <==> Terminates(g))
                    && (id !in c.streams ==> Conveys(data, g.a, g.c)))
  {
    var w := Run(o, es);
    EveryRunJoins(o, es);
    assert StreamJoined(w, id) && Requests.StreamKept(w.client, id);
    ReceivedInOrder(w, id);
    if id in w.given {
      GotOfResponse(w, id);
    }
  }

  lemma GotOfResponse(w: World, id: nat)
    requires StreamJoined(w, id) && id in w.given && id in w.client.ids
    ensures var g, data, buffer := w.given[id], Reading.DataFor(w.returned, id), Reading.Buffer(w.client.client, id);
            && Conveys(Payloads(OnStream(w.sent, id)), g.a, g.c) && data + buffer <= Payloads(OnStream(w.sent, id))
            && (OnStream(w.down, id) == [] ==>
                  && data + buffer == Payloads(OnStream(w.sent, id)) && (id !in w.client.client.streams <==> Terminates(g))
                  && (id !in w.client.client.streams ==> data == data + buffer))
  {
    var g, heard, rest := w.given[id], OnStream(w.heard, id), OnStream(w.down, id);
    ResponseEndsLate(id, g);
    ResponseCarries(id, g.a, g.c, g.maxSize);
    PayloadsAppend(heard, rest);
    assert rest == [] ==> heard + rest == heard;
    assert Reading.DataFor(w.returned, id) + [] == Reading.DataFor(w.returned, id);
  }

  // ---------------------------------------------------------------- callers that use `recv`

  predicate OnlyRecv(es: seq<Event>) {
    forall i :: 0 <= i < |es| && es[i].Down? ==> !es[i].partly
  }

  /** Nothing of a response is returned before its end, and then it is returned as one. */
  ghost predicate Whole(w: World, id: nat) {
    var fs := OnStream(w.heard, id);
    if id in w.client.ids then
      Reading.Gathers(w.returned, w.client.client, Heads(fs), Payloads(fs), Ended(fs), id)
    else fs == [] && Reading.ResponsesFor(w.returned, id) == []
  }

  lemma WholeAfterCall(w: World, w2: World, id: nat)
    requires Whole(w, id) && w2.heard == w.heard && w2.returned == w.returned
    requires id in w.client.ids ==> id in w2.client.ids
    requires id in w2.client.ids && id !in w.client.ids ==>
               id in w2.client.client.streams
               && w2.client.client.streams[id].fields == [] && w2.client.client.streams[id].buffer == []
    requires id in w.client.ids ==>
               var s, s2 := w.client.client.streams, w2.client.client.streams;
               (id in s2 <==> id in s) && (id in s ==> s2[id].fields == s[id].fields && s2[id].buffer == s[id].buffer)
    ensures Whole(w2, id)
  {
  }

  lemma CallWhole(w: World, call: Requests.Call, id: nat)
    requires Requests.Kept(w.client) && Requests.Proper(call) && !call.Hear?
    requires |Requests.Step(w.client, call).ids| <= Requests.ID_SPACE && Whole(w, id)
    ensures Whole(CallStep(w, call), id)
  {
    if Requests.Enabled(w.client, call) {
      match call
      case Send(r) =>
        var next := w.client.client.nextId;
        Requests.SubmitSucceeds(w.client, r);
        Requests.SendEffect(w.client, r);
        assert id in w.client.ids + [next] <==> id in w.client.ids || id == next;
      case Put(at, b, end) =>
      case Hear(_, _) =>
    }
    WholeAfterCall(w, CallStep(w, call), id);
  }

  lemma WholeAfterFrame(w: World, w2: World, f: Frame, id: nat)
    requires Whole(w, id) && w2.heard == w.heard + [f] && w2.client.ids == w.client.ids && FromServer(f)
    requires Carries(f, id) ==> id in w.client.ids && !Ended(OnStream(w.heard, id))
    requires id in w.client.ids ==>
               var v := Reading.Step(Reading.World(w.client.client, w.returned), Reading.Heard(f, false));
               w2.returned == v.returned && w2.client.client == v.client
    requires id !in w.client.ids ==> Reading.ResponsesFor(w2.returned, id) == Reading.ResponsesFor(w.returned, id)
    ensures Whole(w2, id)
  {
    var fs := OnStream(w.heard, id);
    OnStreamSnoc(w.heard, f, id);
    HeadsSnoc(fs, f);
    PayloadsSnoc(fs, f);
    assert fs + [] == fs && Heads(fs) + [] == Heads(fs) && Payloads(fs) + [] == Payloads(fs);
    if id in w.client.ids {
      Reading.RecvGathers(Reading.World(w.client.client, w.returned), f, Heads(fs), Payloads(fs), Ended(fs), id);
    }
  }

  lemma DownIsStep(w: World)
    requires w.down != [] && w.client.client.connected
    ensures var w2 := DownStep(w, false);
            && w2.heard == w.heard + [w.down[0]] && w2.client.ids == w.client.ids
            && Reading.World(w2.client.client, w2.returned)
               == Reading.Step(Reading.World(w.client.client, w.returned), Reading.Heard(w.down[0], false))
  {
  }

  lemma DownWhole(w: World, id: nat)
    requires Joined(w) && w.down != [] && Whole(w, id)
    ensures Whole(DownStep(w, false), id)
  {
    var f := w.down[0];
    assert f in w.down && StreamJoined(w, id) && Requests.StreamKept(w.client, id);
    if Carries(f, id) {
      OwnFrameIsExpected(w, id);
    } else {
      OtherReturned(w.returned, w.client.client, f, id);
    }
    DownIsStep(w);
    WholeAfterFrame(w, DownStep(w, false), f, id);
  }

  lemma OtherReturned(returned: seq<Client.Response>, c: Client.Client, f: Frame, id: nat)
    requires FromServer(f) && !Carries(f, id)
    ensures Reading.ResponsesFor(returned + Returned(Client.Parse(c, f, false)), id) == Reading.ResponsesFor(returned, id)
  {
    var p := Client.Parse(c, f, false);
    Reading.ParseReturns(c, f, false);
    if p.result.Ready? {
      Reading.ResponsesSnoc(returned, p.result.response, id);
      assert Reading.ResponsesFor(returned, id) + [] == Reading.ResponsesFor(returned, id);
    } else {
      assert returned + [] == returned;
    }
  }

  lemma {:induction false} EveryRecvIsWhole(o: Opening, es: seq<Event>, id: nat)
    requires ProperCalls(es) && |Run(o, es).client.ids| <= Requests.ID_SPACE && OnlyRecv(es)
    ensures Whole(Run(o, es), id)
  {
    if es != [] {
      var before, e := es[..|es| - 1], es[|es| - 1];
      var w := Run(o, before);
      IdsStay(w, e);
      EveryRunJoins(o, before);
      EveryRecvIsWhole(o, before, id);
      match e
      case Call(call) => if !call.Hear? { CallWhole(w, call, id); }
      case Down(_) => if w.down != [] { DownWhole(w, id); }
      case _ =>
    }
  }

  /**
   A caller that uses `recv` gets exactly one response for a request that was answered with a response that ends, when
   all of it has arrived, and nothing before: with the header list and the trailer of the answer, and with its body.
   */
  lemma CallerGetsResponse(o: Opening, es: seq<Event>, id: nat)
    requires ProperCalls(es) && |Run(o, es).client.ids| <= Requests.ID_SPACE && OnlyRecv(es)
    ensures var w := Run(o, es);
            var rs := Reading.ResponsesFor(w.returned, id);
            if id !in w.given || !Terminates(w.given[id]) || OnStream(w.down, id) != [] then rs == []
            else
              var g := w.given[id];
              && |rs| == 1 && !rs[0].pipeline && Conveys(rs[0].data, g.a, g.c)
              && rs[0].fields
                 == HeaderFields(g.a, g.c, CompressedBody(g.a, g.c).Some?, |rs[0].data|) + Usable(g.a.trailer)
  {
    var w := Run(o, es);
    EveryRunJoins(o, es);
    EveryRecvIsWhole(o, es, id);
    assert StreamJoined(w, id) && Requests.StreamKept(w.client, id);
    ReceivedInOrder(w, id);
    var heard, rest := OnStream(w.heard, id), OnStream(w.down, id);
    if id in w.given {
      var g := w.given[id];
      ResponseEndsLate(id, g);
      if rest == [] {
        assert heard + rest == heard;
        ResponseCarries(id, g.a, g.c, g.maxSize);
        ResponseHeads(id, g.a, g.c, g.maxSize);
      } else {
        assert rest == [rest[0]] + rest[1..];
        NotEndedYet(heard, rest[0], rest[1..], OnStream(w.sent, id));
      }
    } else {
      assert heard == [];
    }
  }
}
