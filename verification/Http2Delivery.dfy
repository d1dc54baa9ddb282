/**
 Requests end to end: the client's frames reach the server in any interleaving that keeps the order
 on each stream, while the application answers requests at any time.
 */
module Http2Delivery {
  import opened PhpBytes
  import opened Http2Frames
  import Http2Requests
  import Http2Response
  import Server = Http2Server

  datatype Event = Recv(f: Frame) | Reply(id: nat, a: Http2Response.Answer, c: Http2Response.Context)

  /** The session, every frame it has received, and the requests handed to the application in order. */
  datatype World = World(session: Server.Session, received: seq<Frame>, log: seq<Server.Request>)

  function Start(): World {
    World(Server.NewSession(), [], [])
  }

  /** The requests on a stream that the application was given, in order. */
  function HandledFor(log: seq<Server.Request>, id: nat): seq<Server.Request> {
    if log == [] then []
    else
      var last := log[|log| - 1];
      HandledFor(log[..|log| - 1], id) + (if last.id == id then [last] else [])
  }

  /** The request that the frames of a stream make up. */
  function Message(fs: seq<Frame>, id: nat): Server.Request {
    Server.Request(id, Heads(fs), Payloads(fs))
  }

  /** The application answers only what it was given; with a frame size of 0 an answer would never end. */
  predicate Enabled(w: World, e: Event) {
    e.Reply? ==> e.id in w.session.streams && HandledFor(w.log, e.id) != [] && w.session.maxFrameSize >= 1
  }

  function Step(w: World, e: Event): World {
    if !Enabled(w, e) then w
    else
      match e
      case Recv(f) =>
        var r := Server.Receive(w.session, f);
        World(r.session, w.received + [f], w.log + r.handled)
      case Reply(id, a, c) => w.(session := Server.Finish(w.session, id, |Http2Response.SentBody(a, c)|))
  }

  function Run(es: seq<Event>): World {
    if es == [] then Start() else Step(Run(es[..|es| - 1]), es[|es| - 1])
  }

  /** Any such run, performed on a session object. */
  method Serve(es: seq<Event>) returns (session: Server.ServerSession, received: seq<Frame>, log: seq<Server.Request>)
    ensures World(session.State(), received, log) == Run(es)
  {
    session := new Server.ServerSession();
    received, log := [], [];
    var i := 0;
    assert es[..0] == [];
    while i < |es|
      invariant 0 <= i <= |es| && fresh(session)
      invariant World(session.State(), received, log) == Run(es[..i])
    {
      assert es[..i + 1][..i] == es[..i];
      match es[i] {
        case Recv(f) =>
          var _, handled, _ := session.Parse(f);
          received, log := received + [f], log + handled;
        case Reply(id, a, c) =>
          if id in session.streams && HandledFor(log, id) != [] && session.maxFrameSize >= 1 {
            var _ := session.Respond(id, a, c);
          }
      }
      i := i + 1;
    }
    assert es[..i] == es;
  }

  // ---------------------------------------------------------------- one stream at the server

  /** The server's view of a stream follows the frames received on it. */
  ghost predicate StreamKept(w: World, id: nat) {
    var fs := OnStream(w.received, id);
    match PhaseOf(fs)
    case Idle => id !in w.session.streams && HandledFor(w.log, id) == []
    case Open =>
      && id in w.session.streams && HandledFor(w.log, id) == []
      && w.session.streams[id].fields == Heads(fs) && w.session.streams[id].body == Payloads(fs)
    case Done => HandledFor(w.log, id) == [Message(fs, id)]
    case Broken => true
  }

  lemma HandledSnoc(log: seq<Server.Request>, r: Server.Request, id: nat)
    ensures HandledFor(log + [r], id) == HandledFor(log, id) + (if r.id == id then [r] else [])
  {
    assert (log + [r])[..|log|] == log;
  }

  lemma HandOverKeeps(log: seq<Server.Request>, handled: seq<Server.Request>, id: nat)
    requires |handled| <= 1
    ensures HandledFor(log + handled, id)
            == HandledFor(log, id) + (if handled != [] && handled[0].id == id then [handled[0]] else [])
  {
    if handled == [] {
      assert log + handled == log;
      assert HandledFor(log, id) + [] == HandledFor(log, id);
    } else {
      assert handled == [handled[0]];
      HandledSnoc(log, handled[0], id);
    }
  }

  /** A frame of another stream, or of none, leaves this stream's record as it is. */
  lemma OtherFrame(s: Server.Session, f: Frame, id: nat)
    requires !Carries(f, id) && !f.RstStream?
    ensures var r := Server.Receive(s, f);
            && (id in r.session.streams <==> id in s.streams)
            && (id in s.streams ==>
                  r.session.streams[id].fields == s.streams[id].fields && r.session.streams[id].body == s.streams[id].body)
            && |r.handled| <= 1 && (r.handled != [] ==> r.handled[0].id != id)
  {
    if f.Settings? && !f.ack {
      SettingsKeepStreams(s, f.values);
    }
  }

  lemma {:induction false} SettingsKeepStreams(s: Server.Session, values: seq<(nat, nat)>)
    ensures Server.ApplySettings(s, values).streams == s.streams
    decreases values
  {
    if values != [] {
      SettingsKeepStreams(Server.ApplySetting(s, values[0]), values[1..]);
    }
  }

  /** A HEADERS frame on an idle stream opens it; on any other the stream is broken. */
  lemma OwnHeaders(w: World, f: Frame, id: nat)
    requires StreamKept(w, id) && f.Headers? && f.id == id
    ensures StreamKept(Step(w, Recv(f)), id)
  {
    var fs, r := OnStream(w.received, id), Server.Receive(w.session, f);
    OnStreamSnoc(w.received, f, id);
    PhaseSnoc(fs, f);
    PayloadsSnoc(fs, f);
    HeadsSnoc(fs, f);
    HandOverKeeps(w.log, r.handled, id);
    if PhaseOf(fs).Idle? {
      EmptyWhenIdle(fs);
    }
  }

  lemma DataAdds(s: Server.Session, id: nat, payload: Bytes, end: bool)
    requires id in s.streams
    ensures var r := Server.OnData(s, id, payload, end);
            && id in r.session.streams && r.session.streams[id].fields == s.streams[id].fields
            && r.session.streams[id].body == s.streams[id].body + payload
            && r.handled == (if end then [Server.Request(id, s.streams[id].fields, s.streams[id].body + payload)] else [])
  {
  }

  lemma KeptAfterData(w: World, w2: World, f: Frame, handled: seq<Server.Request>, id: nat)
    requires StreamKept(w, id) && PhaseOf(OnStream(w.received, id)) == Open && f.Data? && f.id == id
    requires w2.received == w.received + [f] && w2.log == w.log + handled && id in w2.session.streams
    requires var fields, body := Heads(OnStream(w.received, id)), Payloads(OnStream(w.received, id)) + f.payload;
             && w2.session.streams[id].fields == fields && w2.session.streams[id].body == body
             && handled == if f.end then [Server.Request(id, fields, body)] else []
    ensures StreamKept(w2, id)
  {
    var fs := OnStream(w.received, id);
    OnStreamSnoc(w.received, f, id);
    PhaseSnoc(fs, f);
    PayloadsSnoc(fs, f);
    HeadsSnoc(fs, f);
    HandOverKeeps(w.log, handled, id);
    assert Heads(fs) + [] == Heads(fs) && HandledFor(w.log, id) + [] == HandledFor(w.log, id);
  }

  /** A DATA frame on an open stream adds to its body, and its end hands the request over. */
  lemma OwnData(w: World, f: Frame, id: nat)
    requires StreamKept(w, id) && f.Data? && f.id == id
    ensures StreamKept(Step(w, Recv(f)), id)
  {
    if PhaseOf(OnStream(w.received, id)) == Open {
      DataAdds(w.session, id, f.payload, f.end);
      KeptAfterData(w, Step(w, Recv(f)), f, Server.Receive(w.session, f).handled, id);
    } else {
      OnStreamSnoc(w.received, f, id);
      PhaseSnoc(OnStream(w.received, id), f);
    }
  }

  lemma EmptyWhenIdle(fs: seq<Frame>)
    requires PhaseOf(fs) == Idle
    ensures fs == []
  {
  }

  lemma RecvKeeps(w: World, f: Frame, id: nat)
    requires StreamKept(w, id) && !f.RstStream?
    ensures StreamKept(Step(w, Recv(f)), id)
  {
    if f.Headers? && f.id == id {
      OwnHeaders(w, f, id);
    } else if f.Data? && f.id == id {
      OwnData(w, f, id);
    } else {
      var r := Server.Receive(w.session, f);
      OtherFrame(w.session, f, id);
      OnStreamSnoc(w.received, f, id);
      assert OnStream(w.received, id) + [] == OnStream(w.received, id);
      HandOverKeeps(w.log, r.handled, id);
      assert HandledFor(w.log, id) + [] == HandledFor(w.log, id);
    }
  }

  predicate NoReset(es: seq<Event>) {
    forall i :: 0 <= i < |es| && es[i].Recv? ==> !es[i].f.RstStream?
  }

  /** In every run each stream is handled exactly when its end has come, with exactly its payloads. */
  lemma {:induction false} EveryRunKeeps(es: seq<Event>, id: nat)
    requires NoReset(es)
    ensures StreamKept(Run(es), id)
  {
    if es != [] {
      var before, e := es[..|es| - 1], es[|es| - 1];
      var w := Run(before);
      EveryRunKeeps(before, id);
      if Enabled(w, e) && e.Recv? {
        RecvKeeps(w, e.f, id);
      }
    }
  }

  // ---------------------------------------------------------------- client and server

  /** What the callers asked for on a stream: their fields, and the bytes that they passed. */
  function Asked(c: Http2Requests.World, id: nat): Server.Request
    requires id in c.heads && id in c.bodies
  {
    Server.Request(id, c.heads[id], c.bodies[id])
  }

  /** Anything after the end breaks a stream. */
  lemma EndedIsAll(fs: seq<Frame>, all: seq<Frame>)
    requires fs <= all && PhaseOf(fs) == Done
    ensures fs == all || PhaseOf(all) == Broken
  {
    if |fs| < |all| {
      var next := all[|fs|];
      assert all == fs + [next] + all[|fs| + 1..];
      PhaseSnoc(fs, next);
      BrokenStays(fs + [next], all[|fs| + 1..]);
    } else {
      assert all[..|fs|] == all;
    }
  }

  lemma UnbrokenPrefix(fs: seq<Frame>, all: seq<Frame>)
    requires fs <= all
    ensures PhaseOf(fs) == Broken ==> PhaseOf(all) == Broken
  {
    if PhaseOf(fs) == Broken {
      assert all == fs + all[|fs|..];
      BrokenStays(fs, all[|fs|..]);
    }
  }

  /**
   For every client run and every server run that has received, on each stream, a prefix of what the
   client sent there: a request is handled at most once, only if its caller completed it, and with
   exactly its body.
   */
  lemma DeliverySafe(calls: seq<Http2Requests.Call>, es: seq<Event>, id: nat)
    requires forall i :: 0 <= i < |calls| ==> Http2Requests.Proper(calls[i])
    requires |Http2Requests.Run(calls).ids| <= Http2Requests.ID_SPACE
    requires NoReset(es) && OnStream(Run(es).received, id) <= Http2Requests.Wire(Http2Requests.Run(calls), id)
    ensures var c, handled := Http2Requests.Run(calls), HandledFor(Run(es).log, id);
            handled == [] || (id in c.done && id in c.bodies && id in c.heads && handled == [Asked(c, id)])
  {
    var c, w := Http2Requests.Run(calls), Run(es);
    var fs, all := OnStream(w.received, id), Http2Requests.Wire(c, id);
    Http2Requests.EveryRunKeeps(calls);
    assert Http2Requests.StreamKept(c, id);
    EveryRunKeeps(es, id);
    assert StreamKept(w, id);
    UnbrokenPrefix(fs, all);
    if PhaseOf(fs).Done? {
      EndedIsAll(fs, all);
    }
  }

  /** Once everything has arrived, what was handled on every stream is exactly what was completed there. */
  lemma DeliveryComplete(calls: seq<Http2Requests.Call>, es: seq<Event>, id: nat)
    requires forall i :: 0 <= i < |calls| ==> Http2Requests.Proper(calls[i])
    requires |Http2Requests.Run(calls).ids| <= Http2Requests.ID_SPACE
    requires NoReset(es) && OnStream(Run(es).received, id) == Http2Requests.Wire(Http2Requests.Run(calls), id)
    ensures var c := Http2Requests.Run(calls);
            && (id in c.done ==> id in c.bodies && id in c.heads)
            && HandledFor(Run(es).log, id) == if id in c.done then [Asked(c, id)] else []
  {
    var c, w := Http2Requests.Run(calls), Run(es);
    Http2Requests.EveryRunKeeps(calls);
    assert Http2Requests.StreamKept(c, id);
    EveryRunKeeps(es, id);
    assert StreamKept(w, id);
  }

  // ---------------------------------------------------------------- the send window

  function GrantIn(e: Event): nat {
    if e.Recv? && e.f.WindowUpdate? && e.f.id == 0 then e.f.increment else 0
  }

  function SentIn(w: World, e: Event): nat {
    if e.Reply? && Enabled(w, e) then |Payloads(Http2Response.ResponseFrames(e.id, e.a, e.c, w.session.maxFrameSize))| else 0
  }

  /** What WINDOW_UPDATE frames for the connection have added. */
  function Granted(es: seq<Event>): nat {
    if es == [] then 0 else Granted(es[..|es| - 1]) + GrantIn(es[|es| - 1])
  }

  /** The bytes of the responses sent. */
  function BytesSent(es: seq<Event>): nat {
    if es == [] then 0 else BytesSent(es[..|es| - 1]) + SentIn(Run(es[..|es| - 1]), es[|es| - 1])
  }

  predicate SetsWindow(e: Event) {
    e.Recv? && e.f.Settings? && !e.f.ack && exists k :: 0 <= k < |e.f.values| && e.f.values[k].0 == 4
  }

  lemma {:induction false} NotSet(values: seq<(nat, nat)>, option: nat, before: nat)
    requires forall k :: 0 <= k < |values| ==> values[k].0 != option
    ensures LastValue(values, option, before) == before
  {
    if values != [] {
      NotSet(values[..|values| - 1], option, before);
    }
  }

  lemma ModAdd(x: int, k: int)
    ensures (x % TWO_32 + k) % TWO_32 == (x + k) % TWO_32
  {
  }

  lemma RecvMovesWindow(s: Server.Session, f: Frame)
    requires !SetsWindow(Recv(f))
    ensures var after := Server.Receive(s, f).session.sendWindow;
            after == if f.WindowUpdate? && f.id == 0 then (s.sendWindow + f.increment) % TWO_32 else s.sendWindow
  {
    if f.Settings? {
      if !f.ack {
        Server.SettingsInForce(s, f.values);
        NotSet(f.values, 4, s.sendWindow);
      }
    } else if !f.Headers? && !f.Data? {
      Server.ControlFrames(s, f);
    }
  }

  lemma ReplyMovesWindow(w: World, e: Event)
    requires w.session.sendWindow < TWO_32 && e.Reply? && Enabled(w, e)
    ensures Step(w, e).session.sendWindow == (w.session.sendWindow - SentIn(w, e)) % TWO_32
  {
    Http2Response.ResponseCarries(e.id, e.a, e.c, w.session.maxFrameSize);
  }

  lemma WindowMoves(w: World, e: Event)
    requires w.session.sendWindow < TWO_32 && !SetsWindow(e)
    ensures Step(w, e).session.sendWindow == (w.session.sendWindow + (GrantIn(e) - SentIn(w, e))) % TWO_32
  {
    if e.Recv? {
      RecvMovesWindow(w.session, e.f);
    } else if Enabled(w, e) {
      ReplyMovesWindow(w, e);
    }
  }

  /** Over every run in which no SETTINGS frame resets it: the connection's send window is the default, plus what the peer
      granted, minus what was sent, in 32 bits; nothing keeps it from wrapping. */
  lemma {:induction false} SendWindowCounts(es: seq<Event>)
    requires forall i :: 0 <= i < |es| ==> !SetsWindow(es[i])
    ensures Run(es).session.sendWindow == (DEFAULT_WINDOW + Granted(es) - BytesSent(es)) % TWO_32
  {
    if es != [] {
      var before, e := es[..|es| - 1], es[|es| - 1];
      SendWindowCounts(before);
      WindowMoves(Run(before), e);
      ModAdd(DEFAULT_WINDOW + Granted(before) - BytesSent(before), GrantIn(e) - SentIn(Run(before), e));
    }
  }
}
