/**
 The receive-window ledger of section 6.9 of RFC 7540 for the server's session and for the client,
 each against a peer that honours its credit.
 */
module Http2Ledger {
  import opened PhpBytes
  import opened Http2Frames
  import Flow = Http2Flow
  import Server = Http2Server
  import Client = Http2Client

  // ---------------------------------------------------------------- the server

  function ServerView(s: Server.Session): Flow.Receiver {
    Flow.Receiver(s.recvWindow, map id | id in s.streams :: s.streams[id].recvWindow)
  }

  /** The session together with its peer's credit and what is on the way between them. */
  datatype ServerLink = ServerLink(session: Server.Session, link: Flow.Link)

  datatype ServerEvent =
    | Spend(f: Frame)  // the peer sends DATA
    | Arrive  // the next DATA frame arrives
    | Other(f: Frame)  // any other frame arrives
    | Credit  // the next WINDOW_UPDATE reaches the peer
    | Answer(id: nat, length: nat)

  /** What a frame other than DATA means for the windows. */
  function Registration(s: Server.Session, f: Frame): Option<Flow.Event> {
    match f
    case Headers(id, _, _) => if id in s.streams then None else Some(Flow.Register(id))
    case RstStream(id, _) => Some(Flow.Unregister({id}))
    case _ => None
  }

  predicate ServerEnabled(w: ServerLink, e: ServerEvent) {
    match e
    case Spend(f) => Flow.Enabled(w.link, Flow.Spend(f))
    case Arrive => Flow.Enabled(w.link, Flow.Arrive)
    case Other(f) =>
      !f.Data? && (Registration(w.session, f).Some? ==> Flow.Enabled(w.link, Registration(w.session, f).value))
    case Credit => Flow.Enabled(w.link, Flow.Credit)
    case Answer(_, _) => true
  }

  function ServerStep(w: ServerLink, e: ServerEvent): ServerLink
    requires ServerEnabled(w, e)
  {
    match e
    case Spend(f) => w.(link := Flow.Step(w.link, Flow.Spend(f)))
    case Arrive =>
      ServerLink(Server.Receive(w.session, w.link.data[0]).session, Flow.Step(w.link, Flow.Arrive))
    case Other(f) =>
      var r := Registration(w.session, f);
      ServerLink(Server.Receive(w.session, f).session, if r.Some? then Flow.Step(w.link, r.value) else w.link)
    case Credit => w.(link := Flow.Step(w.link, Flow.Credit))
    case Answer(id, length) =>
      ServerLink(Server.Finish(w.session, id, length), Flow.Step(w.link, Flow.Unregister({id})))
  }

  /** A run of the server with a peer that sends frames up to a size; events that are not enabled do not happen. */
  function ServerRun(frameSize: nat, es: seq<ServerEvent>): ServerLink {
    if es == [] then ServerLink(Server.NewSession(), Flow.Fresh(frameSize, DEFAULT_WINDOW, DEFAULT_WINDOW))
    else
      var w, e := ServerRun(frameSize, es[..|es| - 1]), es[|es| - 1];
      if ServerEnabled(w, e) then ServerStep(w, e) else w
  }

  ghost predicate ServerKept(w: ServerLink) {
    w.link.rx == ServerView(w.session) && Flow.Balanced(w.link)
  }

  /** DATA does to the session's windows, and sends back, exactly what the ledger says. */
  lemma ServerAccepts(s: Server.Session, id: nat, payload: Bytes, end: bool)
    ensures var r := Server.Receive(s, Data(id, payload, end));
            (ServerView(r.session), r.out) == Flow.Accept(ServerView(s), id, |payload|)
  {
    if id in s.streams {
      var r := Server.Receive(s, Data(id, payload, end));
      var accepted := Flow.Accept(ServerView(s), id, |payload|).0;
      assert ServerView(r.session).streams == accepted.streams;
    }
  }

  lemma {:induction false} SettingsKeepWindows(s: Server.Session, values: seq<(nat, nat)>)
    ensures ServerView(Server.ApplySettings(s, values)) == ServerView(s)
    decreases values
  {
    if values != [] {
      SettingsKeepWindows(Server.ApplySetting(s, values[0]), values[1..]);
    }
  }

  lemma ServerRegisters(s: Server.Session, f: Frame, l: Flow.Link)
    requires !f.Data? && l.rx == ServerView(s)
    requires Registration(s, f).Some? ==> Flow.Enabled(l, Registration(s, f).value)
    ensures var r := Registration(s, f);
            (if r.Some? then Flow.Step(l, r.value) else l).rx == ServerView(Server.Receive(s, f).session)
  {
    var s2 := Server.Receive(s, f).session;
    match f {
      case Settings(ack, values) =>
        SettingsKeepWindows(s, values);
      case Headers(id, _, _) =>
        if id !in s.streams {
          assert ServerView(s2).streams == ServerView(s).streams[id := DEFAULT_WINDOW];
        }
      case RstStream(id, _) =>
        assert ServerView(s2).streams == ServerView(s).streams - {id};
      case WindowUpdate(id, _) =>
        assert ServerView(s2).streams == ServerView(s).streams;
      case _ =>
    }
  }

  lemma ServerStepKeeps(w: ServerLink, e: ServerEvent)
    requires ServerKept(w) && ServerEnabled(w, e)
    ensures ServerKept(ServerStep(w, e))
    ensures var l := ServerStep(w, e).link;
            l.opening == w.link.opening && l.initial == w.link.initial && l.frameSize == w.link.frameSize
  {
    match e
    case Spend(f) => Flow.StepKeeps(w.link, Flow.Spend(f));
    case Credit => Flow.StepKeeps(w.link, Flow.Credit);
    case Arrive =>
      var f := w.link.data[0];
      Flow.StepKeeps(w.link, Flow.Arrive);
      ServerAccepts(w.session, f.id, f.payload, f.end);
    case Other(f) =>
      ServerRegisters(w.session, f, w.link);
      var r := Registration(w.session, f);
      if r.Some? {
        Flow.StepKeeps(w.link, r.value);
      }
    case Answer(id, length) =>
      Flow.StepKeeps(w.link, Flow.Unregister({id}));
      var s2 := Server.Finish(w.session, id, length);
      assert ServerView(s2).streams == ServerView(w.session).streams - {id};
  }

  lemma ServerBoot(frameSize: nat)
    ensures ServerKept(ServerRun(frameSize, []))
  {
    Flow.FreshBalances(frameSize, DEFAULT_WINDOW, DEFAULT_WINDOW);
    assert ServerView(Server.NewSession()).streams == map[];
  }

  /**
   In every reachable state of the server its connection window is its peer's credit and what is on the way
   or was dropped; and so are the windows of the streams whose id was used once.
   */
  lemma {:induction false} ServerLedger(frameSize: nat, es: seq<ServerEvent>)
    ensures var w := ServerRun(frameSize, es);
            ServerKept(w) && w.link.opening == w.link.initial == DEFAULT_WINDOW && w.link.frameSize == frameSize
  {
    if es == [] {
      ServerBoot(frameSize);
    } else {
      var w, e := ServerRun(frameSize, es[..|es| - 1]), es[|es| - 1];
      ServerLedger(frameSize, es[..|es| - 1]);
      if ServerEnabled(w, e) {
        ServerStepKeeps(w, e);
      }
    }
  }

  /** Read off from it: the numbers that the server and its peer hold. */
  lemma ServerWindows(frameSize: nat, es: seq<ServerEvent>, id: nat)
    ensures var w := ServerRun(frameSize, es);
            && w.session.recvWindow == Flow.PeerSide(w.link) <= MAX_WINDOW
            && (id in w.session.streams ==>
                  && w.session.streams[id].recvWindow + Flow.EntryOf(w.link, id)
                     == Flow.PeerSideOn(w.link, id) + DEFAULT_WINDOW
                  && w.session.streams[id].recvWindow <= MAX_WINDOW)
  {
    var w := ServerRun(frameSize, es);
    ServerLedger(frameSize, es);
    if id in w.session.streams {
      assert w.link.rx.streams[id] == w.session.streams[id].recvWindow;
      assert Flow.StreamBalanced(w.link, id);
    }
  }

  /** The server's peer is starved exactly when all 65535 bytes of its window's worth were dropped. */
  lemma ServerRunsDryIff(frameSize: nat, es: seq<ServerEvent>)
    ensures var w := ServerRun(frameSize, es);
            Flow.Starved(w.link) <==> w.session.recvWindow == w.link.dropped
  {
    ServerLedger(frameSize, es);
    Flow.StarvedIff(ServerRun(frameSize, es).link);
  }

  // ---------------------------------------------------------------- the client

  function ClientView(c: Client.Client): Flow.Receiver {
    Flow.Receiver(c.local.windowSize, map id | id in c.streams :: c.streams[id].localWindow)
  }

  datatype ClientLink = ClientLink(client: Client.Client, link: Flow.Link)

  datatype ClientEvent =
    | PeerSends(f: Frame)
    | DataArrives(partly: bool)
    | OtherArrives(f: Frame, partly: bool)
    | CreditArrives
    | Submits(r: Client.Request)
    | Reconnects
    | Writes(id: nat, b: Client.Body, end: bool)

  /** The streams that a frame closes at the client. */
  function Closes(c: Client.Client, f: Frame): set<nat> {
    match f
    case RstStream(id, _) => {id}
    case GoAway(_, _) => c.streams.Keys
    case Headers(id, _, end) => if end then {id} else {}
    case Data(id, _, end) => if end then {id} else {}
    case Unknown(id, end) => if end then {id} else {}
    case _ => {}
  }

  predicate ClientEnabled(w: ClientLink, e: ClientEvent) {
    if e.Reconnects? then true
    else
      && w.client.connected
      && match e
         case PeerSends(f) => Flow.Enabled(w.link, Flow.Spend(f))
         case DataArrives(_) => Flow.Enabled(w.link, Flow.Arrive)
         case OtherArrives(f, _) => !f.Data?
         case CreditArrives => Flow.Enabled(w.link, Flow.Credit)
         case Submits(r) =>
           && w.client.remote.maxFrameSize >= 1
           && (w.client.nextId !in w.client.streams ==> Flow.Enabled(w.link, Flow.Register(w.client.nextId)))
         case _ => true
  }

  /** `close` and `connect`: the window that is left over is announced as the credit of every stream. */
  function Reconnected(c: Client.Client, frameSize: nat): ClientLink {
    var c2 := Client.Connect(Client.Close(c));
    ClientLink(c2, Flow.Fresh(frameSize, c2.local.windowSize, c2.local.windowSize))
  }

  function ClientStep(w: ClientLink, e: ClientEvent): ClientLink
    requires ClientEnabled(w, e)
  {
    var c := w.client;
    match e
    case PeerSends(f) => w.(link := Flow.Step(w.link, Flow.Spend(f)))
    case DataArrives(partly) =>
      var f := w.link.data[0];
      ClientLink(Client.Parse(c, f, partly).client,
                 Flow.Step(Flow.Step(w.link, Flow.Arrive), Flow.Unregister(Closes(c, f))))
    case OtherArrives(f, partly) =>
      ClientLink(Client.Parse(c, f, partly).client, Flow.Step(w.link, Flow.Unregister(Closes(c, f))))
    case CreditArrives => w.(link := Flow.Step(w.link, Flow.Credit))
    case Submits(r) =>
      ClientLink(Client.Submit(c, r).client,
                 if c.nextId in c.streams then w.link else Flow.Step(w.link, Flow.Register(c.nextId)))
    case Writes(id, b, end) => w.(client := Client.Write(c, id, b, end).0)
    case Reconnects => Reconnected(c, w.link.frameSize)
  }

  /** A run of the client over any number of connections; events that are not enabled do not happen. */
  function ClientRun(frameSize: nat, es: seq<ClientEvent>): ClientLink {
    if es == [] then Reconnected(Client.NewClient(), frameSize)
    else
      var w, e := ClientRun(frameSize, es[..|es| - 1]), es[|es| - 1];
      if ClientEnabled(w, e) then ClientStep(w, e) else w
  }

  ghost predicate ClientKept(w: ClientLink) {
    && w.link.rx == ClientView(w.client) && Flow.Balanced(w.link)
    && (Flow.FarAhead(w.link) ==> Flow.NoTopUp(w.link))
    && w.link.initial == w.link.opening
    && (!w.client.connected ==> w.client.streams == map[])
  }

  /** One step of the link, with what it keeps. */
  lemma LinkKeeps(l: Flow.Link, e: Flow.Event)
    requires Flow.Balanced(l) && (Flow.FarAhead(l) ==> Flow.NoTopUp(l)) && Flow.Enabled(l, e)
    ensures var l2 := Flow.Step(l, e);
            && Flow.Balanced(l2) && (Flow.FarAhead(l2) ==> Flow.NoTopUp(l2))
            && l2.opening == l.opening && l2.initial == l.initial && l2.frameSize == l.frameSize
  {
    Flow.StepKeeps(l, e);
    if Flow.FarAhead(l) {
      Flow.StepStaysDry(l, e);
    }
  }

  lemma CollectAccepts(c: Client.Client, id: nat, payload: Bytes, end: bool)
    requires id in c.streams && c.local.windowSize < TWO_32 && c.streams[id].localWindow < TWO_32
    ensures var r := Client.Collect(c, id, payload, end);
            (ClientView(r.0), r.1) == Flow.Accept(ClientView(c), id, |payload|)
  {
    var c2 := Client.Collect(c, id, payload, end).0;
    var accepted := Flow.Accept(ClientView(c), id, |payload|).0;
    if payload == [] {
      assert Flow.Consume(c.local.windowSize, 0) == (c.local.windowSize, None);
      assert Flow.Consume(c.streams[id].localWindow, 0) == (c.streams[id].localWindow, None);
      assert Flow.Update(0, None) + Flow.Update(id, None) == [];
    }
    assert ClientView(c2).streams == accepted.streams;
  }

  lemma DeliverCloses(c: Client.Client, id: nat, end: bool, partly: bool)
    requires id in c.streams
    ensures var c2 := Client.Deliver(c, id, end, partly).0;
            ClientView(c2) == ClientView(c).(streams := ClientView(c).streams - (if end then {id} else {}))
  {
    var c2 := Client.Deliver(c, id, end, partly).0;
    assert ClientView(c2).streams == ClientView(c).streams - (if end then {id} else {});
  }

  function Without(r: Flow.Receiver, ids: set<nat>): Flow.Receiver {
    r.(streams := r.streams - ids)
  }

  /** DATA does to the client's windows, and sends back, exactly what the ledger says. */
  lemma ClientAccepts(c: Client.Client, f: Frame, partly: bool)
    requires f.Data? && c.local.windowSize < TWO_32 && (f.id in c.streams ==> c.streams[f.id].localWindow < TWO_32)
    ensures var p, a := Client.Parse(c, f, partly), Flow.Accept(ClientView(c), f.id, |f.payload|);
            ClientView(p.client) == Without(a.0, Closes(c, f)) && p.out == a.1
  {
    var c2 := Client.Note(c, f);
    assert ClientView(c2) == ClientView(c);
    if f.id in c.streams {
      CollectAccepts(c2, f.id, f.payload, f.end);
      DeliverCloses(Client.Collect(c2, f.id, f.payload, f.end).0, f.id, f.end, partly);
    } else {
      assert ClientView(c).streams - Closes(c, f) == ClientView(c).streams;
    }
  }

  lemma MessageSkips(c: Client.Client, f: Frame, partly: bool)
    requires (f.Headers? || f.Unknown?) && f.id in c.streams
    ensures ClientView(Client.OnMessage(c, f, partly).client) == Without(ClientView(c), Closes(c, f))
  {
    var c2 := Client.Take(c, f).0;
    assert ClientView(c2).streams == ClientView(c).streams;
    DeliverCloses(c2, f.id, f.end, partly);
  }

  lemma ClientSkips(c: Client.Client, f: Frame, partly: bool)
    requires !f.Data? && c.connected
    ensures ClientView(Client.Parse(c, f, partly).client) == Without(ClientView(c), Closes(c, f))
  {
    var c2 := Client.Note(c, f);
    assert ClientView(c2) == ClientView(c) && Closes(c2, f) == Closes(c, f);
    if (f.Headers? || f.Unknown?) && f.id in c.streams {
      MessageSkips(c2, f, partly);
    } else {
      OtherSkips(c2, f, partly);
    }
  }

  lemma OtherSkips(c: Client.Client, f: Frame, partly: bool)
    requires !f.Data? && c.connected && !((f.Headers? || f.Unknown?) && f.id in c.streams) && Client.Note(c, f) == c
    ensures ClientView(Client.Parse(c, f, partly).client) == Without(ClientView(c), Closes(c, f))
  {
    var c2 := Client.Parse(c, f, partly).client;
    assert ClientView(c2).streams == ClientView(c).streams - Closes(c, f);
  }

  lemma DataArrivesKeeps(w: ClientLink, partly: bool)
    requires ClientKept(w) && ClientEnabled(w, DataArrives(partly))
    ensures ClientKept(ClientStep(w, DataArrives(partly)))
  {
    var c, f := w.client, w.link.data[0];
    assert f.id in c.streams ==> Flow.StreamBalanced(w.link, f.id);
    ClientAccepts(c, f, partly);
    LinkKeeps(w.link, Flow.Arrive);
    LinkKeeps(Flow.Step(w.link, Flow.Arrive), Flow.Unregister(Closes(c, f)));
    StaysConnected(c, f, partly);
  }

  /** Only GOAWAY ends a connection, and then no stream is left. */
  lemma StaysConnected(c: Client.Client, f: Frame, partly: bool)
    requires c.connected
    ensures var c2 := Client.Parse(c, f, partly).client;
            c2.connected == !f.GoAway? && (f.GoAway? ==> c2.streams == map[])
  {
  }

  lemma SubmitRegisters(c: Client.Client, r: Client.Request)
    requires c.remote.maxFrameSize >= 1
    ensures ClientView(Client.Submit(c, r).client)
            == if c.nextId in c.streams then ClientView(c)
               else ClientView(c).(streams := ClientView(c).streams[c.nextId := DEFAULT_WINDOW])
  {
    var c2 := Client.Submit(c, r).client;
    assert c2.streams == Client.AddStream(c, r.pipeline).streams && c2.local == c.local;
    assert c.nextId !in c.streams ==> ClientView(c2).streams == ClientView(c).streams[c.nextId := DEFAULT_WINDOW];
  }

  lemma SubmitsKeeps(w: ClientLink, r: Client.Request)
    requires ClientKept(w) && ClientEnabled(w, Submits(r))
    ensures ClientKept(ClientStep(w, Submits(r)))
  {
    SubmitRegisters(w.client, r);
    if w.client.nextId !in w.client.streams {
      LinkKeeps(w.link, Flow.Register(w.client.nextId));
    }
  }

  lemma ReconnectsKeeps(w: ClientLink)
    requires ClientKept(w)
    ensures ClientKept(Reconnected(w.client, w.link.frameSize))
  {
    var w2 := Reconnected(w.client, w.link.frameSize);
    Flow.FreshBalances(w.link.frameSize, w2.link.opening, w2.link.opening);
    assert ClientView(w2.client).streams == map[];
  }

  lemma OtherArrivesKeeps(w: ClientLink, f: Frame, partly: bool)
    requires ClientKept(w) && ClientEnabled(w, OtherArrives(f, partly))
    ensures ClientKept(ClientStep(w, OtherArrives(f, partly)))
  {
    ClientSkips(w.client, f, partly);
    StaysConnected(w.client, f, partly);
    LinkKeeps(w.link, Flow.Unregister(Closes(w.client, f)));
  }

  lemma WritesKeeps(w: ClientLink, id: nat, b: Client.Body, end: bool)
    requires ClientKept(w) && w.client.connected
    ensures ClientKept(ClientStep(w, Writes(id, b, end)))
  {
    assert ClientView(Client.Write(w.client, id, b, end).0).streams == ClientView(w.client).streams;
  }

  lemma ClientStepKeeps(w: ClientLink, e: ClientEvent)
    requires ClientKept(w) && ClientEnabled(w, e)
    ensures ClientKept(ClientStep(w, e)) && ClientStep(w, e).link.frameSize == w.link.frameSize
  {
    match e
    case PeerSends(f) => LinkKeeps(w.link, Flow.Spend(f));
    case CreditArrives => LinkKeeps(w.link, Flow.Credit);
    case DataArrives(partly) => DataArrivesKeeps(w, partly);
    case OtherArrives(f, partly) => OtherArrivesKeeps(w, f, partly);
    case Submits(r) => SubmitsKeeps(w, r);
    case Reconnects => ReconnectsKeeps(w);
    case Writes(id, b, end) => WritesKeeps(w, id, b, end);
  }

  /** In every reachable state of every connection the client's windows balance, with what they started ahead. */
  lemma {:induction false} ClientLedger(frameSize: nat, es: seq<ClientEvent>)
    ensures ClientKept(ClientRun(frameSize, es)) && ClientRun(frameSize, es).link.frameSize == frameSize
  {
    if es == [] {
      Flow.FreshBalances(frameSize, DEFAULT_WINDOW, DEFAULT_WINDOW);
      assert ClientView(Client.NewClient()).streams == map[];
    } else {
      var w, e := ClientRun(frameSize, es[..|es| - 1]), es[|es| - 1];
      ClientLedger(frameSize, es[..|es| - 1]);
      if ClientEnabled(w, e) {
        ClientStepKeeps(w, e);
      }
    }
  }

  /**
   Read off from it. On a connection that opened with the default window, such as the first, the client's
   connection window is exactly its peer's side; on any other it never is.
   */
  lemma ClientWindows(frameSize: nat, es: seq<ClientEvent>, id: nat)
    ensures var w := ClientRun(frameSize, es);
            && (w.client.local.windowSize == Flow.PeerSide(w.link) <==> w.link.opening == DEFAULT_WINDOW)
            && w.client.local.windowSize <= MAX_WINDOW
            && (id in w.client.streams ==>
                  && w.client.streams[id].localWindow + Flow.EntryOf(w.link, id)
                     == Flow.PeerSideOn(w.link, id) + DEFAULT_WINDOW
                  && w.client.streams[id].localWindow <= MAX_WINDOW)
  {
    var w := ClientRun(frameSize, es);
    ClientLedger(frameSize, es);
    if id in w.client.streams {
      assert w.link.rx.streams[id] == w.client.streams[id].localWindow;
      assert Flow.StreamBalanced(w.link, id);
    }
  }

  /**
   Over every run of any number of connections: the peer is starved exactly when what its DATA took off the
   window, without being given back, and what was dropped of it come to 65535 bytes. On a connection that
   opened with MAX/4 + 65535 or more nothing is ever given back, so there the bytes that have arrived decide.
   On any other, only dropped bytes can starve it.
   */
  lemma RunsDryIff(frameSize: nat, es: seq<ClientEvent>)
    ensures var w := ClientRun(frameSize, es);
            && (Flow.Starved(w.link) <==> w.client.local.windowSize + DEFAULT_WINDOW == w.link.opening + w.link.dropped)
            && (Flow.FarAhead(w.link) ==> Flow.Sum(w.link.updates, Flow.Grant(0)) == 0)
            && (!Flow.FarAhead(w.link) && w.link.dropped == 0 ==> !Flow.Starved(w.link))
  {
    ClientLedger(frameSize, es);
    Flow.StarvedIff(ClientRun(frameSize, es).link);
  }

  /**
   A stream whose window was filled up has pushed its peer past the maximum exactly if the peer's side was
   ahead of the default when the stream was registered. For an id that is used for the first time that is so
   exactly on a connection that opened wide.
   */
  lemma OverflowIff(frameSize: nat, es: seq<ClientEvent>, id: nat)
    requires var w := ClientRun(frameSize, es);
             && id in w.client.streams && w.client.streams[id].localWindow == MAX_WINDOW && Flow.DroppedOn(w.link, id) == 0
             && Flow.Sum(w.link.data, Flow.SizeOn(id)) == 0 && Flow.Sum(w.link.updates, Flow.Grant(id)) == 0
    ensures var l := ClientRun(frameSize, es).link;
            && (Flow.CreditOf(l, id) > MAX_WINDOW <==> Flow.EntryOf(l, id) > DEFAULT_WINDOW)
            && (Flow.EntryOf(l, id) == l.initial ==> (Flow.CreditOf(l, id) > MAX_WINDOW <==> l.opening > DEFAULT_WINDOW))
  {
    var w := ClientRun(frameSize, es);
    ClientLedger(frameSize, es);
    assert w.link.rx.streams[id] == w.client.streams[id].localWindow;
    Flow.OverflowIff(w.link, id);
  }

  lemma RunSnoc(frameSize: nat, es: seq<ClientEvent>, e: ClientEvent)
    ensures var w := ClientRun(frameSize, es);
            ClientRun(frameSize, es + [e]) == if ClientEnabled(w, e) then ClientStep(w, e) else w
  {
    assert (es + [e])[..|es|] == es;
  }

  /** A later connection opens with whatever window is left, and announces it as every stream's credit. */
  lemma ReconnectOpens(frameSize: nat, es: seq<ClientEvent>)
    ensures var l := ClientRun(frameSize, es + [Reconnects]).link;
            && l.opening == l.initial == ClientRun(frameSize, es).client.local.windowSize
            && (l.opening == DEFAULT_WINDOW || Flow.LOW_WINDOW <= l.opening <= MAX_WINDOW)
  {
    RunSnoc(frameSize, es, Reconnects);
    ClientLedger(frameSize, es);
  }

  // ---------------------------------------------------------------- DATA that is dropped

  /** A request, a promise to push on its stream, and DATA on the promised stream. */
  function Pushed(r: Client.Request, id: nat, parts: seq<Bytes>): seq<ClientEvent> {
    if parts == [] then [Submits(r), OtherArrives(PushPromise(1), false)]
    else Pushed(r, id, parts[..|parts| - 1]) + [PeerSends(Data(id, parts[|parts| - 1], false)), DataArrives(false)]
  }

  /** The state of a first connection after n bytes on a stream that the client never registered. */
  ghost predicate Ignored(w: ClientLink, frameSize: nat, id: nat, n: nat) {
    && w.client.connected && id !in w.client.streams && w.client.local.windowSize == DEFAULT_WINDOW
    && w.link.frameSize == frameSize && w.link.opening == w.link.initial == DEFAULT_WINDOW
    && w.link.data == [] && w.link.dropped == n <= DEFAULT_WINDOW
    && w.link.credit == Flow.CreditOf(w.link, id) == DEFAULT_WINDOW - n
    && w.link.rx == ClientView(w.client)
  }

  lemma IgnoreOne(w: ClientLink, frameSize: nat, id: nat, n: nat, part: Bytes)
    requires Ignored(w, frameSize, id, n) && id != 0 && |part| <= frameSize && n + |part| <= DEFAULT_WINDOW
    ensures var f := Data(id, part, false);
            && ClientEnabled(w, PeerSends(f))
            && var w1 := ClientStep(w, PeerSends(f));
            && ClientEnabled(w1, DataArrives(false))
            && Ignored(ClientStep(w1, DataArrives(false)), frameSize, id, n + |part|)
  {
    var f := Data(id, part, false);
    var w1 := ClientStep(w, PeerSends(f));
    assert w1.link.data == [f];
    ClientAccepts(w1.client, f, false);
  }

  lemma SubmitThenIgnore(w: ClientLink, frameSize: nat, r: Client.Request, id: nat)
    requires Opened(w, frameSize, DEFAULT_WINDOW) && id != 0 && id != 1
    ensures ClientEnabled(w, Submits(r)) && Ignored(ClientStep(w, Submits(r)), frameSize, id, 0)
  {
    SubmitRegisters(w.client, r);
  }

  lemma PromiseIgnored(w: ClientLink, frameSize: nat, id: nat)
    requires Ignored(w, frameSize, id, 0)
    ensures ClientEnabled(w, OtherArrives(PushPromise(1), false))
    ensures Ignored(ClientStep(w, OtherArrives(PushPromise(1), false)), frameSize, id, 0)
  {
    ClientSkips(w.client, PushPromise(1), false);
  }

  lemma PromiseIsIgnored(frameSize: nat, r: Client.Request, id: nat)
    requires id != 0 && id != 1
    ensures Ignored(ClientRun(frameSize, Pushed(r, id, [])), frameSize, id, 0)
  {
    var e := OtherArrives(PushPromise(1), false);
    RunSnoc(frameSize, [], Submits(r));
    RunSnoc(frameSize, [] + [Submits(r)], e);
    assert [] + [Submits(r)] + [e] == Pushed(r, id, []);
    SubmitThenIgnore(ClientRun(frameSize, []), frameSize, r, id);
    PromiseIgnored(ClientRun(frameSize, [] + [Submits(r)]), frameSize, id);
  }

  lemma {:induction false} PushedIsIgnored(frameSize: nat, r: Client.Request, id: nat, parts: seq<Bytes>)
    requires id != 0 && id != 1 && |Concat(parts)| <= DEFAULT_WINDOW
    requires forall i :: 0 <= i < |parts| ==> |parts[i]| <= frameSize
    ensures Ignored(ClientRun(frameSize, Pushed(r, id, parts)), frameSize, id, |Concat(parts)|)
  {
    if parts == [] {
      PromiseIsIgnored(frameSize, r, id);
    } else {
      var before, part := parts[..|parts| - 1], parts[|parts| - 1];
      var es, f := Pushed(r, id, before), Data(id, part, false);
      assert parts == before + [part];
      ConcatSnoc(before, part);
      PushedIsIgnored(frameSize, r, id, before);
      IgnoreOne(ClientRun(frameSize, es), frameSize, id, |Concat(before)|, part);
      RunSnoc(frameSize, es, PeerSends(f));
      RunSnoc(frameSize, es + [PeerSends(f)], DataArrives(false));
      assert es + [PeerSends(f), DataArrives(false)] == es + [PeerSends(f)] + [DataArrives(false)];
    }
  }

  /**
   A real run of the first connection: the client ignores a promise to push and skips what is pushed, in frames
   of any sizes, without giving the bytes back. After 65535 of them the peer is starved, for every stream.
   */
  lemma PushStarves(frameSize: nat, r: Client.Request, id: nat, parts: seq<Bytes>)
    requires id != 0 && id != 1 && |Concat(parts)| == DEFAULT_WINDOW
    requires forall i :: 0 <= i < |parts| ==> |parts[i]| <= frameSize
    ensures var w := ClientRun(frameSize, Pushed(r, id, parts));
            && w.client.connected && w.link.opening == DEFAULT_WINDOW && !Flow.FarAhead(w.link)
            && Flow.Starved(w.link)
  {
    PushedIsIgnored(frameSize, r, id, parts);
    RunsDryIff(frameSize, Pushed(r, id, parts));
  }

  // ---------------------------------------------------------------- a second connection

  /** A connection that was just opened with the given window. */
  ghost predicate Opened(w: ClientLink, frameSize: nat, window: nat) {
    && w.client.connected && w.client.nextId == 1 && w.client.streams == map[]
    && w.client.remote.maxFrameSize >= 1 && w.client.local.windowSize == window && Flow.InBounds(window)
    && w.link == Flow.Fresh(frameSize, window, window)
  }

  lemma ReconnectedIsOpened(w: ClientLink, frameSize: nat)
    requires Flow.InBounds(w.client.local.windowSize) && (!w.client.connected ==> w.client.streams == map[])
    ensures Opened(Reconnected(w.client, frameSize), frameSize, w.client.local.windowSize)
  {
  }

  /** The first request on such a connection. */
  ghost predicate Asked(w: ClientLink, frameSize: nat, window: nat) {
    && w.client.connected && w.client.local.windowSize == window && Flow.InBounds(window)
    && w.client.streams.Keys == {1} && w.client.streams[1].localWindow == DEFAULT_WINDOW
    && Flow.Enabled(Flow.Fresh(frameSize, window, window), Flow.Register(1))
    && w.link == Flow.Step(Flow.Fresh(frameSize, window, window), Flow.Register(1))
  }

  lemma FirstSubmit(w: ClientLink, frameSize: nat, window: nat, r: Client.Request)
    requires Opened(w, frameSize, window) && frameSize <= DEFAULT_WINDOW
    ensures ClientEnabled(w, Submits(r)) && Asked(ClientStep(w, Submits(r)), frameSize, window)
  {
    var c1 := Client.Submit(w.client, r).client;
    assert c1.streams == map[1 := Client.NewStream(r.pipeline)] && c1.local == w.client.local && c1.connected;
  }

  /** The first DATA frame for it is on the way. */
  ghost predicate Sent(w: ClientLink, window: nat, payload: Bytes) {
    && w.client.connected && w.client.local.windowSize == window && Flow.InBounds(window)
    && w.client.streams.Keys == {1} && w.client.streams[1].localWindow == DEFAULT_WINDOW
    && w.link.data == [Data(1, payload, false)] && w.link.updates == []
    && window >= |payload| && Flow.CreditOf(w.link, 1) == window - |payload|
    && w.link.rx == Flow.Receiver(window, map[1 := DEFAULT_WINDOW])
  }

  lemma FirstSend(w: ClientLink, frameSize: nat, window: nat, payload: Bytes)
    requires Asked(w, frameSize, window) && 1 <= |payload| <= frameSize <= DEFAULT_WINDOW
    ensures var e := PeerSends(Data(1, payload, false));
            ClientEnabled(w, e) && Sent(ClientStep(w, e), window, payload)
  {
  }

  /** The state after the first n bytes of DATA on a connection that opened with the given window. */
  ghost predicate Answered(w: ClientLink, window: nat, n: nat) {
    && w.client.connected && w.client.local.windowSize == Flow.Consume(window, n).0
    && w.link.updates == Flow.Update(0, Flow.Consume(window, n).1) + [WindowUpdate(1, MAX_WINDOW - DEFAULT_WINDOW + n)]
    && window >= n && Flow.CreditOf(w.link, 1) == window - n
  }

  /** Its arrival fills the stream's window up, and the connection's if that runs low. */
  lemma FirstArrival(w: ClientLink, window: nat, payload: Bytes)
    requires Sent(w, window, payload) && 1 <= |payload| <= DEFAULT_WINDOW
    ensures ClientEnabled(w, DataArrives(false)) && Answered(ClientStep(w, DataArrives(false)), window, |payload|)
  {
    var n, f := |payload|, Data(1, payload, false);
    ClientAccepts(w.client, f, false);
    StaysConnected(w.client, f, false);
    FirstAccepted(w.link, window, payload);
  }

  lemma FirstAccepted(l: Flow.Link, window: nat, payload: Bytes)
    requires l.data == [Data(1, payload, false)] && l.updates == [] && 1 <= |payload| <= DEFAULT_WINDOW
    requires Flow.InBounds(window) && l.rx == Flow.Receiver(window, map[1 := DEFAULT_WINDOW])
    ensures var l2, n := Flow.Step(l, Flow.Arrive), |payload|;
            && l2.rx.window == Flow.Consume(window, n).0 && Flow.CreditOf(l2, 1) == Flow.CreditOf(l, 1)
            && l2.updates == Flow.Update(0, Flow.Consume(window, n).1) + [WindowUpdate(1, MAX_WINDOW - DEFAULT_WINDOW + n)]
  {
    var n := |payload|;
    assert Flow.Consume(DEFAULT_WINDOW, n) == (MAX_WINDOW, Some(MAX_WINDOW - (DEFAULT_WINDOW - n)));
    assert Flow.Step(l, Flow.Arrive).updates
        == [] + (Flow.Update(0, Flow.Consume(window, n).1) + Flow.Update(1, Some(MAX_WINDOW - (DEFAULT_WINDOW - n))));
  }

  /** One request, one DATA frame for it, and its arrival. */
  function OneAnswer(r: Client.Request, payload: Bytes): seq<ClientEvent> {
    [Submits(r), PeerSends(Data(1, payload, false)), DataArrives(false)]
  }

  lemma OnceFrom(frameSize: nat, es: seq<ClientEvent>, r: Client.Request, payload: Bytes, window: nat)
    requires Opened(ClientRun(frameSize, es), frameSize, window) && 1 <= |payload| <= frameSize <= DEFAULT_WINDOW
    ensures Answered(ClientRun(frameSize, es + OneAnswer(r, payload)), window, |payload|)
  {
    var f := Data(1, payload, false);
    var w := ClientRun(frameSize, es);
    FirstSubmit(w, frameSize, window, r);
    FirstSend(ClientStep(w, Submits(r)), frameSize, window, payload);
    RunThree(frameSize, es, Submits(r), PeerSends(f), DataArrives(false));
    FirstArrival(ClientStep(ClientStep(w, Submits(r)), PeerSends(f)), window, payload);
  }

  lemma RunThree(frameSize: nat, es: seq<ClientEvent>, a: ClientEvent, b: ClientEvent, c: ClientEvent)
    requires ClientEnabled(ClientRun(frameSize, es), a)
    requires ClientEnabled(ClientStep(ClientRun(frameSize, es), a), b)
    ensures var w2 := ClientStep(ClientStep(ClientRun(frameSize, es), a), b);
            ClientRun(frameSize, es + [a, b, c]) == if ClientEnabled(w2, c) then ClientStep(w2, c) else w2
  {
    RunSnoc(frameSize, es, a);
    RunSnoc(frameSize, es + [a], b);
    RunSnoc(frameSize, es + [a] + [b], c);
    assert es + [a, b, c] == es + [a] + [b] + [c];
  }

  lemma SecondOpens(frameSize: nat, r: Client.Request, payload: Bytes)
    requires 1 <= |payload| <= frameSize <= DEFAULT_WINDOW
    ensures Opened(ClientRun(frameSize, OneAnswer(r, payload) + [Reconnects]), frameSize, MAX_WINDOW)
  {
    var once := OneAnswer(r, payload);
    OnceFrom(frameSize, [], r, payload, DEFAULT_WINDOW);
    assert [] + once == once;
    RunSnoc(frameSize, once, Reconnects);
    ClientLedger(frameSize, once);
    ReconnectedIsOpened(ClientRun(frameSize, once), frameSize);
  }

  /** Where the connection had room enough, the stream's update is the next to arrive. */
  lemma UpdateArrives(w: ClientLink, n: nat)
    requires Answered(w, MAX_WINDOW, n) && n <= DEFAULT_WINDOW
    ensures ClientEnabled(w, CreditArrives)
    ensures Flow.CreditOf(ClientStep(w, CreditArrives).link, 1) == 2 * MAX_WINDOW - DEFAULT_WINDOW
  {
    assert w.link.updates == [WindowUpdate(1, MAX_WINDOW - DEFAULT_WINDOW + n)];
  }

  /**
   A real run: one answered request on the first connection, a second connection, one answered request
   there. The second connection opens with MAX, so it will run dry; and its first stream's update takes the
   peer past the maximum.
   */
  lemma SecondConnection(frameSize: nat, r: Client.Request, payload: Bytes)
    requires 1 <= |payload| <= frameSize <= DEFAULT_WINDOW
    ensures var es := OneAnswer(r, payload) + [Reconnects];
            && Opened(ClientRun(frameSize, es), frameSize, MAX_WINDOW)
            && var l := ClientRun(frameSize, es + OneAnswer(r, payload) + [CreditArrives]).link;
            Flow.CreditOf(l, 1) == 2 * MAX_WINDOW - DEFAULT_WINDOW
  {
    var once := OneAnswer(r, payload);
    SecondOpens(frameSize, r, payload);
    OnceFrom(frameSize, once + [Reconnects], r, payload, MAX_WINDOW);
    RunSnoc(frameSize, once + [Reconnects] + once, CreditArrives);
    UpdateArrives(ClientRun(frameSize, once + [Reconnects] + once), |payload|);
  }
}
