/**
 The server's side of one HTTP/2 connection: what a received frame does to the session, and the
 response that closes a stream. `Receive` and `Finish` give the new session as a value, and the
 class changes its fields accordingly.
 */
module Http2Server {
  import opened PhpBytes
  import opened Http2Frames
  import opened Http2Flow
  import opened Http2Response

  /** The HTTP/2 part of a request: the fields and the body collected so far and the windows of its stream. */
  datatype Stream = Stream(fields: Fields, body: Bytes, recvWindow: nat, sendWindow: nat)

  datatype Session = Session(
    streams: map<nat, Stream>,
    recvWindow: nat,
    sendWindow: nat,
    maxFrameSize: nat,
    headerTableSize: nat,
    maxConcurrentStreams: nat)

  /** A request that goes to the application. */
  datatype Request = Request(id: nat, fields: Fields, body: Bytes)

  datatype Outcome = Outcome(session: Session, out: seq<Frame>, handled: seq<Request>, ok: bool)

  function NewSession(): Session {
    Session(map[], DEFAULT_WINDOW, DEFAULT_WINDOW, DEFAULT_FRAME_SIZE, 4096, 128)
  }

  function NewStream(): Stream {
    Stream([], [], DEFAULT_WINDOW, DEFAULT_WINDOW)
  }

  // ---------------------------------------------------------------- received frames

  function ApplySetting(s: Session, setting: (nat, nat)): Session {
    match setting.0
    case 1 => s.(headerTableSize := setting.1)
    case 3 => s.(maxConcurrentStreams := setting.1)
    case 4 => s.(sendWindow := setting.1)
    case 5 => s.(maxFrameSize := setting.1)
    case _ => s
  }

  function ApplySettings(s: Session, values: seq<(nat, nat)>): Session
    decreases values
  {
    if values == [] then s else ApplySettings(ApplySetting(s, values[0]), values[1..])
  }

  /** The application gets the request when its stream ends. */
  function HandOver(s: Session, id: nat, end: bool): seq<Request>
    requires id in s.streams
  {
    if end then [Request(id, s.streams[id].fields, s.streams[id].body)] else []
  }

  function OnHeaders(s: Session, id: nat, fields: Fields, end: bool): Outcome {
    var stream := if id in s.streams then s.streams[id] else NewStream();
    var s2 := s.(streams := s.streams[id := stream.(fields := stream.fields + fields)]);
    Outcome(s2, [], HandOver(s2, id, end), true)
  }

  /** DATA is added to the body of a known stream and charged to both windows; otherwise it is an error. */
  function OnData(s: Session, id: nat, payload: Bytes, end: bool): Outcome {
    if id !in s.streams then Outcome(s, [], [], false)
    else
      var (window, update) := Consume(s.recvWindow, |payload|);
      var (streamWindow, streamUpdate) := Consume(s.streams[id].recvWindow, |payload|);
      var stream := s.streams[id].(body := s.streams[id].body + payload, recvWindow := streamWindow);
      var s2 := s.(streams := s.streams[id := stream], recvWindow := window);
      Outcome(s2, Update(0, update) + Update(id, streamUpdate), HandOver(s2, id, end), true)
  }

  function OnWindowUpdate(s: Session, id: nat, increment: nat): Session {
    if id == 0 then s.(sendWindow := (s.sendWindow + increment) % TWO_32)
    else if id in s.streams then
      var stream := s.streams[id];
      s.(streams := s.streams[id := stream.(sendWindow := (stream.sendWindow + increment) % TWO_32)])
    else s
  }

  /** `swoole_http2_server_parse` */
  function Receive(s: Session, f: Frame): Outcome {
    match f
    case Settings(ack, values) => Outcome(if ack then s else ApplySettings(s, values), [], [], true)
    case Headers(id, fields, end) => OnHeaders(s, id, fields, end)
    case Data(id, payload, end) => OnData(s, id, payload, end)
    case Ping(ack, opaqueData) => Outcome(s, if ack then [] else [Ping(true, opaqueData)], [], true)
    case WindowUpdate(id, increment) => Outcome(OnWindowUpdate(s, id, increment), [], [], true)
    case RstStream(id, _) => Outcome(s.(streams := s.streams - {id}), [], [], true)
    case _ => Outcome(s, [], [], true)
  }

  /** The session after a successful response on the stream. */
  function Finish(s: Session, id: nat, length: nat): Session {
    s.(streams := s.streams - {id}, sendWindow := if length == 0 then s.sendWindow else (s.sendWindow - length) % TWO_32)
  }

  /** After a SETTINGS frame the last value given for an option is in force, and nothing else changes. */
  lemma {:induction false} SettingsInForce(s: Session, values: seq<(nat, nat)>)
    ensures ApplySettings(s, values)
            == s.(headerTableSize := LastValue(values, 1, s.headerTableSize),
                  maxConcurrentStreams := LastValue(values, 3, s.maxConcurrentStreams),
                  sendWindow := LastValue(values, 4, s.sendWindow),
                  maxFrameSize := LastValue(values, 5, s.maxFrameSize))
    decreases values
  {
    if values != [] {
      SettingsInForce(ApplySetting(s, values[0]), values[1..]);
      LastValueFirst(values, 1, s.headerTableSize);
      LastValueFirst(values, 3, s.maxConcurrentStreams);
      LastValueFirst(values, 4, s.sendWindow);
      LastValueFirst(values, 5, s.maxFrameSize);
    }
  }

  /** Only DATA for a stream that is not there is an error, and it changes nothing. */
  lemma RefusedExactly(s: Session, f: Frame)
    ensures !Receive(s, f).ok <==> f.Data? && f.id !in s.streams
    ensures !Receive(s, f).ok ==> Receive(s, f) == Outcome(s, [], [], false)
  {
  }

  /** What the frames do that carry no message: at most one stream or one number of the session changes. */
  lemma ControlFrames(s: Session, f: Frame)
    requires !f.Headers? && !f.Data? && !f.Settings?
    ensures var r := Receive(s, f);
            && r.ok && r.handled == []
            && r.out == (if f.Ping? && !f.ack then [Ping(true, f.opaqueData)] else [])
            && r.session == s.(streams := r.session.streams, sendWindow := r.session.sendWindow)
            && r.session.streams.Keys == (if f.RstStream? then s.streams.Keys - {f.id} else s.streams.Keys)
            && (forall id | id in r.session.streams && !(f.WindowUpdate? && f.id == id) ::
                  r.session.streams[id] == s.streams[id])
            && (f.WindowUpdate? && f.id != 0 && f.id in s.streams ==>
                  r.session.streams[f.id]
                  == s.streams[f.id].(sendWindow := (s.streams[f.id].sendWindow + f.increment) % TWO_32))
            && r.session.sendWindow
               == (if f.WindowUpdate? && f.id == 0 then (s.sendWindow + f.increment) % TWO_32 else s.sendWindow)
            && (f.WindowUpdate? && f.id == 0 ==> r.session.streams == s.streams)
  {
  }

  // ---------------------------------------------------------------- the session object

  class ServerSession {
    var streams: map<nat, Stream>
    var recvWindow: nat
    var sendWindow: nat
    var maxFrameSize: nat
    var headerTableSize: nat
    var maxConcurrentStreams: nat

    constructor ()
      ensures State() == NewSession()
    {
      streams, recvWindow, sendWindow := map[], DEFAULT_WINDOW, DEFAULT_WINDOW;
      maxFrameSize, headerTableSize, maxConcurrentStreams := DEFAULT_FRAME_SIZE, 4096, 128;
    }

    function State(): Session
      reads this
    {
      Session(streams, recvWindow, sendWindow, maxFrameSize, headerTableSize, maxConcurrentStreams)
    }

    method SettingsFrame(values: seq<(nat, nat)>)
      modifies this
      ensures State() == ApplySettings(old(State()), values)
    {
      var i := 0;
      assert values[0..] == values;
      while i < |values|
        invariant 0 <= i <= |values|
        invariant ApplySettings(State(), values[i..]) == ApplySettings(old(State()), values)
      {
        assert values[i..][0] == values[i] && values[i..][1..] == values[i + 1..];
        var (id, value) := values[i];
        if id == 1 {
          headerTableSize := value;
        } else if id == 3 {
          maxConcurrentStreams := value;
        } else if id == 4 {
          sendWindow := value;
        } else if id == 5 {
          maxFrameSize := value;
        }
        i := i + 1;
      }
    }

    method HeadersFrame(id: nat, fields: Fields, end: bool) returns (handled: seq<Request>)
      modifies `streams
      ensures State() == OnHeaders(old(State()), id, fields, end).session
      ensures handled == OnHeaders(old(State()), id, fields, end).handled
    {
      handled := [];
      if id !in streams {
        streams := streams[id := NewStream()];
      }
      streams := streams[id := streams[id].(fields := streams[id].fields + fields)];
      if end {
        handled := [Request(id, streams[id].fields, streams[id].body)];
      }
    }

    /** Subtracts from a window and says how much to give back, if it runs low. */
    method Charge(window: nat, length: nat) returns (left: nat, increment: Option<nat>)
      ensures (left, increment) == Consume(window, length)
    {
      left := (window - length) % TWO_32;
      increment := None;
      if length > 0 && left < MAX_WINDOW / 4 {
        increment := Some(MAX_WINDOW - left);
        left := MAX_WINDOW;
      }
    }

    method DataFrame(id: nat, payload: Bytes, end: bool) returns (out: seq<Frame>, handled: seq<Request>, ok: bool)
      modifies `streams, `recvWindow
      ensures Outcome(State(), out, handled, ok) == OnData(old(State()), id, payload, end)
    {
      if id !in streams {
        return [], [], false;
      }
      var window, update := Charge(recvWindow, |payload|);
      var streamWindow, streamUpdate := Charge(streams[id].recvWindow, |payload|);
      recvWindow := window;
      streams := streams[id := streams[id].(body := streams[id].body + payload, recvWindow := streamWindow)];
      out := [];
      if update.Some? {
        out := out + [WindowUpdate(0, update.value)];
      }
      if streamUpdate.Some? {
        out := out + [WindowUpdate(id, streamUpdate.value)];
      }
      handled, ok := if end then [Request(id, streams[id].fields, streams[id].body)] else [], true;
    }

    method Parse(f: Frame) returns (out: seq<Frame>, handled: seq<Request>, ok: bool)
      modifies this
      ensures Outcome(State(), out, handled, ok) == Receive(old(State()), f)
    {
      out, handled, ok := [], [], true;
      match f {
        case Settings(ack, values) =>
          if !ack {
            SettingsFrame(values);
          }
        case Headers(id, fields, end) =>
          handled := HeadersFrame(id, fields, end);
        case Data(id, payload, end) =>
          out, handled, ok := DataFrame(id, payload, end);
        case Ping(ack, opaqueData) =>
          if !ack {
            out := [Ping(true, opaqueData)];
          }
        case WindowUpdate(id, increment) =>
          if id == 0 {
            sendWindow := (sendWindow + increment) % TWO_32;
          } else if id in streams {
            var stream := streams[id];
            streams := streams[id := stream.(sendWindow := (stream.sendWindow + increment) % TWO_32)];
          }
        case RstStream(id, _) =>
          streams := streams - {id};
        case _ =>
      }
    }

    /** `send_body`, with every send succeeding. */
    method SendBody(id: nat, body: Bytes, endStream: bool, maxSize: nat) returns (out: seq<Frame>)
      requires maxSize >= 1
      ensures out == Cut(id, body, maxSize, endStream)
    {
      out := [];
      var rest := body;
      while rest != []
        invariant out + Cut(id, rest, maxSize, endStream) == Cut(id, body, maxSize, endStream)
        decreases |rest|
      {
        var n, flag := |rest|, endStream;
        if |rest| > maxSize {
          n, flag := maxSize, false;
        }
        CutFirst(out, id, rest, maxSize, endStream, n);
        out := out + [Data(id, rest[..n], flag)];
        rest := rest[n..];
      }
      assert out + [] == out;
    }

    /** `swoole_http2_server_respond`, with every send succeeding. */
    method Respond(id: nat, a: Answer, c: Context) returns (out: seq<Frame>)
      requires id in streams && maxFrameSize >= 1
      modifies `streams, `sendWindow
      ensures out == ResponseFrames(id, a, c, old(maxFrameSize)) && Conveys(Payloads(out), a, c)
      ensures State() == Finish(old(State()), id, |Payloads(out)|)
    {
      out := SendResponse(id, a, c);
      ResponseCarries(id, a, c, maxFrameSize);
    }

    method SendResponse(id: nat, a: Answer, c: Context) returns (out: seq<Frame>)
      requires id in streams && maxFrameSize >= 1
      modifies `streams, `sendWindow
      ensures out == ResponseFrames(id, a, c, old(maxFrameSize))
      ensures State() == Finish(old(State()), id, |SentBody(a, c)|)
    {
      var body, compressed := a.body, false;
      if c.accept && body != [] {
        var packed := c.compress(body);
        if packed.Some? {
          body, compressed := packed.value, true;
        }
      }
      var endStream := a.trailer == [];
      var fields := BuildHeader(a, c, compressed, |body|);
      out := [Headers(id, fields, endStream && body == [])];
      if body != [] {
        var data := SendBody(id, body, endStream, maxFrameSize);
        out := out + data;
        sendWindow := (sendWindow - |body|) % TWO_32;
      }
      if a.trailer != [] && Usable(a.trailer) != [] {
        out := out + [Headers(id, Usable(a.trailer), true)];
      }
      streams := streams - {id};
    }
  }
}
