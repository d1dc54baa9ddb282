/**
 The coroutine HTTP/2 client: requests and pipelined writes, and what a received frame does to the
 connection. `Submit`, `Write` and `Parse` give the new state as a value, and the class changes its
 fields accordingly.
 */
module Http2Client {
  import opened PhpBytes
  import opened Http2Frames
  import opened Http2Flow

  datatype Stream = Stream(
    pipeline: bool,  // SW_HTTP2_STREAM_PIPELINE_REQUEST
    requestEnd: bool,  // SW_HTTP2_STREAM_REQUEST_END
    pipelineResponse: bool,  // SW_HTTP2_STREAM_PIPELINE_RESPONSE
    fields: Fields,  // the fields of the response object, since it was last handed out
    buffer: Bytes,
    localWindow: nat,
    remoteWindow: nat)

  /** One side's `swHttp2_settings`. */
  datatype Limits = Limits(
    headerTableSize: nat,
    windowSize: nat,
    maxConcurrentStreams: nat,
    maxFrameSize: nat,
    maxHeaderListSize: nat)

  datatype Client = Client(
    connected: bool,
    nextId: nat,  // the next send stream id
    lastId: nat,  // the last received stream id
    streams: map<nat, Stream>,
    local: Limits,
    remote: Limits)

  const INIT_SETTINGS: Limits := Limits(4096, DEFAULT_WINDOW, 128, DEFAULT_FRAME_SIZE, 4096)

  function NewClient(): Client {
    Client(false, 0, 0, map[], INIT_SETTINGS, Limits(0, 0, 0, 0, 0))
  }

  /** A new connection: the local settings, with the receive window, stay as they are. */
  function Connect(c: Client): Client {
    if c.connected then c else c.(connected := true, nextId := 1, remote := INIT_SETTINGS)
  }

  function Close(c: Client): Client {
    if c.connected then c.(connected := false, streams := map[]) else c
  }

  // ---------------------------------------------------------------- sending

  /** A body is a string, or an array that is sent in its form encoding. */
  datatype AnyBody = Text(s: Bytes) | Form(entries: bool, encoded: Bytes)

  /** An array without entries encodes to nothing. */
  type Body = b: AnyBody | b.Form? && !b.entries ==> b.encoded == [] witness Text([])

  predicate IsEmpty(b: Body) {
    match b
    case Text(s) => s == []
    case Form(entries, _) => !entries
  }

  /** An array that encodes to nothing, such as one of nulls, counts as a failure. */
  function Encode(b: Body): Option<Bytes> {
    match b
    case Text(s) => Some(s)
    case Form(_, encoded) => if encoded == [] then None else Some(encoded)
  }

  datatype Request = Request(fields: Fields, body: Body, pipeline: bool)

  datatype Sent = Sent(client: Client, out: seq<Frame>, id: nat)

  function NewStream(pipeline: bool): Stream {
    Stream(pipeline, false, false, [], [], DEFAULT_WINDOW, DEFAULT_WINDOW)
  }

  /** `streams.emplace`: a stream that is already there stays. */
  function AddStream(c: Client, pipeline: bool): Client {
    if c.nextId in c.streams then c else c.(streams := c.streams[c.nextId := NewStream(pipeline)])
  }

  function RequestHead(c: Client, r: Request): Frame {
    Headers(c.nextId, r.fields, IsEmpty(r.body) && !r.pipeline)
  }

  /** `send_request`, with every send succeeding; id 0 is the failure of the form encoding. */
  function Submit(c: Client, r: Request): Sent
    requires c.remote.maxFrameSize >= 1
  {
    var c2 := AddStream(c, r.pipeline);
    var head := [RequestHead(c, r)];
    var c3 := c2.(nextId := (c.nextId + 2) % TWO_32);
    if IsEmpty(r.body) then Sent(c3, head, c.nextId)
    else
      match Encode(r.body)
      case None => Sent(c2, head, 0)
      case Some(data) => Sent(c3, head + Cut(c.nextId, data, c.remote.maxFrameSize, !r.pipeline), c.nextId)
  }

  /** A stream that takes further data. */
  predicate IsWritable(c: Client, id: nat) {
    id in c.streams && c.streams[id].pipeline && !c.streams[id].requestEnd
  }

  /** `write_data`, with every send succeeding: one frame, whatever its length. */
  function Write(c: Client, id: nat, b: Body, end: bool): (Client, seq<Frame>, bool) {
    if !IsWritable(c, id) || Encode(b).None? then (c, [], false)
    else
      var c2 := if end then c.(streams := c.streams[id := c.streams[id].(requestEnd := true)]) else c;
      (c2, [Data(id, Encode(b).value, end)], true)
  }

  // ---------------------------------------------------------------- receiving

  /** What `recv` and `read` return. */
  datatype Response = Response(id: nat, fields: Fields, data: Bytes, pipeline: bool)

  datatype Progress = Continue | Ready(response: Response) | Closed

  datatype Parsed = Parsed(client: Client, out: seq<Frame>, result: Progress)

  function ApplySetting(s: Limits, setting: (nat, nat)): Limits {
    match setting.0
    case 1 => s.(headerTableSize := setting.1)
    case 3 => s.(maxConcurrentStreams := setting.1)
    case 4 => s.(windowSize := setting.1)
    case 5 => s.(maxFrameSize := setting.1)
    case 6 => s.(maxHeaderListSize := setting.1)
    case _ => s
  }

  function ApplySettings(s: Limits, values: seq<(nat, nat)>): Limits
    decreases values
  {
    if values == [] then s else ApplySettings(ApplySetting(s, values[0]), values[1..])
  }

  function OnWindowUpdate(c: Client, id: nat, increment: nat): Client {
    if id == 0 then c.(remote := c.remote.(windowSize := (c.remote.windowSize + increment) % TWO_32))
    else if id in c.streams then
      var s := c.streams[id];
      c.(streams := c.streams[id := s.(remoteWindow := (s.remoteWindow + increment) % TWO_32)])
    else c
  }

  /** DATA on a known stream: into its buffer, and off both windows. */
  function Collect(c: Client, id: nat, payload: Bytes, end: bool): (Client, seq<Frame>)
    requires id in c.streams
  {
    var s := c.streams[id].(pipelineResponse := c.streams[id].pipelineResponse || !end);
    if payload == [] then (c.(streams := c.streams[id := s]), [])
    else
      var (window, update) := Consume(c.local.windowSize, |payload|);
      var (streamWindow, streamUpdate) := Consume(s.localWindow, |payload|);
      var s2 := s.(buffer := s.buffer + payload, localWindow := streamWindow);
      (c.(streams := c.streams[id := s2], local := c.local.(windowSize := window)),
       Update(0, update) + Update(id, streamUpdate))
  }

  /** What a frame of a response adds to the response object or to the buffer. */
  function Take(c: Client, f: Frame): (Client, seq<Frame>)
    requires (f.Headers? || f.Data? || f.Unknown?) && f.id in c.streams
  {
    match f
    case Headers(id, fields, _) =>
      var s := c.streams[id];
      (c.(streams := c.streams[id := s.(fields := s.fields + fields)]), [])
    case Data(id, payload, end) => Collect(c, id, payload, end)
    case _ => (c, [])
  }

  /** The end of the response hands out the buffer, and so does every frame of a response that is read in parts. */
  function Deliver(c: Client, id: nat, end: bool, partly: bool): (Client, Progress)
    requires id in c.streams
  {
    var s := c.streams[id];
    if end then (c.(streams := c.streams - {id}), Ready(Response(id, s.fields, s.buffer, false)))
    else if partly && s.pipelineResponse then
      (c.(streams := c.streams[id := s.(fields := [], buffer := [])]), Ready(Response(id, s.fields, s.buffer, true)))
    else (c, Continue)
  }

  function FrameId(f: Frame): nat {
    match f
    case Settings(_, _) => 0
    case Ping(_, _) => 0
    case GoAway(_, _) => 0
    case _ => f.id
  }

  function Note(c: Client, f: Frame): Client {
    if FrameId(f) > c.lastId then c.(lastId := FrameId(f)) else c
  }

  /** HEADERS, DATA and unknown frames; those of an unknown stream are skipped. */
  function OnMessage(c: Client, f: Frame, partly: bool): Parsed
    requires f.Headers? || f.Data? || f.Unknown?
  {
    if f.id !in c.streams then Parsed(c, [], Continue)
    else
      var (c2, out) := Take(c, f);
      var (c3, result) := Deliver(c2, f.id, f.end, partly);
      Parsed(c3, out, result)
  }

  /** `parse_frame`, with every send succeeding. */
  function Parse(c0: Client, f: Frame, partly: bool): Parsed {
    var c := Note(c0, f);
    match f
    case Settings(ack, values) =>
      if ack then Parsed(c, [], Continue)
      else Parsed(c.(remote := ApplySettings(c.remote, values)), [Settings(true, [])], Continue)
    case WindowUpdate(id, increment) => Parsed(OnWindowUpdate(c, id, increment), [], Continue)
    case Ping(ack, _) => Parsed(c, if ack then [] else [Ping(true, [])], Continue)
    case GoAway(_, _) => Parsed(Close(c), [], Closed)
    case RstStream(id, _) => Parsed(c.(streams := c.streams - {id}), [], Continue)
    case PushPromise(_) => Parsed(c, [], Continue)
    case _ => OnMessage(c, f, partly)
  }

  /** After a SETTINGS frame the last value given for an option is in force. */
  lemma {:induction false} SettingsInForce(s: Limits, values: seq<(nat, nat)>)
    ensures ApplySettings(s, values)
            == Limits(LastValue(values, 1, s.headerTableSize), LastValue(values, 4, s.windowSize),
                      LastValue(values, 3, s.maxConcurrentStreams), LastValue(values, 5, s.maxFrameSize),
                      LastValue(values, 6, s.maxHeaderListSize))
    decreases values
  {
    if values != [] {
      SettingsInForce(ApplySetting(s, values[0]), values[1..]);
      LastValueFirst(values, 1, s.headerTableSize);
      LastValueFirst(values, 3, s.maxConcurrentStreams);
      LastValueFirst(values, 4, s.windowSize);
      LastValueFirst(values, 5, s.maxFrameSize);
      LastValueFirst(values, 6, s.maxHeaderListSize);
    }
  }

  /** SETTINGS and PING are acknowledged unless they are acknowledgements, and change nothing but the limits. */
  lemma ControlFrames(c: Client, f: Frame, partly: bool)
    requires f.Settings? || f.Ping?
    ensures var p := Parse(c, f, partly);
            && p.result == Continue
            && p.client == c.(remote := if f.Settings? && !f.ack then ApplySettings(c.remote, f.values) else c.remote)
            && p.out == (if f.ack then [] else if f.Settings? then [Settings(true, [])] else [Ping(true, [])])
  {
  }

  /** The other frames without a message: a window grows, a stream is dropped, all are, or nothing happens. */
  lemma StreamFrames(c: Client, f: Frame, partly: bool)
    requires f.WindowUpdate? || f.RstStream? || f.GoAway? || f.PushPromise?
    ensures var p := Parse(c, f, partly);
            && p.out == [] && p.result == (if f.GoAway? then Closed else Continue)
            && p.client.connected == (c.connected && !f.GoAway?)
            && p.client.nextId == c.nextId && p.client.local == c.local
            && p.client.streams.Keys
               == (if f.RstStream? then c.streams.Keys - {f.id} else if f.GoAway? && c.connected then {} else c.streams.Keys)
            && (forall id | id in p.client.streams && !(f.WindowUpdate? && f.id == id) ::
                  p.client.streams[id] == c.streams[id])
            && (f.WindowUpdate? && f.id != 0 && f.id in c.streams ==>
                  p.client.streams[f.id]
                  == c.streams[f.id].(remoteWindow := (c.streams[f.id].remoteWindow + f.increment) % TWO_32))
            && p.client.remote
               == (if f.WindowUpdate? && f.id == 0
                   then c.remote.(windowSize := (c.remote.windowSize + f.increment) % TWO_32) else c.remote)
  {
  }

  datatype Listened = Listened(client: Client, out: seq<Frame>, result: Progress, used: nat)

  /** The driver of `recv` and `read`: frames are parsed until one is worth returning. */
  function Listen(c: Client, incoming: seq<Frame>, partly: bool): Listened
    decreases |incoming|
  {
    if !c.connected || incoming == [] then Listened(c, [], Continue, 0)
    else
      var p := Parse(c, incoming[0], partly);
      if p.result != Continue then Listened(p.client, p.out, p.result, 1)
      else
        var l := Listen(p.client, incoming[1..], partly);
        Listened(l.client, p.out + l.out, l.result, 1 + l.used)
  }

  function Prepend(out: seq<Frame>, used: nat, l: Listened): Listened {
    Listened(l.client, out + l.out, l.result, used + l.used)
  }

  /** One turn of the driver, after `used` frames with the given replies. */
  lemma ListenTurn(c: Client, incoming: seq<Frame>, partly: bool, out: seq<Frame>, used: nat, p: Parsed)
    requires used < |incoming| && c.connected && p == Parse(c, incoming[used], partly)
    ensures Prepend(out, used, Listen(c, incoming[used..], partly))
            == if p.result != Continue then Listened(p.client, out + p.out, p.result, used + 1)
               else Prepend(out + p.out, used + 1, Listen(p.client, incoming[used + 1..], partly))
  {
    var rest := incoming[used..];
    assert rest[0] == incoming[used] && rest[1..] == incoming[used + 1..];
    var l := Listen(p.client, incoming[used + 1..], partly);
    assert out + (p.out + l.out) == out + p.out + l.out;
  }

  // ---------------------------------------------------------------- the client object

  class CoroutineClient {
    var connected: bool
    var nextId: nat
    var lastId: nat
    var streams: map<nat, Stream>
    var local: Limits
    var remote: Limits

    constructor ()
      ensures State() == NewClient()
    {
      connected, nextId, lastId, streams := false, 0, 0, map[];
      local, remote := INIT_SETTINGS, Limits(0, 0, 0, 0, 0);
    }

    function State(): Client
      reads this
    {
      Client(connected, nextId, lastId, streams, local, remote)
    }

    method Open() returns (ok: bool)
      modifies this
      ensures ok == !old(connected) && State() == Connect(old(State()))
    {
      if connected {
        return false;
      }
      connected, nextId, remote := true, 1, INIT_SETTINGS;
      return true;
    }

    method Shut() returns (ok: bool)
      modifies this
      ensures ok == old(connected) && State() == Close(old(State()))
    {
      if !connected {
        return false;
      }
      connected, streams := false, map[];
      return true;
    }

    /** `send_data` */
    method SendData(id: nat, data: Bytes, endStream: bool) returns (out: seq<Frame>)
      requires remote.maxFrameSize >= 1
      ensures out == Cut(id, data, remote.maxFrameSize, endStream)
    {
      out := [];
      var rest := data;
      while rest != []
        invariant out + Cut(id, rest, remote.maxFrameSize, endStream) == Cut(id, data, remote.maxFrameSize, endStream)
        decreases |rest|
      {
        var n, flag := |rest|, endStream;
        if |rest| > remote.maxFrameSize {
          n, flag := remote.maxFrameSize, false;
        }
        CutFirst(out, id, rest, remote.maxFrameSize, endStream, n);
        out := out + [Data(id, rest[..n], flag)];
        rest := rest[n..];
      }
      assert out + [] == out;
    }

    /** `send_request` */
    method SendRequest(r: Request) returns (out: seq<Frame>, id: nat)
      requires remote.maxFrameSize >= 1
      modifies `streams, `nextId
      ensures Sent(State(), out, id) == Submit(old(State()), r)
    {
      var isEmpty := IsEmpty(r.body);
      if nextId !in streams {
        streams := streams[nextId := NewStream(r.pipeline)];
      }
      id := nextId;
      out := [Headers(id, r.fields, isEmpty && !r.pipeline)];
      if !isEmpty {
        var data := Encode(r.body);
        if data.None? {
          return out, 0;
        }
        var frames := SendData(id, data.value, !r.pipeline);
        out := out + frames;
      }
      nextId := (nextId + 2) % TWO_32;
    }

    /** `write_data` */
    method WriteData(id: nat, b: Body, end: bool) returns (out: seq<Frame>, ok: bool)
      modifies `streams
      ensures (State(), out, ok) == Write(old(State()), id, b, end)
    {
      if id !in streams || !streams[id].pipeline || streams[id].requestEnd {
        return [], false;
      }
      var data := Encode(b);
      if data.None? {
        return [], false;
      }
      out, ok := [Data(id, data.value, end)], true;
      if end {
        streams := streams[id := streams[id].(requestEnd := true)];
      }
    }

    method SettingsFrame(values: seq<(nat, nat)>)
      modifies `remote
      ensures State() == old(State()).(remote := ApplySettings(old(remote), values))
    {
      var i := 0;
      assert values[0..] == values;
      while i < |values|
        invariant 0 <= i <= |values|
        invariant ApplySettings(remote, values[i..]) == ApplySettings(old(remote), values)
      {
        assert values[i..][0] == values[i] && values[i..][1..] == values[i + 1..];
        var (id, value) := values[i];
        if id == 1 {
          remote := remote.(headerTableSize := value);
        } else if id == 3 {
          remote := remote.(maxConcurrentStreams := value);
        } else if id == 4 {
          remote := remote.(windowSize := value);
        } else if id == 5 {
          remote := remote.(maxFrameSize := value);
        } else if id == 6 {
          remote := remote.(maxHeaderListSize := value);
        }
        i := i + 1;
      }
    }

    method DataFrame(id: nat, payload: Bytes, end: bool) returns (out: seq<Frame>)
      requires id in streams
      modifies `streams, `local
      ensures (State(), out) == Collect(old(State()), id, payload, end)
    {
      out := [];
      var s := streams[id];
      if !end {
        s := s.(pipelineResponse := true);
      }
      if payload != [] {
        s := s.(buffer := s.buffer + payload);
        var window := (local.windowSize - |payload|) % TWO_32;
        var streamWindow := (s.localWindow - |payload|) % TWO_32;
        if window < MAX_WINDOW / 4 {
          out := out + [WindowUpdate(0, MAX_WINDOW - window)];
          window := MAX_WINDOW;
        }
        if streamWindow < MAX_WINDOW / 4 {
          out := out + [WindowUpdate(id, MAX_WINDOW - streamWindow)];
          streamWindow := MAX_WINDOW;
        }
        assert out == Update(0, Consume(local.windowSize, |payload|).1) + Update(id, Consume(s.localWindow, |payload|).1);
        local := local.(windowSize := window);
        s := s.(localWindow := streamWindow);
      }
      streams := streams[id := s];
    }

    method MessageFrame(f: Frame, partly: bool) returns (out: seq<Frame>, result: Progress)
      requires f.Headers? || f.Data? || f.Unknown?
      modifies `streams, `local
      ensures Parsed(State(), out, result) == OnMessage(old(State()), f, partly)
    {
      if f.id !in streams {
        return [], Continue;
      }
      out := [];
      if f.Headers? {
        streams := streams[f.id := streams[f.id].(fields := streams[f.id].fields + f.fields)];
      } else if f.Data? {
        out := DataFrame(f.id, f.payload, f.end);
      }
      var s := streams[f.id];
      if f.end || (partly && s.pipelineResponse) {
        result := Ready(Response(f.id, s.fields, s.buffer, !f.end));
        if f.end {
          streams := streams - {f.id};
        } else {
          streams := streams[f.id := s.(fields := [], buffer := [])];
        }
      } else {
        result := Continue;
      }
    }

    /** `parse_frame` */
    method ParseFrame(f: Frame, partly: bool) returns (out: seq<Frame>, result: Progress)
      modifies this
      ensures Parsed(State(), out, result) == Parse(old(State()), f, partly)
    {
      if FrameId(f) > lastId {
        lastId := FrameId(f);
      }
      out, result := [], Continue;
      match f {
        case Settings(ack, values) =>
          if !ack {
            SettingsFrame(values);
            out := [Settings(true, [])];
          }
        case WindowUpdate(id, increment) =>
          if id == 0 {
            remote := remote.(windowSize := (remote.windowSize + increment) % TWO_32);
          } else if id in streams {
            var s := streams[id];
            streams := streams[id := s.(remoteWindow := (s.remoteWindow + increment) % TWO_32)];
          }
        case Ping(ack, _) =>
          if !ack {
            out := [Ping(true, [])];
          }
        case GoAway(_, _) =>
          var _ := Shut();
          result := Closed;
        case RstStream(id, _) =>
          streams := streams - {id};
        case PushPromise(_) =>
        case _ =>
          out, result := MessageFrame(f, partly);
      }
    }

    /** The loop of `recv` (not partly) and `read` (partly) over the frames that arrive. */
    method Receive(incoming: seq<Frame>, partly: bool) returns (out: seq<Frame>, result: Progress, used: nat)
      modifies this
      ensures Listened(State(), out, result, used) == Listen(old(State()), incoming, partly)
    {
      out, result, used := [], Continue, 0;
      ghost var all := Listen(State(), incoming, partly);
      assert incoming[0..] == incoming && [] + all.out == all.out;
      while connected && used < |incoming|
        invariant 0 <= used <= |incoming| && result == Continue
        invariant Prepend(out, used, Listen(State(), incoming[used..], partly)) == all
        decreases |incoming| - used
      {
        ghost var c := State();
        var replies, r := ParseFrame(incoming[used], partly);
        ListenTurn(c, incoming, partly, out, used, Parsed(State(), replies, r));
        out, used := out + replies, used + 1;
        if r != Continue {
          return out, r, used;
        }
      }
      assert out + [] == out;
    }
  }
}
