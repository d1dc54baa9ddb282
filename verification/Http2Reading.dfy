/**
 Responses at the client: whole responses from `recv` and parts of them from `read`, in any mix.
 */
module Http2Reading {
  import opened PhpBytes
  import opened Http2Frames
  import opened Http2Client
  import Http2Response

  /** One received frame and the mode of the call that receives it. */
  datatype Heard = Heard(f: Frame, partly: bool)

  datatype World = World(client: Client, returned: seq<Response>)

  function Step(w: World, h: Heard): World {
    var p := Parse(w.client, h.f, h.partly);
    World(p.client, w.returned + if p.result.Ready? then [p.result.response] else [])
  }

  function Run(c: Client, hs: seq<Heard>): World {
    if hs == [] then World(c, []) else Step(Run(c, hs[..|hs| - 1]), hs[|hs| - 1])
  }

  /** The data of the responses returned for a stream, in order. */
  function DataFor(returned: seq<Response>, id: nat): Bytes {
    if returned == [] then []
    else
      var last := returned[|returned| - 1];
      DataFor(returned[..|returned| - 1], id) + (if last.id == id then last.data else [])
  }

  /** Frames that the client treats as part of a response. */
  predicate Concerns(f: Frame, id: nat) {
    (f.Headers? || f.Data? || f.Unknown?) && f.id == id
  }

  function PayloadOf(f: Frame): Bytes {
    if f.Data? then f.payload else []
  }

  /** The payloads on a stream up to its end, and whether it has ended. */
  function Live(hs: seq<Heard>, id: nat): (Bytes, bool) {
    if hs == [] then ([], false)
    else
      var (payload, ended) := Live(hs[..|hs| - 1], id);
      var f := hs[|hs| - 1].f;
      if ended || !Concerns(f, id) then (payload, ended) else (payload + PayloadOf(f), f.end)
  }

  function Buffer(c: Client, id: nat): Bytes {
    if id in c.streams then c.streams[id].buffer else []
  }

  /** Nothing is lost or repeated: what was returned and what is buffered is what has arrived. */
  ghost predicate Complete(w: World, hs: seq<Heard>, id: nat) {
    var (payload, ended) := Live(hs, id);
    DataFor(w.returned, id) + Buffer(w.client, id) == payload && (id in w.client.streams <==> !ended)
  }

  predicate Undisturbed(hs: seq<Heard>, id: nat) {
    forall i :: 0 <= i < |hs| ==> !hs[i].f.GoAway? && !(hs[i].f.RstStream? && hs[i].f.id == id)
  }

  lemma DataSnoc(returned: seq<Response>, r: Response, id: nat)
    ensures DataFor(returned + [r], id) == DataFor(returned, id) + (if r.id == id then r.data else [])
  {
    assert (returned + [r])[..|returned|] == returned;
  }

  /** What one call returns for the stream, and what it leaves in the buffer. */
  lemma ParseMoves(c: Client, f: Frame, partly: bool, id: nat)
    requires !f.GoAway? && !(f.RstStream? && f.id == id)
    ensures var p := Parse(c, f, partly);
            var out := ReturnedFor(p.result, id);
            if id in c.streams && Concerns(f, id) then
              && out + Buffer(p.client, id) == Buffer(c, id) + PayloadOf(f)
              && (id in p.client.streams <==> !f.end)
            else
              out == [] && Buffer(p.client, id) == Buffer(c, id) && (id in p.client.streams <==> id in c.streams)
  {
    if f.Headers? || f.Data? || f.Unknown? {
      MessageMoves(Note(c, f), f, partly, id);
    }
  }

  lemma MessageMoves(c: Client, f: Frame, partly: bool, id: nat)
    requires f.Headers? || f.Data? || f.Unknown?
    ensures var p := OnMessage(c, f, partly);
            var out := ReturnedFor(p.result, id);
            if id in c.streams && f.id == id then
              && out + Buffer(p.client, id) == Buffer(c, id) + PayloadOf(f)
              && (id in p.client.streams <==> !f.end)
            else
              out == [] && Buffer(p.client, id) == Buffer(c, id) && (id in p.client.streams <==> id in c.streams)
  {
    if f.id in c.streams {
      var c2 := if f.Data? then Collect(c, f.id, f.payload, f.end).0 else c;
      CollectAdds(c, f, id);
      DeliverMoves(c2, f.id, f.end, partly, id);
    }
  }

  lemma CollectAdds(c: Client, f: Frame, id: nat)
    requires (f.Headers? || f.Data? || f.Unknown?) && f.id in c.streams
    ensures var c2 := if f.Data? then Collect(c, f.id, f.payload, f.end).0 else c;
            && f.id in c2.streams && (id in c2.streams <==> id in c.streams)
            && Buffer(c2, id) == Buffer(c, id) + (if f.id == id then PayloadOf(f) else [])
  {
    assert Buffer(c, id) + [] == Buffer(c, id);
  }

  lemma DeliverMoves(c: Client, of: nat, end: bool, partly: bool, id: nat)
    requires of in c.streams
    ensures var (c2, result) := Deliver(c, of, end, partly);
            && (result.Ready? ==> result.response.id == of)
            && (if of == id then
                  && (if result.Ready? then result.response.data else []) + Buffer(c2, id) == Buffer(c, id)
                  && (id in c2.streams <==> !end)
                else Buffer(c2, id) == Buffer(c, id) && (id in c2.streams <==> id in c.streams))
  {
    assert [] + Buffer(c, id) == Buffer(c, id) && Buffer(c, id) + [] == Buffer(c, id);
  }

  function ReturnedFor(r: Progress, id: nat): Bytes {
    if r.Ready? && r.response.id == id then r.response.data else []
  }

  lemma DataStep(w: World, h: Heard, id: nat)
    ensures var result := Parse(w.client, h.f, h.partly).result;
            DataFor(Step(w, h).returned, id) == DataFor(w.returned, id) + ReturnedFor(result, id)
  {
    var p := Parse(w.client, h.f, h.partly);
    if p.result.Ready? {
      DataSnoc(w.returned, p.result.response, id);
    } else {
      assert w.returned + [] == w.returned;
    }
  }

  lemma LiveSnoc(hs: seq<Heard>, h: Heard, id: nat)
    ensures var (payload, ended) := Live(hs, id);
            Live(hs + [h], id)
            == if ended || !Concerns(h.f, id) then (payload, ended) else (payload + PayloadOf(h.f), h.f.end)
  {
    assert (hs + [h])[..|hs|] == hs;
  }

  lemma StepKeeps(w: World, hs: seq<Heard>, h: Heard, id: nat)
    requires Complete(w, hs, id) && !h.f.GoAway? && !(h.f.RstStream? && h.f.id == id)
    ensures Complete(Step(w, h), hs + [h], id)
  {
    var p := Parse(w.client, h.f, h.partly);
    ParseMoves(w.client, h.f, h.partly, id);
    DataStep(w, h, id);
    LiveSnoc(hs, h, id);
    Regroup(DataFor(w.returned, id), ReturnedFor(p.result, id), Buffer(p.client, id));
    Regroup(DataFor(w.returned, id), Buffer(w.client, id), PayloadOf(h.f));
    assert [] + Buffer(p.client, id) == Buffer(p.client, id);
  }

  /** For every interleaving of frames and every choice of modes. */
  lemma {:induction false} NothingIsLost(c: Client, hs: seq<Heard>, id: nat)
    requires id in c.streams && c.streams[id].buffer == [] && Undisturbed(hs, id)
    ensures Complete(Run(c, hs), hs, id)
  {
    if hs != [] {
      var before, h := hs[..|hs| - 1], hs[|hs| - 1];
      NothingIsLost(c, before, id);
      StepKeeps(Run(c, before), before, h, id);
      assert hs == before + [h];
    }
  }

  /** The largest stream id in sight. */
  function LargestId(start: nat, hs: seq<Heard>): nat {
    if hs == [] then start
    else
      var before, id := LargestId(start, hs[..|hs| - 1]), FrameId(hs[|hs| - 1].f);
      if id > before then id else before
  }

  lemma OnlyNoteMoves(c: Client, f: Frame, partly: bool)
    ensures Parse(c, f, partly).client.lastId == if FrameId(f) > c.lastId then FrameId(f) else c.lastId
  {
    if Expected(c, f) {
      TakenStream(Note(c, f), f);
    }
  }

  /** The last stream id that a client remembers is the largest one that it has heard of. */
  lemma {:induction false} LastIdIsLargest(c: Client, hs: seq<Heard>)
    ensures Run(c, hs).client.lastId == LargestId(c.lastId, hs)
  {
    if hs != [] {
      var before, h := hs[..|hs| - 1], hs[|hs| - 1];
      LastIdIsLargest(c, before);
      OnlyNoteMoves(Run(c, before).client, h.f, h.partly);
    }
  }

  // ---------------------------------------------------------------- what the mode does

  /** The frame belongs to a response that the client waits for. */
  predicate Expected(c: Client, f: Frame) {
    (f.Headers? || f.Data? || f.Unknown?) && f.id in c.streams
  }

  function FieldsOf(f: Frame): Fields {
    if f.Headers? then f.fields else []
  }

  /**
   When a call returns and with what: `recv` with the end of an expected response and not before, `read` also with
   every frame of one that has brought DATA without an end; and either if the connection is closed.
   */
  lemma ParseReturns(c: Client, f: Frame, partly: bool)
    ensures var r := Parse(c, f, partly).result;
            && (r.Ready? <==> Expected(c, f) && (f.end || (partly && (c.streams[f.id].pipelineResponse || f.Data?))))
            && (r.Closed? <==> f.GoAway?)
            && (r.Ready? ==>
                  var s := c.streams[f.id];
                  r.response == Response(f.id, s.fields + FieldsOf(f), s.buffer + PayloadOf(f), !f.end))
  {
    if Expected(c, f) {
      TakenStream(Note(c, f), f);
    }
  }

  lemma TakenStream(c: Client, f: Frame)
    requires Expected(c, f)
    ensures var c2, s := Take(c, f).0, c.streams[f.id];
            && f.id in c2.streams
            && c2.streams[f.id].fields == s.fields + FieldsOf(f) && c2.streams[f.id].buffer == s.buffer + PayloadOf(f)
            && c2.streams[f.id].pipelineResponse == (s.pipelineResponse || (f.Data? && !f.end))
  {
    var s := c.streams[f.id];
    assert s.fields + [] == s.fields && s.buffer + [] == s.buffer;
  }

  /** DATA without an end has come on the stream. */
  predicate DataSeen(hs: seq<Heard>, id: nat) {
    exists i :: 0 <= i < |hs| && hs[i].f.Data? && hs[i].f.id == id && !hs[i].f.end
  }

  lemma DataSeenSnoc(hs: seq<Heard>, h: Heard, id: nat)
    ensures DataSeen(hs + [h], id) <==> DataSeen(hs, id) || (h.f.Data? && h.f.id == id && !h.f.end)
  {
    var all := hs + [h];
    assert all[|hs|] == h && forall i :: 0 <= i < |hs| ==> all[i] == hs[i];
  }

  /** What one frame does to the flag of a stream that stays open. */
  lemma FlagMoves(c: Client, f: Frame, partly: bool, id: nat)
    requires !f.GoAway? && !(f.RstStream? && f.id == id) && id in c.streams && id in Parse(c, f, partly).client.streams
    ensures Parse(c, f, partly).client.streams[id].pipelineResponse
            == (c.streams[id].pipelineResponse || (f.Data? && f.id == id && !f.end))
  {
    if Expected(c, f) {
      TakenStream(Note(c, f), f);
    }
  }

  lemma {:induction false} FlagIsHistory(c: Client, hs: seq<Heard>, id: nat)
    requires id in c.streams && !c.streams[id].pipelineResponse && c.streams[id].buffer == [] && Undisturbed(hs, id)
    requires id in Run(c, hs).client.streams
    ensures Run(c, hs).client.streams[id].pipelineResponse <==> DataSeen(hs, id)
  {
    if hs != [] {
      var before, h := hs[..|hs| - 1], hs[|hs| - 1];
      var w := Run(c, before);
      ParseMoves(w.client, h.f, h.partly, id);
      assert id in w.client.streams;
      FlagIsHistory(c, before, id);
      FlagMoves(w.client, h.f, h.partly, id);
      DataSeenSnoc(before, h, id);
      assert hs == before + [h];
    }
  }

  /**
   Over every run: the next frame makes its call return exactly if it belongs to a response that has not ended and
   ends it, or the call is `read` and DATA without an end has come there.
   */
  lemma ReturnsExactly(c: Client, hs: seq<Heard>, h: Heard, id: nat)
    requires id in c.streams && !c.streams[id].pipelineResponse && c.streams[id].buffer == [] && Undisturbed(hs, id)
    requires Concerns(h.f, id)
    ensures Parse(Run(c, hs).client, h.f, h.partly).result.Ready?
            <==> !Live(hs, id).1 && (h.f.end || (h.partly && DataSeen(hs + [h], id)))
  {
    var w := Run(c, hs);
    NothingIsLost(c, hs, id);
    ParseReturns(w.client, h.f, h.partly);
    DataSeenSnoc(hs, h, id);
    if id in w.client.streams {
      FlagIsHistory(c, hs, id);
      assert h.f.Data? && !h.f.end ==> DataSeen(hs + [h], id);
      if h.partly && !h.f.end && h.f.Data? {
        assert DataSeen(hs + [h], id);
      }
    }
  }

  // ---------------------------------------------------------------- the responses of `recv`

  function ResponsesFor(returned: seq<Response>, id: nat): seq<Response> {
    if returned == [] then []
    else
      var last := returned[|returned| - 1];
      ResponsesFor(returned[..|returned| - 1], id) + (if last.id == id then [last] else [])
  }

  lemma ResponsesSnoc(returned: seq<Response>, r: Response, id: nat)
    ensures ResponsesFor(returned + [r], id) == ResponsesFor(returned, id) + (if r.id == id then [r] else [])
  {
    assert (returned + [r])[..|returned|] == returned;
  }

  /** The fields on a stream up to its end. */
  function LiveHeads(hs: seq<Heard>, id: nat): Fields {
    if hs == [] then []
    else
      var before, f := hs[..|hs| - 1], hs[|hs| - 1].f;
      LiveHeads(before, id) + (if Live(before, id).1 || !Concerns(f, id) then [] else FieldsOf(f))
  }

  /** The fields of the responses returned for a stream, in order. */
  function HeadsFor(returned: seq<Response>, id: nat): Fields {
    if returned == [] then []
    else
      var last := returned[|returned| - 1];
      HeadsFor(returned[..|returned| - 1], id) + (if last.id == id then last.fields else [])
  }

  function FieldsLeft(c: Client, id: nat): Fields {
    if id in c.streams then c.streams[id].fields else []
  }

  function HeadsIn(r: Progress, id: nat): Fields {
    if r.Ready? && r.response.id == id then r.response.fields else []
  }

  lemma HeadsStep(w: World, h: Heard, id: nat)
    ensures HeadsFor(Step(w, h).returned, id)
            == HeadsFor(w.returned, id) + HeadsIn(Parse(w.client, h.f, h.partly).result, id)
  {
    var p := Parse(w.client, h.f, h.partly);
    if p.result.Ready? {
      assert (w.returned + [p.result.response])[..|w.returned|] == w.returned;
    } else {
      assert w.returned + [] == w.returned && HeadsFor(w.returned, id) + [] == HeadsFor(w.returned, id);
    }
  }

  /** Fields are handed out or stay, and are not handed out again. */
  lemma ParseMovesHeads(c: Client, f: Frame, partly: bool, id: nat)
    requires !f.GoAway? && !(f.RstStream? && f.id == id)
    ensures var p := Parse(c, f, partly);
            HeadsIn(p.result, id) + FieldsLeft(p.client, id)
            == FieldsLeft(c, id) + (if id in c.streams && Concerns(f, id) then FieldsOf(f) else [])
  {
    if Expected(c, f) {
      TakenStream(Note(c, f), f);
      MessageMovesHeads(Note(c, f), f, partly, id);
    } else {
      assert FieldsLeft(c, id) + [] == FieldsLeft(c, id);
    }
  }

  lemma MessageMovesHeads(c: Client, f: Frame, partly: bool, id: nat)
    requires Expected(c, f)
    ensures var p := OnMessage(c, f, partly);
            HeadsIn(p.result, id) + FieldsLeft(p.client, id)
            == FieldsLeft(c, id) + (if f.id == id then FieldsOf(f) else [])
  {
    TakenStream(c, f);
    var s := FieldsLeft(c, id);
    assert s + [] == s && [] + s == s && s + FieldsOf(f) + [] == s + FieldsOf(f) && [] + (s + FieldsOf(f)) == s + FieldsOf(f);
  }

  /** For every interleaving of frames and every choice of modes, no field is lost or repeated either. */
  lemma {:induction false} NoFieldIsLost(c: Client, hs: seq<Heard>, id: nat)
    requires id in c.streams && c.streams[id].buffer == [] && c.streams[id].fields == [] && Undisturbed(hs, id)
    ensures HeadsFor(Run(c, hs).returned, id) + FieldsLeft(Run(c, hs).client, id) == LiveHeads(hs, id)
  {
    if hs != [] {
      var before, h := hs[..|hs| - 1], hs[|hs| - 1];
      var w := Run(c, before);
      NoFieldIsLost(c, before, id);
      NothingIsLost(c, before, id);
      HeadsStep(w, h, id);
      ParseMovesHeads(w.client, h.f, h.partly, id);
      Shift(HeadsFor(w.returned, id), FieldsLeft(w.client, id),
            if id in w.client.streams && Concerns(h.f, id) then FieldsOf(h.f) else [],
            HeadsIn(Parse(w.client, h.f, h.partly).result, id), FieldsLeft(Step(w, h).client, id));
    }
  }

  /** A request opens its stream with nothing collected for it. */
  lemma SubmitOpens(c: Client, r: Request)
    requires c.remote.maxFrameSize >= 1 && c.nextId !in c.streams
    ensures var c2 := Submit(c, r).client;
            && c.nextId in c2.streams
            && var s := c2.streams[c.nextId];
            && s.fields == [] && s.buffer == [] && !s.pipelineResponse && s.pipeline == r.pipeline && !s.requestEnd
            && s.localWindow == s.remoteWindow == DEFAULT_WINDOW
            && forall id | id in c.streams :: id in c2.streams && c2.streams[id] == c.streams[id]
  {
  }

  /** The one response that `recv` makes of what has been heard, if that is all of it. */
  function WholeResponse(id: nat, fields: Fields, data: Bytes, ended: bool): seq<Response> {
    if ended then [Response(id, fields, data, false)] else []
  }

  /** Until the end of the response the stream collects it; then it has been returned as one. */
  ghost predicate Gathers(returned: seq<Response>, c: Client, fields: Fields, data: Bytes, ended: bool, id: nat) {
    && ResponsesFor(returned, id) == WholeResponse(id, fields, data, ended)
    && (id in c.streams <==> !ended)
    && (id in c.streams ==> c.streams[id].fields == fields && c.streams[id].buffer == data)
  }

  /** One frame in `recv`. */
  lemma RecvGathers(w: World, f: Frame, fields: Fields, data: Bytes, ended: bool, id: nat)
    requires Gathers(w.returned, w.client, fields, data, ended, id) && !f.GoAway? && !(f.RstStream? && f.id == id)
    ensures var w2 := Step(w, Heard(f, false));
            if ended || !Concerns(f, id) then Gathers(w2.returned, w2.client, fields, data, ended, id)
            else Gathers(w2.returned, w2.client, fields + FieldsOf(f), data + PayloadOf(f), f.end, id)
  {
    var p := Parse(w.client, f, false);
    ParseReturns(w.client, f, false);
    ParseMoves(w.client, f, false, id);
    if id in w.client.streams && id in p.client.streams {
      StreamCollects(w.client, f, id);
    }
    if p.result.Ready? {
      ResponsesSnoc(w.returned, p.result.response, id);
    } else {
      assert w.returned + [] == w.returned;
    }
  }

  /** What `recv` leaves in a stream that stays open. */
  lemma StreamCollects(c: Client, f: Frame, id: nat)
    requires !f.GoAway? && !(f.RstStream? && f.id == id) && id in c.streams && id in Parse(c, f, false).client.streams
    ensures var s, s2 := c.streams[id], Parse(c, f, false).client.streams[id];
            if Concerns(f, id) then s2.fields == s.fields + FieldsOf(f) && s2.buffer == s.buffer + PayloadOf(f)
            else s2.fields == s.fields && s2.buffer == s.buffer
  {
    if Expected(c, f) {
      TakenStream(Note(c, f), f);
    }
  }

  /**
   Over every run of `recv` calls, with frames of other streams in between: a response is returned once, when it has
   ended, whole, and not marked as a part.
   */
  lemma {:induction false} RecvReturnsWhole(c: Client, hs: seq<Heard>, id: nat)
    requires id in c.streams && c.streams[id].buffer == [] && c.streams[id].fields == [] && Undisturbed(hs, id)
    requires forall i :: 0 <= i < |hs| ==> !hs[i].partly
    ensures var w, (data, ended) := Run(c, hs), Live(hs, id);
            Gathers(w.returned, w.client, LiveHeads(hs, id), data, ended, id)
  {
    if hs != [] {
      var before, h := hs[..|hs| - 1], hs[|hs| - 1];
      RecvReturnsWhole(c, before, id);
      RecvGathers(Run(c, before), h.f, LiveHeads(before, id), Live(before, id).0, Live(before, id).1, id);
      assert h == Heard(h.f, false);
      assert LiveHeads(before, id) + [] == LiveHeads(before, id);
    }
  }

  // ---------------------------------------------------------------- server to client

  function ResponseOn(hs: seq<Heard>, id: nat): (fs: seq<Frame>)
    ensures forall f | f in fs :: Concerns(f, id)
  {
    if hs == [] then []
    else ResponseOn(hs[..|hs| - 1], id) + (if Concerns(hs[|hs| - 1].f, id) then [hs[|hs| - 1].f] else [])
  }

  predicate HasEnd(f: Frame) {
    (f.Headers? || f.Data? || f.Unknown?) && f.end
  }

  predicate EndsLate(fs: seq<Frame>) {
    forall i :: 0 <= i < |fs| - 1 ==> !HasEnd(fs[i])
  }

  lemma EndsLateInit(fs: seq<Frame>, f: Frame)
    requires EndsLate(fs + [f])
    ensures EndsLate(fs) && (fs != [] ==> !HasEnd(fs[|fs| - 1]))
  {
    assert forall i :: 0 <= i < |fs| ==> (fs + [f])[i] == fs[i];
  }

  /** If nothing follows the end, all payloads of the stream count. */
  lemma {:induction false} LiveIsAll(hs: seq<Heard>, id: nat)
    requires EndsLate(ResponseOn(hs, id))
    ensures Live(hs, id).0 == Payloads(ResponseOn(hs, id))
    ensures var fs := ResponseOn(hs, id); Live(hs, id).1 == (fs != [] && HasEnd(fs[|fs| - 1]))
  {
    if hs != [] {
      var before, f := hs[..|hs| - 1], hs[|hs| - 1].f;
      var fs := ResponseOn(before, id);
      if Concerns(f, id) {
        EndsLateInit(fs, f);
        PayloadsSnoc(fs, f);
      } else {
        assert fs + [] == fs;
      }
      LiveIsAll(before, id);
    }
  }

  lemma ResponseEndsLast(id: nat, a: Http2Response.Answer, ctx: Http2Response.Context, maxSize: nat)
    requires maxSize >= 1 && (a.trailer == [] || Http2Response.Usable(a.trailer) != [])
    ensures var fs := Http2Response.ResponseFrames(id, a, ctx, maxSize);
            fs != [] && EndsLate(fs) && HasEnd(fs[|fs| - 1])
  {
    Http2Response.ResponseTerminates(id, a, ctx, maxSize);
    OnlyLastHasEnd(Http2Response.ResponseFrames(id, a, ctx, maxSize));
    Http2Response.ResponseStays(id, a, ctx, maxSize);
  }

  lemma OnlyLastHasEnd(fs: seq<Frame>)
    requires Http2Response.OnlyLastEnds(fs)
    ensures HasEnd(fs[|fs| - 1]) && ((forall f | f in fs :: f.Headers? || f.Data?) ==> EndsLate(fs))
  {
    assert Http2Response.EndsStream(fs[|fs| - 1]);
    if forall f | f in fs :: f.Headers? || f.Data? {
      forall i | 0 <= i < |fs| - 1 ensures !HasEnd(fs[i]) {
        assert fs[i] in fs && !Http2Response.EndsStream(fs[i]);
      }
    }
  }

  /**
   A response of the server, received in any interleaving with other frames and by any mix of `recv` and
   `read`, comes back as exactly the body that was sent, and the stream is closed.
   */
  lemma ResponseArrives(
    c: Client, hs: seq<Heard>, id: nat, a: Http2Response.Answer, ctx: Http2Response.Context, maxSize: nat)
    requires id in c.streams && c.streams[id].buffer == [] && Undisturbed(hs, id) && maxSize >= 1
    requires ResponseOn(hs, id) == Http2Response.ResponseFrames(id, a, ctx, maxSize)
    requires a.trailer == [] || Http2Response.Usable(a.trailer) != []
    ensures Http2Response.Conveys(DataFor(Run(c, hs).returned, id), a, ctx)
    ensures id !in Run(c, hs).client.streams
  {
    ResponseEndsLast(id, a, ctx, maxSize);
    LiveIsAll(hs, id);
    Http2Response.ResponseCarries(id, a, ctx, maxSize);
    NothingIsLost(c, hs, id);
    var w := Run(c, hs);
    assert DataFor(w.returned, id) + [] == DataFor(w.returned, id);
  }

  lemma LiveHeadsSnoc(hs: seq<Heard>, id: nat)
    requires hs != [] && EndsLate(ResponseOn(hs, id))
    ensures var before, f := hs[..|hs| - 1], hs[|hs| - 1].f;
            && EndsLate(ResponseOn(before, id))
            && LiveHeads(hs, id) == LiveHeads(before, id) + (if Concerns(f, id) then FieldsOf(f) else [])
            && Heads(ResponseOn(hs, id)) == Heads(ResponseOn(before, id)) + (if Concerns(f, id) then FieldsOf(f) else [])
  {
    var before, f := hs[..|hs| - 1], hs[|hs| - 1].f;
    var fs := ResponseOn(before, id);
    if Concerns(f, id) {
      EndsLateInit(fs, f);
      HeadsSnoc(fs, f);
      LiveIsAll(before, id);
    } else {
      assert fs + [] == fs;
    }
  }

  lemma {:induction false} LiveHeadsAreAll(hs: seq<Heard>, id: nat)
    requires EndsLate(ResponseOn(hs, id))
    ensures LiveHeads(hs, id) == Heads(ResponseOn(hs, id))
  {
    if hs != [] {
      LiveHeadsSnoc(hs, id);
      LiveHeadsAreAll(hs[..|hs| - 1], id);
    }
  }

  /** By `recv` alone it comes back as one response: the header list and the trailer, and the whole body. */
  lemma ResponseArrivesWhole(
    c: Client, hs: seq<Heard>, id: nat, a: Http2Response.Answer, ctx: Http2Response.Context, maxSize: nat)
    requires id in c.streams && c.streams[id].buffer == [] && c.streams[id].fields == [] && Undisturbed(hs, id)
    requires maxSize >= 1 && forall i :: 0 <= i < |hs| ==> !hs[i].partly
    requires ResponseOn(hs, id) == Http2Response.ResponseFrames(id, a, ctx, maxSize)
    requires a.trailer == [] || Http2Response.Usable(a.trailer) != []
    ensures var rs := ResponsesFor(Run(c, hs).returned, id);
            && |rs| == 1 && rs[0].id == id && !rs[0].pipeline && Http2Response.Conveys(rs[0].data, a, ctx)
            && rs[0].fields
               == Http2Response.HeaderFields(a, ctx, Http2Response.CompressedBody(a, ctx).Some?, |rs[0].data|)
                  + Http2Response.Usable(a.trailer)
  {
    ResponseEndsLast(id, a, ctx, maxSize);
    LiveIsAll(hs, id);
    LiveHeadsAreAll(hs, id);
    Http2Response.ResponseCarries(id, a, ctx, maxSize);
    Http2Response.ResponseHeads(id, a, ctx, maxSize);
    RecvReturnsWhole(c, hs, id);
  }

  // ---------------------------------------------------------------- the driver

  /** The client once the first k frames have been parsed. */
  function After(c: Client, fs: seq<Frame>, partly: bool, k: nat): Client
    requires k <= |fs|
    decreases k
  {
    if k == 0 then c else After(Parse(c, fs[0], partly).client, fs[1..], partly, k - 1)
  }

  /** Frame k leaves the driver's loop going on. */
  predicate GoesOn(c: Client, fs: seq<Frame>, partly: bool, k: nat)
    requires k < |fs|
  {
    After(c, fs, partly, k).connected && Parse(After(c, fs, partly, k), fs[k], partly).result == Continue
  }

  /** The driver has parsed the first `used` frames, all of them but the last without a result. */
  ghost predicate Stopped(c: Client, fs: seq<Frame>, partly: bool, client: Client, result: Progress, used: nat) {
    && used <= |fs| && client == After(c, fs, partly, used)
    && (forall k: nat | k < used :: k + 1 < used || result == Continue ==> GoesOn(c, fs, partly, k))
    && (result == Continue ==> used == |fs| || !client.connected)
    && (result != Continue ==>
          used > 0 && After(c, fs, partly, used - 1).connected
          && result == Parse(After(c, fs, partly, used - 1), fs[used - 1], partly).result)
  }

  lemma StopsLater(c: Client, fs: seq<Frame>, partly: bool, client: Client, result: Progress, used: nat)
    requires fs != [] && c.connected && Parse(c, fs[0], partly).result == Continue
    requires Stopped(Parse(c, fs[0], partly).client, fs[1..], partly, client, result, used)
    ensures Stopped(c, fs, partly, client, result, used + 1)
  {
    var c1, rest := Parse(c, fs[0], partly).client, fs[1..];
    forall k: nat | k < used + 1 && (k < used || result == Continue) ensures GoesOn(c, fs, partly, k) {
      if k > 0 {
        assert GoesOn(c1, rest, partly, k - 1);
      }
    }
  }

  /**
   The driver of `recv` and `read` takes the frames in order and stops behind the first that is worth returning or
   closes the connection; it uses up all frames only if none is.
   */
  lemma {:induction false} DriverStops(c: Client, fs: seq<Frame>, partly: bool)
    ensures var l := Listen(c, fs, partly);
            Stopped(c, fs, partly, l.client, l.result, l.used)
    decreases |fs|
  {
    if fs != [] && c.connected {
      var p := Parse(c, fs[0], partly);
      if p.result == Continue {
        DriverStops(p.client, fs[1..], partly);
        var l := Listen(p.client, fs[1..], partly);
        StopsLater(c, fs, partly, l.client, l.result, l.used);
      } else {
        assert After(p.client, fs[1..], partly, 0) == p.client;
      }
    }
  }
}
