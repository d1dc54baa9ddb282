/**
 HTTP/2 frames as both peers see them after the nine-byte header has been decoded, the loop that cuts
 a body into DATA frames, and what one stream's frames may look like.
 */
module Http2Frames {
  import opened PhpBytes

  const MAX_WINDOW: nat := 0x7fff_ffff
  const DEFAULT_WINDOW: nat := 65535
  const DEFAULT_FRAME_SIZE: nat := 16384

  type Fields = seq<(Bytes, Bytes)>

  datatype Frame =
    | Headers(id: nat, fields: Fields, end: bool)
    | Data(id: nat, payload: Bytes, end: bool)
    | WindowUpdate(id: nat, increment: nat)
    | RstStream(id: nat, code: nat)
    | Settings(ack: bool, values: seq<(nat, nat)>)
    | Ping(ack: bool, opaqueData: Bytes)
    | GoAway(lastId: nat, code: nat)
    | PushPromise(id: nat)
    | Unknown(id: nat, end: bool)

  /** The value that a SETTINGS frame gives for an option: the last one, or none. */
  function LastValue(values: seq<(nat, nat)>, option: nat, before: nat): nat {
    if values == [] then before
    else
      var last := values[|values| - 1];
      if last.0 == option then last.1 else LastValue(values[..|values| - 1], option, before)
  }

  lemma {:induction false} LastValueFirst(values: seq<(nat, nat)>, option: nat, before: nat)
    requires values != []
    ensures LastValue(values, option, before)
            == LastValue(values[1..], option, if values[0].0 == option then values[0].1 else before)
  {
    var init := values[..|values| - 1];
    if init == [] {
      assert values[1..] == [];
    } else {
      LastValueFirst(init, option, before);
      assert values[1..][..|values| - 2] == init[1..];
    }
  }

  /** The frames that carry a message on stream id. */
  predicate Carries(f: Frame, id: nat) {
    (f.Headers? || f.Data?) && f.id == id
  }

  function OnStream(fs: seq<Frame>, id: nat): seq<Frame> {
    if fs == [] then []
    else
      var init, last := fs[..|fs| - 1], fs[|fs| - 1];
      OnStream(init, id) + (if Carries(last, id) then [last] else [])
  }

  function Payloads(fs: seq<Frame>): Bytes {
    if fs == [] then []
    else
      var init, last := fs[..|fs| - 1], fs[|fs| - 1];
      Payloads(init) + (if last.Data? then last.payload else [])
  }

  /** The fields of the HEADERS frames, in order. */
  function Heads(fs: seq<Frame>): Fields {
    if fs == [] then []
    else
      var init, last := fs[..|fs| - 1], fs[|fs| - 1];
      Heads(init) + (if last.Headers? then last.fields else [])
  }

  lemma HeadsSnoc(fs: seq<Frame>, f: Frame)
    ensures Heads(fs + [f]) == Heads(fs) + (if f.Headers? then f.fields else [])
  {
    assert (fs + [f])[..|fs|] == fs;
  }

  lemma {:induction false} HeadsAppend(fs: seq<Frame>, gs: seq<Frame>)
    ensures Heads(fs + gs) == Heads(fs) + Heads(gs)
  {
    if gs == [] {
      assert fs + gs == fs;
    } else {
      var init, last := gs[..|gs| - 1], gs[|gs| - 1];
      HeadsAppend(fs, init);
      HeadsSnoc(fs + init, last);
      assert fs + gs == fs + init + [last];
      Regroup(Heads(fs), Heads(init), if last.Headers? then last.fields else []);
    }
  }

  lemma HeadOfOne(f: Frame)
    ensures Heads([f]) == if f.Headers? then f.fields else []
    ensures Heads([f]) + [] == Heads([f])
  {
    assert [f][..0] == [];
  }

  lemma {:induction false} NoHeads(fs: seq<Frame>)
    requires forall f | f in fs :: !f.Headers?
    ensures Heads(fs) == []
  {
    if fs != [] {
      NoHeads(fs[..|fs| - 1]);
    }
  }

  lemma OnStreamSnoc(fs: seq<Frame>, f: Frame, id: nat)
    ensures OnStream(fs + [f], id) == OnStream(fs, id) + (if Carries(f, id) then [f] else [])
  {
    assert (fs + [f])[..|fs|] == fs;
  }

  lemma PayloadsSnoc(fs: seq<Frame>, f: Frame)
    ensures Payloads(fs + [f]) == Payloads(fs) + (if f.Data? then f.payload else [])
  {
    assert (fs + [f])[..|fs|] == fs;
  }

  lemma {:induction false} PayloadsAppend(fs: seq<Frame>, gs: seq<Frame>)
    ensures Payloads(fs + gs) == Payloads(fs) + Payloads(gs)
  {
    if gs == [] {
      assert fs + gs == fs;
    } else {
      var init, last := gs[..|gs| - 1], gs[|gs| - 1];
      PayloadsAppend(fs, init);
      PayloadsSnoc(fs + init, last);
      assert fs + gs == fs + init + [last];
      Regroup(Payloads(fs), Payloads(init), if last.Data? then last.payload else []);
    }
  }

  lemma PayloadOfOne(f: Frame)
    ensures Payloads([f]) == if f.Data? then f.payload else []
  {
    assert [f][..0] == [];
  }

  lemma {:induction false} OnStreamAppend(fs: seq<Frame>, gs: seq<Frame>, id: nat)
    ensures OnStream(fs + gs, id) == OnStream(fs, id) + OnStream(gs, id)
  {
    if gs == [] {
      assert fs + gs == fs;
    } else {
      var init, last := gs[..|gs| - 1], gs[|gs| - 1];
      OnStreamAppend(fs, init, id);
      OnStreamSnoc(fs + init, last, id);
      assert fs + gs == fs + init + [last];
    }
  }

  lemma {:induction false} AllOnStream(fs: seq<Frame>, id: nat)
    requires forall f | f in fs :: Carries(f, id)
    ensures OnStream(fs, id) == fs
  {
    if fs != [] {
      AllOnStream(fs[..|fs| - 1], id);
    }
  }

  lemma {:induction false} NoneOnStream(fs: seq<Frame>, id: nat)
    requires forall f | f in fs :: !Carries(f, id)
    ensures OnStream(fs, id) == []
  {
    if fs != [] {
      NoneOnStream(fs[..|fs| - 1], id);
    }
  }

  // ---------------------------------------------------------------- one stream

  /** Where a message stands: HEADERS first, then DATA, and nothing after END_STREAM. */
  datatype Phase = Idle | Open | Done | Broken

  function Advance(p: Phase, f: Frame): Phase {
    if p.Idle? && f.Headers? then (if f.end then Done else Open)
    else if p.Open? && f.Data? then (if f.end then Done else Open)
    else Broken
  }

  function PhaseOf(fs: seq<Frame>): Phase {
    if fs == [] then Idle else Advance(PhaseOf(fs[..|fs| - 1]), fs[|fs| - 1])
  }

  lemma PhaseSnoc(fs: seq<Frame>, f: Frame)
    ensures PhaseOf(fs + [f]) == Advance(PhaseOf(fs), f)
  {
    assert (fs + [f])[..|fs|] == fs;
  }

  /** In plain terms, what the phases keep track of. */
  lemma {:induction false} PhaseMeans(fs: seq<Frame>)
    requires fs != []
    ensures PhaseOf(fs) != Broken
            <==> fs[0].Headers? && (forall i :: 0 < i < |fs| ==> fs[i].Data?)
                 && (forall i :: 0 <= i < |fs| - 1 && (fs[i].Headers? || fs[i].Data?) ==> !fs[i].end)
    ensures PhaseOf(fs) != Broken ==> (PhaseOf(fs).Done? <==> fs[|fs| - 1].end)
    ensures PhaseOf(fs) != Idle
  {
    var init, last := fs[..|fs| - 1], fs[|fs| - 1];
    if init == [] {
      assert PhaseOf(init) == Idle;
    } else {
      PhaseMeans(init);
      assert forall i :: 0 <= i < |init| ==> init[i] == fs[i];
      assert fs[|init| - 1] == init[|init| - 1];
    }
  }

  lemma {:induction false} BrokenStays(fs: seq<Frame>, gs: seq<Frame>)
    requires PhaseOf(fs) == Broken
    ensures PhaseOf(fs + gs) == Broken
  {
    if gs == [] {
      assert fs + gs == fs;
    } else {
      BrokenStays(fs, gs[..|gs| - 1]);
      PhaseSnoc(fs + gs[..|gs| - 1], gs[|gs| - 1]);
      assert fs + gs == fs + gs[..|gs| - 1] + [gs[|gs| - 1]];
    }
  }

  // ---------------------------------------------------------------- cutting a body into frames

  /** The DATA frames of a body: all but the last of the maximal size, END_STREAM on the last if asked for. */
  function Cut(id: nat, body: Bytes, maxSize: nat, end: bool): seq<Frame>
    requires maxSize >= 1
  {
    if body == [] then []
    else if |body| > maxSize then [Data(id, body[..maxSize], false)] + Cut(id, body[maxSize..], maxSize, end)
    else [Data(id, body, end)]
  }

  /** One turn of the sending loop: n bytes leave, with the flag only on the last turn. */
  lemma CutFirst(sent: seq<Frame>, id: nat, body: Bytes, maxSize: nat, end: bool, n: nat)
    requires maxSize >= 1 && body != [] && n == if |body| > maxSize then maxSize else |body|
    ensures sent + Cut(id, body, maxSize, end)
            == sent + [Data(id, body[..n], end && n == |body|)] + Cut(id, body[n..], maxSize, end)
  {
    if |body| <= maxSize {
      assert body[..n] == body && body[n..] == [];
    }
  }

  /** The frames carry exactly the body. */
  lemma {:induction false} CutCarries(id: nat, body: Bytes, maxSize: nat, end: bool)
    requires maxSize >= 1
    ensures Payloads(Cut(id, body, maxSize, end)) == body
    decreases |body|
  {
    if |body| > maxSize {
      var first, rest := Data(id, body[..maxSize], false), body[maxSize..];
      CutCarries(id, rest, maxSize, end);
      PayloadsAppend([first], Cut(id, rest, maxSize, end));
      PayloadOfOne(first);
    } else if body != [] {
      PayloadOfOne(Data(id, body, end));
    }
  }

  /** They end an open stream exactly if asked to, with the last of them. */
  lemma {:induction false} CutEnds(before: seq<Frame>, id: nat, body: Bytes, maxSize: nat, end: bool)
    requires maxSize >= 1 && PhaseOf(before) == Open
    ensures PhaseOf(before + Cut(id, body, maxSize, end)) == if end && body != [] then Done else Open
    decreases |body|
  {
    if body == [] {
      assert before + [] == before;
    } else if |body| > maxSize {
      var first, rest := Data(id, body[..maxSize], false), body[maxSize..];
      PhaseSnoc(before, first);
      CutEnds(before + [first], id, rest, maxSize, end);
      assert before + ([first] + Cut(id, rest, maxSize, end)) == before + [first] + Cut(id, rest, maxSize, end);
    } else {
      PhaseSnoc(before, Data(id, body, end));
    }
  }

  lemma {:induction false} CutFits(id: nat, body: Bytes, maxSize: nat, end: bool)
    requires maxSize >= 1
    ensures forall f | f in Cut(id, body, maxSize, end) :: f.Data? && f.id == id && 1 <= |f.payload| <= maxSize
    decreases |body|
  {
    if |body| > maxSize {
      CutFits(id, body[maxSize..], maxSize, end);
    }
  }
}
