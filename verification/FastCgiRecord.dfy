/**
 FastCGI records: the classes under `FastCGI\Record` and the frame parser, sections 3.3 and 5 of
 the FastCGI Specification 1.0.
 */
module FastCgiRecord {
  import opened PhpBytes
  import opened FastCgiParams

  const HEADER_LEN := 8
  const MAX_CONTENT_LENGTH := 65535
  const VERSION_1 := 1

  const BEGIN_REQUEST := 1
  const ABORT_REQUEST := 2
  const END_REQUEST := 3
  const PARAMS := 4
  const STDIN := 5
  const STDOUT := 6
  const STDERR := 7
  const DATA := 8
  const GET_VALUES := 9
  const GET_VALUES_RESULT := 10
  const UNKNOWN_TYPE := 11

  const UNKNOWN_ROLE := 3

  /** The fields that a record class adds to the base class. */
  datatype Body =
    | Plain
    | Begin(role: nat, flags: nat, reserved1: Bytes)
    | End(appStatus: nat, protocolStatus: nat, reserved1: Bytes)
    | Params(values: Values)
    | Unknown(type1: nat, reserved1: Bytes)

  datatype Record = Record(
    version: nat, kind: nat, requestId: nat, reserved: nat,
    contentLength: nat, paddingLength: nat, contentData: Bytes, paddingData: Bytes,
    body: Body)

  /** `$classMapping`, with the fields a record of that class has when it is created empty. */
  function EmptyBody(kind: nat): Option<Body> {
    if kind == BEGIN_REQUEST then Some(Begin(UNKNOWN_ROLE, 0, []))
    else if kind == END_REQUEST then Some(End(0, 0, []))
    else if kind == PARAMS || kind == GET_VALUES || kind == GET_VALUES_RESULT then Some(Params([]))
    else if kind == UNKNOWN_TYPE then Some(Unknown(0, []))
    else if ABORT_REQUEST <= kind <= DATA then Some(Plain)
    else None
  }

  predicate SameClass(a: Body, b: Body) {
    a.Plain? == b.Plain? && a.Begin? == b.Begin? && a.End? == b.End? && a.Params? == b.Params? && a.Unknown? == b.Unknown?
  }

  // ---------------------------------------------------------------- writing

  function SetContentData(r: Record, data: Bytes): Record {
    var cut := if |data| > MAX_CONTENT_LENGTH then data[..MAX_CONTENT_LENGTH] else data;
    var extra := |cut| % 8;
    r.(contentLength := |cut|, contentData := cut, paddingLength := if extra != 0 then 8 - extra else 0)
  }

  /** `packPayload` of the record's class. */
  function PackBody(r: Record): Result<Bytes> {
    match r.body
    case Plain => Ok(PackA(r.contentLength, r.contentData))
    case Begin(role, flags, reserved1) => Ok(Pack16(role) + [Chr(flags)] + PackA(5, reserved1))
    case End(appStatus, protocolStatus, reserved1) => Ok(Pack32(appStatus) + [Chr(protocolStatus)] + PackA(3, reserved1))
    case Params(values) => PackPairs(values)
    case Unknown(type1, reserved1) => Ok([Chr(type1)] + PackA(7, reserved1))
  }

  /** A constructor call: the class, its own fields, and the data a plain record is given. */
  datatype Draft = Draft(kind: nat, requestId: nat, body: Body, data: Bytes)

  function Blank(d: Draft): Record {
    Record(VERSION_1, d.kind, d.requestId, 0, 0, 0, [], [], d.body)
  }

  /** The payload that the constructor hands to `setContentData`. */
  function PayloadOf(d: Draft): Result<Bytes> {
    if d.body.Plain? then Ok(d.data) else PackBody(Blank(d))
  }

  function Construct(d: Draft): Result<Record> {
    var payload := PayloadOf(d);
    if payload.Err? then Err else Ok(SetContentData(Blank(d), payload.value))
  }

  function Header(r: Record): (h: Bytes)
    ensures |h| == HEADER_LEN
  {
    [Chr(r.version), Chr(r.kind)] + Pack16(r.requestId) + Pack16(r.contentLength)
    + [Chr(r.paddingLength), Chr(r.reserved)]
  }

  function ToString(r: Record): Result<Bytes> {
    var payload := PackBody(r);
    if payload.Err? then Err
    else Ok(Header(r) + payload.value + PackA(r.paddingLength, r.paddingData))
  }

  // ---------------------------------------------------------------- reading

  datatype Fields = Fields(version: nat, kind: nat, requestId: nat, contentLength: nat, paddingLength: nat, reserved: nat)

  function UnpackHeader(s: Bytes): Fields
    requires |s| >= HEADER_LEN
  {
    Fields(Ord(s[0]), Ord(s[1]), Unpack16(s[2..]), Unpack16(s[4..]), Ord(s[6]), Ord(s[7]))
  }

  predicate HasFrame(buffer: Bytes) {
    |buffer| >= HEADER_LEN &&
    var h := UnpackHeader(buffer);
    |buffer| >= HEADER_LEN + h.contentLength + h.paddingLength
  }

  /** `unpackPayload` of the class; it sees the whole rest of the buffer. */
  function UnpackBody(empty: Body, contentLength: nat, payload: Bytes): Result<Body> {
    match empty
    case Plain => Ok(Plain)
    case Begin(_, _, _) =>
      if |payload| < 8 then Err else Ok(Begin(Unpack16(payload), Ord(payload[2]), payload[3..8]))
    case End(_, _, _) =>
      if |payload| < 8 then Err else Ok(End(Unpack32(payload), Ord(payload[4]), payload[5..8]))
    case Params(_) =>
      var values := ReadPairs(payload, contentLength, []);
      if values.Err? then Err else Ok(Params(values.value))
    case Unknown(_, _) =>
      if |payload| < 8 then Err else Ok(Unknown(Ord(payload[0]), payload[1..8]))
  }

  /** `parseFrame`: the record and the buffer behind it; every exception is `Err`. */
  function ParseFrame(buffer: Bytes): (r: Result<(Record, Bytes)>)
    ensures r.Ok? ==> |r.value.1| + HEADER_LEN <= |buffer|
  {
    if |buffer| < HEADER_LEN then Err
    else
      var h := UnpackHeader(buffer);
      var empty := EmptyBody(h.kind);
      var payload := buffer[HEADER_LEN..];
      if empty.None? || |payload| < h.contentLength + h.paddingLength then Err
      else
        var body := if h.contentLength > 0 then UnpackBody(empty.value, h.contentLength, payload) else Ok(empty.value);
        if body.Err? then Err
        else
          var end := h.contentLength + h.paddingLength;
          Ok((Record(h.version, h.kind, h.requestId, h.reserved, h.contentLength, h.paddingLength,
                     payload[..h.contentLength], payload[h.contentLength..end], body.value),
              payload[end..]))
  }

  /** When a buffer holds a whole frame. */
  lemma HasFrameExact(buffer: Bytes)
    ensures HasFrame(buffer) <==>
              |buffer| >= 8 && |buffer| >= 8 + Ord(buffer[4]) * 0x100 + Ord(buffer[5]) + Ord(buffer[6])
  {
  }

  /** When `parseFrame` throws: without a whole frame, for a type that is not in the class table, and where the class
      cannot read its fields. */
  lemma ParseFailsExactly(buffer: Bytes)
    ensures ParseFrame(buffer).Err? <==>
              || !HasFrame(buffer)
              || !(BEGIN_REQUEST <= Ord(buffer[1]) <= UNKNOWN_TYPE)
              || (var length := UnpackHeader(buffer).contentLength;
                  length > 0 && FieldsFail(Ord(buffer[1]), length, buffer[8..]))
  {
  }

  /** A fixed-size class needs eight bytes, wherever they come from; the others need pairs that can be read. */
  predicate FieldsFail(kind: nat, contentLength: nat, payload: Bytes) {
    if kind in {BEGIN_REQUEST, END_REQUEST, UNKNOWN_TYPE} then |payload| < 8
    else if kind in {PARAMS, GET_VALUES, GET_VALUES_RESULT} then ReadPairs(payload, contentLength, []).Err?
    else false
  }

  /** `parseFrame` repeated while `hasFrame` holds. */
  function Frames(buffer: Bytes): (Result<seq<Record>>, Bytes)
    decreases |buffer|
  {
    if !HasFrame(buffer) then (Ok([]), buffer)
    else
      var first := ParseFrame(buffer);
      if first.Err? then (Err, buffer)
      else
        Prepend([first.value.0], Frames(first.value.1))
  }

  /** Records read earlier, in front of what the rest of the buffer gave. */
  function Prepend(got: seq<Record>, more: (Result<seq<Record>>, Bytes)): (Result<seq<Record>>, Bytes) {
    (if more.0.Err? then Err else Ok(got + more.0.value), more.1)
  }

  lemma PrependNothing(more: (Result<seq<Record>>, Bytes))
    ensures Prepend([], more) == more
  {
    assert more.0.Ok? ==> [] + more.0.value == more.0.value;
  }

  lemma PrependTwice(a: seq<Record>, b: seq<Record>, more: (Result<seq<Record>>, Bytes))
    ensures Prepend(a, Prepend(b, more)) == Prepend(a + b, more)
  {
    assert more.0.Ok? ==> a + (b + more.0.value) == a + b + more.0.value;
  }

  /** The reading loop of a FastCGI client. */
  method ReadFrames(input: Bytes) returns (records: Result<seq<Record>>, left: Bytes)
    ensures (records, left) == Frames(input)
  {
    var got: seq<Record> := [];
    left := input;
    PrependNothing(Frames(input));
    while HasFrame(left)
      invariant Frames(input) == Prepend(got, Frames(left))
      decreases |left|
    {
      var first := ParseFrame(left);
      if first.Err? {
        return Err, left;
      }
      PrependTwice(got, [first.value.0], Frames(first.value.1));
      got := got + [first.value.0];
      left := first.value.1;
    }
    assert got + [] == got;
    records := Ok(got);
  }

  // ---------------------------------------------------------------- round trip

  predicate ProperDraft(d: Draft) {
    && EmptyBody(d.kind).Some? && SameClass(d.body, EmptyBody(d.kind).value)
  }

  /** A Params payload must fit the 16-bit length; a plain record cuts its data itself. */
  predicate Fits(d: Draft) {
    d.body.Params? ==> PayloadOf(d).Ok? && |PayloadOf(d).value| <= MAX_CONTENT_LENGTH
  }

  ghost predicate ArrayParams(d: Draft) {
    d.body.Params? ==> IsPhpArray(d.body.values)
  }

  /** The class fields as 8, 16 and 32 bits and fixed-size strings carry them. */
  function Carried(b: Body): Body {
    match b
    case Plain => Plain
    case Begin(role, flags, reserved1) => Begin(role % 0x1_0000, flags % 0x100, PackA(5, reserved1))
    case End(app, protocol, reserved1) => End(app % 0x1_0000_0000, protocol % 0x100, PackA(3, reserved1))
    case Params(values) => Params(Present(values))
    case Unknown(type1, reserved1) => Unknown(type1 % 0x100, PackA(7, reserved1))
  }

  /** The record that a reader of the wire form must end up with. */
  function Received(r: Record): Record {
    r.(requestId := r.requestId % 0x1_0000, paddingData := PackA(r.paddingLength, r.paddingData), body := Carried(r.body))
  }

  lemma HeaderRoundTrip(r: Record, rest: Bytes)
    requires r.version < 0x100 && r.kind < 0x100 && r.reserved < 0x100
    requires r.contentLength < 0x1_0000 && r.paddingLength < 0x100
    ensures UnpackHeader(Header(r) + rest)
            == Fields(r.version, r.kind, r.requestId % 0x1_0000, r.contentLength, r.paddingLength, r.reserved)
  {
    var s := Header(r) + rest;
    var tail4 := [Chr(r.paddingLength), Chr(r.reserved)] + rest;
    assert s[2..] == Pack16(r.requestId) + (Pack16(r.contentLength) + tail4);
    assert s[4..] == Pack16(r.contentLength) + tail4;
    Unpack16Inverts(r.requestId, Pack16(r.contentLength) + tail4);
    Unpack16Inverts(r.contentLength, tail4);
  }

  lemma BodyRoundTrip(d: Draft, r: Record, rest: Bytes)
    requires ProperDraft(d) && ArrayParams(d) && Construct(d) == Ok(r) && Fits(d) && r.contentLength > 0
    ensures PackBody(r).Ok?
    ensures UnpackBody(EmptyBody(d.kind).value, r.contentLength, PackBody(r).value + rest) == Ok(Carried(d.body))
  {
    match d.body
    case Plain =>
    case Begin(role, flags, reserved1) =>
      var tail := [Chr(flags)] + PackA(5, reserved1) + rest;
      assert PackBody(r).value + rest == Pack16(role) + tail;
      Unpack16Inverts(role, tail);
      assert (PackBody(r).value + rest)[3..8] == PackA(5, reserved1);
    case End(app, protocol, reserved1) =>
      var tail := [Chr(protocol)] + PackA(3, reserved1) + rest;
      assert PackBody(r).value + rest == Pack32(app) + tail;
      Unpack32Inverts(app, tail);
      assert (PackBody(r).value + rest)[5..8] == PackA(3, reserved1);
    case Params(values) =>
      ParamsRoundTrip(values, rest);
    case Unknown(type1, reserved1) =>
      assert (PackBody(r).value + rest)[1..8] == PackA(7, reserved1);
  }

  lemma EmptyPayload(d: Draft, r: Record)
    requires ProperDraft(d) && ArrayParams(d) && Construct(d) == Ok(r) && Fits(d) && r.contentLength == 0
    ensures Carried(d.body) == EmptyBody(d.kind).value
  {
    if d.body.Params? {
      PackSucceedsIff(d.body.values);
    }
  }

  lemma PayloadIsContent(d: Draft, r: Record)
    requires Construct(d) == Ok(r) && Fits(d)
    ensures PackBody(r) == Ok(r.contentData) && |r.contentData| == r.contentLength <= MAX_CONTENT_LENGTH
    ensures r.paddingLength < 8 && (r.contentLength + r.paddingLength) % 8 == 0
    ensures r == Blank(d).(contentLength := r.contentLength, contentData := r.contentData, paddingLength := r.paddingLength)
  {
  }

  lemma FrameText(h: Bytes, content: Bytes, pad: Bytes, rest: Bytes)
    ensures var payload := content + (pad + rest);
            && (h + payload)[|h|..] == payload && payload[..|content|] == content
            && payload[|content|..|content| + |pad|] == pad && payload[|content| + |pad|..] == rest
  {
  }

  /** How `parseFrame` cuts a buffer whose header and class fields are known. */
  lemma ParseCut(h: Bytes, content: Bytes, pad: Bytes, rest: Bytes, f: Fields, body: Body)
    requires |h| == HEADER_LEN && UnpackHeader(h + (content + (pad + rest))) == f
    requires f.contentLength == |content| && f.paddingLength == |pad| && EmptyBody(f.kind).Some?
    requires if |content| > 0 then UnpackBody(EmptyBody(f.kind).value, |content|, content + (pad + rest)) == Ok(body)
             else body == EmptyBody(f.kind).value
    ensures HasFrame(h + (content + (pad + rest)))
    ensures ParseFrame(h + (content + (pad + rest)))
            == Ok((Record(f.version, f.kind, f.requestId, f.reserved, |content|, |pad|, content, pad, body), rest))
  {
    FrameText(h, content, pad, rest);
  }

  /** From the payload's shape to the record's: no need to know how the record was built. */
  lemma WireOfContent(r: Record, rest: Bytes)
    requires PackBody(r) == Ok(r.contentData) && |r.contentData| == r.contentLength
    ensures ToString(r).Ok? && |ToString(r).value| == 8 + (r.contentLength + r.paddingLength)
    ensures ToString(r).value + rest == Header(r) + (r.contentData + (PackA(r.paddingLength, r.paddingData) + rest))
  {
    WireText(Header(r), r.contentData, PackA(r.paddingLength, r.paddingData), rest);
  }

  lemma WireShape(d: Draft, r: Record, rest: Bytes)
    requires Construct(d) == Ok(r) && Fits(d)
    ensures ToString(r).Ok? && |ToString(r).value| % 8 == 0
    ensures ToString(r).value + rest == Header(r) + (r.contentData + (PackA(r.paddingLength, r.paddingData) + rest))
  {
    PayloadIsContent(d, r);
    WireOfContent(r, rest);
    EightMore(r.contentLength + r.paddingLength);
  }

  lemma EightMore(n: nat)
    ensures (8 + n) % 8 == n % 8
  {
  }

  lemma WireText(h: Bytes, content: Bytes, pad: Bytes, rest: Bytes)
    ensures h + content + pad + rest == h + (content + (pad + rest))
  {
  }

  /** Parsing the wire form of one record, whatever bytes follow. */
  lemma RecordRoundTrip(d: Draft, r: Record, rest: Bytes)
    requires ProperDraft(d) && ArrayParams(d) && Construct(d) == Ok(r) && Fits(d)
    ensures ToString(r).Ok? && |ToString(r).value| % 8 == 0
    ensures HasFrame(ToString(r).value + rest)
    ensures ParseFrame(ToString(r).value + rest) == Ok((Received(r), rest))
  {
    PayloadIsContent(d, r);
    WireShape(d, r, rest);
    var pad := PackA(r.paddingLength, r.paddingData);
    HeaderRoundTrip(r, r.contentData + (pad + rest));
    if r.contentLength > 0 {
      BodyRoundTrip(d, r, pad + rest);
    } else {
      EmptyPayload(d, r);
    }
    var f := Fields(r.version, r.kind, r.requestId % 0x1_0000, r.contentLength, r.paddingLength, r.reserved);
    ParseCut(Header(r), r.contentData, pad, rest, f, Carried(d.body));
  }

  /** An oversized Params payload breaks the framing: the rest of the buffer is never what the
      parser leaves. So the round trip holds exactly for payloads that fit. */
  lemma OversizedParamsLoseFraming(d: Draft, r: Record, rest: Bytes)
    requires ProperDraft(d) && d.body.Params? && Construct(d) == Ok(r) && !Fits(d)
    ensures ToString(r).Ok?
    ensures ParseFrame(ToString(r).value + rest).Ok? ==> ParseFrame(ToString(r).value + rest).value.1 != rest
  {
    var payload := PackBody(r).value;
    var wire := ToString(r).value + rest;
    var behind := payload + (PackA(r.paddingLength, r.paddingData) + rest);
    assert r.contentLength == MAX_CONTENT_LENGTH && r.paddingLength == 1;
    assert wire == Header(r) + behind;
    HeaderRoundTrip(r, behind);
    if ParseFrame(wire).Ok? {
      assert |ParseFrame(wire).value.1| == |behind| - MAX_CONTENT_LENGTH - 1;
    }
  }

  // ---------------------------------------------------------------- streams of records

  ghost predicate GoodDraft(d: Draft) {
    ProperDraft(d) && ArrayParams(d) && Construct(d).Ok? && Fits(d)
  }

  ghost predicate GoodDrafts(ds: seq<Draft>) {
    ds == [] || (GoodDraft(ds[0]) && GoodDrafts(ds[1..]))
  }

  /** One record as it is written: `(string) new Record(...)`. */
  function WireOf(d: Draft): Result<Bytes> {
    var r := Construct(d);
    if r.Err? then Err else ToString(r.value)
  }

  /** Records written one after the other. */
  function Serialise(ds: seq<Draft>): Result<Bytes> {
    if ds == [] then Ok([])
    else
      var first, rest := WireOf(ds[0]), Serialise(ds[1..]);
      if first.Err? || rest.Err? then Err else Ok(first.value + rest.value)
  }

  /** The record read back from one draft. */
  ghost function ReadBack(d: Draft): Record
    requires GoodDraft(d)
  {
    Received(Construct(d).value)
  }

  ghost function ReadBackAll(ds: seq<Draft>): seq<Record>
    requires GoodDrafts(ds)
  {
    if ds == [] then [] else [ReadBack(ds[0])] + ReadBackAll(ds[1..])
  }

  predicate BodyInRange(b: Body) {
    match b
    case Plain => true
    case Begin(role, flags, reserved1) => role < 0x1_0000 && flags < 0x100 && |reserved1| == 5
    case End(app, protocol, reserved1) => app < 0x1_0000_0000 && protocol < 0x100 && |reserved1| == 3
    case Params(values) => forall i :: 0 <= i < |values| ==> values[i].1.Some?
    case Unknown(type1, reserved1) => type1 < 0x100 && |reserved1| == 7
  }

  /** Fields that fit their places on the wire, and parameters without nulls. */
  predicate InRange(d: Draft) {
    d.requestId < 0x1_0000 && BodyInRange(d.body)
  }

  lemma CarriedSame(b: Body)
    requires BodyInRange(b)
    ensures Carried(b) == b
  {
    if b.Params? {
      AllPresent(b.values);
    }
  }

  /** What is read back for a draft in range differs from the record that was written only in its padding. */
  lemma ReadBackSame(d: Draft)
    requires GoodDraft(d) && InRange(d)
    ensures var r := Construct(d).value;
            ReadBack(d) == r.(paddingData := PackA(r.paddingLength, r.paddingData))
  {
    PayloadIsContent(d, Construct(d).value);
    CarriedSame(d.body);
  }

  type Reader = Bytes -> (Result<seq<Record>>, Bytes)

  /** To a reader, the bytes `w` are one whole record `r`, whatever follows. */
  ghost predicate Reads(reader: Reader, w: Bytes, r: Record) {
    && |w| % 8 == 0
    && forall rest: Bytes :: reader(w + rest) == Prepend([r], reader(rest))
  }

  ghost predicate AllRead(reader: Reader, ws: seq<Bytes>, rs: seq<Record>) {
    |ws| == |rs| && forall i :: 0 <= i < |ws| ==> Reads(reader, ws[i], rs[i])
  }

  lemma GoodDraftReads(d: Draft)
    requires GoodDraft(d)
    ensures WireOf(d).Ok? && Reads(Frames, WireOf(d).value, ReadBack(d))
  {
    var r := Construct(d).value;
    RecordRoundTrip(d, r, []);
    var w := WireOf(d).value;
    forall rest: Bytes ensures Frames(w + rest) == Prepend([ReadBack(d)], Frames(rest)) {
      RecordRoundTrip(d, r, rest);
    }
  }

  lemma {:induction false} ConcatReads(reader: Reader, ws: seq<Bytes>, rs: seq<Record>, tail: Bytes)
    requires AllRead(reader, ws, rs)
    ensures reader(Concat(ws) + tail) == Prepend(rs, reader(tail))
  {
    if ws == [] {
      assert [] + tail == tail;
      PrependNothing(reader(tail));
    } else {
      ConcatReads(reader, ws[1..], rs[1..], tail);
      var rest := Concat(ws[1..]);
      assert Reads(reader, ws[0], rs[0]);
      assert Concat(ws) + tail == ws[0] + (rest + tail);
      PrependTwice([rs[0]], rs[1..], reader(tail));
      assert rs == [rs[0]] + rs[1..];
    }
  }

  lemma {:induction false} ConcatOfMultiples(ws: seq<Bytes>)
    requires forall i :: 0 <= i < |ws| ==> |ws[i]| % 8 == 0
    ensures |Concat(ws)| % 8 == 0
  {
    if ws != [] {
      ConcatOfMultiples(ws[1..]);
      assert |ws[0]| % 8 == 0;
    }
  }

  lemma {:induction false} DraftsRead(ds: seq<Draft>) returns (ws: seq<Bytes>)
    requires GoodDrafts(ds)
    ensures Serialise(ds) == Ok(Concat(ws)) && AllRead(Frames, ws, ReadBackAll(ds))
    ensures |ws| == |ds| && forall i :: 0 <= i < |ds| ==> WireOf(ds[i]) == Ok(ws[i])
  {
    if ds == [] {
      ws := [];
    } else {
      GoodDraftReads(ds[0]);
      var rest := DraftsRead(ds[1..]);
      ws := [WireOf(ds[0]).value] + rest;
      assert ws[1..] == rest;
      assert forall i :: 1 <= i < |ds| ==> ds[i] == ds[1..][i - 1];
    }
  }

  /** Any sequence of records, written one after the other, is read back record by record, with
      exactly its own bytes used up and a multiple of 8 bytes in all. */
  lemma StreamRoundTrip(ds: seq<Draft>, tail: Bytes)
    requires GoodDrafts(ds)
    ensures Serialise(ds).Ok? && |Serialise(ds).value| % 8 == 0
    ensures Frames(Serialise(ds).value + tail) == Prepend(ReadBackAll(ds), Frames(tail))
  {
    var ws := DraftsRead(ds);
    ConcatReads(Frames, ws, ReadBackAll(ds), tail);
    ConcatOfMultiples(ws);
  }

  /** A record of which the last bytes are still missing is no frame, and stays in the buffer as it is. */
  lemma IncompleteRecord(d: Draft, n: nat)
    requires GoodDraft(d) && WireOf(d).Ok? && n < |WireOf(d).value|
    ensures var w := WireOf(d).value;
            !HasFrame(w[..n]) && Frames(w[..n]) == (Ok([]), w[..n])
  {
    var r, w := Construct(d).value, WireOf(d).value;
    PayloadIsContent(d, r);
    WireOfContent(r, []);
    assert w + [] == w;
    if n >= HEADER_LEN {
      assert w[..n] == Header(r) + w[HEADER_LEN..n];
      HeaderRoundTrip(r, w[HEADER_LEN..n]);
    }
  }

  /** And while some of its bytes are missing, the reader leaves it alone. */
  ghost predicate Waits(reader: Reader, w: Bytes) {
    forall n: nat | n < |w| :: reader(w[..n]) == (Ok([]), w[..n])
  }

  ghost predicate AllWait(reader: Reader, ws: seq<Bytes>) {
    reader([]) == (Ok([]), []) && forall i :: 0 <= i < |ws| ==> Waits(reader, ws[i])
  }

  /** After n bytes, k of the records are complete. */
  predicate Complete(ws: seq<Bytes>, n: nat, k: nat) {
    && k <= |ws| && |Concat(ws[..k])| <= n <= |Concat(ws)|
    && (k < |ws| ==> n < |Concat(ws[..k + 1])|)
  }

  lemma NoneComplete(reader: Reader, ws: seq<Bytes>, n: nat)
    requires AllWait(reader, ws) && n <= |Concat(ws)| && (ws != [] ==> n < |ws[0]|)
    ensures Complete(ws, n, 0) && reader(Concat(ws)[..n]) == (Ok([]), Concat(ws)[..n])
  {
    assert ws[..0] == [];
    if ws != [] {
      assert Waits(reader, ws[0]);
      assert Concat(ws)[..n] == ws[0][..n];
      assert ws[..1] == [ws[0]] && ws[..1][1..] == [] && ws[0] + [] == ws[0];
    }
  }

  lemma OneMoreComplete(ws: seq<Bytes>, n: nat, k: nat)
    requires ws != [] && |ws[0]| <= n && Complete(ws[1..], n - |ws[0]|, k)
    ensures Complete(ws, n, k + 1)
    ensures var used := |Concat(ws[1..][..k])|;
            && |Concat(ws[..k + 1])| == |ws[0]| + used
            && Concat(ws)[..n] == ws[0] + Concat(ws[1..])[..n - |ws[0]|]
            && Concat(ws)[|ws[0]| + used..n] == Concat(ws[1..])[used..n - |ws[0]|]
  {
    assert ws[..k + 1][1..] == ws[1..][..k];
    if k + 1 < |ws| {
      assert ws[..k + 2][1..] == ws[1..][..k + 1];
    }
  }

  lemma {:induction false} PrefixOfConcat(reader: Reader, ws: seq<Bytes>, rs: seq<Record>, n: nat) returns (k: nat)
    requires AllRead(reader, ws, rs) && AllWait(reader, ws) && n <= |Concat(ws)|
    ensures Complete(ws, n, k) && reader(Concat(ws)[..n]) == (Ok(rs[..k]), Concat(ws)[|Concat(ws[..k])|..n])
  {
    if ws == [] || n < |ws[0]| {
      k := 0;
      NoneComplete(reader, ws, n);
      assert ws[..0] == [];
    } else {
      var k1 := PrefixOfConcat(reader, ws[1..], rs[1..], n - |ws[0]|);
      OneMoreComplete(ws, n, k1);
      k := k1 + 1;
      assert Reads(reader, ws[0], rs[0]);
      assert [rs[0]] + rs[1..][..k1] == rs[..k];
    }
  }

  lemma {:induction false} DraftsWait(ds: seq<Draft>, ws: seq<Bytes>)
    requires GoodDrafts(ds) && |ws| == |ds| && forall i :: 0 <= i < |ds| ==> WireOf(ds[i]) == Ok(ws[i])
    ensures AllWait(Frames, ws)
  {
    if ds != [] {
      forall n: nat | n < |ws[0]| ensures Frames(ws[0][..n]) == (Ok([]), ws[0][..n]) {
        IncompleteRecord(ds[0], n);
      }
      DraftsWait(ds[1..], ws[1..]);
      assert forall i :: 1 <= i < |ws| ==> ws[i] == ws[1..][i - 1];
    }
  }

  /**
   However many bytes of a stream of records have arrived, the reader gets exactly the records that are complete
   in them, and leaves the bytes of the one that is not.
   */
  lemma PrefixReads(ds: seq<Draft>, n: nat) returns (ws: seq<Bytes>, k: nat)
    requires GoodDrafts(ds) && Serialise(ds).Ok? && n <= |Serialise(ds).value|
    ensures |ws| == |ds| == |ReadBackAll(ds)| && (forall i :: 0 <= i < |ds| ==> WireOf(ds[i]) == Ok(ws[i]))
    ensures Serialise(ds) == Ok(Concat(ws)) && Complete(ws, n, k)
    ensures Frames(Serialise(ds).value[..n]) == (Ok(ReadBackAll(ds)[..k]), Concat(ws)[|Concat(ws[..k])|..n])
  {
    ws := DraftsRead(ds);
    DraftsWait(ds, ws);
    k := PrefixOfConcat(Frames, ws, ReadBackAll(ds), n);
  }

  lemma {:induction false} SerialiseAppend(xs: seq<Draft>, ys: seq<Draft>)
    ensures Serialise(xs).Ok? && Serialise(ys).Ok? ==>
              Serialise(xs + ys) == Ok(Serialise(xs).value + Serialise(ys).value)
    ensures Serialise(xs).Err? || Serialise(ys).Err? ==> Serialise(xs + ys).Err?
  {
    if xs == [] {
      assert xs + ys == ys;
      assert Serialise(ys).Ok? ==> [] + Serialise(ys).value == Serialise(ys).value;
    } else {
      assert (xs + ys)[1..] == xs[1..] + ys;
      SerialiseAppend(xs[1..], ys);
      if Serialise(xs).Ok? && Serialise(ys).Ok? {
        Regroup(WireOf(xs[0]).value, Serialise(xs[1..]).value, Serialise(ys).value);
      }
    }
  }

  lemma {:induction false} GoodAppend(xs: seq<Draft>, ys: seq<Draft>)
    requires GoodDrafts(xs) && GoodDrafts(ys)
    ensures GoodDrafts(xs + ys)
  {
    if xs == [] {
      assert xs + ys == ys;
    } else {
      assert (xs + ys)[1..] == xs[1..] + ys;
      GoodAppend(xs[1..], ys);
    }
  }

  lemma ReadBackFirst(ds: seq<Draft>)
    requires GoodDrafts(ds) && ds != []
    ensures GoodDraft(ds[0]) && GoodDrafts(ds[1..]) && ReadBackAll(ds) == [ReadBack(ds[0])] + ReadBackAll(ds[1..])
  {
  }

  lemma {:induction false} ReadBackAppend(xs: seq<Draft>, ys: seq<Draft>)
    requires GoodDrafts(xs) && GoodDrafts(ys) && GoodDrafts(xs + ys)
    ensures ReadBackAll(xs + ys) == ReadBackAll(xs) + ReadBackAll(ys)
  {
    if xs == [] {
      assert xs + ys == ys;
    } else {
      HeadAndTail(xs, ys);
      ReadBackFirst(xs);
      ReadBackFirst(xs + ys);
      ReadBackAppend(xs[1..], ys);
      Regroup([ReadBack(xs[0])], ReadBackAll(xs[1..]), ReadBackAll(ys));
    }
  }

  lemma HeadAndTail<T>(xs: seq<T>, ys: seq<T>)
    requires xs != []
    ensures (xs + ys)[0] == xs[0] && (xs + ys)[1..] == xs[1..] + ys
  {
  }
}
