/**
 `FastCGI\Request` and `FastCGI\Response`: splitting a request into records, and putting a response
 together from them.
 */
module FastCgiMessage {
  import opened PhpBytes
  import opened FastCgiParams
  import opened FastCgiRecord

  const DEFAULT_REQUEST_ID := 1
  const RESPONDER := 1
  const KEEP_CONN := 1

  datatype Request = Request(keepConn: bool, params: Values, body: Bytes)

  function BeginDraft(keepConn: bool): Draft {
    Draft(BEGIN_REQUEST, DEFAULT_REQUEST_ID, Begin(RESPONDER, if keepConn then KEEP_CONN else 0, []), [])
  }

  function ParamsDraft(values: Values): Draft {
    Draft(PARAMS, DEFAULT_REQUEST_ID, Params(values), [])
  }

  function StdinDraft(data: Bytes): Draft {
    Draft(STDIN, DEFAULT_REQUEST_ID, Plain, data)
  }

  /** PHP's `empty()` on a string. */
  predicate IsEmpty(s: Bytes) {
    s == "" || s == "0"
  }

  /** One Stdin record per 65535 bytes; each record cuts the rest of the body itself. */
  function StdinDrafts(body: Bytes): (r: seq<Draft>)
    decreases |body|
  {
    [StdinDraft(body)] + if |body| <= MAX_CONTENT_LENGTH then [] else StdinDrafts(body[MAX_CONTENT_LENGTH..])
  }

  /** The Stdin stream is closed by an empty record. */
  function StdinPart(body: Bytes): seq<Draft> {
    if IsEmpty(body) then [] else StdinDrafts(body) + [StdinDraft([])]
  }

  function Prologue(req: Request): seq<Draft> {
    [BeginDraft(req.keepConn), ParamsDraft(req.params), ParamsDraft([])]
  }

  function RequestDrafts(req: Request): seq<Draft> {
    Prologue(req) + StdinPart(req.body)
  }

  /** `Request::__toString`; the string template ends with a closing brace of its own. */
  method RequestToString(req: Request) returns (message: Result<Bytes>)
    ensures var wire := Serialise(RequestDrafts(req));
            message == if wire.Err? then Err else Ok(wire.value + "}")
  {
    var head := Serialise(Prologue(req));
    if head.Err? {
      SerialiseAppend(Prologue(req), StdinPart(req.body));
      return Err;
    }
    if IsEmpty(req.body) {
      assert RequestDrafts(req) == Prologue(req);
      return Ok(head.value + "}");
    }
    var body, stdinList := req.body, [];
    while true
      invariant stdinList + StdinDrafts(body) == StdinDrafts(req.body)
      decreases |body|
    {
      var stdin := StdinDraft(body);
      var stdinLength := if |body| > MAX_CONTENT_LENGTH then MAX_CONTENT_LENGTH else |body|;
      assert stdinLength == Construct(stdin).value.contentLength;
      ghost var before := stdinList;
      stdinList := stdinList + [stdin];
      if stdinLength == |body| {
        assert StdinDrafts(body) == [stdin];
        break;
      }
      body := body[stdinLength..];
      assert before + ([stdin] + StdinDrafts(body)) == stdinList + StdinDrafts(body);
    }
    assert stdinList == StdinDrafts(req.body);
    stdinList := stdinList + [StdinDraft([])];
    var stdin := Serialise(stdinList);
    SerialiseAppend(Prologue(req), stdinList);
    if stdin.Err? {
      return Err;
    }
    message := Ok(head.value + stdin.value + "}");
  }

  // ---------------------------------------------------------------- responses

  predicate Verify(records: seq<Record>) {
    records != [] && records[|records| - 1].kind == END_REQUEST
  }

  /** The contents of all records of one kind, in order. */
  function Collect(records: seq<Record>, kind: nat): Bytes {
    if records == [] then []
    else (if records[0].kind == kind then records[0].contentData else []) + Collect(records[1..], kind)
  }

  /** `Response::__construct`: body and error text, or an exception for a bad record list. */
  method NewResponse(records: seq<Record>) returns (r: Result<(Bytes, Bytes)>)
    requires forall i :: 0 <= i < |records| ==> |records[i].contentData| == records[i].contentLength
    ensures r == if Verify(records) then Ok((Collect(records, STDOUT), Collect(records, STDERR))) else Err
  {
    if !Verify(records) {
      return Err;
    }
    var body, error: Bytes := [], [];
    for i := 0 to |records|
      invariant body == Collect(records[..i], STDOUT)
      invariant error == Collect(records[..i], STDERR)
    {
      var record := records[i];
      assert records[..i + 1] == records[..i] + [record];
      CollectSnoc(records[..i], record, STDOUT);
      CollectSnoc(records[..i], record, STDERR);
      if record.kind == STDOUT {
        if record.contentLength > 0 {
          body := body + record.contentData;
        }
      } else if record.kind == STDERR {
        if record.contentLength > 0 {
          error := error + record.contentData;
        }
      }
    }
    assert records[..|records|] == records;
    r := Ok((body, error));
  }

  lemma {:induction false} CollectSnoc(rs: seq<Record>, r: Record, kind: nat)
    ensures Collect(rs + [r], kind) == Collect(rs, kind) + if r.kind == kind then r.contentData else []
  {
    if rs == [] {
      assert rs + [r] == [r];
    } else {
      assert (rs + [r])[1..] == rs[1..] + [r];
      CollectSnoc(rs[1..], r, kind);
    }
  }

  // ---------------------------------------------------------------- end to end

  lemma ReadBackOne(d: Draft)
    requires GoodDraft(d)
    ensures GoodDrafts([d]) && ReadBackAll([d]) == [ReadBack(d)]
  {
    assert [d][1..] == [];
  }

  lemma StdinReadBack(data: Bytes)
    ensures GoodDraft(StdinDraft(data))
    ensures var r := ReadBack(StdinDraft(data));
            && r.kind == STDIN && r.requestId == DEFAULT_REQUEST_ID
            && r.contentData == (if |data| > MAX_CONTENT_LENGTH then data[..MAX_CONTENT_LENGTH] else data)
            && r.contentLength == |r.contentData|
  {
  }

  ghost predicate AllOfKind(rs: seq<Record>, kind: nat) {
    forall i :: 0 <= i < |rs| ==> rs[i].kind == kind && rs[i].requestId == DEFAULT_REQUEST_ID
  }

  /** The first n records are full. */
  ghost predicate Full(rs: seq<Record>, n: int) {
    forall i :: 0 <= i < n && i < |rs| ==> rs[i].contentLength == MAX_CONTENT_LENGTH
  }

  lemma {:induction false} StdinCarriesBody(body: Bytes)
    ensures GoodDrafts(StdinDrafts(body))
    ensures Collect(ReadBackAll(StdinDrafts(body)), STDIN) == body
    ensures AllOfKind(ReadBackAll(StdinDrafts(body)), STDIN)
    ensures |ReadBackAll(StdinDrafts(body))| >= 1
    ensures Full(ReadBackAll(StdinDrafts(body)), |ReadBackAll(StdinDrafts(body))| - 1)
    decreases |body|
  {
    StdinReadBack(body);
    var first := StdinDraft(body);
    var rest := if |body| <= MAX_CONTENT_LENGTH then [] else StdinDrafts(body[MAX_CONTENT_LENGTH..]);
    assert StdinDrafts(body) == [first] + rest && StdinDrafts(body)[1..] == rest;
    if |body| > MAX_CONTENT_LENGTH {
      StdinCarriesBody(body[MAX_CONTENT_LENGTH..]);
      assert body == body[..MAX_CONTENT_LENGTH] + body[MAX_CONTENT_LENGTH..];
    }
    var rs := ReadBackAll(StdinDrafts(body));
    assert rs == [ReadBack(first)] + ReadBackAll(rest) && rs[1..] == ReadBackAll(rest);
  }

  ghost predicate GoodParams(vs: Values) {
    IsPhpArray(vs) && PackPairs(vs).Ok? && |PackPairs(vs).value| <= MAX_CONTENT_LENGTH
  }

  lemma BeginReadBack(keepConn: bool)
    ensures GoodDraft(BeginDraft(keepConn))
    ensures ReadBack(BeginDraft(keepConn)).kind == BEGIN_REQUEST
    ensures ReadBack(BeginDraft(keepConn)).requestId == DEFAULT_REQUEST_ID
    ensures ReadBack(BeginDraft(keepConn)).body == Begin(RESPONDER, if keepConn then KEEP_CONN else 0, PackA(5, []))
  {
  }

  lemma ParamsReadBack(vs: Values)
    requires GoodParams(vs)
    ensures GoodDraft(ParamsDraft(vs))
    ensures ReadBack(ParamsDraft(vs)).kind == PARAMS && ReadBack(ParamsDraft(vs)).body == Params(Present(vs))
    ensures ReadBack(ParamsDraft(vs)).requestId == DEFAULT_REQUEST_ID
    ensures vs == [] ==> ReadBack(ParamsDraft(vs)).contentLength == 0
  {
  }

  /** The three records in front of the body. */
  ghost predicate IsPrologue(rs: seq<Record>, req: Request) {
    && |rs| == 3 && (forall i :: 0 <= i < 3 ==> rs[i].requestId == DEFAULT_REQUEST_ID)
    && rs[0].kind == BEGIN_REQUEST
    && rs[0].body == Begin(RESPONDER, if req.keepConn then KEEP_CONN else 0, PackA(5, []))
    && rs[1].kind == PARAMS && rs[1].body == Params(Present(req.params))
    && rs[2].kind == PARAMS && rs[2].contentLength == 0
  }

  lemma PrologueReadBack(req: Request)
    requires GoodParams(req.params)
    ensures GoodDrafts(Prologue(req)) && IsPrologue(ReadBackAll(Prologue(req)), req)
  {
    var a, b, c := BeginDraft(req.keepConn), ParamsDraft(req.params), ParamsDraft([]);
    BeginReadBack(req.keepConn);
    ParamsReadBack(req.params);
    ParamsReadBack([]);
    ReadBackOne(a);
    ReadBackOne(b);
    ReadBackOne(c);
    GoodAppend([b], [c]);
    ReadBackAppend([b], [c]);
    GoodAppend([a], [b] + [c]);
    ReadBackAppend([a], [b] + [c]);
    assert Prologue(req) == [a] + ([b] + [c]);
  }

  /** The records behind the prologue carry the body, all but the last with data full, and end with an empty one; the
      body "0" is `empty` in PHP and is not sent at all. */
  ghost predicate IsStdinPart(rs: seq<Record>, body: Bytes) {
    && AllOfKind(rs, STDIN)
    && (rs == [] <==> IsEmpty(body))
    && (rs != [] ==> rs[|rs| - 1].contentLength == 0) && Full(rs, |rs| - 2)
    && (Collect(rs, STDIN) == body <==> body != "0")
  }

  lemma StdinPartReadBack(body: Bytes)
    ensures GoodDrafts(StdinPart(body)) && IsStdinPart(ReadBackAll(StdinPart(body)), body)
  {
    if !IsEmpty(body) {
      StdinCarriesBody(body);
      StdinReadBack([]);
      ReadBackOne(StdinDraft([]));
      GoodAppend(StdinDrafts(body), [StdinDraft([])]);
      ReadBackAppend(StdinDrafts(body), [StdinDraft([])]);
      CollectSnoc(ReadBackAll(StdinDrafts(body)), ReadBack(StdinDraft([])), STDIN);
    }
  }

  /** A reader of the message gets BeginRequest, the parameters, the empty Params record and then
      only Stdin records, the last of them empty; one closing brace is left over. The Stdin
      records carry the body exactly unless the body is "0". */
  lemma RequestAssembly(req: Request)
    requires GoodParams(req.params)
    ensures Serialise(RequestDrafts(req)).Ok?
    ensures var (rs, left) := Frames(Serialise(RequestDrafts(req)).value + "}");
            && left == "}" && rs.Ok? && |rs.value| >= 3
            && IsPrologue(rs.value[..3], req)
            && IsStdinPart(rs.value[3..], req.body)
  {
    PrologueReadBack(req);
    StdinPartReadBack(req.body);
    GoodAppend(Prologue(req), StdinPart(req.body));
    ReadBackAppend(Prologue(req), StdinPart(req.body));
    assert RequestDrafts(req) == Prologue(req) + StdinPart(req.body);
    StreamRoundTrip(RequestDrafts(req), "}");
    assert Frames("}") == (Ok([]), "}");
    var rs := ReadBackAll(RequestDrafts(req));
    assert rs + [] == rs;
    assert rs[..3] == ReadBackAll(Prologue(req)) && rs[3..] == ReadBackAll(StdinPart(req.body));
  }

  /** What the application sent on one stream: each record carries at most 65535 bytes. */
  ghost function SentOn(ds: seq<Draft>, kind: nat): Bytes {
    if ds == [] then []
    else
      var data := ds[0].data;
      (if ds[0].kind == kind then (if |data| > MAX_CONTENT_LENGTH then data[..MAX_CONTENT_LENGTH] else data) else [])
      + SentOn(ds[1..], kind)
  }

  lemma DraftReadBack(d: Draft)
    requires GoodDraft(d)
    ensures ReadBack(d).kind == d.kind && |ReadBack(d).contentData| == ReadBack(d).contentLength
    ensures EmptyBody(d.kind) == Some(Plain) ==>
              ReadBack(d).contentData == if |d.data| > MAX_CONTENT_LENGTH then d.data[..MAX_CONTENT_LENGTH] else d.data
  {
    PayloadIsContent(d, Construct(d).value);
  }

  lemma {:induction false} CollectReadBack(ds: seq<Draft>, kind: nat)
    requires GoodDrafts(ds) && EmptyBody(kind) == Some(Plain)
    ensures Collect(ReadBackAll(ds), kind) == SentOn(ds, kind)
    ensures |ReadBackAll(ds)| == |ds|
    ensures forall i :: 0 <= i < |ds| ==>
              ReadBackAll(ds)[i].kind == ds[i].kind
              && |ReadBackAll(ds)[i].contentData| == ReadBackAll(ds)[i].contentLength
  {
    if ds != [] {
      DraftReadBack(ds[0]);
      CollectReadBack(ds[1..], kind);
      assert ReadBackAll(ds)[1..] == ReadBackAll(ds[1..]);
    }
  }

  /** However the application interleaves Stdout and Stderr records, a response that ends with
      EndRequest is read back as exactly the bytes it sent on each of the two streams. */
  lemma ResponseAssembly(ds: seq<Draft>)
    requires GoodDrafts(ds)
    ensures Serialise(ds).Ok?
    ensures var (rs, left) := Frames(Serialise(ds).value);
            && left == [] && rs.Ok?
            && (Verify(rs.value) <==> ds != [] && ds[|ds| - 1].kind == END_REQUEST)
            && Collect(rs.value, STDOUT) == SentOn(ds, STDOUT)
            && Collect(rs.value, STDERR) == SentOn(ds, STDERR)
            && (forall i :: 0 <= i < |rs.value| ==> |rs.value[i].contentData| == rs.value[i].contentLength)
  {
    StreamRoundTrip(ds, []);
    assert Serialise(ds).value + [] == Serialise(ds).value;
    assert ReadBackAll(ds) + [] == ReadBackAll(ds);
    assert Frames([]) == (Ok([]), []);
    CollectReadBack(ds, STDOUT);
    CollectReadBack(ds, STDERR);
  }
}
