/**
 The server's response to one request: the header list, the frames, and where END_STREAM goes
 (sections 8.1 and 8.1.2.6 of RFC 7540).
 */
module Http2Response {
  import opened PhpBytes
  import opened Http2Frames

  /** A PHP array of header values; None is null. */
  type Values = seq<(Key, Option<Bytes>)>

  datatype Answer = Answer(
    status: nat,
    header: Option<Values>,  // None: not an array
    cookies: seq<Option<Bytes>>,  // None: not a string
    trailer: Values,
    body: Bytes)

  /** What the surroundings decide: the date, and compression as an opaque function. */
  datatype Context = Context(date: Bytes, encoding: Bytes, accept: bool, compress: Bytes -> Option<Bytes>)

  const CONTENT_LENGTH: Bytes := "content-length"
  const SERVER: Bytes := "server"
  const DATE: Bytes := "date"
  const CONTENT_TYPE: Bytes := "content-type"
  const SOFTWARE: Bytes := "swoole-http-server"
  const STATUS: Bytes := ":status"
  const SET_COOKIE: Bytes := "set-cookie"
  const CONTENT_ENCODING: Bytes := "content-encoding"

  // ---------------------------------------------------------------- header lists

  function LowerChar(c: byte): byte {
    if 'A' <= c <= 'Z' then (c as int + 32) as char else c
  }

  function Lower(s: Bytes): Bytes {
    seq(|s|, i requires 0 <= i < |s| => LowerChar(s[i]))
  }

  predicate IsUsable(entry: (Key, Option<Bytes>)) {
    entry.0.StrKey? && entry.1.Some?
  }

  /** The entries with a string key and a value; `headers.add` puts the name into lower case. */
  function Usable(values: Values): Fields {
    if values == [] then []
    else (if IsUsable(values[0]) then [(Lower(values[0].0.s), values[0].1.value)] else []) + Usable(values[1..])
  }

  predicate Names(values: Values, name: Bytes) {
    exists i :: 0 <= i < |values| && IsUsable(values[i]) && values[i].0.s == name
  }

  /** What becomes of one of the user's headers. */
  function UserField(entry: (Key, Option<Bytes>)): Fields {
    if IsUsable(entry) && entry.0.s != CONTENT_LENGTH then [(Lower(entry.0.s), entry.1.value)] else []
  }

  function UserFields(values: Values): Fields {
    if values == [] then [] else UserField(values[0]) + UserFields(values[1..])
  }

  function CookieFields(cookies: seq<Option<Bytes>>): Fields {
    if cookies == [] then []
    else (if cookies[0].Some? then [(SET_COOKIE, cookies[0].value)] else []) + CookieFields(cookies[1..])
  }

  function Optional(present: bool, field: Bytes, value: Bytes): Fields {
    if present then [(field, value)] else []
  }

  predicate Named(header: Option<Values>, name: Bytes) {
    header.Some? && Names(header.value, name)
  }

  function Defaults(header: Option<Values>, date: Bytes): Fields {
    var server := Optional(!Named(header, SERVER), SERVER, SOFTWARE);
    var day := Optional(!Named(header, DATE), DATE, date);
    var kind := Optional(!Named(header, CONTENT_TYPE), CONTENT_TYPE, "text/html");
    if header.None? then server + kind + day else server + day + kind
  }

  /** `http2_build_header` for a body of the given length. */
  function HeaderFields(a: Answer, c: Context, compressed: bool, length: nat): Fields {
    [(STATUS, Decimal(if a.status == 0 then 200 else a.status))]
    + (if a.header.Some? then UserFields(a.header.value) else [])
    + Defaults(a.header, c.date)
    + CookieFields(a.cookies)
    + (if compressed then [(CONTENT_ENCODING, c.encoding)] else [])
    + [(CONTENT_LENGTH, Decimal(length))]
  }

  /** The loop over the user's headers, with the three flags it collects. */
  method AddUserFields(values: Values) returns (fields: Fields, server: bool, date: bool, contentType: bool)
    ensures fields == UserFields(values)
    ensures server == Names(values, SERVER) && date == Names(values, DATE) && contentType == Names(values, CONTENT_TYPE)
  {
    fields, server, date, contentType := [], false, false, false;
    var i := 0;
    assert values[0..] == values;
    while i < |values|
      invariant 0 <= i <= |values|
      invariant fields + UserFields(values[i..]) == UserFields(values)
      invariant server == Names(values[..i], SERVER)
      invariant date == Names(values[..i], DATE)
      invariant contentType == Names(values[..i], CONTENT_TYPE)
    {
      var entry := values[i];
      UserFieldsTurn(fields, values, i);
      NamesSnoc(values, i, SERVER);
      NamesSnoc(values, i, DATE);
      NamesSnoc(values, i, CONTENT_TYPE);
      i := i + 1;
      if !IsUsable(entry) {
        continue;
      }
      if entry.0.s == SERVER {
        server := true;
      } else if entry.0.s == CONTENT_LENGTH {
        continue;
      } else if entry.0.s == DATE {
        date := true;
      } else if entry.0.s == CONTENT_TYPE {
        contentType := true;
      }
      fields := fields + [(Lower(entry.0.s), entry.1.value)];
    }
    assert values[..i] == values;
    assert fields + [] == fields;
  }

  /** The user's headers and the defaults for those of the three that are not among them. */
  method AddHeaders(header: Option<Values>, day: Bytes) returns (fields: Fields, defaults: Fields)
    ensures fields == (if header.Some? then UserFields(header.value) else []) && defaults == Defaults(header, day)
  {
    if header.None? {
      return [], [(SERVER, SOFTWARE), (CONTENT_TYPE, "text/html"), (DATE, day)];
    }
    var server, date, contentType;
    fields, server, date, contentType := AddUserFields(header.value);
    defaults := [];
    if !server {
      defaults := defaults + [(SERVER, SOFTWARE)];
    }
    if !date {
      defaults := defaults + [(DATE, day)];
    }
    if !contentType {
      defaults := defaults + [(CONTENT_TYPE, "text/html")];
    }
  }

  /** `http2_build_header`, part by part. */
  method BuildHeader(a: Answer, c: Context, compressed: bool, length: nat) returns (fields: Fields)
    ensures fields == HeaderFields(a, c, compressed, length)
  {
    var user, defaults := AddHeaders(a.header, c.date);
    var cookies := AddCookies(a.cookies);
    var encoding := [];
    if compressed {
      encoding := [(CONTENT_ENCODING, c.encoding)];
    }
    fields := [(STATUS, Decimal(if a.status == 0 then 200 else a.status))]
      + user + defaults + cookies + encoding + [(CONTENT_LENGTH, Decimal(length))];
  }

  /** The loop over the cookies; what is not a string is skipped. */
  method AddCookies(cookies: seq<Option<Bytes>>) returns (fields: Fields)
    ensures fields == CookieFields(cookies)
  {
    fields := [];
    var i := 0;
    assert cookies[0..] == cookies;
    while i < |cookies|
      invariant 0 <= i <= |cookies|
      invariant fields + CookieFields(cookies[i..]) == CookieFields(cookies)
    {
      assert cookies[i..][0] == cookies[i] && cookies[i..][1..] == cookies[i + 1..];
      ghost var rest := CookieFields(cookies[i + 1..]);
      if cookies[i].Some? {
        ghost var field: Fields := [(SET_COOKIE, cookies[i].value)];
        assert fields + (field + rest) == fields + field + rest;
        fields := fields + [(SET_COOKIE, cookies[i].value)];
      } else {
        assert fields + ([] + rest) == fields + rest;
      }
      i := i + 1;
    }
    assert fields + [] == fields;
  }

  lemma UserFieldsTurn(fields: Fields, values: Values, i: nat)
    requires i < |values|
    ensures fields + UserFields(values[i..]) == fields + UserField(values[i]) + UserFields(values[i + 1..])
    ensures UserField(values[i]) == [] ==> fields + UserField(values[i]) == fields
  {
    assert values[i..][0] == values[i] && values[i..][1..] == values[i + 1..];
    Regroup(fields, UserField(values[i]), UserFields(values[i + 1..]));
  }

  lemma NamesSnoc(values: Values, i: nat, name: Bytes)
    requires i < |values|
    ensures Names(values[..i + 1], name) <==> Names(values[..i], name) || (IsUsable(values[i]) && values[i].0.s == name)
  {
    var longer, shorter := values[..i + 1], values[..i];
    assert longer[i] == values[i];
    if Names(shorter, name) {
      var k :| 0 <= k < i && IsUsable(shorter[k]) && shorter[k].0.s == name;
      assert longer[k] == shorter[k];
    }
    if Names(longer, name) {
      var k :| 0 <= k < i + 1 && IsUsable(longer[k]) && longer[k].0.s == name;
      assert k < i ==> shorter[k] == longer[k];
    }
  }

  // ---------------------------------------------------------------- what a header list says

  /** The values that a header list gives for a name, in order. */
  function FieldValues(fields: Fields, name: Bytes): seq<Bytes> {
    if fields == [] then []
    else (if fields[0].0 == name then [fields[0].1] else []) + FieldValues(fields[1..], name)
  }

  lemma {:induction false} FieldValuesAppend(xs: Fields, ys: Fields, name: Bytes)
    ensures FieldValues(xs + ys, name) == FieldValues(xs, name) + FieldValues(ys, name)
  {
    if xs == [] {
      assert xs + ys == ys;
    } else {
      assert (xs + ys)[1..] == xs[1..] + ys;
      FieldValuesAppend(xs[1..], ys, name);
      Regroup(if xs[0].0 == name then [xs[0].1] else [], FieldValues(xs[1..], name), FieldValues(ys, name));
    }
  }

  lemma OneField(field: Bytes, value: Bytes, name: Bytes)
    ensures FieldValues([(field, value)], name) == if field == name then [value] else []
  {
    assert [(field, value)][1..] == [];
  }

  /** Lower case: letters only, one by one. */
  lemma LowerExact(s: Bytes, i: nat)
    requires i < |s|
    ensures |Lower(s)| == |s| && !('A' <= Lower(s)[i] <= 'Z')
    ensures if 'A' <= s[i] <= 'Z' then Lower(s)[i] as int - 'a' as int == s[i] as int - 'A' as int else Lower(s)[i] == s[i]
  {
  }

  /** The values of the usable entries whose name, in lower case, is the given one, in order. */
  function UsableValues(values: Values, name: Bytes): seq<Bytes> {
    if values == [] then []
    else
      (if IsUsable(values[0]) && Lower(values[0].0.s) == name then [values[0].1.value] else [])
      + UsableValues(values[1..], name)
  }

  /** Those of the user's headers, of which one that is named exactly content-length is skipped. */
  function UserValues(values: Values, name: Bytes): seq<Bytes> {
    if values == [] then []
    else
      (if IsUsable(values[0]) && values[0].0.s != CONTENT_LENGTH && Lower(values[0].0.s) == name then [values[0].1.value]
       else [])
      + UserValues(values[1..], name)
  }

  lemma {:induction false} UsableFieldValues(values: Values, name: Bytes)
    ensures FieldValues(Usable(values), name) == UsableValues(values, name)
  {
    if values != [] {
      var first := values[0];
      UsableFieldValues(values[1..], name);
      var head: Fields := if IsUsable(first) then [(Lower(first.0.s), first.1.value)] else [];
      FieldValuesAppend(head, Usable(values[1..]), name);
      assert head != [] ==> head[1..] == [];
    }
  }

  lemma {:induction false} UserFieldValues(values: Values, name: Bytes)
    ensures FieldValues(UserFields(values), name) == UserValues(values, name)
  {
    if values != [] {
      var first := values[0];
      UserFieldValues(values[1..], name);
      var head := UserField(first);
      FieldValuesAppend(head, UserFields(values[1..]), name);
      assert head != [] ==> head[1..] == [];
    }
  }

  /** The cookies that are strings, in order. */
  function CookieValues(cookies: seq<Option<Bytes>>): seq<Bytes> {
    if cookies == [] then [] else (if cookies[0].Some? then [cookies[0].value] else []) + CookieValues(cookies[1..])
  }

  lemma {:induction false} CookieFieldValues(cookies: seq<Option<Bytes>>, name: Bytes)
    ensures FieldValues(CookieFields(cookies), name) == if name == SET_COOKIE then CookieValues(cookies) else []
  {
    if cookies != [] {
      CookieFieldValues(cookies[1..], name);
      var head: Fields := if cookies[0].Some? then [(SET_COOKIE, cookies[0].value)] else [];
      FieldValuesAppend(head, CookieFields(cookies[1..]), name);
      assert head != [] ==> head[1..] == [];
    }
  }

  /** A default is sent unless the user's headers name it, in exactly that spelling. */
  function DefaultValues(header: Option<Values>, date: Bytes, name: Bytes): seq<Bytes> {
    if name == SERVER then Only(!Named(header, name), SOFTWARE)
    else if name == DATE then Only(!Named(header, name), date)
    else Only(!Named(header, name) && name == CONTENT_TYPE, "text/html")
  }

  lemma ValuesOfThree(a: Fields, b: Fields, c: Fields, name: Bytes)
    ensures FieldValues(a + b + c, name) == FieldValues(a, name) + FieldValues(b, name) + FieldValues(c, name)
  {
    FieldValuesAppend(a + b, c, name);
    FieldValuesAppend(a, b, name);
  }

  lemma OptionalValues(present: bool, field: Bytes, value: Bytes, name: Bytes)
    ensures FieldValues(Optional(present, field, value), name) == Only(present && field == name, value)
  {
    OneField(field, value, name);
  }

  lemma OneOfThree(name: Bytes, p: bool, a: Bytes, u: Bytes, q: bool, b: Bytes, v: Bytes, r: bool, c: Bytes, w: Bytes)
    requires a != b && b != c && a != c
    ensures var x, y, z := Only(p && a == name, u), Only(q && b == name, v), Only(r && c == name, w);
            x + y + z == x + z + y
            == if name == a then Only(p, u) else if name == b then Only(q, v) else Only(r && name == c, w)
  {
  }

  lemma DefaultNamesDiffer()
    ensures SERVER != DATE && DATE != CONTENT_TYPE && SERVER != CONTENT_TYPE
  {
    assert |SERVER| == 6 && |DATE| == 4 && |CONTENT_TYPE| == 12;
  }

  lemma DefaultFieldValues(header: Option<Values>, date: Bytes, name: Bytes)
    ensures FieldValues(Defaults(header, date), name) == DefaultValues(header, date, name)
  {
    DefaultNamesDiffer();
    ThreeDefaults(SERVER, SOFTWARE, !Named(header, SERVER), DATE, date, !Named(header, DATE),
                  CONTENT_TYPE, "text/html", !Named(header, CONTENT_TYPE), name);
  }

  lemma ThreeDefaults(a: Bytes, u: Bytes, p: bool, b: Bytes, v: Bytes, q: bool, c: Bytes, w: Bytes, r: bool, name: Bytes)
    requires a != b && b != c && a != c
    ensures var x, y, z := Optional(p, a, u), Optional(q, b, v), Optional(r, c, w);
            FieldValues(x + y + z, name) == FieldValues(x + z + y, name)
            == if name == a then Only(p, u) else if name == b then Only(q, v) else Only(r && name == c, w)
  {
    var x, y, z := Optional(p, a, u), Optional(q, b, v), Optional(r, c, w);
    OptionalValues(p, a, u, name);
    OptionalValues(q, b, v, name);
    OptionalValues(r, c, w, name);
    ValuesOfThree(x, y, z, name);
    ValuesOfThree(x, z, y, name);
    OneOfThree(name, p, a, u, q, b, v, r, c, w);
  }

  lemma ValuesOfSix(a: Fields, b: Fields, c: Fields, d: Fields, e: Fields, f: Fields, name: Bytes)
    ensures FieldValues(a + b + c + d + e + f, name)
            == FieldValues(a, name) + FieldValues(b, name) + FieldValues(c, name)
               + FieldValues(d, name) + FieldValues(e, name) + FieldValues(f, name)
  {
    FieldValuesAppend(a + b + c + d + e, f, name);
    FieldValuesAppend(a + b + c + d, e, name);
    FieldValuesAppend(a + b + c, d, name);
    FieldValuesAppend(a + b, c, name);
    FieldValuesAppend(a, b, name);
  }

  function Only(condition: bool, value: Bytes): seq<Bytes> {
    if condition then [value] else []
  }

  /** For every name, exactly which values the header list gives, and in which order. */
  lemma HeaderValues(a: Answer, c: Context, compressed: bool, length: nat, name: Bytes)
    ensures FieldValues(HeaderFields(a, c, compressed, length), name)
            == Only(name == STATUS, Decimal(if a.status == 0 then 200 else a.status))
               + (if a.header.Some? then UserValues(a.header.value, name) else [])
               + DefaultValues(a.header, c.date, name)
               + (if name == SET_COOKIE then CookieValues(a.cookies) else [])
               + Only(compressed && name == CONTENT_ENCODING, c.encoding)
               + Only(name == CONTENT_LENGTH, Decimal(length))
  {
    var status := Decimal(if a.status == 0 then 200 else a.status);
    var user := if a.header.Some? then UserFields(a.header.value) else [];
    var encoding: Fields := if compressed then [(CONTENT_ENCODING, c.encoding)] else [];
    ValuesOfSix([(STATUS, status)], user, Defaults(a.header, c.date), CookieFields(a.cookies), encoding,
                [(CONTENT_LENGTH, Decimal(length))], name);
    OneField(STATUS, status, name);
    OneField(CONTENT_ENCODING, c.encoding, name);
    OneField(CONTENT_LENGTH, Decimal(length), name);
    DefaultFieldValues(a.header, c.date, name);
    CookieFieldValues(a.cookies, name);
    if a.header.Some? {
      UserFieldValues(a.header.value, name);
    }
  }

  /** A user header that becomes the given name only in lower case. */
  predicate ShadowsName(values: Values, name: Bytes) {
    exists i :: 0 <= i < |values| && IsUsable(values[i]) && values[i].0.s != CONTENT_LENGTH && Lower(values[i].0.s) == name
  }

  lemma {:induction false} UserValuesIff(values: Values, name: Bytes)
    ensures UserValues(values, name) == [] <==> !ShadowsName(values, name)
  {
    if values != [] {
      var rest := values[1..];
      UserValuesIff(rest, name);
      assert forall i :: 0 <= i < |rest| ==> rest[i] == values[i + 1];
      assert forall i :: 0 < i < |values| ==> values[i] == rest[i - 1];
    }
  }

  /** A user header that is content-length only after it has been put into lower case. */
  predicate Shadows(values: Values) {
    ShadowsName(values, CONTENT_LENGTH)
  }

  /** The header list names the sent length once and no other, exactly if no user header shadows it. */
  lemma ContentLengthExact(a: Answer, c: Context, compressed: bool, length: nat)
    ensures FieldValues(HeaderFields(a, c, compressed, length), CONTENT_LENGTH) == [Decimal(length)]
            <==> (a.header.Some? ==> !Shadows(a.header.value))
  {
    HeaderValues(a, c, compressed, length, CONTENT_LENGTH);
    if a.header.Some? {
      UserValuesIff(a.header.value, CONTENT_LENGTH);
    }
  }

  lemma SpelledLength()
    ensures Lower("Content-Length") == CONTENT_LENGTH != "Content-Length"
  {
    assert "Content-Length"[0] == 'C' && CONTENT_LENGTH[0] == 'c';
  }

  /** Any other spelling of the name is sent beside the real length. */
  lemma ShadowedLength(name: Bytes, value: Bytes, c: Context, compressed: bool, length: nat)
    requires Lower(name) == CONTENT_LENGTH != name
    ensures var a := Answer(200, Some([(StrKey(name), Some(value))]), [], [], []);
            FieldValues(HeaderFields(a, c, compressed, length), CONTENT_LENGTH) == [value, Decimal(length)]
  {
    var values: Values := [(StrKey(name), Some(value))];
    HeaderValues(Answer(200, Some(values), [], [], []), c, compressed, length, CONTENT_LENGTH);
    assert values[1..] == [];
    assert UserValues(values, CONTENT_LENGTH) == [value];
  }

  // ---------------------------------------------------------------- frames

  function CompressedBody(a: Answer, c: Context): Option<Bytes> {
    if c.accept && a.body != [] then c.compress(a.body) else None
  }

  /** The bytes that go out: compressed where the peer accepts that and it succeeds. */
  function SentBody(a: Answer, c: Context): Bytes {
    if CompressedBody(a, c).Some? then CompressedBody(a, c).value else a.body
  }

  /** The bytes stand for the application's body: compressed where the peer accepts that, there is something to
      compress and it succeeds, and otherwise as they are. */
  predicate Conveys(data: Bytes, a: Answer, c: Context) {
    if c.accept && a.body != [] && c.compress(a.body).Some? then data == c.compress(a.body).value else data == a.body
  }

  /** The trailer frame is sent only if it has something in it. */
  function TrailerFrames(id: nat, a: Answer): seq<Frame> {
    if Usable(a.trailer) == [] then [] else [Headers(id, Usable(a.trailer), true)]
  }

  /** END_STREAM is already on the header frame if neither a body nor a trailer is to follow. */
  function ResponseHead(id: nat, a: Answer, c: Context): Frame {
    var body := SentBody(a, c);
    Headers(id, HeaderFields(a, c, CompressedBody(a, c).Some?, |body|), a.trailer == [] && body == [])
  }

  function ResponseFrames(id: nat, a: Answer, c: Context, maxSize: nat): seq<Frame>
    requires maxSize >= 1
  {
    [ResponseHead(id, a, c)] + Cut(id, SentBody(a, c), maxSize, a.trailer == []) + TrailerFrames(id, a)
  }

  predicate EndsStream(f: Frame) {
    (f.Headers? || f.Data?) && f.end
  }

  predicate OnlyLastEnds(fs: seq<Frame>) {
    fs != [] && forall i :: 0 <= i < |fs| ==> (EndsStream(fs[i]) <==> i == |fs| - 1)
  }

  predicate NoneEnds(fs: seq<Frame>) {
    forall i :: 0 <= i < |fs| ==> !EndsStream(fs[i])
  }

  lemma {:induction false} CutEndsLast(id: nat, body: Bytes, maxSize: nat, end: bool)
    requires maxSize >= 1
    ensures var fs := Cut(id, body, maxSize, end);
            if end && body != [] then OnlyLastEnds(fs) else NoneEnds(fs)
    decreases |body|
  {
    if |body| > maxSize {
      CutEndsLast(id, body[maxSize..], maxSize, end);
    }
  }

  lemma NoneThenLast(xs: seq<Frame>, ys: seq<Frame>)
    requires NoneEnds(xs)
    ensures OnlyLastEnds(ys) ==> OnlyLastEnds(xs + ys)
    ensures NoneEnds(ys) ==> NoneEnds(xs + ys)
  {
  }

  /** END_STREAM is on the last frame and no other; a trailer without a usable entry loses it altogether. */
  lemma ResponseTerminates(id: nat, a: Answer, c: Context, maxSize: nat)
    requires maxSize >= 1
    ensures var fs := ResponseFrames(id, a, c, maxSize);
            && (OnlyLastEnds(fs) <==> a.trailer == [] || Usable(a.trailer) != [])
            && (!OnlyLastEnds(fs) ==> NoneEnds(fs))
  {
    var body, endStream := SentBody(a, c), a.trailer == [];
    var head := [ResponseHead(id, a, c)];
    var data, tail := Cut(id, body, maxSize, endStream), TrailerFrames(id, a);
    CutEndsLast(id, body, maxSize, endStream);
    assert head + data + tail == head + (data + tail);
    if endStream && body == [] {
      assert head + data + tail == head;
    } else if endStream {
      assert data + tail == data;
      NoneThenLast(head, data);
    } else {
      NoneThenLast(data, tail);
      NoneThenLast(head, data + tail);
      assert tail == [] ==> !EndsStream((head + (data + tail))[|data|]);
    }
  }

  lemma WrappedPayloads(head: Frame, data: seq<Frame>, tail: seq<Frame>)
    requires head.Headers? && (tail == [] || (|tail| == 1 && tail[0].Headers?))
    ensures Payloads([head] + data + tail) == Payloads(data)
  {
    PayloadsAppend([head], data);
    PayloadsAppend([head] + data, tail);
    PayloadOfOne(head);
    if tail != [] {
      assert tail == [tail[0]];
      PayloadOfOne(tail[0]);
    }
  }

  /** DATA adds up to the application's body, or to its compressed form. */
  lemma ResponseCarries(id: nat, a: Answer, c: Context, maxSize: nat)
    requires maxSize >= 1
    ensures Payloads(ResponseFrames(id, a, c, maxSize)) == SentBody(a, c)
    ensures Conveys(Payloads(ResponseFrames(id, a, c, maxSize)), a, c)
  {
    WrappedPayloads(ResponseHead(id, a, c), Cut(id, SentBody(a, c), maxSize, a.trailer == []), TrailerFrames(id, a));
    CutCarries(id, SentBody(a, c), maxSize, a.trailer == []);
  }

  /** Its fields are the header list and the usable entries of the trailer. */
  lemma ResponseHeads(id: nat, a: Answer, c: Context, maxSize: nat)
    requires maxSize >= 1
    ensures var fields := HeaderFields(a, c, CompressedBody(a, c).Some?, |SentBody(a, c)|);
            Heads(ResponseFrames(id, a, c, maxSize)) == fields + Usable(a.trailer)
  {
    var head, data := ResponseHead(id, a, c), Cut(id, SentBody(a, c), maxSize, a.trailer == []);
    WrappedHeads(head, data, TrailerFrames(id, a), SentBody(a, c), maxSize, a.trailer == []);
    if Usable(a.trailer) != [] {
      HeadOfOne(Headers(id, Usable(a.trailer), true));
    }
  }

  lemma WrappedHeads(head: Frame, data: seq<Frame>, tail: seq<Frame>, body: Bytes, maxSize: nat, end: bool)
    requires head.Headers? && maxSize >= 1 && data == Cut(head.id, body, maxSize, end)
    ensures Heads([head] + data + tail) == head.fields + Heads(tail)
  {
    CutFits(head.id, body, maxSize, end);
    NoHeads(data);
    HeadsAppend([head] + data, tail);
    HeadsAppend([head], data);
    HeadOfOne(head);
  }

  /** Somebody who decodes what is announced as encoded gets the application's body, unless the application sends a
      content-encoding of its own. */
  lemma ResponseDecodes(id: nat, a: Answer, c: Context, maxSize: nat, decode: Bytes -> Bytes)
    requires maxSize >= 1 && (c.compress(a.body).Some? ==> decode(c.compress(a.body).value) == a.body)
    requires a.header.Some? ==> !ShadowsName(a.header.value, CONTENT_ENCODING)
    ensures var fs := ResponseFrames(id, a, c, maxSize);
            && fs[0].Headers?
            && var announced := FieldValues(fs[0].fields, CONTENT_ENCODING);
            && (announced == [] || announced == [c.encoding])
            && (if announced == [] then Payloads(fs) else decode(Payloads(fs))) == a.body
  {
    ResponseCarries(id, a, c, maxSize);
    var compressed := CompressedBody(a, c).Some?;
    assert ResponseFrames(id, a, c, maxSize)[0] == ResponseHead(id, a, c);
    HeaderValues(a, c, compressed, |SentBody(a, c)|, CONTENT_ENCODING);
    EncodingIsSpecial();
    if a.header.Some? {
      UserValuesIff(a.header.value, CONTENT_ENCODING);
    }
  }

  lemma EncodingIsSpecial()
    ensures CONTENT_ENCODING !in {STATUS, SERVER, DATE, CONTENT_TYPE, SET_COOKIE, CONTENT_LENGTH}
  {
    assert |CONTENT_ENCODING| == 16 && |STATUS| == 7 && |SERVER| == 6 && |DATE| == 4 && |CONTENT_TYPE| == 12;
    assert |SET_COOKIE| == 10 && |CONTENT_LENGTH| == 14;
  }

  lemma ResponseStays(id: nat, a: Answer, c: Context, maxSize: nat)
    requires maxSize >= 1
    ensures forall f | f in ResponseFrames(id, a, c, maxSize) :: Carries(f, id)
    ensures OnStream(ResponseFrames(id, a, c, maxSize), id) == ResponseFrames(id, a, c, maxSize)
  {
    CutFits(id, SentBody(a, c), maxSize, a.trailer == []);
    AllOnStream(ResponseFrames(id, a, c, maxSize), id);
  }

  /** The content-length sent is the total of the DATA payloads, exactly if no user header shadows it. */
  lemma ResponseLength(id: nat, a: Answer, c: Context, maxSize: nat)
    requires maxSize >= 1
    ensures var fs := ResponseFrames(id, a, c, maxSize);
            fs[0].Headers?
            && (FieldValues(fs[0].fields, CONTENT_LENGTH) == [Decimal(|Payloads(fs)|)]
                <==> (a.header.Some? ==> !Shadows(a.header.value)))
  {
    ResponseCarries(id, a, c, maxSize);
    var head := ResponseHead(id, a, c);
    assert ResponseFrames(id, a, c, maxSize)[0] == head;
    ContentLengthExact(a, c, CompressedBody(a, c).Some?, |SentBody(a, c)|);
  }
}
