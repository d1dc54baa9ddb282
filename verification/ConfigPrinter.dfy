/**
 `ConfigBuilder::buildData`, which prints a PHP value as a PHP literal, against a reader of PHP
 literals. `Meaning` says for every value what its printed form denotes.
 */
module ConfigPrinter {
  import opened PhpBytes

  /** Floats are only needed for whole numbers: a literal beyond the integer range is one. */
  datatype Value =
    | Str(s: Bytes)
    | Int(n: int)
    | Null
    | Bool(b: bool)
    | Float(whole: int)
    | Arr(items: seq<(Key, Value)>)

  const QUOTE: byte := '"'
  const BACKSLASH: byte := '\\'
  const DOLLAR: byte := '$'

  // ---------------------------------------------------------------- printing

  /** `str_replace` with one search character. */
  function Replace(s: Bytes, c: byte, sub: Bytes): Bytes {
    if s == [] then [] else (if s[0] == c then sub else [s[0]]) + Replace(s[1..], c, sub)
  }

  /** `str_replace` with three searches: each one works on the result of the one before. */
  function StrEscape(s: Bytes): Bytes {
    Replace(Replace(Replace(s, DOLLAR, [BACKSLASH, DOLLAR]), BACKSLASH, [BACKSLASH, BACKSLASH]),
            QUOTE, [BACKSLASH, QUOTE])
  }

  /** `rtrim($r, ",")` */
  function RTrim(s: Bytes): Bytes {
    if s != [] && s[|s| - 1] == ',' then RTrim(s[..|s| - 1]) else s
  }

  function KeyValue(k: Key): Value {
    match k
    case StrKey(s) => Str(s)
    case IntKey(n) => Int(n)
  }

  function BuildScalar(v: Value): Bytes {
    match v
    case Str(s) => [QUOTE] + StrEscape(s) + [QUOTE]
    case Int(n) => IntText(n)
    case _ => "null"
  }

  function Build(v: Value): Bytes {
    if v.Arr? then RTrim("[" + BuildItems(v.items, 0)) + "]" else BuildScalar(v)
  }

  /** The loop over an array: the key is left out where it equals the position. */
  function BuildItems(items: seq<(Key, Value)>, i: nat): Bytes {
    if items == [] then []
    else BuildItem(items[0], i) + "," + BuildItems(items[1..], i + 1)
  }

  function BuildItem(item: (Key, Value), i: nat): Bytes {
    (if item.0 != IntKey(i) then BuildScalar(KeyValue(item.0)) + "=>" else []) + Build(item.1)
  }

  /** One turn of the loop moves one entry from what is left to what is printed. */
  lemma PrintOneMore(r: Bytes, items: seq<(Key, Value)>, i: nat)
    requires i < |items|
    ensures r + BuildItems(items[i..], i) == r + BuildItem(items[i], i) + "," + BuildItems(items[i + 1..], i + 1)
  {
    assert items[i..][0] == items[i] && items[i..][1..] == items[i + 1..];
    Regroup(r, BuildItem(items[i], i), ",");
    Regroup(r, BuildItem(items[i], i) + ",", BuildItems(items[i + 1..], i + 1));
  }

  /** `buildData` with its loop. */
  method BuildData(data: Value) returns (text: Bytes)
    ensures text == Build(data)
    decreases data
  {
    match data {
      case Str(s) =>
        text := [QUOTE] + StrEscape(s) + [QUOTE];
      case Arr(items) =>
        var r := BuildArray(data);
        text := RTrim(r) + "]";
      case Int(n) =>
        text := IntText(n);
      case _ =>
        text := "null";
    }
  }

  method BuildArray(data: Value) returns (r: Bytes)
    requires data.Arr?
    ensures r == "[" + BuildItems(data.items, 0)
    decreases data, 0
  {
    r := "[";
    var i := 0;
    assert data.items[0..] == data.items;
    while i < |data.items|
      invariant 0 <= i <= |data.items|
      invariant r + BuildItems(data.items[i..], i) == "[" + BuildItems(data.items, 0)
    {
      var (k, v) := data.items[i];
      PrintOneMore(r, data.items, i);
      var value := BuildData(v);
      ghost var item := BuildItem(data.items[i], i);
      if k != IntKey(i) {
        assert r + (BuildScalar(KeyValue(k)) + "=>" + value) == r + BuildScalar(KeyValue(k)) + "=>" + value;
        r := r + BuildScalar(KeyValue(k)) + "=>" + value + ",";
      } else {
        assert item == value;
        r := r + value + ",";
      }
      i := i + 1;
    }
    assert r + [] == r;
  }

  // ---------------------------------------------------------------- reading PHP literals

  /** The characters that make a `$` in a double-quoted string the start of a variable. */
  predicate StartsVariable(c: byte) {
    'a' <= c <= 'z' || 'A' <= c <= 'Z' || c == '_' || Ord(c) >= 0x80 || c == '{'
  }

  /** What a backslash and c stand for; octal, hexadecimal and Unicode escapes are not covered. */
  function Unescape(c: byte): Option<Bytes> {
    if c == BACKSLASH || c == DOLLAR || c == QUOTE then Some([c])
    else if c == 'n' then Some([Chr(10)])
    else if c == 't' then Some([Chr(9)])
    else if c == 'r' then Some([Chr(13)])
    else if c == 'v' then Some([Chr(11)])
    else if c == 'e' then Some([Chr(27)])
    else if c == 'f' then Some([Chr(12)])
    else if '0' <= c <= '7' || c == 'x' || c == 'u' then None
    else Some([BACKSLASH, c])
  }

  function Then(head: Bytes, tail: Result<(Bytes, Bytes)>): (r: Result<(Bytes, Bytes)>)
    ensures r.Ok? <==> tail.Ok?
    ensures r.Ok? ==> r.value.1 == tail.value.1
  {
    match tail
    case Err => Err
    case Ok((text, rest)) => Ok((head + text, rest))
  }

  /** The rest of a double-quoted string, up to its closing quote, and what follows it. */
  function ReadString(s: Bytes): (r: Result<(Bytes, Bytes)>)
    ensures r.Ok? ==> |r.value.1| < |s|
  {
    if s == [] then Err
    else if s[0] == QUOTE then Ok(([], s[1..]))
    else if s[0] == BACKSLASH then
      if |s| < 2 || Unescape(s[1]).None? then Err else Then(Unescape(s[1]).value, ReadString(s[2..]))
    else if s[0] == DOLLAR && |s| > 1 && StartsVariable(s[1]) then Err
    else if s[0] == '{' && |s| > 1 && s[1] == DOLLAR then Err
    else Then([s[0]], ReadString(s[1..]))
  }

  function DigitCount(s: Bytes): (n: nat)
    ensures n <= |s|
    ensures forall i :: 0 <= i < n ==> IsDigit(s[i])
    ensures n < |s| ==> !IsDigit(s[n])
  {
    if s == [] || !IsDigit(s[0]) then 0 else 1 + DigitCount(s[1..])
  }

  /** A decimal literal; one beyond the integer range is a float, and the minus sign is an operator. */
  function ReadNumber(s: Bytes, negative: bool): (r: Result<(Value, Bytes)>)
    ensures r.Ok? ==> |r.value.1| < |s|
  {
    var n := DigitCount(s);
    if n == 0 || (n > 1 && s[0] == '0') then Err
    else
      var magnitude := DecimalValue(s[..n]);
      var value: int := if negative then 0 - magnitude else magnitude;
      Ok((Number(value, magnitude), s[n..]))
  }

  function Number(value: int, magnitude: nat): Value {
    if magnitude <= INT_MAX then Int(value) else Float(value)
  }

  function ReadScalar(s: Bytes): (r: Result<(Value, Bytes)>)
    ensures r.Ok? ==> |r.value.1| < |s|
  {
    if s == [] then Err
    else if s[0] == QUOTE then
      (match ReadString(s[1..])
       case Err => Err
       case Ok((text, rest)) => Ok((Str(text), rest)))
    else if |s| >= 4 && s[..4] == "null" then Ok((Null, s[4..]))
    else if s[0] == '-' then ReadNumber(s[1..], true)
    else ReadNumber(s, false)
  }

  /** A value used as a key: strings that spell integers and whole floats become integers. */
  function KeyOf(v: Value): Option<Key> {
    match v
    case Str(s) => Some(ArrayKey(s))
    case Int(n) => Some(IntKey(n))
    case Null => Some(StrKey([]))
    case Bool(b) => Some(IntKey(if b then 1 else 0))
    case Float(n) => if INT_MIN <= n <= INT_MAX then Some(IntKey(n)) else None
    case Arr(_) => None
  }

  /** The array's next free index after k has been stored. */
  function NextIndex(next: nat, k: Key): nat {
    if k.IntKey? && k.n >= next then (if k.n < INT_MAX then k.n + 1 else INT_MAX) else next
  }

  function ReadValue(s: Bytes): (r: Result<(Value, Bytes)>)
    ensures r.Ok? ==> |r.value.1| < |s|
    decreases |s|, 0
  {
    if s != [] && s[0] == '[' then ReadItems(s[1..], [], 0) else ReadScalar(s)
  }

  /** The entries of an array literal up to its closing bracket, added to those read before. */
  function ReadItems(s: Bytes, done: seq<(Key, Value)>, next: nat): (r: Result<(Value, Bytes)>)
    ensures r.Ok? ==> |r.value.1| < |s|
    decreases |s|, 1
  {
    if s == [] then Err
    else if s[0] == ']' then Ok((Arr(done), s[1..]))
    else
      match ReadValue(s)
      case Err => Err
      case Ok((first, rest)) =>
        if |rest| >= 2 && rest[..2] == "=>" then
          (match ReadValue(rest[2..])
           case Err => Err
           case Ok((second, rest2)) => ReadMore(rest2, Store(done, next, KeyOf(first), second)))
        else
          ReadMore(rest, StoreNext(done, next, first))
  }

  function ReadMore(s: Bytes, state: Option<(seq<(Key, Value)>, nat)>): (r: Result<(Value, Bytes)>)
    ensures r.Ok? ==> |r.value.1| < |s|
    decreases |s|, 2
  {
    if s == [] || state.None? then Err
    else if s[0] == ',' then ReadItems(s[1..], state.value.0, state.value.1)
    else if s[0] == ']' then Ok((Arr(state.value.0), s[1..]))
    else Err
  }

  function Store(done: seq<(Key, Value)>, next: nat, k: Option<Key>, v: Value): Option<(seq<(Key, Value)>, nat)> {
    if k.None? then None else Some((ArrayPut(done, k.value, v), NextIndex(next, k.value)))
  }

  /** An entry without a key takes the next free index, unless that one is taken. */
  function StoreNext(done: seq<(Key, Value)>, next: nat, v: Value): Option<(seq<(Key, Value)>, nat)> {
    if HasKey(done, IntKey(next)) then None else Store(done, next, Some(IntKey(next)), v)
  }

  // ---------------------------------------------------------------- what a printed value denotes

  predicate Interpolates(s: Bytes) {
    s != [] && ((s[0] == DOLLAR && |s| > 1 && StartsVariable(s[1])) || Interpolates(s[1..]))
  }

  /** Every `$` comes back with a backslash in front, and some make the text a different program. */
  function ScalarMeaning(v: Value): (r: Option<Value>) {
    match v
    case Str(s) => if Interpolates(s) then None else Some(Str(Replace(s, DOLLAR, [BACKSLASH, DOLLAR])))
    case Int(n) => Some(if n == INT_MIN then Float(n) else Int(n))
    case _ => Some(Null)
  }

  function Meaning(v: Value): Option<Value> {
    if v.Arr? then
      match ItemsMeaning(v.items, 0, [], 0)
      case None => None
      case Some(items) => Some(Arr(items))
    else ScalarMeaning(v)
  }

  function ItemsMeaning(items: seq<(Key, Value)>, i: nat, done: seq<(Key, Value)>, next: nat)
    : Option<seq<(Key, Value)>>
    decreases items
  {
    if items == [] then Some(done)
    else
      match StoreMeaning(items[0], i, done, next)
      case None => None
      case Some((done2, next2)) => ItemsMeaning(items[1..], i + 1, done2, next2)
  }

  function StoreMeaning(item: (Key, Value), i: nat, done: seq<(Key, Value)>, next: nat)
    : Option<(seq<(Key, Value)>, nat)>
    decreases item
  {
    var v := Meaning(item.1);
    if v.None? then None
    else if item.0 == IntKey(i) then StoreNext(done, next, v.value)
    else
      match ScalarMeaning(KeyValue(item.0))
      case None => None
      case Some(read) => Store(done, next, KeyOf(read), v.value)
  }

  function Outcome(meaning: Option<Value>, rest: Bytes): Result<(Value, Bytes)> {
    match meaning
    case None => Err
    case Some(v) => Ok((v, rest))
  }

  // ---------------------------------------------------------------- strings

  function EscapeChar(c: byte): Bytes {
    if c == DOLLAR then [BACKSLASH, BACKSLASH, DOLLAR]
    else if c == BACKSLASH || c == QUOTE then [BACKSLASH, c]
    else [c]
  }

  lemma {:induction false} ReplaceAppend(s: Bytes, t: Bytes, c: byte, sub: Bytes)
    ensures Replace(s + t, c, sub) == Replace(s, c, sub) + Replace(t, c, sub)
  {
    if s == [] {
      assert s + t == t;
    } else {
      assert (s + t)[1..] == s[1..] + t;
      ReplaceAppend(s[1..], t, c, sub);
    }
  }

  lemma ReplaceOne(c: byte, d: byte, sub: Bytes)
    ensures Replace([c], d, sub) == if c == d then sub else [c]
  {
    assert [c][1..] == [] && sub + [] == sub && [c] + [] == [c];
  }

  lemma EscapeOne(c: byte)
    ensures StrEscape([c]) == EscapeChar(c)
  {
    ReplaceOne(c, DOLLAR, [BACKSLASH, DOLLAR]);
    ReplaceOne(c, BACKSLASH, [BACKSLASH, BACKSLASH]);
    ReplaceOne(c, QUOTE, [BACKSLASH, QUOTE]);
    ReplaceOne(BACKSLASH, BACKSLASH, [BACKSLASH, BACKSLASH]);
    ReplaceOne(DOLLAR, BACKSLASH, [BACKSLASH, BACKSLASH]);
    ReplaceOne(BACKSLASH, QUOTE, [BACKSLASH, QUOTE]);
    ReplaceOne(DOLLAR, QUOTE, [BACKSLASH, QUOTE]);
    var pair: Bytes := [BACKSLASH, BACKSLASH];
    assert [BACKSLASH, DOLLAR] == [BACKSLASH] + [DOLLAR] && pair == [BACKSLASH] + [BACKSLASH];
    ReplaceAppend([BACKSLASH], [DOLLAR], BACKSLASH, pair);
    ReplaceAppend([BACKSLASH], [BACKSLASH], QUOTE, [BACKSLASH, QUOTE]);
    ReplaceAppend(pair, [DOLLAR], QUOTE, [BACKSLASH, QUOTE]);
  }

  /** The three passes together act on one character at a time. */
  lemma EscapeFirst(s: Bytes)
    requires s != []
    ensures StrEscape(s) == EscapeChar(s[0]) + StrEscape(s[1..])
  {
    assert s == [s[0]] + s[1..];
    var h, t := [s[0]], s[1..];
    ReplaceAppend(h, t, DOLLAR, [BACKSLASH, DOLLAR]);
    var h1, t1 := Replace(h, DOLLAR, [BACKSLASH, DOLLAR]), Replace(t, DOLLAR, [BACKSLASH, DOLLAR]);
    ReplaceAppend(h1, t1, BACKSLASH, [BACKSLASH, BACKSLASH]);
    ReplaceAppend(Replace(h1, BACKSLASH, [BACKSLASH, BACKSLASH]), Replace(t1, BACKSLASH, [BACKSLASH, BACKSLASH]),
                  QUOTE, [BACKSLASH, QUOTE]);
    EscapeOne(s[0]);
  }

  lemma ReadPlain(c: byte, s: Bytes)
    requires c != QUOTE && c != BACKSLASH
    requires c == DOLLAR ==> s == [] || !StartsVariable(s[0])
    requires c == '{' ==> s == [] || s[0] != DOLLAR
    ensures ReadString([c] + s) == Then([c], ReadString(s))
  {
    assert ([c] + s)[1..] == s;
  }

  lemma ReadBackslash(c: byte, s: Bytes)
    requires Unescape(c).Some?
    ensures ReadString([BACKSLASH, c] + s) == Then(Unescape(c).value, ReadString(s))
  {
    assert ([BACKSLASH, c] + s)[2..] == s;
  }

  lemma ReadDollar(s: Bytes)
    requires s == [] || !StartsVariable(s[0])
    ensures ReadString(EscapeChar(DOLLAR) + s) == Then([BACKSLASH, DOLLAR], ReadString(s))
  {
    ReadPlain(DOLLAR, s);
    ReadBackslash(BACKSLASH, [DOLLAR] + s);
    assert EscapeChar(DOLLAR) + s == [BACKSLASH, BACKSLASH] + ([DOLLAR] + s);
    assert Then([BACKSLASH], Then([DOLLAR], ReadString(s))) == Then([BACKSLASH, DOLLAR], ReadString(s)) by {
      ThenThen([BACKSLASH], [DOLLAR], ReadString(s));
      assert [BACKSLASH] + [DOLLAR] == [BACKSLASH, DOLLAR];
    }
  }

  lemma ThenThen(a: Bytes, b: Bytes, tail: Result<(Bytes, Bytes)>)
    ensures Then(a, Then(b, tail)) == Then(a + b, tail)
  {
    if tail.Ok? {
      assert a + (b + tail.value.0) == a + b + tail.value.0;
    }
  }

  /** What the reader makes of one escaped character. */
  lemma ReadEscapedChar(c: byte, s: Bytes)
    requires c == DOLLAR ==> s == [] || !StartsVariable(s[0])
    requires s == [] || s[0] != DOLLAR
    ensures ReadString(EscapeChar(c) + s) == Then(Replace([c], DOLLAR, [BACKSLASH, DOLLAR]), ReadString(s))
  {
    ReplaceOne(c, DOLLAR, [BACKSLASH, DOLLAR]);
    if c == DOLLAR {
      ReadDollar(s);
    } else if c == BACKSLASH || c == QUOTE {
      ReadBackslash(c, s);
    } else {
      ReadPlain(c, s);
    }
  }

  lemma ReadVariable(s: Bytes)
    requires s != [] && StartsVariable(s[0])
    ensures ReadString(EscapeChar(DOLLAR) + s) == Err
  {
    assert EscapeChar(DOLLAR) + s == [BACKSLASH, BACKSLASH] + ([DOLLAR] + s);
    ReadBackslash(BACKSLASH, [DOLLAR] + s);
  }

  /** Reading an escaped string: it is refused exactly when a `$` starts a variable. */
  lemma {:induction false} ReadEscaped(s: Bytes, rest: Bytes)
    ensures ReadString(StrEscape(s) + ([QUOTE] + rest))
            == if Interpolates(s) then Err else Ok((Replace(s, DOLLAR, [BACKSLASH, DOLLAR]), rest))
  {
    var close: Bytes := [QUOTE] + rest;
    if s == [] {
      assert StrEscape(s) + close == close && close[1..] == rest;
    } else {
      var tail := StrEscape(s[1..]) + close;
      EscapeFirst(s);
      assert StrEscape(s) + close == EscapeChar(s[0]) + tail;
      ReadEscaped(s[1..], rest);
      if s[1..] != [] {
        EscapeFirst(s[1..]);
        assert tail[0] == EscapeChar(s[1])[0];
      } else {
        assert tail == close;
      }
      if s[0] == DOLLAR && |s| > 1 && StartsVariable(s[1]) {
        ReadVariable(tail);
      } else {
        ReadEscapedChar(s[0], tail);
        assert s == [s[0]] + s[1..];
        ReplaceAppend([s[0]], s[1..], DOLLAR, [BACKSLASH, DOLLAR]);
      }
    }
  }

  // ---------------------------------------------------------------- numbers and scalars

  predicate StartsDigit(s: Bytes) {
    s != [] && IsDigit(s[0])
  }

  lemma {:induction false} CountDigits(d: Bytes, rest: Bytes)
    requires AllDigits(d) && !StartsDigit(rest)
    ensures DigitCount(d + rest) == |d|
  {
    if d == [] {
      assert d + rest == rest;
    } else {
      assert (d + rest)[0] == d[0] && (d + rest)[1..] == d[1..] + rest;
      CountDigits(d[1..], rest);
    }
  }

  lemma ReadDecimal(n: nat, negative: bool, rest: Bytes)
    requires !StartsDigit(rest)
    ensures var value: int := if negative then 0 - n else n;
            ReadNumber(Decimal(n) + rest, negative) == Ok((Number(value, n), rest))
  {
    var d := Decimal(n);
    CountDigits(d, rest);
    DecimalInverts(n);
    assert (d + rest)[..|d|] == d && (d + rest)[|d|..] == rest && (d + rest)[0] == d[0];
    if n < 10 {
      assert |d| == 1;
    }
  }

  lemma ReadStr(s: Bytes, rest: Bytes)
    ensures ReadScalar(BuildScalar(Str(s)) + rest) == Outcome(ScalarMeaning(Str(s)), rest)
  {
    var text := [QUOTE] + (StrEscape(s) + ([QUOTE] + rest));
    assert BuildScalar(Str(s)) + rest == text;
    assert text[1..] == StrEscape(s) + ([QUOTE] + rest);
    ReadEscaped(s, rest);
  }

  lemma ReadNegative(s: Bytes)
    ensures ReadScalar("-" + s) == ReadNumber(s, true)
  {
    var text: Bytes := "-" + s;
    assert text[1..] == s && (|text| >= 4 ==> text[..4][0] == '-');
  }

  lemma ReadPositive(s: Bytes)
    requires StartsDigit(s)
    ensures ReadScalar(s) == ReadNumber(s, false)
  {
    assert |s| >= 4 ==> s[..4][0] == s[0];
  }

  lemma ReadIntText(n: int, rest: Bytes)
    requires !StartsDigit(rest)
    ensures ReadScalar(IntText(n) + rest) == Ok((Number(n, if n < 0 then -n else n), rest))
    ensures IntText(n)[0] == '-' || IsDigit(IntText(n)[0])
  {
    if n < 0 {
      var d := Decimal(-n);
      assert IntText(n) == "-" + d;
      assert "-" + d + rest == "-" + (d + rest);
      ReadNegative(d + rest);
      ReadDecimal(-n, true, rest);
    } else {
      var d := Decimal(n);
      assert IntText(n) == d && (d + rest)[0] == d[0];
      ReadPositive(d + rest);
      ReadDecimal(n, false, rest);
    }
  }

  lemma ReadInt(n: int, rest: Bytes)
    requires INT_MIN <= n <= INT_MAX && !StartsDigit(rest)
    ensures ReadScalar(IntText(n) + rest) == Outcome(ScalarMeaning(Int(n)), rest)
    ensures IntText(n)[0] == '-' || IsDigit(IntText(n)[0])
  {
    ReadIntText(n, rest);
  }

  lemma ReadNull(rest: Bytes)
    ensures ReadScalar("null" + rest) == Ok((Null, rest))
  {
    var text: Bytes := "null" + rest;
    assert text[..4] == "null" && text[4..] == rest;
  }

  lemma ReadScalarText(v: Value, rest: Bytes)
    requires !v.Arr? && WellFormed(v) && !StartsDigit(rest)
    ensures BuildScalar(v) != [] && BuildScalar(v)[0] != '[' && BuildScalar(v)[0] != ']'
    ensures ReadScalar(BuildScalar(v) + rest) == Outcome(ScalarMeaning(v), rest)
  {
    if v.Str? {
      ReadStr(v.s, rest);
    } else if v.Int? {
      ReadInt(v.n, rest);
    } else {
      ReadNull(rest);
    }
  }

  lemma ReadScalarValue(v: Value, rest: Bytes)
    requires !v.Arr? && WellFormed(v) && !StartsDigit(rest)
    ensures BuildScalar(v) != [] && BuildScalar(v)[0] != ']'
    ensures ReadValue(BuildScalar(v) + rest) == Outcome(ScalarMeaning(v), rest)
  {
    ReadScalarText(v, rest);
    assert (BuildScalar(v) + rest)[0] == BuildScalar(v)[0];
  }

  // ---------------------------------------------------------------- arrays

  /** The values PHP can hold: integers are 64 bits wide and array keys are distinct. */
  predicate WellFormed(v: Value) {
    match v
    case Int(n) => INT_MIN <= n <= INT_MAX
    case Arr(items) => DistinctKeys(items) && WellFormedItems(items)
    case _ => true
  }

  predicate WellFormedItems(items: seq<(Key, Value)>) {
    items == [] || (IsKey(items[0].0) && WellFormedItem(items[0]) && WellFormedItems(items[1..]))
  }

  predicate WellFormedItem(item: (Key, Value)) {
    WellFormed(item.1)
  }

  function Joined(items: seq<(Key, Value)>, i: nat): Bytes {
    if items == [] then []
    else if |items| == 1 then BuildItem(items[0], i)
    else BuildItem(items[0], i) + "," + Joined(items[1..], i + 1)
  }

  predicate EndsClean(s: Bytes) {
    s != [] && s[|s| - 1] != ','
  }

  lemma BuildEndsClean(v: Value)
    ensures EndsClean(Build(v))
  {
    match v {
      case Int(n) =>
        var t := IntText(n);
        assert IsDigit(t[|t| - 1]);
      case _ =>
    }
  }

  lemma {:induction false} ItemsAreJoined(items: seq<(Key, Value)>, i: nat)
    requires items != []
    ensures BuildItems(items, i) == Joined(items, i) + ","
    ensures EndsClean(Joined(items, i))
  {
    BuildEndsClean(items[0].1);
    if |items| > 1 {
      ItemsAreJoined(items[1..], i + 1);
    } else {
      assert items[1..] == [];
    }
  }

  /** `rtrim` takes away the separator after the last entry and nothing else. */
  lemma ArrayText(items: seq<(Key, Value)>)
    ensures Build(Arr(items)) == "[" + Joined(items, 0) + "]"
  {
    if items == [] {
      assert BuildItems(items, 0) == [] && "[" + [] == "[";
    } else {
      ItemsAreJoined(items, 0);
      var t: Bytes := "[" + Joined(items, 0);
      assert "[" + BuildItems(items, 0) == t + ",";
      assert (t + ",")[..|t|] == t && t[|t| - 1] != ',';
      assert RTrim(t + ",") == RTrim(t) == t;
    }
  }

  function ItemsOutcome(meaning: Option<seq<(Key, Value)>>, rest: Bytes): Result<(Value, Bytes)> {
    match meaning
    case None => Err
    case Some(items) => Ok((Arr(items), rest))
  }

  /** After an entry the printed text goes on with a comma or ends with a bracket. */
  predicate AfterItem(s: Bytes) {
    s != [] && (s[0] == ',' || s[0] == ']')
  }

  lemma KeyedText(key: Bytes, value: Bytes, tail: Bytes)
    requires key != []
    ensures key + "=>" + value + tail == key + ("=>" + (value + tail))
    ensures (key + ("=>" + (value + tail)))[0] == key[0]
  {
  }

  lemma ReadKeyed(item: (Key, Value), i: nat, done: seq<(Key, Value)>, next: nat, tail: Bytes)
    requires item.0 != IntKey(i) && IsKey(item.0) && AfterItem(tail)
    requires ReadValue(Build(item.1) + tail) == Outcome(Meaning(item.1), tail)
    ensures ReadItems(BuildItem(item, i) + tail, done, next) == ReadMore(tail, StoreMeaning(item, i, done, next))
  {
    var key, value := BuildScalar(KeyValue(item.0)), Build(item.1);
    ReadScalarValue(KeyValue(item.0), "=>" + (value + tail));
    KeyedText(key, value, tail);
    ReadArrow(BuildItem(item, i) + tail, value + tail, ScalarMeaning(KeyValue(item.0)), Meaning(item.1), tail, done, next);
  }

  lemma ReadArrow(s: Bytes, s2: Bytes, k: Option<Value>, v: Option<Value>, tail: Bytes, done: seq<(Key, Value)>, next: nat)
    requires s != [] && s[0] != ']'
    requires ReadValue(s) == Outcome(k, "=>" + s2) && ReadValue(s2) == Outcome(v, tail)
    ensures ReadItems(s, done, next)
            == if k.None? || v.None? then Err else ReadMore(tail, Store(done, next, KeyOf(k.value), v.value))
  {
    var rest: Bytes := "=>" + s2;
    assert rest[..2] == "=>" && rest[2..] == s2;
  }

  lemma ReadBare(item: (Key, Value), i: nat, done: seq<(Key, Value)>, next: nat, tail: Bytes)
    requires item.0 == IntKey(i) && AfterItem(tail)
    requires ReadValue(Build(item.1) + tail) == Outcome(Meaning(item.1), tail)
    requires Build(item.1) != [] && Build(item.1)[0] != ']'
    ensures ReadItems(BuildItem(item, i) + tail, done, next) == ReadMore(tail, StoreMeaning(item, i, done, next))
  {
    assert BuildItem(item, i) == Build(item.1);
    assert (Build(item.1) + tail)[0] == Build(item.1)[0];
    assert |tail| >= 2 ==> tail[..2][0] == tail[0];
  }

  lemma ReadBracket(inner: Bytes, rest: Bytes)
    ensures ReadValue("[" + inner + "]" + rest) == ReadItems(inner + ("]" + rest), [], 0)
  {
    var text: Bytes := "[" + inner + "]" + rest;
    assert text[1..] == inner + ("]" + rest);
  }

  lemma ReadClose(rest: Bytes, done: seq<(Key, Value)>, next: nat)
    ensures ReadItems("]" + rest, done, next) == Ok((Arr(done), rest))
  {
    var text: Bytes := "]" + rest;
    assert text[1..] == rest;
  }

  lemma ReadArray(items: seq<(Key, Value)>, rest: Bytes)
    requires ReadItems(Joined(items, 0) + ("]" + rest), [], 0) == ItemsOutcome(ItemsMeaning(items, 0, [], 0), rest)
    ensures Build(Arr(items))[0] == '['
    ensures ReadValue(Build(Arr(items)) + rest) == Outcome(Meaning(Arr(items)), rest)
  {
    ArrayText(items);
    ReadBracket(Joined(items, 0), rest);
  }

  /** For every value and whatever follows it: the printed text denotes `Meaning(v)`. */
  lemma {:induction false} ReadPrinted(v: Value, rest: Bytes)
    requires WellFormed(v) && !StartsDigit(rest)
    ensures Build(v) != [] && Build(v)[0] != ']'
    ensures ReadValue(Build(v) + rest) == Outcome(Meaning(v), rest)
  {
    if v.Arr? {
      if v.items == [] {
        assert [] + ("]" + rest) == "]" + rest;
        ReadClose(rest, [], 0);
      } else {
        ReadPrintedItems(v.items, 0, [], 0, rest);
      }
      ReadArray(v.items, rest);
    } else {
      ReadScalarValue(v, rest);
    }
  }

  lemma {:induction false} ReadPrintedItem(item: (Key, Value), i: nat, done: seq<(Key, Value)>, next: nat, tail: Bytes)
    requires IsKey(item.0) && WellFormedItem(item) && AfterItem(tail)
    ensures ReadItems(BuildItem(item, i) + tail, done, next) == ReadMore(tail, StoreMeaning(item, i, done, next))
  {
    ReadPrinted(item.1, tail);
    if item.0 == IntKey(i) {
      ReadBare(item, i, done, next, tail);
    } else {
      ReadKeyed(item, i, done, next, tail);
    }
  }

  lemma {:induction false} ReadPrintedItems(items: seq<(Key, Value)>, i: nat, done: seq<(Key, Value)>, next: nat, rest: Bytes)
    requires items != [] && WellFormedItems(items)
    ensures ReadItems(Joined(items, i) + ("]" + rest), done, next) == ItemsOutcome(ItemsMeaning(items, i, done, next), rest)
    decreases items
  {
    var state := StoreMeaning(items[0], i, done, next);
    if |items| == 1 {
      assert items[1..] == [];
      ReadPrintedItem(items[0], i, done, next, "]" + rest);
      ReadMoreClose(rest, state);
    } else {
      var more := Joined(items[1..], i + 1);
      JoinedText(BuildItem(items[0], i), more, "]" + rest);
      ReadPrintedItem(items[0], i, done, next, "," + (more + ("]" + rest)));
      ReadMoreComma(more + ("]" + rest), state);
      if state.Some? {
        ReadPrintedItems(items[1..], i + 1, state.value.0, state.value.1, rest);
      }
    }
  }

  lemma JoinedText(item: Bytes, more: Bytes, close: Bytes)
    ensures item + "," + more + close == item + ("," + (more + close))
  {
  }

  lemma ReadMoreClose(rest: Bytes, state: Option<(seq<(Key, Value)>, nat)>)
    ensures ReadMore("]" + rest, state) == if state.None? then Err else Ok((Arr(state.value.0), rest))
  {
    var text: Bytes := "]" + rest;
    assert text[1..] == rest;
  }

  lemma ReadMoreComma(more: Bytes, state: Option<(seq<(Key, Value)>, nat)>)
    ensures ReadMore("," + more, state) == if state.None? then Err else ReadItems(more, state.value.0, state.value.1)
  {
    var text: Bytes := "," + more;
    assert text[1..] == more;
  }

  // ---------------------------------------------------------------- when the printed value is the value

  predicate PrintableScalar(v: Value) {
    match v
    case Str(s) => DOLLAR !in s
    case Int(n) => n != INT_MIN
    case Null => true
    case _ => false
  }

  /** No `$`, no type that is printed as null, not the least integer, and keys that may be left out. */
  predicate Printable(v: Value) {
    if v.Arr? then PrintableItems(v.items, 0, 0) else PrintableScalar(v)
  }

  predicate PrintableItems(items: seq<(Key, Value)>, i: nat, next: nat)
    decreases items
  {
    items == [] || (PrintableItem(items[0], i, next) && PrintableItems(items[1..], i + 1, NextIndex(next, items[0].0)))
  }

  /** A key that equals its position is left out, so it has to be the next free index there. */
  predicate PrintableItem(item: (Key, Value), i: nat, next: nat)
    decreases item
  {
    Printable(item.1) && (if item.0 == IntKey(i) then next == i else item.0.StrKey? ==> DOLLAR !in item.0.s)
  }

  lemma {:induction false} DollarsAdd(s: Bytes)
    ensures var t := Replace(s, DOLLAR, [BACKSLASH, DOLLAR]);
            |t| >= |s| && (DOLLAR in s ==> |t| > |s|) && (DOLLAR !in s ==> t == s && !Interpolates(s))
  {
    if s != [] {
      DollarsAdd(s[1..]);
      assert DOLLAR in s <==> s[0] == DOLLAR || DOLLAR in s[1..];
      assert s == [s[0]] + s[1..];
    }
  }

  lemma ScalarExact(v: Value)
    requires !v.Arr?
    ensures ScalarMeaning(v) == Some(v) <==> PrintableScalar(v)
  {
    if v.Str? {
      DollarsAdd(v.s);
    }
  }

  lemma KeyExact(k: Key)
    requires IsKey(k)
    ensures var read := ScalarMeaning(KeyValue(k));
            (read.Some? && KeyOf(read.value) == Some(k)) <==> (k.StrKey? ==> DOLLAR !in k.s)
  {
    if k.StrKey? {
      DollarsAdd(k.s);
    }
  }

  lemma {:induction false} PutGrows<V>(a: seq<(Key, V)>, k: Key, v: V)
    requires |ArrayPut(a, k, v)| == |a| + 1
    ensures ArrayPut(a, k, v) == a + [(k, v)]
  {
    if a != [] {
      PutGrows(a[1..], k, v);
    }
  }

  /** An entry never adds more than one place, and only a new key adds one. */
  lemma {:induction false} ItemsOnlyAppend(items: seq<(Key, Value)>, i: nat, done: seq<(Key, Value)>, next: nat)
    requires ItemsMeaning(items, i, done, next).Some?
    ensures var r := ItemsMeaning(items, i, done, next).value;
            |r| <= |done| + |items| && (|r| == |done| + |items| ==> done <= r)
    decreases items
  {
    if items != [] {
      var (done2, next2) := StoreMeaning(items[0], i, done, next).value;
      ItemsOnlyAppend(items[1..], i + 1, done2, next2);
      StoreAppends(items[0], i, done, next);
    }
  }

  lemma StoreAppends(item: (Key, Value), i: nat, done: seq<(Key, Value)>, next: nat)
    requires StoreMeaning(item, i, done, next).Some?
    ensures var done2 := StoreMeaning(item, i, done, next).value.0;
            |done| <= |done2| <= |done| + 1
            && (|done2| == |done| + 1 ==> done2 == done + [(StoredKey(item.0, i, next), Meaning(item.1).value)])
  {
    var k := StoredKey(item.0, i, next);
    if |ArrayPut(done, k, Meaning(item.1).value)| == |done| + 1 {
      PutGrows(done, k, Meaning(item.1).value);
    }
  }

  /** The key under which an entry comes back. */
  function StoredKey(k: Key, i: nat, next: nat): Key {
    if k == IntKey(i) then IntKey(next)
    else
      match ScalarMeaning(KeyValue(k))
      case Some(read) => (match KeyOf(read) case Some(k2) => k2 case None => k)
      case None => k
  }

  lemma {:induction false} ItemExact(item: (Key, Value), i: nat, done: seq<(Key, Value)>, next: nat)
    requires IsKey(item.0) && WellFormedItem(item) && !HasKey(done, item.0)
    ensures PrintableItem(item, i, next) ==> StoreMeaning(item, i, done, next) == Some((done + [item], NextIndex(next, item.0)))
    ensures StoreMeaning(item, i, done, next).Some? && StoreMeaning(item, i, done, next).value.0 == done + [item]
            ==> PrintableItem(item, i, next)
    decreases item
  {
    ValueExact(item.1);
    KeyExact(item.0);
    PutNewKey(done, item.0, item.1);
    var stored := StoreMeaning(item, i, done, next);
    if stored.Some? && stored.value.0 == done + [item] {
      StoreAppends(item, i, done, next);
      assert (done + [item])[|done|] == (StoredKey(item.0, i, next), Meaning(item.1).value);
    }
  }

  lemma {:induction false} ItemsExact(items: seq<(Key, Value)>, i: nat, done: seq<(Key, Value)>, next: nat)
    requires WellFormedItems(items) && DistinctKeys(done + items)
    ensures ItemsMeaning(items, i, done, next) == Some(done + items) <==> PrintableItems(items, i, next)
    decreases items
  {
    if items == [] {
      assert done + items == done;
    } else {
      assert (done + items)[|done|] == items[0];
      assert forall j :: 0 <= j < |done| ==> (done + items)[j] == done[j];
      ItemExact(items[0], i, done, next);
      assert done + [items[0]] + items[1..] == done + items;
      if ItemsMeaning(items, i, done, next) == Some(done + items) {
        var (done2, next2) := StoreMeaning(items[0], i, done, next).value;
        ItemsOnlyAppend(items[1..], i + 1, done2, next2);
        StoreAppends(items[0], i, done, next);
        assert done2 == (done + items)[..|done| + 1] == done + [items[0]];
      }
      if PrintableItem(items[0], i, next) {
        ItemsExact(items[1..], i + 1, done + [items[0]], NextIndex(next, items[0].0));
      }
    }
  }

  lemma {:induction false} ValueExact(v: Value)
    requires WellFormed(v)
    ensures Meaning(v) == Some(v) <==> Printable(v)
  {
    if v.Arr? {
      assert [] + v.items == v.items;
      ItemsExact(v.items, 0, [], 0);
    } else {
      ScalarExact(v);
    }
  }

  /** Evaluating the printed literal gives the value back exactly when the value is printable. */
  lemma PrintedReadsBack(v: Value)
    requires WellFormed(v)
    ensures ReadValue(Build(v)) == Ok((v, [])) <==> Printable(v)
  {
    assert Build(v) + [] == Build(v);
    ReadPrinted(v, []);
    ValueExact(v);
  }

  lemma DollarMeaning()
    ensures Meaning(Str("$1")) == Some(Str([BACKSLASH] + "$1"))
  {
    var s: Bytes := "$1";
    assert s == [DOLLAR] + ['1'] && s[1..] == ['1'] && ['1'][1..] == [];
    ReplaceOne(DOLLAR, DOLLAR, [BACKSLASH, DOLLAR]);
    ReplaceOne('1', DOLLAR, [BACKSLASH, DOLLAR]);
    ReplaceAppend([DOLLAR], ['1'], DOLLAR, [BACKSLASH, DOLLAR]);
    assert [BACKSLASH, DOLLAR] + ['1'] == [BACKSLASH] + s;
  }

  /** A dollar sign gains a backslash. */
  lemma DollarMisprints()
    ensures ReadValue(Build(Str("$1"))) == Ok((Str([BACKSLASH] + "$1"), []))
  {
    var v := Str("$1");
    assert Build(v) + [] == Build(v);
    ReadPrinted(v, []);
    DollarMeaning();
  }

  /** A left-out key comes back as the next free index. */
  lemma KeyMisprints()
    ensures ReadValue(Build(Arr([(IntKey(5), Null), (IntKey(1), Null)])))
            == Ok((Arr([(IntKey(5), Null), (IntKey(6), Null)]), []))
  {
    var items := [(IntKey(5), Null), (IntKey(1), Null)];
    assert items[1..] == [(IntKey(1), Null)];
    assert Build(Arr(items)) + [] == Build(Arr(items));
    ReadPrinted(Arr(items), []);
    KeyMeaningDrifts();
  }

  lemma KeyMeaningDrifts()
    ensures ItemsMeaning([(IntKey(5), Null), (IntKey(1), Null)], 0, [], 0) == Some([(IntKey(5), Null), (IntKey(6), Null)])
  {
    var items := [(IntKey(5), Null), (IntKey(1), Null)];
    var done := [(IntKey(5), Null)];
    PutNewKey(done, IntKey(6), Null);
    assert StoreMeaning(items[0], 0, [], 0) == Some((done, 6));
    assert StoreMeaning(items[1], 1, done, 6) == Some((done + [(IntKey(6), Null)], 7));
    assert items[1..] == [items[1]] && items[1..][1..] == [];
    assert ItemsMeaning(items[1..], 1, done, 6) == Some(done + [(IntKey(6), Null)]);
    assert done + [(IntKey(6), Null)] == [(IntKey(5), Null), (IntKey(6), Null)];
  }

  // ---------------------------------------------------------------- the configuration file

  const OPEN: Bytes := "<?php" + [Chr(10)]
  const DEFINE: Bytes := "define(" + [QUOTE]
  const END: Bytes := ");" + [Chr(10)]

  function DefineLine(name: Bytes, v: Value): Bytes {
    DEFINE + StrEscape(name) + ([QUOTE] + ("," + (Build(v) + END)))
  }

  predicate AllNamed(consts: seq<(Key, Value)>) {
    forall i :: 0 <= i < |consts| ==> consts[i].0.StrKey?
  }

  function DefineLines(consts: seq<(Key, Value)>): Bytes
    requires AllNamed(consts)
  {
    if consts == [] then [] else DefineLine(consts[0].0.s, consts[0].1) + DefineLines(consts[1..])
  }

  /** `build`: one `define` for each constant, or an exception for a name that is not a string. */
  method BuildConfig(consts: seq<(Key, Value)>) returns (file: Result<Bytes>)
    ensures file == if AllNamed(consts) then Ok(OPEN + DefineLines(consts)) else Err
  {
    var text := OPEN;
    var i := 0;
    assert consts[0..] == consts;
    while i < |consts|
      invariant 0 <= i <= |consts|
      invariant AllNamed(consts[..i])
      invariant AllNamed(consts) ==> text + DefineLines(consts[i..]) == OPEN + DefineLines(consts)
    {
      var (k, v) := consts[i];
      if !k.StrKey? {
        return Err;
      }
      assert AllNamed(consts[..i + 1]);
      ghost var before := text;
      var value := BuildData(v);
      text := text + (DEFINE + StrEscape(k.s) + ([QUOTE] + ("," + (value + END))));
      if AllNamed(consts) {
        assert consts[i..][0] == consts[i] && consts[i..][1..] == consts[i + 1..];
        assert before + (DefineLine(k.s, v) + DefineLines(consts[i + 1..])) == text + DefineLines(consts[i + 1..]);
      }
      i := i + 1;
    }
    assert consts[..i] == consts;
    assert text + [] == text;
    file := Ok(text);
  }

  function ReadConfig(s: Bytes): Result<seq<(Bytes, Value)>> {
    if OPEN <= s then ReadDefines(s[|OPEN|..]) else Err
  }

  function ReadDefines(s: Bytes): Result<seq<(Bytes, Value)>>
    decreases |s|
  {
    if s == [] then Ok([])
    else
      match ReadDefine(s)
      case Err => Err
      case Ok((first, rest)) =>
        match ReadDefines(rest)
        case Err => Err
        case Ok(others) => Ok([first] + others)
  }

  function ReadDefine(s: Bytes): (r: Result<((Bytes, Value), Bytes)>)
    ensures r.Ok? ==> |r.value.1| < |s|
  {
    if DEFINE <= s then ReadNamed(ReadString(s[|DEFINE|..])) else Err
  }

  function ReadNamed(name: Result<(Bytes, Bytes)>): (r: Result<((Bytes, Value), Bytes)>)
    ensures r.Ok? ==> name.Ok? && |r.value.1| < |name.value.1|
  {
    if name.Err? || name.value.1 == [] || name.value.1[0] != ',' then Err
    else
      match ReadValue(name.value.1[1..])
      case Err => Err
      case Ok((v, rest)) => if END <= rest then Ok(((name.value.0, v), rest[|END|..])) else Err
  }

  function ConfigMeaning(consts: seq<(Key, Value)>): Option<seq<(Bytes, Value)>>
    requires AllNamed(consts)
  {
    if consts == [] then Some([])
    else
      var name, v, others := ScalarMeaning(Str(consts[0].0.s)), Meaning(consts[0].1), ConfigMeaning(consts[1..]);
      if name.None? || v.None? || others.None? then None else Some([(name.value.s, v.value)] + others.value)
  }

  lemma DefineText(name: Bytes, value: Bytes, rest: Bytes)
    ensures DEFINE + name + ([QUOTE] + ("," + (value + END))) + rest
            == DEFINE + (name + ([QUOTE] + ("," + (value + (END + rest)))))
    ensures var text := DEFINE + (name + ([QUOTE] + ("," + (value + (END + rest)))));
            DEFINE <= text && text[|DEFINE|..] == name + ([QUOTE] + ("," + (value + (END + rest))))
  {
  }

  lemma EndText(rest: Bytes)
    ensures END <= END + rest && (END + rest)[|END|..] == rest && !StartsDigit(END + rest)
  {
    assert (END + rest)[0] == ')';
  }

  lemma ReadAfterName(name: Bytes, v: Value, rest: Bytes)
    requires WellFormed(v)
    ensures ReadNamed(Ok((name, "," + (Build(v) + (END + rest)))))
            == if Meaning(v).None? then Err else Ok(((name, Meaning(v).value), rest))
  {
    var value: Bytes := "," + (Build(v) + (END + rest));
    assert value[1..] == Build(v) + (END + rest);
    EndText(rest);
    ReadPrinted(v, END + rest);
  }

  lemma ReadDefineLine(name: Bytes, v: Value, rest: Bytes)
    requires WellFormed(v)
    ensures var n, w := ScalarMeaning(Str(name)), Meaning(v);
            ReadDefine(DefineLine(name, v) + rest) == if n.None? || w.None? then Err else Ok(((n.value.s, w.value), rest))
  {
    DefineText(StrEscape(name), Build(v), rest);
    ReadEscaped(name, "," + (Build(v) + (END + rest)));
    ReadAfterName(Replace(name, DOLLAR, [BACKSLASH, DOLLAR]), v, rest);
  }

  predicate WellFormedConsts(consts: seq<(Key, Value)>) {
    AllNamed(consts) && forall i :: 0 <= i < |consts| ==> WellFormed(consts[i].1)
  }

  lemma {:induction false} ReadDefineLines(consts: seq<(Key, Value)>)
    requires WellFormedConsts(consts)
    ensures ReadDefines(DefineLines(consts))
            == match ConfigMeaning(consts) case None => Err case Some(all) => Ok(all)
  {
    if consts != [] {
      var rest := DefineLines(consts[1..]);
      ReadDefineLine(consts[0].0.s, consts[0].1, rest);
      ReadDefineLines(consts[1..]);
      assert DefineLines(consts) == DefineLine(consts[0].0.s, consts[0].1) + rest != [];
    }
  }

  function Constants(consts: seq<(Key, Value)>): seq<(Bytes, Value)>
    requires AllNamed(consts)
  {
    seq(|consts|, i requires 0 <= i < |consts| => (consts[i].0.s, consts[i].1))
  }

  predicate PrintableConsts(consts: seq<(Key, Value)>)
    requires AllNamed(consts)
  {
    forall i :: 0 <= i < |consts| ==> DOLLAR !in consts[i].0.s && Printable(consts[i].1)
  }

  lemma {:induction false} ConfigExact(consts: seq<(Key, Value)>)
    requires WellFormedConsts(consts)
    ensures ConfigMeaning(consts) == Some(Constants(consts)) <==> PrintableConsts(consts)
  {
    if consts == [] {
      assert Constants(consts) == [];
    } else {
      var first := (consts[0].0.s, consts[0].1);
      ScalarExact(Str(first.0));
      ValueExact(first.1);
      ConfigExact(consts[1..]);
      assert Constants(consts) == [first] + Constants(consts[1..]);
      assert PrintableConsts(consts) <==> DOLLAR !in first.0 && Printable(first.1) && PrintableConsts(consts[1..]) by {
        assert forall i :: 0 <= i < |consts[1..]| ==> consts[1..][i] == consts[i + 1];
        assert forall i :: 0 < i < |consts| ==> consts[i] == consts[1..][i - 1];
      }
      var meaning := ConfigMeaning(consts);
      if meaning == Some(Constants(consts)) {
        assert meaning.value[0] == first && meaning.value[1..] == Constants(consts[1..]);
      }
    }
  }

  /** Loading the generated file defines the configured constants exactly when each one is printable. */
  lemma ConfigReadsBack(consts: seq<(Key, Value)>)
    requires WellFormedConsts(consts)
    ensures ReadConfig(OPEN + DefineLines(consts)) == Ok(Constants(consts)) <==> PrintableConsts(consts)
  {
    var text := OPEN + DefineLines(consts);
    assert OPEN <= text && text[|OPEN|..] == DefineLines(consts);
    ReadDefineLines(consts);
    ConfigExact(consts);
  }
}
