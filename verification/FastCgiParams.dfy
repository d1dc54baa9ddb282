/**
 Name-value pairs of FastCGI Params records: `packPayload` and `unpackPayload`, section 3.4 of the
 FastCGI Specification 1.0.
 */
module FastCgiParams {
  import opened PhpBytes

  /** A PHP array of parameters; a null value is left out of the wire form. */
  type Values = seq<(Key, Option<Bytes>)>

  ghost predicate IsPhpArray(vs: Values) {
    DistinctKeys(vs) && forall i :: 0 <= i < |vs| ==> IsKey(vs[i].0)
  }

  function PackLength(n: nat): (r: Bytes)
    ensures |r| == if n > 127 then 4 else 1
  {
    if n > 127 then Pack32(SetTopBit(n)) else [Chr(n)]
  }

  /** `n | 0x80000000` */
  function SetTopBit(n: nat): nat {
    if n / 0x8000_0000 % 2 == 1 then n else n + 0x8000_0000
  }

  function PackPair(name: Bytes, value: Bytes): (r: Bytes)
    ensures |r| >= 2
  {
    PackLength(|name|) + PackLength(|value|) + name + value
  }

  /** `strlen` of an integer key is a type error under strict types. */
  function PackPairs(vs: Values): Result<Bytes> {
    if vs == [] then Ok([])
    else match vs[0]
      case (_, None) => PackPairs(vs[1..])
      case (IntKey(_), Some(_)) => Err
      case (StrKey(name), Some(value)) =>
        var tail := PackPairs(vs[1..]);
        if tail.Err? then Err else Ok(PackPair(name, value) + tail.value)
  }

  /** The loop of `packPayload`. */
  method PackPayload(vs: Values) returns (payload: Result<Bytes>)
    ensures payload == PackPairs(vs)
  {
    var acc: Bytes := [];
    var i := 0;
    assert vs[0..] == vs;
    assert PackPairs(vs).Ok? ==> [] + PackPairs(vs).value == PackPairs(vs).value;
    while i < |vs|
      invariant 0 <= i <= |vs|
      invariant PackPairs(vs) == if PackPairs(vs[i..]).Ok? then Ok(acc + PackPairs(vs[i..]).value) else Err
    {
      assert vs[i..][0] == vs[i] && vs[i..][1..] == vs[i + 1..];
      match vs[i] {
        case (_, None) =>
        case (IntKey(_), Some(_)) => return Err;
        case (StrKey(name), Some(value)) =>
          ghost var tail := PackPairs(vs[i + 1..]);
          assert tail.Ok? ==> acc + (PackPair(name, value) + tail.value) == acc + PackPair(name, value) + tail.value;
          acc := acc + PackPair(name, value);
      }
      i := i + 1;
    }
    assert vs[i..] == [] && acc + [] == acc;
    payload := Ok(acc);
  }

  // ---------------------------------------------------------------- reading

  datatype Pair = Pair(name: Bytes, value: Bytes, used: nat)

  /** A length field: its size and its value with the top bit cleared. */
  function ReadLength(s: Bytes): (r: Result<(nat, nat)>)
    ensures r.Ok? ==> r.value.0 <= |s| && r.value.0 >= 1
  {
    if |s| < 1 then Err
    else if Ord(s[0]) < 128 then Ok((1, Ord(s[0])))
    else if |s| < 4 then Err
    else Ok((4, Unpack32(s) % 0x8000_0000))
  }

  /** One pass of the loop in `unpackPayload`; `unpack` fails when the data is too short. */
  function ReadPair(data: Bytes): (r: Result<Pair>)
    ensures r.Ok? ==> 2 <= r.value.used <= |data|
  {
    var n := ReadLength(data);
    if n.Err? then Err
    else
      var v := ReadLength(data[n.value.0..]);
      if v.Err? then Err
      else
        var offset := n.value.0 + v.value.0;
        var end := offset + n.value.1 + v.value.1;
        if |data| < end then Err
        else Ok(Pair(data[offset..offset + n.value.1], data[offset + n.value.1..end], end))
  }

  /** When a length field is refused, and what it means otherwise. */
  lemma ReadLengthExact(s: Bytes)
    ensures ReadLength(s).Err? <==> s == [] || (Ord(s[0]) >= 128 && |s| < 4)
    ensures ReadLength(s).Ok? ==>
              if Ord(s[0]) < 128 then ReadLength(s).value == (1, Ord(s[0]))
              else
                var value := (Ord(s[0]) - 128) * 0x100_0000 + Ord(s[1]) * 0x1_0000 + Ord(s[2]) * 0x100 + Ord(s[3]);
                ReadLength(s).value == (4, value)
  {
  }

  /** When a pair is refused, and which bytes it is otherwise. */
  lemma ReadPairExact(data: Bytes)
    ensures var n := ReadLength(data);
            var v := if n.Ok? then ReadLength(data[n.value.0..]) else Err;
            && (ReadPair(data).Ok? <==> n.Ok? && v.Ok? && n.value.0 + v.value.0 + n.value.1 + v.value.1 <= |data|)
            && (ReadPair(data).Ok? ==>
                  var p := ReadPair(data).value;
                  && |p.name| == n.value.1 && |p.value| == v.value.1
                  && data[..p.used] == data[..n.value.0 + v.value.0] + p.name + p.value)
  {
  }

  /** Read pairs until `left` bytes of content have been used up: a do-while loop, so at least one. */
  function ReadPairs(data: Bytes, left: int, acc: Values): Result<Values>
    decreases |data|
  {
    var p := ReadPair(data);
    if p.Err? then Err
    else
      var acc1 := ArrayPut(acc, ArrayKey(p.value.name), Some(p.value.value));
      if left - p.value.used <= 0 then Ok(acc1)
      else ReadPairs(data[p.value.used..], left - p.value.used, acc1)
  }

  /** The loop of `unpackPayload`; it ends because every pass uses up at least two bytes. */
  method UnpackPayload(payload: Bytes, contentLength: nat) returns (values: Result<Values>)
    ensures values == ReadPairs(payload, contentLength, [])
  {
    var data, acc, currentOffset := payload, [], 0;
    while true
      invariant ReadPairs(payload, contentLength, []) == ReadPairs(data, contentLength - currentOffset, acc)
      decreases |data|
    {
      var p := ReadPair(data);
      if p.Err? {
        return Err;
      }
      acc := ArrayPut(acc, ArrayKey(p.value.name), Some(p.value.value));
      data := data[p.value.used..];
      currentOffset := currentOffset + p.value.used;
      if currentOffset >= contentLength {
        return Ok(acc);
      }
    }
  }

  // ---------------------------------------------------------------- round trip

  /** The entries that reach the wire. */
  function Present(vs: Values): Values {
    if vs == [] then []
    else if vs[0].1.None? then Present(vs[1..])
    else [vs[0]] + Present(vs[1..])
  }

  lemma {:induction false} AllPresent(vs: Values)
    requires forall i :: 0 <= i < |vs| ==> vs[i].1.Some?
    ensures Present(vs) == vs
  {
    if vs != [] {
      AllPresent(vs[1..]);
    }
  }

  predicate NamesAreStrings(vs: Values) {
    forall i :: 0 <= i < |vs| && vs[i].1.Some? ==> vs[i].0.StrKey?
  }

  /** The four-byte form is told apart by its top bit, which reading clears. */
  lemma LongLength(n: nat, rest: Bytes)
    requires n < 0x8000_0000
    ensures ReadLength(Pack32(n + 0x8000_0000) + rest) == Ok((4, n))
  {
    var s := Pack32(n + 0x8000_0000) + rest;
    Unpack32Inverts(n + 0x8000_0000, rest);
    var top := (n + 0x8000_0000) / 0x100_0000;
    assert 128 <= top < 256;
    assert Ord(s[0]) == top;
    assert Unpack32(s) == n + 0x8000_0000;
  }

  lemma LengthRoundTrip(n: nat, rest: Bytes)
    requires n < 0x8000_0000
    ensures ReadLength(PackLength(n) + rest) == Ok((|PackLength(n)|, n))
  {
    if n > 127 {
      LongLength(n, rest);
    }
  }

  lemma ReadPairFrom(n: Bytes, v: Bytes, body: Bytes, nl: nat, vl: nat)
    requires nl + vl <= |body|
    requires ReadLength(n + (v + body)) == Ok((|n|, nl)) && ReadLength(v + body) == Ok((|v|, vl))
    ensures ReadPair(n + (v + body)) == Ok(Pair(body[..nl], body[nl..nl + vl], |n| + |v| + nl + vl))
  {
    var data := n + (v + body);
    assert data[|n|..] == v + body;
    assert data == (n + v) + body;
    SliceOfTail(n + v, body, 0, nl);
    SliceOfTail(n + v, body, nl, nl + vl);
  }

  lemma PairText(n: Bytes, v: Bytes, name: Bytes, value: Bytes, rest: Bytes)
    ensures n + v + name + value + rest == n + (v + (name + value + rest))
    ensures (name + value + rest)[..|name|] == name
    ensures (name + value + rest)[|name|..|name| + |value|] == value
  {
  }

  lemma PairRoundTrip(name: Bytes, value: Bytes, rest: Bytes)
    requires |name| < 0x8000_0000 && |value| < 0x8000_0000
    ensures ReadPair(PackPair(name, value) + rest) == Ok(Pair(name, value, |PackPair(name, value)|))
  {
    var n, v, body := PackLength(|name|), PackLength(|value|), name + value + rest;
    LengthRoundTrip(|name|, v + body);
    LengthRoundTrip(|value|, body);
    ReadPairFrom(n, v, body, |name|, |value|);
    PairText(n, v, name, value, rest);
  }

  lemma SliceOfTail(s: Bytes, t: Bytes, i: nat, j: nat)
    requires i <= j <= |t|
    ensures (s + t)[|s| + i..|s| + j] == t[i..j]
  {
  }

  lemma {:induction false} PackSucceedsIff(vs: Values)
    ensures PackPairs(vs).Ok? <==> NamesAreStrings(vs)
    ensures PackPairs(vs).Ok? ==> (PackPairs(vs).value == [] <==> Present(vs) == [])
  {
    if vs != [] {
      PackSucceedsIff(vs[1..]);
      assert forall i :: 0 <= i < |vs[1..]| ==> vs[1..][i] == vs[i + 1];
      assert NamesAreStrings(vs) <==> (vs[0].1.Some? ==> vs[0].0.StrKey?) && NamesAreStrings(vs[1..]);
    }
  }

  lemma PairThenRest(pair: Bytes, more: Bytes, rest: Bytes)
    ensures pair + more + rest == pair + (more + rest)
    ensures (pair + more + rest)[|pair|..] == more + rest
  {
  }

  /** One pass of the reading loop over a packed pair. */
  lemma ReadOne(name: Bytes, value: Bytes, more: Bytes, rest: Bytes, acc: Values)
    requires |name| < 0x8000_0000 && |value| < 0x8000_0000
    ensures var pair, acc1 := PackPair(name, value), ArrayPut(acc, ArrayKey(name), Some(value));
            ReadPairs(pair + more + rest, |pair + more|, acc)
            == if more == [] then Ok(acc1) else ReadPairs(more + rest, |more|, acc1)
  {
    PairThenRest(PackPair(name, value), more, rest);
    PairRoundTrip(name, value, more + rest);
  }

  lemma StillNew(vs: Values, acc: Values)
    requires IsPhpArray(vs) && vs != []
    requires forall i :: 0 <= i < |vs| ==> !HasKey(acc, vs[i].0)
    ensures IsPhpArray(vs[1..])
    ensures forall i :: 0 <= i < |vs[1..]| ==> !HasKey(acc, vs[1..][i].0) && !HasKey(acc + [vs[0]], vs[1..][i].0)
  {
    var tail := vs[1..];
    assert forall i :: 0 <= i < |tail| ==> tail[i] == vs[i + 1];
    forall i | 0 <= i < |tail| ensures !HasKey(acc, tail[i].0) && !HasKey(acc + [vs[0]], tail[i].0) {
      assert tail[i] == vs[i + 1] && vs[0].0 != vs[i + 1].0;
    }
  }

  /** Reading back what was packed, with pairs already read and any bytes behind. */
  lemma {:induction false} ReadPairsInverts(vs: Values, rest: Bytes, acc: Values)
    requires IsPhpArray(vs) && PackPairs(vs).Ok? && Present(vs) != []
    requires |PackPairs(vs).value| < 0x8000_0000
    requires forall i :: 0 <= i < |vs| ==> !HasKey(acc, vs[i].0)
    ensures ReadPairs(PackPairs(vs).value + rest, |PackPairs(vs).value|, acc) == Ok(acc + Present(vs))
  {
    var tail := vs[1..];
    StillNew(vs, acc);
    if vs[0].1.None? {
      ReadPairsInverts(tail, rest, acc);
    } else {
      var more := PackPairs(tail).value;
      ReadOne(vs[0].0.s, vs[0].1.value, more, rest, acc);
      assert IsKey(vs[0].0) && !HasKey(acc, vs[0].0);
      PutNewKey(acc, vs[0].0, vs[0].1);
      Regroup(acc, [vs[0]], Present(tail));
      PackSucceedsIff(tail);
      if Present(tail) != [] {
        ReadPairsInverts(tail, rest, acc + [vs[0]]);
      } else {
        assert [vs[0]] + [] == [vs[0]];
      }
    }
  }

  /** For every PHP array: packing succeeds exactly when no present entry has an integer key, and
      then unpacking a non-empty payload, whatever bytes follow it, gives the present entries in
      order. */
  lemma ParamsRoundTrip(vs: Values, rest: Bytes)
    requires IsPhpArray(vs)
    ensures PackPairs(vs).Ok? <==> NamesAreStrings(vs)
    ensures PackPairs(vs).Ok? && 1 <= |PackPairs(vs).value| <= 0xffff ==>
              ReadPairs(PackPairs(vs).value + rest, |PackPairs(vs).value|, []) == Ok(Present(vs))
  {
    PackSucceedsIff(vs);
    if PackPairs(vs).Ok? && 1 <= |PackPairs(vs).value| <= 0xffff {
      ReadPairsInverts(vs, rest, []);
      assert [] + Present(vs) == Present(vs);
    }
  }
}
