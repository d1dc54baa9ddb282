/**
 The synchronous client's `recv` with `open_eof_check`: bytes arrive from the socket in pieces of
 any size, and each call hands out the text up to and including the first end-of-packet marker.
 */
module EofClient {
  import opened PhpBytes

  /** `SW_BUFFER_SIZE_BIG`: the first size of the buffer and the most that one read takes. */
  const BIG := 65536
  const TWO_31 := 0x8000_0000

  /** With one read behind it, a packet of this length still leaves the buffered length within an `int`. */
  const LONGEST := TWO_31 - BIG

  /** Undefined: a length has left the range of the source's `int` or of its 32-bit buffer size. */
  datatype Received = Packet(data: Bytes) | Closed | Failed | Undefined

  /** The conversion of an unsigned length to a C `int`. */
  function ToInt(n: nat): int {
    if n % TWO_32 < TWO_31 then n % TWO_32 else n % TWO_32 - TWO_32
  }

  /** What is left in the buffer after a packet has been taken out, with the source's comparison of `int`s. */
  function AfterPop(buffer: Bytes, length: nat): Bytes
    requires length <= |buffer|
  {
    if ToInt(|buffer|) > length then buffer[length..] else []
  }

  /** The rest is kept exactly if the buffered length is below 2^31, or nothing follows the packet. */
  lemma PopExact(buffer: Bytes, length: nat)
    requires length <= |buffer| <= TWO_31
    ensures AfterPop(buffer, length) == buffer[length..] <==> |buffer| < TWO_31 || length == |buffer|
  {
    assert |buffer[length..]| == |buffer| - length;
  }

  /** The sizes that doubling gives. */
  predicate Doubled(size: nat) {
    size in {0x1_0000, 0x2_0000, 0x4_0000, 0x8_0000, 0x10_0000, 0x20_0000, 0x40_0000, 0x80_0000,
             0x100_0000, 0x200_0000, 0x400_0000, 0x800_0000, 0x1000_0000, 0x2000_0000, 0x4000_0000, 0x8000_0000}
  }

  /** Reads that are filled as far as possible keep whole reads in the buffer until there is nothing left. */
  lemma WholeReads(size: nat, length: nat, n: nat, left: nat)
    requires Doubled(size) && length % BIG == 0
    requires n == BIG || n == size - length || n == left
    ensures (length + n) % BIG == 0 || n == left
  {
    assert size % BIG == 0;
  }

  // ---------------------------------------------------------------- where packets end

  predicate At(s: Bytes, eof: Bytes, i: nat) {
    i + |eof| <= |s| && s[i..i + |eof|] == eof
  }

  predicate FirstAt(s: Bytes, eof: Bytes, i: nat) {
    At(s, eof, i) && forall j: nat | j < i :: !At(s, eof, j)
  }

  predicate Nowhere(s: Bytes, eof: Bytes) {
    forall j: nat | j <= |s| :: !At(s, eof, j)
  }

  /** A packet ends with its first marker. */
  predicate IsPacket(p: Bytes, eof: Bytes) {
    |eof| <= |p| && FirstAt(p, eof, |p| - |eof|)
  }

  /** `swoole_strnpos` */
  method Find(s: Bytes, eof: Bytes) returns (pos: int)
    requires eof != []
    ensures pos == -1 || 0 <= pos <= |s| - |eof|
    ensures pos >= 0 ==> FirstAt(s, eof, pos)
    ensures pos < 0 ==> Nowhere(s, eof)
  {
    if |eof| <= |s| {
      var i := 0;
      while i < |s| - |eof| + 1
        invariant 0 <= i <= |s| - |eof| + 1
        invariant forall j: nat | j < i :: !At(s, eof, j)
      {
        if s[i] == eof[0] && s[i..i + |eof|] == eof {
          return i;
        }
        i := i + 1;
      }
    }
    return -1;
  }

  lemma AtInPrefix(s: Bytes, t: Bytes, eof: Bytes, i: nat)
    requires i + |eof| <= |s|
    ensures At(s + t, eof, i) <==> At(s, eof, i)
  {
    assert (s + t)[i..i + |eof|] == s[i..i + |eof|];
  }

  /** The first marker of what has arrived is the first marker of the whole stream. */
  lemma FirstInPrefix(s: Bytes, t: Bytes, eof: Bytes, i: nat)
    requires eof != [] && i + |eof| <= |s|
    ensures FirstAt(s + t, eof, i) <==> FirstAt(s, eof, i)
  {
    forall j: nat | j <= i ensures At(s + t, eof, j) <==> At(s, eof, j) {
      AtInPrefix(s, t, eof, j);
    }
  }

  lemma PacketComesFirst(p: Bytes, rest: Bytes, eof: Bytes)
    requires eof != [] && IsPacket(p, eof)
    ensures FirstAt(p + rest, eof, |p| - |eof|)
  {
    FirstInPrefix(p, rest, eof, |p| - |eof|);
  }

  lemma Pieces(before: Bytes, p: Bytes, rest: Bytes)
    ensures (p + rest)[..|p|] == p && (p + rest)[|p|..] == rest
    ensures before + p + rest == before + (p + rest)
  {
  }

  lemma FirstIsUnique(s: Bytes, eof: Bytes, i: nat, j: nat)
    requires FirstAt(s, eof, i) && FirstAt(s, eof, j)
    ensures i == j
  {
  }

  // ---------------------------------------------------------------- the client

  class Client {
    const eof: Bytes
    const max: nat  // package_max_length, 32 bits
    const eager: bool  // whether the socket fills every read as far as it can

    var buffer: Bytes  // the first `length` bytes of the buffer
    var size: nat
    var wire: Bytes  // what the peer has sent and the socket has not delivered yet

    ghost var arrived: Bytes
    ghost var handed: Bytes
    ghost var lost: bool  // whether buffered bytes were given up

    constructor (eof: Bytes, max: nat, sent: Bytes, eager: bool)
      requires 1 <= |eof| <= 8 && max < TWO_32
      ensures Valid() && buffer == [] && wire == sent && arrived == [] && handed == [] && !lost
      ensures this.eof == eof && this.max == max && this.eager == eager
    {
      this.eof, this.max, this.eager := eof, max, eager;
      buffer, size, wire := [], BIG, sent;
      arrived, handed, lost := [], [], false;
    }

    ghost predicate Sized()
      reads this
    {
      && 1 <= |eof| <= 8 && max < TWO_32
      && BIG <= size && (BIG < size ==> size <= max) && (max >= TWO_31 ==> Doubled(size))
      && |buffer| <= size
      && (!lost ==> handed + buffer == arrived)
    }

    /** Between calls. */
    ghost predicate Valid()
      reads this
    {
      Sized() && |buffer| < TWO_31
    }

    ghost function Stream(): Bytes
      reads this
    {
      buffer + wire
    }

    /** A packet of the given length starts the stream. */
    ghost predicate Begins(s: Bytes, length: nat) {
      |eof| <= length && FirstAt(s, eof, length - |eof|)
    }

    ghost predicate BeginsWithin(s: Bytes, limit: nat) {
      exists length: nat :: length <= limit && Begins(s, length)
    }

    /** The longest packets that a client with this maximum can return. */
    ghost function Limit(): nat {
      if max < TWO_31 then max else TWO_31 - 1
    }

    /** The packet may be found with 2^31 bytes in the buffer, and then what follows it there is lost. */
    ghost predicate AtRisk(stream: Bytes, length: nat) {
      length > LONGEST && max >= TWO_31 && |stream| >= TWO_31
    }

    /**
     What a call makes of the stream, whatever the socket did. The next packet is returned whole, and what
     follows it is kept unless it is at risk. Where the buffer may grow up to the maximal length, a packet that
     is too long fails after exactly that many bytes, a stream that ends before its packet does is discarded,
     and 2^31 bytes without a packet leave the range of the source's arithmetic.
     */
    ghost predicate Answers(stream: Bytes, r: Received, after: Bytes) {
      && (forall length: nat | length <= Limit() && Begins(stream, length) ::
            && r == Packet(stream[..length])
            && (after == stream[length..] || (AtRisk(stream, length) && after == stream[TWO_31..])))
      && (BIG <= max && !BeginsWithin(stream, Limit()) ==> Misses(stream, r, after))
    }

    ghost predicate Misses(stream: Bytes, r: Received, after: Bytes) {
      if |stream| >= max && (max < TWO_31 || (max == TWO_31 && !Begins(stream, TWO_31))) then
        r == Failed && after == stream[max..]
      else if max >= TWO_31 && |stream| >= TWO_31 then r == Undefined
      else r == Closed && after == []
    }

    lemma FoundAnswers(s: Bytes, t: Bytes, length: nat, after: Bytes)
      requires eof != [] && length <= |s| && Begins(s, length) && length < TWO_31 && (BIG <= max ==> |s| <= max)
      requires after == s[length..] + t || (after == t && |s| == TWO_31 && AtRisk(s + t, length))
      ensures Answers(s + t, Packet(s[..length]), after)
    {
      FirstInPrefix(s, t, eof, length - |eof|);
      forall l: nat | Begins(s + t, l) ensures l == length {
        FirstIsUnique(s + t, eof, l - |eof|, length - |eof|);
      }
      assert (s + t)[..length] == s[..length] && (s + t)[length..] == s[length..] + t && (s + t)[|s|..] == t;
      assert Begins(s + t, length);
    }

    lemma NotFoundIsLater(s: Bytes, t: Bytes)
      requires eof != [] && Nowhere(s, eof)
      ensures forall l: nat :: Begins(s + t, l) ==> l > |s|
    {
      forall l: nat | Begins(s + t, l) ensures l > |s| {
        if l <= |s| {
          AtInPrefix(s, t, eof, l - |eof|);
        }
      }
    }

    lemma FailedAnswers(s: Bytes, t: Bytes)
      requires eof != [] && Nowhere(s, eof) && |s| == max <= TWO_31
      ensures Answers(s + t, Failed, t)
    {
      NotFoundIsLater(s, t);
      assert (s + t)[max..] == t;
    }

    lemma ClosedAnswers(s: Bytes, t: Bytes)
      requires eof != [] && Nowhere(s, eof)
      requires BIG <= max || BeginsWithin(s + t, Limit()) ==> t == []
      requires BIG <= max ==> |s| < max && |s| < TWO_31
      ensures Answers(s + t, Closed, t)
    {
      NotFoundIsLater(s, t);
      assert t == [] ==> s + t == s;
    }

    /** 2^31 bytes without a packet, and either the maximum is larger or a packet ends right there. */
    lemma UndefinedAnswers(s: Bytes, t: Bytes)
      requires eof != [] && |s| == TWO_31 <= max
      requires (max > TWO_31 && Nowhere(s, eof)) || Begins(s, TWO_31)
      ensures Answers(s + t, Undefined, s + t)
    {
      if Begins(s, TWO_31) {
        FirstInPrefix(s, t, eof, TWO_31 - |eof|);
        forall l: nat | Begins(s + t, l) ensures l == TWO_31 {
          FirstIsUnique(s + t, eof, l - |eof|, TWO_31 - |eof|);
        }
      } else {
        NotFoundIsLater(s, t);
      }
    }

    /** The socket fills every read, so that whole reads are buffered, or all there is. */
    ghost predicate Aligned()
      reads this
    {
      eager && max >= TWO_31 && (|buffer| % BIG == 0 || wire == [])
    }

    /** A packet in a buffer of 2^31 bytes is a long one. */
    ghost predicate LongOnly()
      reads this
    {
      |buffer| == TWO_31 ==> forall length: nat | Begins(buffer, length) :: length > LONGEST
    }

    /** The socket delivers n bytes. */
    method Deliver(n: nat)
      requires Sized() && n <= |wire| && |buffer| + n <= size
      modifies `buffer, `wire, `arrived
      ensures Sized() && Stream() == old(Stream()) && arrived + wire == old(arrived + wire)
      ensures |buffer| == old(|buffer|) + n && |wire| == old(|wire|) - n && old(buffer) <= buffer
    {
      assert wire == wire[..n] + wire[n..];
      arrived := arrived + wire[..n];
      buffer, wire := buffer + wire[..n], wire[n..];
    }

    /** One read from the socket into the free part of the buffer; the socket decides how much. */
    method Fill() returns (n: nat)
      requires Sized()
      modifies `buffer, `wire, `arrived
      ensures Sized()
      ensures Stream() == old(Stream()) && arrived + wire == old(arrived + wire)
      ensures |buffer| == old(|buffer|) + n && |wire| == old(|wire|) - n && n <= BIG
      ensures n == 0 ==> wire == [] || old(|buffer|) == size
      ensures old(buffer) <= buffer && (n == 0 ==> buffer == old(buffer))
      ensures old(Aligned()) ==> Aligned()
    {
      var room := size - |buffer|;
      if room > BIG {
        room := BIG;
      }
      if room == 0 || wire == [] {
        return 0;
      }
      if eager {
        n := if room <= |wire| then room else |wire|;
        if max >= TWO_31 && |buffer| % BIG == 0 {
          WholeReads(size, |buffer|, n, |wire|);
        }
      } else {
        n :| 1 <= n <= room && n <= |wire|;
      }
      Deliver(n);
    }

    /** The buffer is emptied without handing out its bytes. */
    method GiveUp()
      requires Sized()
      modifies `buffer, `lost
      ensures Valid() && buffer == []
    {
      buffer := [];
      lost := true;
    }

    /** Returns the first `length` bytes and keeps the rest, unless 2^31 bytes are buffered. */
    method Take(length: nat) returns (data: Bytes)
      requires Sized() && 1 <= length <= |buffer| <= TWO_31 && length < TWO_31
      modifies `buffer, `handed, `lost
      ensures Valid()
      ensures data == old(buffer)[..length] && handed == old(handed) + data
      ensures old(|buffer|) < TWO_31 ==> buffer == old(buffer)[length..] && lost == old(lost)
      ensures old(|buffer|) == TWO_31 ==> buffer == [] && lost
    {
      data := buffer[..length];
      assert buffer == data + buffer[length..];
      handed := handed + data;
      lost := lost || |buffer| == TWO_31;
      PopExact(buffer, length);
      buffer := AfterPop(buffer, length);
    }

    /** Doubles a full buffer, in 32-bit arithmetic, up to the maximal packet length; it has to become larger. */
    method Grow() returns (ok: bool)
      requires Sized() && size < max
      modifies `size
      ensures Sized()
      ensures ok <==> old(size) < TWO_31
      ensures if ok then size > old(size) else size == old(size)
    {
      var newSize := size * 2 % TWO_32;
      if newSize > max {
        newSize := max;
      }
      ok := newSize > size;
      if ok {
        size := newSize;
      }
    }

    /** No marker has arrived, and the buffer has room to read on. */
    ghost predicate Waiting()
      reads this
    {
      && Nowhere(buffer, eof) && |buffer| < TWO_31
      && (BIG <= max ==> |buffer| < max)
      && (BIG <= max || BeginsWithin(Stream(), Limit()) ==> |buffer| < size)
    }

    /** What a marker at the given end of a packet leads to. */
    method TakeFound(length: nat) returns (r: Received)
      requires Sized() && length <= |buffer| <= TWO_31 && Begins(buffer, length) && (BIG <= max ==> |buffer| <= max)
      requires |buffer| == TWO_31 ==> length > LONGEST
      modifies `buffer, `handed, `lost
      ensures r != Undefined ==> Valid()
      ensures Answers(old(Stream()), r, Stream())
      ensures r.Packet? || r.Undefined?
      ensures handed == old(handed) + (if r.Packet? then r.data else [])
      ensures r.Packet? ==> |r.data| <= old(|buffer|)
      ensures r.Packet? ==> if old(|buffer|) < TWO_31 then lost == old(lost) else Stream() == wire && |r.data| > LONGEST
    {
      if length >= TWO_31 {
        UndefinedAnswers(buffer, wire);
        return Undefined;
      }
      FoundAnswers(buffer, wire, length, if |buffer| == TWO_31 then wire else buffer[length..] + wire);
      var data := Take(length);
      assert buffer == [] ==> Stream() == wire;
      return Packet(data);
    }

    /** The part of the loop after the label: an answer from what is buffered, or room for more. */
    method Look() returns (r: Option<Received>)
      requires Sized() && |buffer| <= TWO_31
      requires LongOnly()
      modifies `buffer, `size, `handed, `lost
      ensures r != Some(Undefined) ==> Valid()
      ensures r.Some? ==> Answers(old(Stream()), r.value, Stream())
      ensures r.None? ==> buffer == old(buffer) && Waiting() && lost == old(lost)
      ensures handed == old(handed) + (if r.Some? && r.value.Packet? then r.value.data else [])
      ensures r.Some? && r.value.Packet? ==>
                if AtRisk(old(Stream()), |r.value.data|) then old(Aligned()) ==> Stream() == old(Stream())[TWO_31..]
                else lost == old(lost)
    {
      var pos := Find(buffer, eof);
      if pos >= 0 {
        assert Begins(buffer, pos + |eof|);
        var found := TakeFound(pos + |eof|);
        if found.Packet? && AtRisk(old(Stream()), |found.data|) && old(Aligned()) {
          FullWhenFound(old(buffer), wire, |found.data|);
        }
        return Some(found);
      } else if |buffer| == max {
        FailedAnswers(buffer, wire);
        GiveUp();
        return Some(Failed);
      } else if |buffer| == size {
        NotFoundIsLater(buffer, wire);
        if size < max {
          var ok := Grow();
          if !ok {
            UndefinedAnswers(buffer, wire);
            return Some(Undefined);
          }
        }
      }
      return None;
    }

    /** Without a marker so far, a buffer that one read has filled up to 2^31 bytes holds only a long packet. */
    lemma OnlyLongOnes(before: Bytes)
      requires eof != [] && Nowhere(before, eof) && before <= buffer && |buffer| <= |before| + BIG
      ensures LongOnly()
    {
      assert buffer == before + buffer[|before|..];
      NotFoundIsLater(before, buffer[|before|..]);
    }

    /** An aligned buffer in which a long packet is found is full. */
    lemma FullWhenFound(b: Bytes, t: Bytes, length: nat)
      requires LONGEST < length <= |b| <= TWO_31 <= |b + t| && (|b| % BIG == 0 || t == [])
      ensures |b| == TWO_31 && (b + t)[TWO_31..] == t
    {
      if t != [] {
        assert |b| / BIG * BIG == |b|;
      }
    }

    /** The end of the connection, or a buffer that cannot grow. */
    method HangUp()
      requires Sized() && Waiting() && (wire == [] || |buffer| == size)
      modifies `buffer, `lost
      ensures Valid() && Answers(old(Stream()), Closed, Stream())
    {
      ClosedAnswers(buffer, wire);
      GiveUp();
      assert Stream() == wire;
    }

    method Recv() returns (r: Received)
      requires Valid()
      modifies `buffer, `size, `wire, `arrived, `handed, `lost
      ensures r != Undefined ==> Valid()
      ensures arrived + wire == old(arrived + wire)
      ensures Answers(old(Stream()), r, Stream())
      ensures r.Packet? ==> handed == old(handed) + r.data
      ensures r.Packet? && !AtRisk(old(Stream()), |r.data|) ==> lost == old(lost)
      ensures r.Packet? && AtRisk(old(Stream()), |r.data|) && old(Aligned()) ==> Stream() == old(Stream())[TWO_31..]
    {
      var search := buffer != [];
      while true
        invariant Valid() && Stream() == old(Stream()) && arrived + wire == old(arrived + wire)
        invariant lost == old(lost) && handed == old(handed)
        invariant !search ==> Waiting()
        invariant old(Aligned()) ==> Aligned()
        decreases |wire|, search
      {
        if !search {
          ghost var before := buffer;
          var n := Fill();
          if n == 0 {
            HangUp();
            return Closed;
          }
          OnlyLongOnes(before);
          if |buffer| < |eof| {
            continue;
          }
        }
        search := false;
        var found := Look();
        if found.Some? {
          return found.value;
        }
      }
    }

    /** The call for a packet that is not at risk. */
    method RecvPacket(ghost packet: Bytes, ghost rest: Bytes) returns (r: Received)
      requires Valid() && Stream() == packet + rest && IsPacket(packet, eof)
      requires |packet| <= Limit() && !AtRisk(Stream(), |packet|)
      modifies `buffer, `size, `wire, `arrived, `handed, `lost
      ensures Valid() && Stream() == rest && r == Packet(packet)
      ensures lost == old(lost) && handed == old(handed) + packet
    {
      PacketComesFirst(packet, rest, eof);
      assert Begins(Stream(), |packet|);
      Pieces([], packet, rest);
      r := Recv();
    }

    /** One call for each packet of a stream made of packets, none of which is at risk. */
    method RecvAll(ghost packets: seq<Bytes>, count: nat) returns (got: seq<Received>)
      requires Valid() && !lost && count == |packets|
      requires Stream() == Concat(packets)
      requires forall i :: 0 <= i < |packets| ==>
                 IsPacket(packets[i], eof) && |packets[i]| <= Limit() && !AtRisk(Stream(), |packets[i]|)
      modifies `buffer, `size, `wire, `arrived, `handed, `lost
      ensures Valid() && !lost && Stream() == [] && handed == old(handed) + Concat(packets)
      ensures |got| == |packets| && forall i :: 0 <= i < |got| ==> got[i] == Packet(packets[i])
    {
      got := [];
      var i := 0;
      assert packets[0..] == packets && packets[..0] == [];
      while i < count
        invariant 0 <= i <= count && |got| == i
        invariant Valid() && !lost && Stream() == Concat(packets[i..]) && |Stream()| <= old(|Stream()|)
        invariant handed + Concat(packets[i..]) == old(handed) + Concat(packets)
        invariant forall j :: 0 <= j < i ==> got[j] == Packet(packets[j])
      {
        ghost var p, rest := packets[i], Concat(packets[i + 1..]);
        assert packets[i..][1..] == packets[i + 1..];
        Pieces(handed, p, rest);
        var r := RecvPacket(p, rest);
        got := got + [r];
        i := i + 1;
      }
    }
  }

  /**
   A packet at risk, from a socket that fills every read: it is returned, and what has arrived behind it up to
   2^31 bytes is lost. So `LONGEST` is exact.
   */
  method LongerPacketsLoseTheRest(eof: Bytes, max: nat, packet: Bytes, rest: Bytes) returns (client: Client, r: Received)
    requires 1 <= |eof| <= 8 && TWO_31 <= max < TWO_32 && IsPacket(packet, eof)
    requires LONGEST < |packet| < TWO_31 <= |packet + rest|
    ensures r == Packet(packet) && client.buffer + client.wire == rest[TWO_31 - |packet|..]
  {
    client := new Client(eof, max, packet + rest, true);
    PacketComesFirst(packet, rest, eof);
    assert client.Stream() == packet + rest && client.Begins(packet + rest, |packet|);
    Pieces([], packet, rest);
    r := client.Recv();
    assert (packet + rest)[TWO_31..] == rest[TWO_31 - |packet|..];
  }
}
