/**
 The Telegram daemon's framing: the webhook sends a 16-bit length and the update, the master reads
 until it has that many bytes and passes them on, and a logger worker reads until it has the update.
 */
module DaemonFraming {
  import opened PhpBytes

  const READ_SIZE := 4096

  /** `pack("S", n)` on a little-endian machine: the length modulo 2^16. */
  function PackS(n: nat): Bytes {
    [Chr(n), Chr(n / 0x100)]
  }

  function UnpackS(s: Bytes): nat
    requires |s| >= 2
  {
    Ord(s[0]) + Ord(s[1]) * 0x100
  }

  /** What the webhook sends. */
  function Frame(payload: Bytes): Bytes {
    PackS(|payload|) + payload
  }

  /** The results of `fread` on one connection: at least one byte each, at most the read size. */
  predicate AreReads(parts: seq<Bytes>, s: Bytes) {
    && Concat(parts) == s && parts != []
    && forall i :: 0 <= i < |parts| ==> 1 <= |parts[i]| <= READ_SIZE
  }

  // ---------------------------------------------------------------- the read loops

  /** Reading on until `need` bytes are there; None when the loop never ends. */
  function Gather(got: Bytes, parts: seq<Bytes>, need: nat): Option<Bytes>
    decreases parts
  {
    if |got| >= need then Some(got)
    else if parts == [] then None
    else Gather(got + parts[0], parts[1..], need)
  }

  method ReadOn(got: Bytes, parts: seq<Bytes>, need: nat) returns (r: Option<Bytes>)
    ensures r == Gather(got, parts, need)
  {
    var raw := got;
    var i := 0;
    assert parts[0..] == parts;
    while need > |raw|
      invariant 0 <= i <= |parts|
      invariant Gather(raw, parts[i..], need) == Gather(got, parts, need)
      decreases |parts| - i
    {
      if i == |parts| {
        return None;
      }
      assert parts[i..][1..] == parts[i + 1..];
      raw := raw + parts[i];
      i := i + 1;
    }
    return Some(raw);
  }

  /** What the master passes on; a first read without the whole length is taken as the message. */
  function MasterGets(parts: seq<Bytes>): Option<Bytes>
    requires parts != []
  {
    if |parts[0]| < 2 then Some(parts[0]) else Gather(parts[0], parts[1..], UnpackS(parts[0]))
  }

  /** `conn_handler`: the length that it compares with includes the two length bytes. */
  method ConnHandler(parts: seq<Bytes>) returns (r: Option<Bytes>)
    requires parts != []
    ensures r == MasterGets(parts)
  {
    var raw := parts[0];
    if |raw| < 2 {
      return Some(raw);
    }
    r := ReadOn(raw, parts[1..], UnpackS(raw));
  }

  function LoggerGets(parts: seq<Bytes>): Option<Bytes>
    requires parts != []
  {
    if |parts[0]| < 2 then Some([]) else Gather(parts[0][2..], parts[1..], UnpackS(parts[0]))
  }

  /** `logger_handler`, up to the decoding of the payload. */
  method LoggerHandler(parts: seq<Bytes>) returns (r: Option<Bytes>)
    requires parts != []
    ensures r == LoggerGets(parts)
  {
    var raw := parts[0];
    if |raw| < 2 {
      return Some([]);
    }
    r := ReadOn(raw[2..], parts[1..], UnpackS(raw));
  }

  // ---------------------------------------------------------------- what gathering gives

  /** Some reads, starting from `length` bytes, end at exactly m bytes. */
  predicate Passes(length: nat, parts: seq<Bytes>, m: nat)
    decreases parts
  {
    length == m || (parts != [] && Passes(length + |parts[0]|, parts[1..], m))
  }

  ghost predicate StopsInside(length: nat, parts: seq<Bytes>, need: nat, end: nat) {
    exists m: nat :: need <= m < end && Passes(length, parts, m)
  }

  lemma StopsLater(length: nat, parts: seq<Bytes>, need: nat, end: nat)
    requires length < need && parts != []
    ensures StopsInside(length, parts, need, end) <==> StopsInside(length + |parts[0]|, parts[1..], need, end)
  {
    if StopsInside(length, parts, need, end) {
      var m: nat :| need <= m < end && Passes(length, parts, m);
      assert Passes(length + |parts[0]|, parts[1..], m);
    }
    if StopsInside(length + |parts[0]|, parts[1..], need, end) {
      var m: nat :| need <= m < end && Passes(length + |parts[0]|, parts[1..], m);
      assert Passes(length, parts, m);
    }
  }

  /** The loop ends with a prefix that is long enough, and with everything unless it can stop early. */
  lemma {:induction false} GatherGives(got: Bytes, parts: seq<Bytes>, need: nat)
    requires forall i :: 0 <= i < |parts| ==> parts[i] != []
    ensures var all := got + Concat(parts);
            var r := Gather(got, parts, need);
            && (r.None? <==> |all| < need)
            && (r.Some? ==> r.value <= all && |r.value| >= need)
            && (r == Some(all) <==> |all| >= need && !StopsInside(|got|, parts, need, |all|))
    decreases parts
  {
    var all := got + Concat(parts);
    if parts == [] {
      assert all == got;
    } else {
      assert all == got + parts[0] + Concat(parts[1..]);
      if |got| >= need {
        assert Passes(|got|, parts, |got|);
      } else {
        GatherGives(got + parts[0], parts[1..], need);
        StopsLater(|got|, parts, need, |all|);
        assert |got + parts[0]| == |got| + |parts[0]|;
      }
    }
  }

  /** The loop stops behind the first read that makes up the number of bytes it needs. */
  lemma {:induction false} GatherStops(got: Bytes, parts: seq<Bytes>, need: nat) returns (k: nat)
    requires Gather(got, parts, need).Some?
    ensures k <= |parts| && Gather(got, parts, need) == Some(got + Concat(parts[..k]))
    ensures |got + Concat(parts[..k])| >= need && forall j: nat | j < k :: |got + Concat(parts[..j])| < need
    decreases parts
  {
    if |got| >= need {
      k := 0;
      assert parts[..0] == [] && got + [] == got;
    } else {
      var rest := parts[1..];
      var k1 := GatherStops(got + parts[0], rest, need);
      k := k1 + 1;
      forall j: nat | j <= k1 ensures got + Concat(parts[..j + 1]) == got + parts[0] + Concat(rest[..j]) {
        assert parts[..j + 1][1..] == rest[..j];
        Regroup(got, parts[0], Concat(rest[..j]));
      }
      forall j: nat | j < k ensures |got + Concat(parts[..j])| < need {
        if j == 0 {
          assert parts[..0] == [] && got + [] == got;
        } else {
          assert got + Concat(parts[..(j - 1) + 1]) == got + parts[0] + Concat(rest[..j - 1]);
        }
      }
    }
  }

  /** So the master passes on whole reads: the first alone if it does not hold the length, and otherwise as few as make
      up the bytes that the length says. */
  lemma MasterStops(parts: seq<Bytes>) returns (k: nat)
    requires parts != [] && MasterGets(parts).Some?
    ensures 1 <= k <= |parts| && MasterGets(parts) == Some(Concat(parts[..k]))
    ensures |parts[0]| < 2 ==> k == 1
    ensures |parts[0]| >= 2 ==>
              && |Concat(parts[..k])| >= UnpackS(parts[0])
              && forall j: nat | 1 <= j < k :: |Concat(parts[..j])| < UnpackS(parts[0])
  {
    assert forall j: nat | 1 <= j <= |parts| :: parts[..j][0] == parts[0] && parts[..j][1..] == parts[1..][..j - 1];
    if |parts[0]| < 2 {
      k := 1;
      assert parts[..1] == [parts[0]] && parts[..1][1..] == [] && parts[0] + [] == parts[0];
    } else {
      var k1 := GatherStops(parts[0], parts[1..], UnpackS(parts[0]));
      k := k1 + 1;
      assert Concat(parts[..k]) == parts[0] + Concat(parts[1..][..k1]);
      forall j: nat | 1 <= j < k ensures |Concat(parts[..j])| < UnpackS(parts[0]) {
        assert Concat(parts[..j]) == parts[0] + Concat(parts[1..][..j - 1]);
      }
    }
  }

  // ---------------------------------------------------------------- frames

  lemma UnpackFrame(payload: Bytes, parts: seq<Bytes>)
    requires AreReads(parts, Frame(payload)) && |parts[0]| >= 2
    ensures UnpackS(parts[0]) == |payload| % 0x1_0000
    ensures parts[0][2..] + Concat(parts[1..]) == payload
    ensures parts[0] + Concat(parts[1..]) == Frame(payload)
  {
    var frame := Frame(payload);
    assert frame == parts[0] + Concat(parts[1..]);
    assert frame[0] == parts[0][0] && frame[1] == parts[0][1];
    assert frame[2..] == payload && frame[2..] == parts[0][2..] + Concat(parts[1..]);
    var n := |payload|;
    assert n % 0x1_0000 == n % 0x100 + (n / 0x100) % 0x100 * 0x100;
  }

  /** A payload longer than 65535 bytes lets the loop stop early: every read is short. */
  lemma {:induction false} LastReadIsShort(length: nat, parts: seq<Bytes>, need: nat)
    requires forall i :: 0 <= i < |parts| ==> 1 <= |parts[i]| <= READ_SIZE
    requires need + READ_SIZE <= length + |Concat(parts)| && parts != []
    ensures StopsInside(length, parts, need, length + |Concat(parts)|)
    decreases parts
  {
    var end := length + |Concat(parts)|;
    if |parts| == 1 {
      assert parts[1..] == [] && Concat(parts) == parts[0] + [];
      assert Passes(length, parts, length);
    } else {
      LastReadIsShort(length + |parts[0]|, parts[1..], need);
      var m: nat :| need <= m < end && Passes(length + |parts[0]|, parts[1..], m);
      assert Passes(length, parts, m);
    }
  }

  /** The logger ends with exactly the payload, however the frame is split, exactly if the length fits. */
  lemma LoggerExact(payload: Bytes, parts: seq<Bytes>)
    requires AreReads(parts, Frame(payload))
    ensures LoggerGets(parts) == Some(payload) <==> |payload| < 0x1_0000 && (|parts[0]| >= 2 || payload == [])
  {
    var n := |payload|;
    if |parts[0]| >= 2 {
      UnpackFrame(payload, parts);
      var got, need := parts[0][2..], n % 0x1_0000;
      assert forall i :: 0 <= i < |parts[1..]| ==> parts[1..][i] == parts[i + 1];
      GatherGives(got, parts[1..], need);
      if n < 0x1_0000 {
        assert !StopsInside(|got|, parts[1..], need, n);
      } else {
        assert |Concat(parts[1..])| > 0;
        LastReadIsShort(|got|, parts[1..], need);
      }
    }
  }

  /** The read lengths of a connection add up to m at some point. */
  predicate Reaches(parts: seq<Bytes>, m: nat)
    requires parts != []
  {
    Passes(|parts[0]|, parts[1..], m)
  }

  /**
   The master gets a prefix with at least as many bytes as the length field says, which may be up to two
   short of the frame. It gets the whole frame exactly if the length fits its field, the first read holds it
   and no read ends one or two bytes early.
   */
  lemma MasterExact(payload: Bytes, parts: seq<Bytes>)
    requires AreReads(parts, Frame(payload))
    ensures MasterGets(parts).Some? && MasterGets(parts).value <= Frame(payload)
    ensures |parts[0]| >= 2 ==> |MasterGets(parts).value| >= |payload| % 0x1_0000
    ensures MasterGets(parts) == Some(Frame(payload)) <==> Whole(payload, parts)
  {
    var n := |payload|;
    assert parts[0] <= Frame(payload) by {
      assert Frame(payload) == parts[0] + Concat(parts[1..]);
    }
    if |parts[0]| >= 2 {
      UnpackFrame(payload, parts);
      assert forall i :: 0 <= i < |parts[1..]| ==> parts[1..][i] == parts[i + 1];
      GatherGives(parts[0], parts[1..], n % 0x1_0000);
      if n < 0x1_0000 {
        assert StopsInside(|parts[0]|, parts[1..], n, n + 2) <==> Reaches(parts, n) || Reaches(parts, n + 1);
      } else {
        assert |Concat(parts[1..])| > 0;
        LastReadIsShort(|parts[0]|, parts[1..], n % 0x1_0000);
      }
    }
  }

  /** How the reads of a frame have to fall for the master to pass it on whole. */
  predicate Whole(payload: Bytes, parts: seq<Bytes>)
    requires parts != []
  {
    |payload| < 0x1_0000 && |parts[0]| >= 2 && !Reaches(parts, |payload|) && !Reaches(parts, |payload| + 1)
  }

  lemma ProperPrefix(s: Bytes, t: Bytes)
    requires s <= t && s != t
    ensures |s| < |t|
  {
    assert s == t[..|s|] && t == t[..|t|];
  }

  /** What the logger ends up with is part of what the master passed on. */
  lemma LoggerGetsPart(passed: Bytes, parts: seq<Bytes>)
    requires AreReads(parts, passed) && LoggerGets(parts).Some?
    ensures |parts[0]| >= 2 ==> |LoggerGets(parts).value| <= |passed| - 2
    ensures |parts[0]| < 2 ==> LoggerGets(parts).value == []
  {
    if |parts[0]| >= 2 {
      assert forall i :: 0 <= i < |parts[1..]| ==> parts[1..][i] == parts[i + 1];
      GatherGives(parts[0][2..], parts[1..], UnpackS(parts[0]));
      assert passed == parts[0] + Concat(parts[1..]);
    }
  }

  /**
   Through both: the second connection carries what the master passed on, split anew. The logger gets exactly
   the payload if and only if it is empty, or shorter than 65536 bytes while the first read on each connection
   holds the length and no read of the master ends one or two bytes early.
   */
  lemma DeliveryExact(payload: Bytes, parts: seq<Bytes>, forwarded: seq<Bytes>)
    requires AreReads(parts, Frame(payload))
    requires MasterGets(parts).Some? && AreReads(forwarded, MasterGets(parts).value)
    ensures LoggerGets(forwarded) == Some(payload) <==> payload == [] || (Whole(payload, parts) && |forwarded[0]| >= 2)
  {
    var passed := MasterGets(parts).value;
    MasterExact(payload, parts);
    if Whole(payload, parts) {
      LoggerExact(payload, forwarded);
    } else {
      ProperPrefix(passed, Frame(payload));
      assert passed == forwarded[0] + Concat(forwarded[1..]);
      if LoggerGets(forwarded).Some? {
        LoggerGetsPart(passed, forwarded);
      }
    }
  }
}
