/**
 PHP binary strings, the `pack`/`unpack` formats that the sources use, decimal integers, and the
 key rules of PHP arrays.
 */
module PhpBytes {

  type byte = c: char | (c as int) < 256
  type Bytes = seq<byte>

  datatype Option<+T> = None | Some(value: T)

  datatype Result<+T> = Ok(value: T) | Err

  function Chr(n: nat): (c: byte)
    ensures Ord(c) == n % 256
  {
    (n % 256) as char
  }

  function Ord(c: byte): nat {
    c as int
  }

  function Concat(parts: seq<Bytes>): Bytes {
    if parts == [] then [] else parts[0] + Concat(parts[1..])
  }

  lemma {:induction false} ConcatSnoc(parts: seq<Bytes>, last: Bytes)
    ensures Concat(parts + [last]) == Concat(parts) + last
  {
    if parts == [] {
      assert [] + [last] == [last] && [last][1..] == [];
    } else {
      assert (parts + [last])[1..] == parts[1..] + [last];
      ConcatSnoc(parts[1..], last);
    }
  }

  /** A queue that passed some elements on and took in some more. */
  lemma Shift<T>(out: seq<T>, queue: seq<T>, more: seq<T>, next: seq<T>, queue2: seq<T>)
    requires queue + more == next + queue2
    ensures out + queue + more == out + next + queue2
  {
    assert out + queue + more == out + (queue + more);
    assert out + next + queue2 == out + (next + queue2);
  }

  lemma Regroup<T>(a: seq<T>, b: seq<T>, c: seq<T>)
    ensures a + b + c == a + (b + c)
  {
  }

  // ---------------------------------------------------------------- pack and unpack

  /** Format `n`: 16 bits, most significant byte first; larger values lose their high bits. */
  function Pack16(n: nat): (r: Bytes)
    ensures |r| == 2
  {
    [Chr(n / 0x100), Chr(n)]
  }

  function Unpack16(s: Bytes): nat
    requires |s| >= 2
  {
    Ord(s[0]) * 0x100 + Ord(s[1])
  }

  /** Format `N`: 32 bits, most significant byte first. */
  function Pack32(n: nat): (r: Bytes)
    ensures |r| == 4
  {
    [Chr(n / 0x100_0000), Chr(n / 0x1_0000), Chr(n / 0x100), Chr(n)]
  }

  function Unpack32(s: Bytes): nat
    requires |s| >= 4
  {
    ((Ord(s[0]) * 0x100 + Ord(s[1])) * 0x100 + Ord(s[2])) * 0x100 + Ord(s[3])
  }

  const NUL: byte := '\0'

  /** Format `a<n>`: exactly n bytes, cut off or padded with NUL. */
  function PackA(n: nat, s: Bytes): (r: Bytes)
    ensures |r| == n
    ensures |s| == n ==> r == s
  {
    if |s| >= n then s[..n] else s + seq(n - |s|, _ => NUL)
  }

  lemma Unpack16Inverts(n: nat, rest: Bytes)
    ensures Unpack16(Pack16(n) + rest) == n % 0x1_0000
  {
    var s := Pack16(n) + rest;
    assert s[0] == Chr(n / 0x100) && s[1] == Chr(n);
    assert n % 0x1_0000 == (n / 0x100) % 0x100 * 0x100 + n % 0x100;
  }

  lemma Unpack32Inverts(n: nat, rest: Bytes)
    ensures Unpack32(Pack32(n) + rest) == n % 0x1_0000_0000
  {
    var s := Pack32(n) + rest;
    assert s[0] == Chr(n / 0x100_0000) && s[1] == Chr(n / 0x1_0000) && s[2] == Chr(n / 0x100) && s[3] == Chr(n);
    var a, b, c := n / 0x100, n / 0x1_0000, n / 0x100_0000;
    assert a == n / 0x100 && b == a / 0x100 && c == b / 0x100;
    assert n % 0x1_0000_0000 == (c % 0x100) * 0x100_0000 + (b % 0x100) * 0x1_0000 + (a % 0x100) * 0x100 + n % 0x100;
  }

  // ---------------------------------------------------------------- integers

  const TWO_32: nat := 0x1_0000_0000
  const INT_MAX: int := 0x7fff_ffff_ffff_ffff
  const INT_MIN: int := -0x8000_0000_0000_0000

  predicate IsDigit(c: byte) {
    '0' <= c <= '9'
  }

  function Digit(n: nat): (c: byte)
    requires n < 10
    ensures IsDigit(c) && Ord(c) - Ord('0') == n
  {
    (n + 48) as char
  }

  function Decimal(n: nat): (r: Bytes)
    ensures |r| >= 1
    ensures forall i :: 0 <= i < |r| ==> IsDigit(r[i])
  {
    if n < 10 then [Digit(n)] else Decimal(n / 10) + [Digit(n % 10)]
  }

  function DecimalValue(s: Bytes): nat
    requires forall i :: 0 <= i < |s| ==> IsDigit(s[i])
  {
    if s == [] then 0
    else
      assert IsDigit(s[|s| - 1]);
      DecimalValue(s[..|s| - 1]) * 10 + (Ord(s[|s| - 1]) - Ord('0'))
  }

  function IntText(n: int): (r: Bytes) {
    if n < 0 then "-" + Decimal(-n) else Decimal(n)
  }

  lemma {:induction false} DecimalInverts(n: nat)
    ensures DecimalValue(Decimal(n)) == n
    ensures n > 0 ==> Decimal(n)[0] != '0'
  {
    if n >= 10 {
      DecimalInverts(n / 10);
      var d := Decimal(n);
      assert d[..|d| - 1] == Decimal(n / 10);
    } else {
      assert [Digit(n)][..0] == [];
    }
  }

  // ---------------------------------------------------------------- array keys

  /** PHP arrays have string and integer keys; a string that spells an integer is that integer. */
  datatype Key = StrKey(s: Bytes) | IntKey(n: int)

  predicate AllDigits(s: Bytes) {
    forall i :: 0 <= i < |s| ==> IsDigit(s[i])
  }

  /** The value of a string in PHP's canonical integer form, if it has that form and fits. */
  function CanonicalInt(s: Bytes): (r: Option<int>)
    ensures r.Some? ==> INT_MIN <= r.value <= INT_MAX && s == IntText(r.value)
  {
    if s == "0" then Some(0)
    else if |s| > 0 && AllDigits(s) && s[0] != '0' && DecimalValue(s) <= INT_MAX then
      DecimalText(s);
      Some(DecimalValue(s))
    else if |s| > 1 && s[0] == '-' && AllDigits(s[1..]) && s[1] != '0' && DecimalValue(s[1..]) <= -INT_MIN then
      DecimalText(s[1..]);
      assert s == "-" + s[1..];
      Some(0 - DecimalValue(s[1..]))
    else None
  }

  /** Digits without a leading zero are the decimal form of their value. */
  lemma {:induction false} DecimalText(s: Bytes)
    requires |s| > 0 && AllDigits(s) && s[0] != '0'
    ensures DecimalValue(s) > 0 && Decimal(DecimalValue(s)) == s
  {
    var init := s[..|s| - 1];
    var last := Ord(s[|s| - 1]) - Ord('0');
    assert s == init + [s[|s| - 1]];
    if init == [] {
      assert DecimalValue(s) == last;
    } else {
      DecimalText(init);
      assert DecimalValue(s) / 10 == DecimalValue(init) && DecimalValue(s) % 10 == last;
    }
  }

  function ArrayKey(s: Bytes): Key {
    if CanonicalInt(s).Some? then IntKey(CanonicalInt(s).value) else StrKey(s)
  }

  /** The keys that a PHP array can hold. */
  predicate IsKey(k: Key) {
    match k
    case StrKey(s) => CanonicalInt(s).None?
    case IntKey(n) => INT_MIN <= n <= INT_MAX
  }

  /** `$array[$key] = $value`: keeps the place of an existing key, otherwise appends. */
  function ArrayPut<V>(a: seq<(Key, V)>, k: Key, v: V): (r: seq<(Key, V)>)
    ensures |a| <= |r| <= |a| + 1
    ensures forall i :: 0 <= i < |a| ==> r[i].0 == a[i].0
  {
    if a == [] then [(k, v)]
    else if a[0].0 == k then [(k, v)] + a[1..]
    else [a[0]] + ArrayPut(a[1..], k, v)
  }

  predicate HasKey<V>(a: seq<(Key, V)>, k: Key) {
    exists i :: 0 <= i < |a| && a[i].0 == k
  }

  predicate DistinctKeys<V>(a: seq<(Key, V)>) {
    forall i, j :: 0 <= i < j < |a| ==> a[i].0 != a[j].0
  }

  lemma {:induction false} PutNewKey<V>(a: seq<(Key, V)>, k: Key, v: V)
    requires !HasKey(a, k)
    ensures ArrayPut(a, k, v) == a + [(k, v)]
  {
    if a != [] {
      assert a[0].0 != k;
      assert forall i :: 0 <= i < |a[1..]| ==> a[1..][i] == a[i + 1];
      PutNewKey(a[1..], k, v);
    }
  }
}
