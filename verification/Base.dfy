/** Machine words, options and byte strings shared by every model. */
module Base {

  datatype Option<+T> = None | Some(value: T) {
    function GetOr(default: T): T {
      if Some? then value else default
    }
  }

  datatype Result<+T, +E> = Ok(value: T) | Err(error: E)

  newtype byte = x: int | 0 <= x < 256

  type Bytes = seq<byte>

  const U32_LIMIT: int := 0x1_0000_0000
  const U64_MAX: int := 0xFFFF_FFFF_FFFF_FFFF

  type u32 = x: int | 0 <= x < U32_LIMIT
  type u64 = x: int | 0 <= x <= U64_MAX

  function Min(a: int, b: int): int {
    if a <= b then a else b
  }

  function Max(a: int, b: int): int {
    if a <= b then b else a
  }

  // u64::saturating_add
  function SatAdd(a: u64, b: u64): u64 {
    if a + b <= U64_MAX then a + b else U64_MAX
  }

  // u64::saturating_sub
  function SatSub(a: u64, b: u64): u64 {
    if b <= a then a - b else 0
  }

  // u64::saturating_mul
  function SatMul(a: u64, b: u64): u64
  {
    if 0 <= a * b <= U64_MAX then a * b else U64_MAX
  }

  function Zeros(n: nat): (z: Bytes)
    ensures |z| == n && forall i :: 0 <= i < n ==> z[i] == 0
  {
    seq(n, _ => 0 as byte)
  }

  function Concat<T>(parts: seq<seq<T>>): seq<T> {
    if parts == [] then [] else parts[0] + Concat(parts[1..])
  }

  lemma ConcatLast<T>(parts: seq<seq<T>>, last: seq<T>)
    ensures Concat(parts + [last]) == Concat(parts) + last
  {
    if parts != [] {
      assert (parts + [last])[1..] == parts[1..] + [last];
      ConcatLast(parts[1..], last);
    }
  }

  function Filter<T>(p: T -> bool, s: seq<T>): seq<T> {
    if s == [] then []
    else if p(s[0]) then [s[0]] + Filter(p, s[1..])
    else Filter(p, s[1..])
  }

  lemma FilterLast<T>(p: T -> bool, s: seq<T>, x: T)
    ensures Filter(p, s + [x]) == if p(x) then Filter(p, s) + [x] else Filter(p, s)
  {
    if s != [] {
      assert (s + [x])[1..] == s[1..] + [x];
      FilterLast(p, s[1..], x);
    }
  }

  // u32::to_be_bytes
  function BigEndian(n: u32): (b: Bytes)
    ensures |b| == 4
  {
    var high, low := n / 0x1_0000, n % 0x1_0000;
    [(high / 0x100) as byte, (high % 0x100) as byte, (low / 0x100) as byte, (low % 0x100) as byte]
  }

  // u32::from_be_bytes
  function FromBigEndian(b: Bytes): u32
    requires |b| == 4
  {
    b[0] as int * 0x100_0000 + b[1] as int * 0x1_0000 + b[2] as int * 0x100 + b[3] as int
  }

  lemma {:induction false} BigEndianRoundTrip(n: u32)
    ensures FromBigEndian(BigEndian(n)) == n
  {
    var high, low := n / 0x1_0000, n % 0x1_0000;
    assert high == high / 0x100 * 0x100 + high % 0x100;
    assert low == low / 0x100 * 0x100 + low % 0x100;
  }

  // The first byte counts most; and every four bytes are the bytes of their value.
  lemma {:induction false} BigEndianValue(b: Bytes)
    requires |b| == 4
    ensures FromBigEndian(b) == ((b[0] as int * 256 + b[1] as int) * 256 + b[2] as int) * 256 + b[3] as int
    ensures BigEndian(FromBigEndian(b)) == b
  {
    var n := FromBigEndian(b);
    var high, low := b[0] as int * 256 + b[1] as int, b[2] as int * 256 + b[3] as int;
    assert n == high * 0x1_0000 + low;
    assert n / 0x1_0000 == high && n % 0x1_0000 == low;
    assert high / 0x100 == b[0] as int && high % 0x100 == b[1] as int;
    assert low / 0x100 == b[2] as int && low % 0x100 == b[3] as int;
  }
}
