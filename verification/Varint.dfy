/**
 Base-128 varints: least significant group first, seven bits a byte, the top bit
 of a byte set when another byte follows.
 */
module Varint {
  import opened Bits
  import opened Seqs

  datatype Error =
    | IntOverflow
    | UnexpectedEOF
    | InvalidLength
    | UnexpectedEndOfGroup
    | IllegalWireType
    | EndGroupForNonGroup
    | IllegalTag
    | WrongWireType

  datatype Result<+T> = Ok(value: T) | Err(error: Error)

  /** The bytes of v, in order. */
  function EncodeVarint(v: nat): (r: seq<byte>)
    ensures |r| > 0
  {
    if v < 128 then [v] else [v % 128 + 128] + EncodeVarint(v / 128)
  }

  /** Byte i holds the i-th group of seven bits, and its top bit says whether more follow. */
  lemma {:induction false} GroupAt(v: nat, i: nat)
    requires i < |EncodeVarint(v)|
    ensures EncodeVarint(v)[i] ==
            v / Pow2(7 * i) % 128 + (if i < |EncodeVarint(v)| - 1 then 128 else 0)
    ensures i == |EncodeVarint(v)| - 1 ==> v / Pow2(7 * i) < 128
    decreases i
  {
    Pow2Words();
    assert Pow2(0) == 1 && v / 1 == v;
    hide Pow2;
    if i > 0 {
      GroupAt(v / 128, i - 1);
      Pow2Add(7, 7 * (i - 1));
      DivideTwice(v, 128, Pow2(7 * (i - 1)));
    }
  }

  lemma DivideTwice(v: nat, a: nat, b: nat)
    requires a > 0 && b > 0
    ensures a * b > 0 && v / a / b == v / (a * b)
  {
    var q, r := v / a, v % a;
    var q', r' := q / b, q % b;
    assert v == a * q + r && q == b * q' + r';
    var s := a * r' + r;
    assert a * q == a * (b * q') + a * r';
    assert a * (b * q') == (a * b) * q';
    assert v == (a * b) * q' + s;
    assert r' <= b - 1;
    LeMul(a, r', b - 1);
    assert a * (b - 1) == a * b - a;
    assert 0 <= s < a * b;
    Quotient(v, a * b, q', s);
  }

  lemma LeMul(a: nat, x: nat, y: nat)
    requires x <= y
    ensures a * x <= a * y
  {
  }

  lemma Quotient(v: nat, d: nat, q: nat, s: nat)
    requires d > 0 && s < d && v == d * q + s
    ensures v / d == q
  {
    var q2, s2 := v / d, v % d;
    assert v == d * q2 + s2;
    assert d * (q - q2) == s2 - s;
    if q > q2 { LeMul(d, 1, q - q2); }
    if q < q2 { LeMul(d, 1, q2 - q); }
  }

  /** sovPlugin: the encoded length, in closed form. */
  function Sov(x: nat): (n: nat)
  {
    (BitLen(BitOr(x, 1)) + 6) / 7
  }

  /** The closed form counts the bytes of the encoding. */
  lemma {:induction false} SovIsLength(x: nat)
    ensures Sov(x) == |EncodeVarint(x)|
  {
    OrOne(x);
    BitLenOdd(x);
    if x >= 128 {
      SovIsLength(x / 128);
      OrOne(x / 128);
      BitLenOdd(x / 128);
      BitLenShift7(x);
    } else {
      Pow2Words();
      BitLenSmall(x, 7);
    }
  }

  lemma BitLenOdd(x: nat)
    ensures x > 0 ==> BitLen(if x % 2 == 0 then x + 1 else x) == BitLen(x)
  {
  }

  lemma BitLenShift7(x: nat)
    requires x >= 128
    ensures BitLen(x) == 7 + BitLen(x / 128)
  {
    assert x / 2 / 2 == x / 4 && x / 4 / 2 == x / 8 && x / 8 / 2 == x / 16;
    assert x / 16 / 2 == x / 32 && x / 32 / 2 == x / 64 && x / 64 / 2 == x / 128;
    assert BitLen(x / 64) == 1 + BitLen(x / 128);
    assert BitLen(x / 32) == 2 + BitLen(x / 128);
    assert BitLen(x / 16) == 3 + BitLen(x / 128);
    assert BitLen(x / 8) == 4 + BitLen(x / 128);
    assert BitLen(x / 4) == 5 + BitLen(x / 128);
    assert BitLen(x / 2) == 6 + BitLen(x / 128);
  }

  lemma {:induction false} BitLenSmall(x: nat, k: nat)
    requires x < Pow2(k)
    ensures (x > 0 ==> BitLen(x) >= 1) && BitLen(x) <= k
  {
    if x > 0 { BitLenSmall(x / 2, k - 1); }
  }

  /**
   Writes v so that its last byte lands just before offset, and returns where it
   starts.  A buffer with too little room makes the program index out of range.
   */
  method EncodeVarintPlugin(buf: array<byte>, offset: nat, v: uint64) returns (base: nat)
    requires Sov(v) <= offset <= buf.Length
    modifies buf
    ensures base == offset - Sov(v)
    ensures buf[..] == old(buf[..])[..base] + EncodeVarint(v) + old(buf[..])[offset..]
  {
    hide Sov, ContinuationByte;
    SovIsLength(v);
    base := offset - Sov(v);
    var i := base;
    var x := v;
    ghost var enc := EncodeVarint(v);
    while x >= 128
      invariant 0 <= x < TWO64
      invariant base <= i < offset
      invariant EncodeVarint(x) == enc[i - base..]
      invariant forall k :: base <= k < i ==> buf[k] == enc[k - base]
      invariant forall k :: 0 <= k < base || offset <= k < buf.Length ==> buf[k] == old(buf[k])
    {
      assert enc[i - base..][1..] == enc[i + 1 - base..];
      buf[i] := ContinuationByte(x);
      x := x / 128;
      i := i + 1;
    }
    buf[i] := x;
    Overlay(buf[..], old(buf[..]), base, offset, enc);
  }

  /** uint8(x & 0x7f | 0x80) */
  function ContinuationByte(x: uint64): (b: byte)
    ensures b == x % 128 + 128
  {
    Pow2Words();
    OrDisjoint(x % 128, 1, 7);
    BitOr(x % 128, 0x80)
  }

  /**
   The value read from the front of s and the number of bytes it took, starting
   with acc already in the variable and the next group due at bit shift.
   */
  function ReadFrom(s: seq<byte>, shift: nat, acc: nat): (r: Result<(nat, nat)>)
    ensures r.Ok? ==> 1 <= r.value.1 <= |s|
  {
    if shift >= 64 then Err(IntOverflow)
    else if s == [] then Err(UnexpectedEOF)
    else
      var acc' := BitOr(acc, Shl64(s[0] % 128, shift));
      if s[0] < 128 then Ok((acc', 1))
      else
        match ReadFrom(s[1..], shift + 7, acc')
        case Err(e) => Err(e)
        case Ok((v, n)) => Ok((v, n + 1))
  }

  lemma {:induction false} ReadBound(s: seq<byte>, shift: nat, acc: nat)
    requires acc < TWO64
    ensures var r := ReadFrom(s, shift, acc); r.Ok? ==> r.value.0 < TWO64
  {
    if shift < 64 && s != [] {
      Pow2Words();
      OrBound(acc, Shl64(s[0] % 128, shift), 64);
      ReadBound(s[1..], shift + 7, BitOr(acc, Shl64(s[0] % 128, shift)));
    }
  }

  function Read(s: seq<byte>): (r: Result<(uint64, nat)>)
    ensures r.Ok? ==> 1 <= r.value.1 <= |s|
  {
    ReadBound(s, 0, 0);
    match ReadFrom(s, 0, 0)
    case Err(e) => Err(e)
    case Ok((v, n)) => Ok((v, n))
  }

  /** What is read back is what was written, whatever follows it. */
  lemma ReadEncoded(v: uint64, rest: seq<byte>)
    ensures Read(EncodeVarint(v) + rest) == Ok((v, |EncodeVarint(v)|))
  {
    Pow2Words();
    ReadFromEncoded(v, rest, 0, 0);
  }

  lemma {:induction false} ReadFromEncoded(v: nat, rest: seq<byte>, shift: nat, acc: nat)
    requires shift < 64
    requires acc < Pow2(shift)
    requires acc + v * Pow2(shift) < TWO64
    ensures ReadFrom(EncodeVarint(v) + rest, shift, acc) == Ok((acc + v * Pow2(shift), |EncodeVarint(v)|))
  {
    hide Pow2, BitOr, Shl64;
    var s := EncodeVarint(v) + rest;
    var low := v % 128;
    assert s[0] % 128 == low && (s[0] < 128 <==> v < 128);
    AddsGroup(v, shift, acc);
    if v >= 128 {
      assert s[1..] == EncodeVarint(v / 128) + rest;
      NextGroup(v, shift, acc);
      ReadFromEncoded(v / 128, rest, shift + 7, acc + low * Pow2(shift));
    } else {
      assert low == v;
    }
  }

  /** Or-ing in the next seven bits adds them at their place. */
  lemma AddsGroup(v: nat, shift: nat, acc: nat)
    requires shift < 64 && acc < Pow2(shift) && acc + v * Pow2(shift) < TWO64
    ensures BitOr(acc, Shl64(v % 128, shift)) == acc + v % 128 * Pow2(shift)
  {
    var p, low := Pow2(shift), v % 128;
    Smaller(low, v, p);
    assert Shl64(low, shift) == low * p;
    OrDisjoint(acc, low, shift);
  }

  lemma Smaller(a: nat, b: nat, p: nat)
    requires a <= b
    ensures a * p <= b * p
  {
  }

  /** What is left after seven bits still fits, and makes up the same number. */
  lemma NextGroup(v: nat, shift: nat, acc: nat)
    requires v >= 128 && shift < 64 && acc < Pow2(shift) && acc + v * Pow2(shift) < TWO64
    ensures shift + 7 < 64
    ensures acc + v % 128 * Pow2(shift) < Pow2(shift + 7)
    ensures acc + v % 128 * Pow2(shift) + v / 128 * Pow2(shift + 7) == acc + v * Pow2(shift)
  {
    hide Pow2;
    if shift + 7 >= 64 { TooWide(v, shift); }
    Pow2Add(shift, 7);
    Pow2Words();
    Split(acc, v, Pow2(shift));
  }

  lemma Split(acc: nat, v: nat, p: nat)
    requires acc < p
    ensures acc + v % 128 * p < p * 128
    ensures acc + v % 128 * p + v / 128 * (p * 128) == acc + v * p
  {
    var q, m := v / 128, v % 128;
    assert v == 128 * q + m;
    Distribute(q, m, p);
  }

  lemma Distribute(q: nat, m: nat, p: nat)
    ensures m < 128 ==> m * p <= 127 * p
    ensures m * p + q * (p * 128) == (128 * q + m) * p
  {
  }

  lemma TooWide(v: nat, shift: nat)
    requires v >= 128 && 57 <= shift < 64
    ensures v * Pow2(shift) >= TWO64
  {
    Pow2Words();
    Pow2Add(57, shift - 57);
    Pow2Add(57, 7);
    ProductBound(v, Pow2(57), Pow2(shift - 57));
  }

  lemma ProductBound(v: nat, p: nat, r: nat)
    requires v >= 128 && r >= 1
    ensures v * (p * r) >= p * 128
  {
    assert p * r >= p;
    assert v * (p * r) >= 128 * (p * r);
  }

  /** A read that succeeds looks at nothing after the bytes it takes. */
  lemma {:induction false} ReadFromLocal(s: seq<byte>, t: seq<byte>, shift: nat, acc: nat)
    requires ReadFrom(s, shift, acc).Ok?
    ensures var n := ReadFrom(s, shift, acc).value.1;
            n <= |t| && s[..n] == t[..n] ==> ReadFrom(t, shift, acc) == ReadFrom(s, shift, acc)
  {
    var n := ReadFrom(s, shift, acc).value.1;
    if n <= |t| && s[..n] == t[..n] {
      assert s[0] == s[..n][0] == t[..n][0] == t[0];
      if s[0] >= 128 {
        assert s[1..][..n - 1] == s[..n][1..];
        assert t[1..][..n - 1] == t[..n][1..];
        ReadFromLocal(s[1..], t[1..], shift + 7, BitOr(acc, Shl64(s[0] % 128, shift)));
      }
    }
  }

  lemma ReadLocal(s: seq<byte>, t: seq<byte>)
    requires Read(s).Ok?
    requires Read(s).value.1 <= |t| && s[..Read(s).value.1] == t[..Read(s).value.1]
    ensures Read(t) == Read(s)
  {
    ReadFromLocal(s, t, 0, 0);
  }

  /** The decoding loop every field starts with; index is into data. */
  method ReadVarint(data: seq<byte>, start: nat) returns (r: Result<(uint64, nat)>)
    requires start <= |data|
    ensures r == match Read(data[start..])
                 case Err(e) => Err(e)
                 case Ok((v, n)) => Ok((v, start + n))
  {
    var i := start;
    var shift := 0;
    var acc: uint64 := 0;
    while true
      invariant start <= i <= |data|
      invariant Resumes(data, start, i, shift, acc)
      decreases |data| - i
    {
      if shift >= 64 { return Err(IntOverflow); }
      if i >= |data| { return Err(UnexpectedEOF); }
      var b := data[i];
      Pow2Words();
      OrBound(acc, Shl64(b % 128, shift), 64);
      assert data[i..][1..] == data[i + 1..];
      i := i + 1;
      acc := BitOr(acc, Shl64(b % 128, shift));
      if b < 128 { return Ok((acc, i)); }
      shift := shift + 7;
    }
  }

  ghost predicate Resumes(data: seq<byte>, start: nat, i: nat, shift: nat, acc: uint64)
    requires start <= i <= |data|
  {
    match ReadFrom(data[i..], shift, acc)
    case Err(e) => ReadFrom(data[start..], 0, 0) == Err(e)
    case Ok((v, n)) => ReadFrom(data[start..], 0, 0) == Ok((v, n + i - start))
  }
}
