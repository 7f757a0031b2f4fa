/** Decimal text for integers, as strconv reads and writes it. */
module Decimal {
  import opened Options

  function Digits(s: string): (r: Option<nat>)
  {
    if s == [] then Some(0)
    else if !('0' <= s[|s| - 1] <= '9') then None
    else
      match Digits(s[..|s| - 1])
      case None => None
      case Some(v) => Some(10 * v + (s[|s| - 1] as int - '0' as int))
  }

  /** strconv.Atoi: an optional sign and at least one digit, within a 64-bit int. */
  function Atoi(s: string): (r: Option<int>)
  {
    var signed := s != [] && (s[0] == '-' || s[0] == '+');
    var digits := if signed then s[1..] else s;
    if digits == [] then None
    else
      match Digits(digits)
      case None => None
      case Some(v) =>
        var sign: int := if signed && s[0] == '-' then -1 else 1;
        var n := sign * v;
        if -0x8000_0000_0000_0000 <= n <= 0x7fff_ffff_ffff_ffff then Some(n) else None
  }

  function NatText(n: nat): (s: string)
    ensures s != [] && forall c | c in s :: '0' <= c <= '9'
  {
    if n < 10 then [DigitChar(n)] else NatText(n / 10) + [DigitChar(n % 10)]
  }

  function DigitChar(d: nat): (c: char)
    requires d < 10
    ensures '0' <= c <= '9' && c as int == '0' as int + d
  {
    ('0' as int + d) as char
  }

  function Itoa(n: int): (s: string)
    ensures s != [] && forall c | c in s :: c == '-' || '0' <= c <= '9'
  {
    if n < 0 then "-" + NatText(-n) else NatText(n)
  }

  function Zeros(z: nat): (s: string)
  {
    seq(z, _ => '0')
  }

  /** The digits of n, after any number of zeros. */
  ghost predicate SpellsNat(s: string, n: nat)
  {
    exists z: nat :: s == Zeros(z) + NatText(n)
  }

  ghost predicate Spells(s: string, n: int)
  {
    || (n >= 0 && SpellsNat(s, n))
    || (n >= 0 && s != [] && s[0] == '+' && SpellsNat(s[1..], n))
    || (n <= 0 && s != [] && s[0] == '-' && SpellsNat(s[1..], -n))
  }

  lemma {:induction false} DigitsOfZeros(z: nat)
    ensures Digits(Zeros(z)) == Some(0)
    decreases z
  {
    if z > 0 {
      DigitsOfZeros(z - 1);
      assert Zeros(z)[..z - 1] == Zeros(z - 1);
    }
  }

  lemma {:induction false} DigitsOfNat(z: nat, n: nat)
    ensures Digits(Zeros(z) + NatText(n)) == Some(n)
    decreases n
  {
    var s := Zeros(z) + NatText(n);
    if n < 10 {
      DigitsOfZeros(z);
      assert s[..|s| - 1] == Zeros(z);
    } else {
      DigitsOfNat(z, n / 10);
      assert s[..|s| - 1] == Zeros(z) + NatText(n / 10);
    }
  }

  lemma {:induction false} DigitsSpell(s: string, v: nat)
    requires s != [] && Digits(s) == Some(v)
    ensures SpellsNat(s, v)
    decreases |s|
  {
    hide NatText;
    var t, c := s[..|s| - 1], s[|s| - 1];
    assert s == t + [c] && Digits(t).Some?;
    if t == [] {
      OneDigit(c);
    } else {
      var w := Digits(t).value;
      DigitsSpell(t, w);
      var z: nat :| t == Zeros(z) + NatText(w);
      OneMoreDigit(z, w, c);
    }
  }

  lemma OneDigit(c: char)
    requires '0' <= c <= '9'
    ensures SpellsNat([c], c as int - '0' as int)
  {
    var d := c as int - '0' as int;
    assert DigitChar(d) == c;
    assert [c] == Zeros(0) + NatText(d);
  }

  lemma OneMoreDigit(z: nat, w: nat, c: char)
    requires '0' <= c <= '9'
    ensures SpellsNat(Zeros(z) + NatText(w) + [c], 10 * w + (c as int - '0' as int))
  {
    var d := c as int - '0' as int;
    var v := 10 * w + d;
    assert DigitChar(d) == c;
    if w == 0 {
      assert NatText(0) == "0" && Zeros(z) + "0" == Zeros(z + 1);
      assert Zeros(z) + NatText(w) + [c] == Zeros(z + 1) + NatText(v);
    } else {
      assert v / 10 == w && v % 10 == d;
      assert Zeros(z) + NatText(w) + [c] == Zeros(z) + NatText(v);
    }
  }

  lemma DigitsIff(s: string, n: nat)
    requires s != []
    ensures Digits(s) == Some(n) <==> SpellsNat(s, n)
  {
    if Digits(s) == Some(n) { DigitsSpell(s, n); }
    if SpellsNat(s, n) {
      var z: nat :| s == Zeros(z) + NatText(n);
      DigitsOfNat(z, n);
    }
  }

  /** Exactly the texts that spell a 64-bit integer are read, and as that integer. */
  lemma AtoiIff(s: string, n: int)
    requires -0x8000_0000_0000_0000 <= n <= 0x7fff_ffff_ffff_ffff
    ensures Atoi(s) == Some(n) <==> Spells(s, n)
  {
    hide Digits, SpellsNat;
    NotEmpty(s, n);
    if s != [] {
      NotEmpty(s[1..], n);
      if s[0] == '-' || s[0] == '+' { NotSigned(s, n); }
      if n >= 0 { DigitsIff(s, n); }
      if s[1..] != [] { DigitsIff(s[1..], if n < 0 then -n else n); }
    }
  }

  lemma NotEmpty(s: string, n: int)
    ensures s == [] ==> !SpellsNat(s, if n < 0 then -n else n)
  {
  }

  lemma NotSigned(s: string, n: int)
    requires s != [] && (s[0] == '-' || s[0] == '+')
    ensures !SpellsNat(s, if n < 0 then -n else n)
  {
    var v: nat := if n < 0 then -n else n;
    forall z: nat ensures s != Zeros(z) + NatText(v) {
      var t := Zeros(z) + NatText(v);
      assert t[0] in Zeros(z) || t[0] in NatText(v);
    }
  }

  /** Reading undoes writing, for every 64-bit integer. */
  lemma AtoiOfItoa(n: int)
    requires -0x8000_0000_0000_0000 <= n <= 0x7fff_ffff_ffff_ffff
    ensures Atoi(Itoa(n)) == Some(n)
  {
    var s := Itoa(n);
    var digits := if n < 0 then s[1..] else s;
    assert digits == Zeros(0) + NatText(if n < 0 then -n else n);
    AtoiIff(s, n);
  }
}
