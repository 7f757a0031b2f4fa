/** What the decoder refuses, and with which error, on inputs described by what is wrong with them. */
module Malformed {
  import opened Bits
  import opened Varint
  import opened Wire

  ghost predicate AllContinue(s: seq<byte>)
  {
    forall b | b in s :: b >= 128
  }

  lemma {:induction false} NeverEnds(s: seq<byte>, shift: nat, acc: nat)
    requires AllContinue(s)
    ensures ReadFrom(s, shift, acc) == Err(if shift + 7 * |s| >= 64 then IntOverflow else UnexpectedEOF)
    decreases |s|
  {
    hide BitOr, Shl64;
    if s != [] && shift < 64 {
      assert s[0] in s;
      assert forall b | b in s[1..] :: b in s;
      NeverEnds(s[1..], shift + 7, BitOr(acc, Shl64(s[0] % 128, shift)));
    }
  }

  /** A varint without a last byte is cut off, or too long from ten bytes on, whatever follows those. */
  lemma UnterminatedVarint(s: seq<byte>, rest: seq<byte>)
    requires AllContinue(s)
    ensures Read(s) == Err(if |s| >= 10 then IntOverflow else UnexpectedEOF)
    ensures |s| >= 10 ==> Read(s + rest) == Err(IntOverflow)
  {
    NeverEnds(s, 0, 0);
    if |s| >= 10 { TooLong(s, rest, 0, 0); }
  }

  lemma {:induction false} TooLong(s: seq<byte>, rest: seq<byte>, shift: nat, acc: nat)
    requires AllContinue(s) && shift + 7 * |s| >= 64
    ensures ReadFrom(s + rest, shift, acc) == Err(IntOverflow)
    decreases |s|
  {
    hide BitOr, Shl64;
    if shift < 64 {
      assert s[0] in s;
      assert forall b | b in s[1..] :: b in s;
      assert (s + rest)[1..] == s[1..] + rest;
      TooLong(s[1..], rest, shift + 7, BitOr(acc, Shl64(s[0] % 128, shift)));
    }
  }

  /** A tag that ends a group, has number zero, or whose wire type is not the declared one or none at all. */
  lemma BadTag(kinds: map<int, Kind>, pre: seq<byte>, num: nat, wireType: nat, rest: seq<byte>, data: Bytes)
    requires data == pre + (Tag(num, wireType) + rest) && num < TWO32 / 2 && wireType < 8
    ensures |pre| < |data|
    ensures wireType == 4 ==> NextField(kinds, data, |pre|) == Err(EndGroupForNonGroup)
    ensures wireType != 4 && num == 0 ==> NextField(kinds, data, |pre|) == Err(IllegalTag)
    ensures wireType != 4 && num > 0 && num in kinds && wireType != (if kinds[num].VarintKind? then 0 else 2) ==>
              NextField(kinds, data, |pre|) == Err(WrongWireType)
    ensures wireType >= 6 && num > 0 && num !in kinds ==> NextField(kinds, data, |pre|) == Err(IllegalWireType)
  {
    hide Read, SkipFrom, Tag;
    assert |Tag(num, wireType)| > 0 by { TagBytes(num, wireType); }
    ReadsTag(num, wireType, pre, rest);
    TagParts(num, wireType);
    if wireType >= 6 { SkipsNoSuchType(data[|pre|..], num, wireType, rest); }
  }

  lemma TagBytes(num: nat, wireType: nat)
    ensures |Tag(num, wireType)| > 0
  {
  }

  lemma SkipsNoSuchType(s: Bytes, num: nat, wireType: nat, rest: seq<byte>)
    requires s == Tag(num, wireType) + rest && num < TWO32 / 2 && 6 <= wireType < 8
    ensures SkipFrom(s, 0, 0) == Err(IllegalWireType)
  {
    hide Read, Tag;
    TagBytes(num, wireType);
    assert s[0..] == s && ([] + (Tag(num, wireType) + rest))[0..] == s;
    ReadsTag(num, wireType, [], rest);
    TagParts(num, wireType);
  }

  /** A declared length that is negative as an int, or that runs past the end of the input. */
  lemma BadLength(kinds: map<int, Kind>, pre: seq<byte>, num: nat, length: uint64, rest: seq<byte>, data: Bytes)
    requires data == pre + (Tag(num, 2) + (EncodeVarint(length) + rest))
    requires 0 < num < TWO32 / 2 && num in kinds && kinds[num].BytesKind? && length > |rest|
    ensures |pre| < |data|
    ensures NextField(kinds, data, |pre|) ==
            Err(if |data| - |rest| + length >= TWO63 then InvalidLength else UnexpectedEOF)
  {
    hide Read, SkipFrom, Tag, EncodeVarint;
    TagBytes(num, 2);
    var tag, len := Tag(num, 2), EncodeVarint(length);
    ReadsTag(num, 2, pre, len + rest);
    TagParts(num, 2);
    assert data[|pre + tag|..] == len + rest;
    ReadEncoded(length, rest);
  }
}
