/** Facts about sequences, each proved once in a small context. */
module Seqs {
  lemma Assoc<T>(a: seq<T>, b: seq<T>, c: seq<T>)
    ensures a + (b + c) == (a + b) + c
  {
  }

  /** A sequence that agrees with orig outside a stretch and with w inside it. */
  lemma Overlay<T>(now: seq<T>, orig: seq<T>, i: nat, end: nat, w: seq<T>)
    requires |now| == |orig| && i + |w| == end <= |orig|
    requires forall k :: 0 <= k < i || end <= k < |orig| ==> now[k] == orig[k]
    requires forall k :: i <= k < end ==> now[k] == w[k - i]
    ensures now == orig[..i] + w + orig[end..]
  {
  }
}
