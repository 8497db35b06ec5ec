/** Facts about sequences that several components need. */
module Sequences {
  /** The numbers below n, listed in order, occur once each. */
  lemma {:induction false} AllOnce(s: seq<nat>, n: nat)
    requires |s| == n && forall i | 0 <= i < n :: s[i] == i
    ensures forall i: nat :: multiset(s)[i] == if i < n then 1 else 0
  {
    if n > 0 {
      AllOnce(s[..n - 1], n - 1);
      assert s == s[..n - 1] + [n - 1];
    }
  }

  /** A stream that arrives in chunks. */
  function Joined(chunks: seq<string>): string {
    if chunks == [] then "" else chunks[0] + Joined(chunks[1..])
  }
}
