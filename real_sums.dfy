/** Sums of real-valued series, used for volume conservation and for
    integrating a differenced series back. */
module RealSums {

  /** The sum of all entries, accumulated from the front. */
  function Sum(s: seq<real>): real
    decreases |s|
  {
    if |s| == 0 then 0.0 else Sum(s[..|s| - 1]) + s[|s| - 1]
  }

  /** A series of zeros sums to zero. */
  lemma {:induction false} SumZeros(n: nat)
    ensures Sum(seq(n, _ => 0.0)) == 0.0
  {
    if n > 0 {
      assert seq(n, _ => 0.0)[..n - 1] == seq(n - 1, _ => 0.0);
      SumZeros(n - 1);
    }
  }

  /** Adding v to one entry adds v to the sum. */
  lemma {:induction false} SumAddAt(s: seq<real>, j: nat, v: real)
    requires j < |s|
    ensures Sum(s[j := s[j] + v]) == Sum(s) + v
    decreases |s|
  {
    var t := s[j := s[j] + v];
    var last := |s| - 1;
    if j == last {
      assert t[..last] == s[..last];
    } else {
      assert t[..last] == s[..last][j := s[j] + v];
      SumAddAt(s[..last], j, v);
    }
  }

  /** Summing a prefix one entry longer adds that entry. */
  lemma SumPrefixStep(s: seq<real>, i: nat)
    requires i < |s|
    ensures Sum(s[..i + 1]) == Sum(s[..i]) + s[i]
  {
    assert s[..i + 1][..i] == s[..i];
  }
}
