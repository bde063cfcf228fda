/** Sums of a weight over the consumers. */
module Sums {
  import opened Protocol

  function Sum(f: Consumer -> nat, cs: seq<Consumer>): nat {
    if cs == [] then 0 else f(cs[0]) + Sum(f, cs[1..])
  }

  lemma {:induction false} SumUpdate(f: Consumer -> nat, cs: seq<Consumer>, t: nat, c: Consumer)
    requires t < |cs|
    ensures Sum(f, cs[t := c]) == Sum(f, cs) - f(cs[t]) + f(c)
    ensures f(cs[t]) <= Sum(f, cs)
  {
    if t == 0 {
      assert cs[t := c][1..] == cs[1..];
    } else {
      assert cs[t := c][1..] == cs[1..][t - 1 := c];
      SumUpdate(f, cs[1..], t - 1, c);
    }
  }

  lemma {:induction false} SumAtMost(f: Consumer -> nat, cs: seq<Consumer>, ds: seq<Consumer>)
    requires |cs| == |ds| && forall t :: 0 <= t < |cs| ==> f(ds[t]) <= f(cs[t])
    ensures Sum(f, ds) <= Sum(f, cs)
  {
    if cs != [] {
      SumAtMost(f, cs[1..], ds[1..]);
    }
  }
}
