/** Small facts that several models need. */
module Common {

  function Least(m: nat, n: nat): nat {
    if m < n then m else n
  }

  function Sum(ms: seq<nat>): nat {
    if ms == [] then 0 else ms[0] + Sum(ms[1..])
  }

  lemma {:induction false} SeqAssociative<T>(a: seq<T>, b: seq<T>, c: seq<T>)
    ensures a + b + c == a + (b + c)
  {
  }
}
