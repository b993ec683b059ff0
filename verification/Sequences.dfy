/** Arrays with a gap closed or opened, as sequences. */
module Sequences {

  function Without<T>(t: seq<T>, k: nat): (r: seq<T>)
    requires k < |t|
    ensures |r| == |t| - 1
    ensures forall i :: 0 <= i < |r| ==> r[i] == t[if i < k then i else i + 1]
  {
    t[..k] + t[k + 1..]
  }

  function InsertAt<T>(t: seq<T>, p: nat, a: T): (r: seq<T>)
    requires p <= |t|
    ensures |r| == |t| + 1
    ensures forall i :: 0 <= i < |r| ==> r[i] == if i < p then t[i] else if i == p then a else t[i - 1]
  {
    t[..p] + [a] + t[p..]
  }

  lemma Regroup<T>(a: seq<T>, b: seq<T>, c: seq<T>)
    ensures (a + b) + c == a + (b + c)
  {
  }
}
