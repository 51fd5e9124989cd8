/** Generic sequence helpers: an optional value, the first element failing a
    test, a map over a sequence, and associativity of concatenation. */
module Seqs {

  datatype Option<+T> = None | Some(value: T)

  lemma Assoc<T>(a: seq<T>, b: seq<T>, c: seq<T>)
    ensures (a + b) + c == a + (b + c)
  {
  }

  /** Index of the first element that fails `ok`, or -1. */
  function FirstFailing<T>(s: seq<T>, ok: T -> bool): (i: int)
    ensures -1 <= i < |s|
    ensures i == -1 <==> forall j :: 0 <= j < |s| ==> ok(s[j])
    ensures i >= 0 ==> !ok(s[i]) && forall j :: 0 <= j < i ==> ok(s[j])
  {
    if s == [] then -1
    else if !ok(s[0]) then 0
    else
      var j := FirstFailing(s[1..], ok);
      assert forall j :: 1 <= j < |s| ==> s[j] == s[1..][j - 1];
      if j < 0 then -1 else j + 1
  }

  /** Three elements that all pass `ok` have no first failing one. */
  lemma AllPass3<T>(x: T, y: T, z: T, ok: T -> bool)
    requires ok(x) && ok(y) && ok(z)
    ensures FirstFailing([x, y, z], ok) == -1
  {
    assert [x, y, z][1..] == [y, z] && [y, z][1..] == [z] && [z][1..] == [];
  }

  /** `[f(x) for x in s]` */
  function MapSeq<A, B>(f: A -> B, s: seq<A>): (r: seq<B>)
    ensures |r| == |s|
  {
    if s == [] then [] else [f(s[0])] + MapSeq(f, s[1..])
  }

  lemma {:induction false} MapAt<A, B>(f: A -> B, s: seq<A>, i: nat)
    requires i < |s|
    ensures MapSeq(f, s)[i] == f(s[i])
    decreases i
  {
    if i > 0 {
      MapAt(f, s[1..], i - 1);
    }
  }
}
