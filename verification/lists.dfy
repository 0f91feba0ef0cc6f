/** List helpers shared by the hooks and the collection pass: filtering as a
    list comprehension with a condition does it, and flattening. */
module Lists {

  /** `[x for x in s if p(x)]` */
  function Keep<T>(s: seq<T>, p: T -> bool): (r: seq<T>)
    ensures |r| <= |s|
    ensures forall i | 0 <= i < |r| :: p(r[i])
    ensures forall i | 0 <= i < |r| :: r[i] in s
    ensures forall i | 0 <= i < |s| && p(s[i]) :: s[i] in r
  {
    if s == [] then []
    else
      var rest := Keep(s[1..], p);
      assert forall i | 1 <= i < |s| :: s[i] == s[1..][i - 1];
      if p(s[0]) then [s[0]] + rest else rest
  }

  /** Filtering commutes with concatenation, so the kept elements stay in
      their input order. */
  lemma {:induction false} KeepConcat<T>(a: seq<T>, b: seq<T>, p: T -> bool)
    ensures Keep(a + b, p) == Keep(a, p) + Keep(b, p)
    decreases |a|
  {
    if a != [] {
      assert (a + b)[1..] == a[1..] + b;
      KeepConcat(a[1..], b, p);
    } else {
      assert a + b == b;
    }
  }

  /** Concatenation of a list of lists. */
  function Flatten<T>(ss: seq<seq<T>>): seq<T> {
    if ss == [] then [] else ss[0] + Flatten(ss[1..])
  }

  lemma {:induction false} FlattenConcat<T>(a: seq<seq<T>>, b: seq<seq<T>>)
    ensures Flatten(a + b) == Flatten(a) + Flatten(b)
    decreases |a|
  {
    if a == [] {
      assert a + b == b;
    } else {
      assert (a + b)[1..] == a[1..] + b;
      FlattenConcat(a[1..], b);
    }
  }

  /** Every element of a flattened list comes from one of the lists ... */
  lemma {:induction false} FlattenIndex<T>(ss: seq<seq<T>>, i: nat) returns (j: nat, m: nat)
    requires i < |Flatten(ss)|
    ensures j < |ss| && m < |ss[j]| && Flatten(ss)[i] == ss[j][m]
    decreases |ss|
  {
    if i < |ss[0]| {
      j, m := 0, i;
    } else {
      var k, n := FlattenIndex(ss[1..], i - |ss[0]|);
      j, m := k + 1, n;
    }
  }

  /** ... and every element of every list is in it. */
  lemma {:induction false} FlattenHas<T>(ss: seq<seq<T>>, j: nat, m: nat)
    requires j < |ss| && m < |ss[j]|
    ensures ss[j][m] in Flatten(ss)
    decreases |ss|
  {
    if j > 0 {
      FlattenHas(ss[1..], j - 1, m);
    } else {
      assert Flatten(ss)[m] == ss[0][m];
    }
  }

  /** `[f(x) for x in s]` */
  function Map<T, U>(s: seq<T>, f: T -> U): (r: seq<U>)
    ensures |r| == |s| && forall i | 0 <= i < |s| :: r[i] == f(s[i])
  {
    seq(|s|, i requires 0 <= i < |s| => f(s[i]))
  }

  lemma MapConcat<T, U>(a: seq<T>, b: seq<T>, f: T -> U)
    ensures Map(a + b, f) == Map(a, f) + Map(b, f)
  {
  }
}
