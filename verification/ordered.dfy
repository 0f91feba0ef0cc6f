/** The two containers the collection pass iterates over: an insertion-ordered
    dict with integer keys (Python's `dict`) and an ordered multimap (the
    `multidict.MultiDict` the pass keys by `str(id)`; `str` is injective on
    integers, so the model keys it by the integer itself). */
module Ordered {
  import opened Outcome
  import opened Text

  /** Keys in first-insertion order and the current value of each. */
  datatype OMap<V> = OMap(keys: seq<int>, m: map<int, V>) {
    ghost predicate Valid() {
      && (forall i, j | 0 <= i < j < |keys| :: keys[i] != keys[j])
      && (forall i | 0 <= i < |keys| :: keys[i] in m)
      && (forall k | k in m :: k in keys)
    }

    /** `d[k] = v`: a new key goes last, an existing key keeps its place. */
    function Put(k: int, v: V): (r: OMap<V>)
      requires Valid()
      ensures r.Valid()
      ensures r.m == m[k := v]
      ensures k in m ==> r.keys == keys
      ensures k !in m ==> r.keys == keys + [k]
    {
      if k in m then OMap(keys, m[k := v]) else OMap(keys + [k], m[k := v])
    }

    /** `d.values()` */
    function Values(): (r: seq<V>)
      requires Valid()
      ensures |r| == |keys| && forall i | 0 <= i < |keys| :: r[i] == m[keys[i]]
    {
      seq(|keys|, i requires 0 <= i < |keys| => m[keys[i]])
    }
  }

  function EmptyOMap<V>(): (r: OMap<V>)
    ensures r.Valid() && r.keys == [] && r.m == map[]
  {
    OMap([], map[])
  }

  /** (key, value) pairs in insertion order; a key may repeat. */
  datatype MultiDict<V> = MultiDict(items: seq<(int, V)>) {
    /** `md.add(k, v)` */
    function Add(k: int, v: V): MultiDict<V> {
      MultiDict(items + [(k, v)])
    }

    /** `k in md` */
    predicate Contains(k: int) {
      FirstIndex(items, k) < |items|
    }

    /** `md[k]`: the value first added under `k`. */
    function First(k: int): (v: V)
      requires Contains(k)
      ensures exists i | 0 <= i < |items| :: items[i] == (k, v)
    {
      items[FirstIndex(items, k)].1
    }

    /** `md.getall(k)`: every value added under `k`, in order; KeyError when
        there is none. */
    function GetAll(k: int): (r: Result<seq<V>>)
      ensures r.Failure? <==> !Contains(k)
      ensures r.Success? ==> |r.value| > 0 && forall v | v in r.value :: (k, v) in items
    {
      var vs := ValuesOf(items, k);
      if vs == [] then Failure(MissingKey(KeyText(k))) else Success(vs)
    }

    /** `md.values()` */
    function AllValues(): seq<V> {
      seq(|items|, i requires 0 <= i < |items| => items[i].1)
    }

    /** Replace the value first added under `k`, leaving everything else. */
    function UpdateFirst(k: int, v: V): (r: MultiDict<V>)
      requires Contains(k)
      ensures |r.items| == |items|
      ensures forall i | 0 <= i < |items| ::
                r.items[i] == if i == FirstIndex(items, k) then (k, v) else items[i]
    {
      MultiDict(items[FirstIndex(items, k) := (k, v)])
    }
  }

  /** The position of the first pair with key `k`, or the length. */
  function FirstIndex<V>(items: seq<(int, V)>, k: int): (i: nat)
    ensures i <= |items|
    ensures i < |items| ==> items[i].0 == k
  {
    if items == [] then 0
    else if items[0].0 == k then 0
    else 1 + FirstIndex(items[1..], k)
  }

  /** No pair before that position has key `k`. */
  lemma {:induction false} BeforeFirstIndex<V>(items: seq<(int, V)>, k: int, j: nat)
    requires j < FirstIndex(items, k)
    ensures items[j].0 != k
    decreases |items|
  {
    if j > 0 {
      BeforeFirstIndex(items[1..], k, j - 1);
    }
  }

  /** A pair with key `k` is at or after the first one. */
  lemma FirstIndexAtMost<V>(items: seq<(int, V)>, k: int, j: nat)
    requires j < |items| && items[j].0 == k
    ensures FirstIndex(items, k) <= j
  {
    if FirstIndex(items, k) > j {
      BeforeFirstIndex(items, k, j);
    }
  }

  /** The values stored under `k`, in insertion order. */
  function ValuesOf<V>(items: seq<(int, V)>, k: int): (r: seq<V>)
    ensures r == [] <==> FirstIndex(items, k) == |items|
    ensures |r| > 0 ==> r[0] == items[FirstIndex(items, k)].1
    ensures forall v | v in r :: (k, v) in items
  {
    if items == [] then []
    else if items[0].0 == k then [items[0].1] + ValuesOf(items[1..], k)
    else ValuesOf(items[1..], k)
  }

  /** `str(k)`, for the text of a KeyError. */
  function KeyText(k: int): string {
    if k < 0 then "-" + ShowNat(-k) else ShowNat(k)
  }
}
