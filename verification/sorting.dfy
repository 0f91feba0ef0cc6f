/** Python's `sorted(xs, key=...)` and the `_uniq` helper built on it.
    `sorted` is a stable sort; the keys the model sorts by are integers or
    strings, compared the way Python compares them. */
module Sorting {

  /** A sort key: an `int`, or a `str` compared code point by code point. */
  datatype SortKey = IntKey(i: int) | StrKey(s: string)

  /** Python's `a <= b` on strings: lexicographic, a proper prefix first. */
  predicate StrLe(a: string, b: string)
    decreases |a|
  {
    a == [] || (b != [] && (a[0] < b[0] || (a[0] == b[0] && StrLe(a[1..], b[1..]))))
  }

  /** Python's `<=` on two keys of one kind. The model never sorts a list
      that mixes the kinds (Python would raise TypeError); integers are put
      first only so that the order is total. */
  predicate KeyLe(a: SortKey, b: SortKey) {
    match (a, b)
    case (IntKey(x), IntKey(y)) => x <= y
    case (StrKey(x), StrKey(y)) => StrLe(x, y)
    case (IntKey(_), StrKey(_)) => true
    case (StrKey(_), IntKey(_)) => false
  }

  lemma {:induction false} StrLeTotal(a: string, b: string)
    ensures StrLe(a, b) || StrLe(b, a)
    decreases |a|
  {
    if a != [] && b != [] && a[0] == b[0] {
      StrLeTotal(a[1..], b[1..]);
    }
  }

  lemma {:induction false} StrLeAntisymmetric(a: string, b: string)
    requires StrLe(a, b) && StrLe(b, a)
    ensures a == b
    decreases |a|
  {
    if a != [] {
      StrLeAntisymmetric(a[1..], b[1..]);
      assert a == [a[0]] + a[1..] && b == [b[0]] + b[1..];
    }
  }

  lemma {:induction false} StrLeTransitive(a: string, b: string, c: string)
    requires StrLe(a, b) && StrLe(b, c)
    ensures StrLe(a, c)
    decreases |a|
  {
    if a != [] && a[0] == b[0] && b[0] == c[0] {
      StrLeTransitive(a[1..], b[1..], c[1..]);
    }
  }

  /** `KeyLe` is a total order. */
  lemma KeyLeTotalOrder(a: SortKey, b: SortKey, c: SortKey)
    ensures KeyLe(a, a)
    ensures KeyLe(a, b) || KeyLe(b, a)
    ensures KeyLe(a, b) && KeyLe(b, a) ==> a == b
    ensures KeyLe(a, b) && KeyLe(b, c) ==> KeyLe(a, c)
  {
    if a.StrKey? {
      StrLeTotal(a.s, a.s);
    }
    if a.StrKey? && b.StrKey? {
      StrLeTotal(a.s, b.s);
      if StrLe(a.s, b.s) && StrLe(b.s, a.s) {
        StrLeAntisymmetric(a.s, b.s);
      }
      if c.StrKey? && StrLe(a.s, b.s) && StrLe(b.s, c.s) {
        StrLeTransitive(a.s, b.s, c.s);
      }
    }
  }

  predicate SortedBy<T>(s: seq<T>, key: T -> SortKey) {
    forall i, j | 0 <= i < j < |s| :: KeyLe(key(s[i]), key(s[j]))
  }

  /** The elements of `s` whose key is `k`, in their order in `s`. */
  function FilterKey<T>(s: seq<T>, key: T -> SortKey, k: SortKey): seq<T> {
    if s == [] then [] else (if key(s[0]) == k then [s[0]] else []) + FilterKey(s[1..], key, k)
  }

  lemma {:induction false} FilterKeyAppend<T>(a: seq<T>, b: seq<T>, key: T -> SortKey, k: SortKey)
    ensures FilterKey(a + b, key, k) == FilterKey(a, key, k) + FilterKey(b, key, k)
    decreases |a|
  {
    if a != [] {
      assert (a + b)[1..] == a[1..] + b;
      FilterKeyAppend(a[1..], b, key, k);
    } else {
      assert a + b == b;
    }
  }

  /** Inserts `x` before the first element whose key is not below `key(x)`,
      so that `x` precedes the elements with an equal key. */
  function Insert<T>(x: T, s: seq<T>, key: T -> SortKey): (r: seq<T>)
    ensures multiset(r) == multiset(s) + multiset{x}
  {
    if s == [] || KeyLe(key(x), key(s[0])) then [x] + s
    else
      assert s == [s[0]] + s[1..];
      [s[0]] + Insert(x, s[1..], key)
  }

  lemma {:induction false} InsertSorted<T>(x: T, s: seq<T>, key: T -> SortKey)
    requires SortedBy(s, key)
    ensures SortedBy(Insert(x, s, key), key)
    decreases |s|
  {
    var r := Insert(x, s, key);
    if s == [] || KeyLe(key(x), key(s[0])) {
      forall i, j | 0 <= i < j < |r| ensures KeyLe(key(r[i]), key(r[j])) {
        if i == 0 {
          KeyLeTotalOrder(key(x), key(s[0]), key(s[j - 1]));
        }
      }
    } else {
      InsertSorted(x, s[1..], key);
      var t := Insert(x, s[1..], key);
      assert r == [s[0]] + t;
      forall j | 0 <= j < |t| ensures KeyLe(key(s[0]), key(t[j])) {
        assert t[j] in multiset(s[1..]) + multiset{x} by {
          assert t[j] in multiset(t);
        }
        if t[j] in multiset(s[1..]) {
          var p :| 0 <= p < |s[1..]| && s[1..][p] == t[j];
          assert s[p + 1] == t[j];
        } else {
          KeyLeTotalOrder(key(x), key(s[0]), key(x));
        }
      }
    }
  }

  lemma {:induction false} InsertFilter<T>(x: T, s: seq<T>, key: T -> SortKey, k: SortKey)
    ensures FilterKey(Insert(x, s, key), key, k)
         == (if key(x) == k then [x] else []) + FilterKey(s, key, k)
    decreases |s|
  {
    if s == [] || KeyLe(key(x), key(s[0])) {
      assert ([x] + s)[1..] == s;
    } else {
      var t := Insert(x, s[1..], key);
      assert ([s[0]] + t)[1..] == t;
      InsertFilter(x, s[1..], key, k);
      KeyLeTotalOrder(key(x), key(s[0]), key(s[0]));
    }
  }

  /** `sorted(s, key=key)`: a stable insertion sort. */
  function SortBy<T>(s: seq<T>, key: T -> SortKey): (r: seq<T>)
    ensures multiset(r) == multiset(s)
    ensures SortedBy(r, key)
    ensures forall k :: FilterKey(r, key, k) == FilterKey(s, key, k)
  {
    if s == [] then []
    else
      var t := SortBy(s[1..], key);
      InsertSorted(s[0], t, key);
      InsertFilterAll(s[0], t, s, key);
      assert s == [s[0]] + s[1..];
      Insert(s[0], t, key)
  }

  lemma InsertFilterAll<T>(x: T, t: seq<T>, s: seq<T>, key: T -> SortKey)
    requires s != [] && x == s[0]
    requires forall k :: FilterKey(t, key, k) == FilterKey(s[1..], key, k)
    ensures forall k :: FilterKey(Insert(x, t, key), key, k) == FilterKey(s, key, k)
  {
    forall k ensures FilterKey(Insert(x, t, key), key, k) == FilterKey(s, key, k) {
      InsertFilter(x, t, key, k);
    }
  }

  /** Sorting by a key that every element shares changes nothing. */
  lemma {:induction false} SortEqualKeysIdentity<T>(s: seq<T>, key: T -> SortKey, k: SortKey)
    requires forall i | 0 <= i < |s| :: key(s[i]) == k
    ensures SortBy(s, key) == s
  {
    var r := SortBy(s, key);
    FilterAllSame(s, key, k);
    FilterAllSame(r, key, k) by {
      forall i | 0 <= i < |r| ensures key(r[i]) == k {
        assert r[i] in multiset(s) by { assert r[i] in multiset(r); }
      }
    }
  }

  lemma {:induction false} FilterAllSame<T>(s: seq<T>, key: T -> SortKey, k: SortKey)
    requires forall i | 0 <= i < |s| :: key(s[i]) == k
    ensures FilterKey(s, key, k) == s
    decreases |s|
  {
    if s != [] {
      FilterAllSame(s[1..], key, k);
    }
  }

  /** The integer key `id` names, for sorting by an integer field. */
  function ByInt<T>(id: T -> int): T -> SortKey {
    x => IntKey(id(x))
  }

  predicate AscendingIds<T>(t: seq<T>, id: T -> int) {
    forall i, j | 0 <= i < j < |t| :: id(t[i]) <= id(t[j])
  }

  /** The elements of `s` whose id is `k`, in their order in `s`. */
  function FilterId<T>(s: seq<T>, id: T -> int, k: int): seq<T> {
    if s == [] then [] else (if id(s[0]) == k then [s[0]] else []) + FilterId(s[1..], id, k)
  }

  /** The filtered elements come from `s` and carry the id. */
  lemma {:induction false} FilterIdFrom<T>(s: seq<T>, id: T -> int, k: int)
    ensures forall x | x in FilterId(s, id, k) :: x in s && id(x) == k
    decreases |s|
  {
    if s != [] {
      FilterIdFrom(s[1..], id, k);
    }
  }

  /** `x` is the first element of `s` that carries its id. */
  predicate FirstWithItsId<T(==)>(s: seq<T>, id: T -> int, x: T) {
    var f := FilterId(s, id, id(x));
    f != [] && f[0] == x
  }

  function KeySet<T(==)>(s: seq<T>, id: T -> int): set<int> {
    set x | x in s :: id(x)
  }

  lemma SortedByIntAscending<T>(t: seq<T>, id: T -> int)
    requires SortedBy(t, ByInt(id))
    ensures AscendingIds(t, id)
  {
    forall i, j | 0 <= i < j < |t| ensures id(t[i]) <= id(t[j]) {
      assert KeyLe(ByInt(id)(t[i]), ByInt(id)(t[j]));
    }
  }

  lemma {:induction false} FilterByIntIsFilterId<T>(s: seq<T>, id: T -> int, k: int)
    ensures FilterKey(s, ByInt(id), IntKey(k)) == FilterId(s, id, k)
    decreases |s|
  {
    if s != [] {
      FilterByIntIsFilterId(s[1..], id, k);
      assert ByInt(id)(s[0]) == IntKey(id(s[0]));
    }
  }

  lemma {:induction false} FilterIdAppend<T>(a: seq<T>, b: seq<T>, id: T -> int, k: int)
    ensures FilterId(a + b, id, k) == FilterId(a, id, k) + FilterId(b, id, k)
    decreases |a|
  {
    if a != [] {
      assert (a + b)[1..] == a[1..] + b;
      FilterIdAppend(a[1..], b, id, k);
    } else {
      assert a + b == b;
    }
  }

  lemma {:induction false} FilterIdNone<T>(d: seq<T>, id: T -> int, k: int)
    requires forall j | 0 <= j < |d| :: id(d[j]) != k
    ensures FilterId(d, id, k) == []
    decreases |d|
  {
    if d != [] {
      FilterIdNone(d[1..], id, k);
    }
  }

  /** How many leading elements of `t` carry the id `k`. */
  function RunLength<T>(t: seq<T>, id: T -> int, k: int): (n: nat)
    ensures n <= |t|
    ensures forall j | 0 <= j < n :: id(t[j]) == k
    ensures n < |t| ==> id(t[n]) != k
  {
    if t != [] && id(t[0]) == k then 1 + RunLength(t[1..], id, k) else 0
  }

  /** `itertools.groupby` over `t` by id, keeping the first element of each
      run of equal ids. */
  function FirstOfRuns<T(==)>(t: seq<T>, id: T -> int): (r: seq<T>)
    ensures forall x | x in r :: x in t
    decreases |t|
  {
    if t == [] then []
    else [t[0]] + FirstOfRuns(t[1 + RunLength(t[1..], id, id(t[0]))..], id)
  }

  /** The run of `t[0]`'s id at the head of `t` ends at `m`; the ids after
      it are all above `t[0]`'s. */
  lemma RunSplit<T>(t: seq<T>, id: T -> int) returns (m: nat)
    requires t != [] && AscendingIds(t, id)
    ensures m == 1 + RunLength(t[1..], id, id(t[0]))
    ensures 1 <= m <= |t|
    ensures forall j | 0 <= j < m :: id(t[j]) == id(t[0])
    ensures forall x | x in t[m..] :: id(x) > id(t[0])
    ensures AscendingIds(t[m..], id)
  {
    m := 1 + RunLength(t[1..], id, id(t[0]));
    forall j | 0 <= j < m ensures id(t[j]) == id(t[0]) {
      if j > 0 {
        assert t[j] == t[1..][j - 1];
      }
    }
    var u := t[m..];
    forall x | x in u ensures id(x) > id(t[0]) {
      var p :| 0 <= p < |u| && u[p] == x;
      assert u[0] == t[m] && x == t[m + p];
      assert t[m] == t[1..][m - 1];
    }
    forall i, j | 0 <= i < j < |u| ensures id(u[i]) <= id(u[j]) {
      assert u[i] == t[m + i] && u[j] == t[m + j];
    }
  }

  lemma {:induction false} FirstOfRunsAscending<T>(t: seq<T>, id: T -> int)
    requires AscendingIds(t, id)
    ensures forall i, j | 0 <= i < j < |FirstOfRuns(t, id)| ::
              id(FirstOfRuns(t, id)[i]) < id(FirstOfRuns(t, id)[j])
    decreases |t|
  {
    if t != [] {
      var m := RunSplit(t, id);
      var u := t[m..];
      FirstOfRunsAscending(u, id);
      var ru := FirstOfRuns(u, id);
      var r := [t[0]] + ru;
      assert FirstOfRuns(t, id) == r;
      forall i, j | 0 <= i < j < |r| ensures id(r[i]) < id(r[j]) {
        if i == 0 {
          assert r[j] == ru[j - 1];
          assert r[j] in ru;
          assert r[j] in u;
          assert r[i] == t[0];
        } else {
          assert r[i] == ru[i - 1] && r[j] == ru[j - 1];
        }
      }
    }
  }

  /** Every id of `t` survives in `FirstOfRuns(t, id)`. */
  lemma {:induction false} FirstOfRunsKeepsIds<T>(t: seq<T>, id: T -> int, x: T) returns (y: T)
    requires AscendingIds(t, id) && x in t
    ensures y in FirstOfRuns(t, id) && id(y) == id(x)
    decreases |t|
  {
    var m := FirstOfRunsStep(t, id);
    var u := t[m..];
    var p :| 0 <= p < |t| && t[p] == x;
    if p >= m {
      assert u[p - m] == x;
      y := FirstOfRunsKeepsIds(u, id, x);
    } else {
      y := t[0];
    }
  }

  /** One step of `FirstOfRuns`: the head of `t`, then the runs after its own. */
  lemma FirstOfRunsStep<T>(t: seq<T>, id: T -> int) returns (m: nat)
    requires t != [] && AscendingIds(t, id)
    ensures 1 <= m <= |t| && FirstOfRuns(t, id) == [t[0]] + FirstOfRuns(t[m..], id)
    ensures forall j | 0 <= j < m :: id(t[j]) == id(t[0])
    ensures AscendingIds(t[m..], id)
  {
    m := RunSplit(t, id);
  }

  lemma FirstOfRunsKeys<T>(t: seq<T>, id: T -> int)
    requires AscendingIds(t, id)
    ensures KeySet(FirstOfRuns(t, id), id) == KeySet(t, id)
  {
    var r := FirstOfRuns(t, id);
    forall v | v in KeySet(t, id) ensures v in KeySet(r, id) {
      var x :| x in t && id(x) == v;
      var y := FirstOfRunsKeepsIds(t, id, x);
    }
  }

  lemma {:induction false} FirstOfRunsFirst<T>(t: seq<T>, id: T -> int)
    requires AscendingIds(t, id)
    ensures forall i | 0 <= i < |FirstOfRuns(t, id)| :: FirstWithItsId(t, id, FirstOfRuns(t, id)[i])
    decreases |t|
  {
    if t != [] {
      var m := RunSplit(t, id);
      var u := t[m..];
      FirstOfRunsFirst(u, id);
      var ru := FirstOfRuns(u, id);
      var r := [t[0]] + ru;
      assert FirstOfRuns(t, id) == r;
      forall i | 0 <= i < |r| ensures FirstWithItsId(t, id, r[i]) {
        if i > 0 {
          var x := ru[i - 1];
          assert FirstWithItsId(u, id, x);
          assert id(x) > id(t[0]) by { assert x in u; }
          FirstPastRun(t, id, m, x);
        } else {
          assert t == [t[0]] + t[1..];
        }
      }
    }
  }

  /** An element that is first with its id after a leading run of other ids
      is first with it in the whole list. */
  lemma FirstPastRun<T>(t: seq<T>, id: T -> int, m: nat, x: T)
    requires 1 <= m <= |t| && forall j | 0 <= j < m :: id(t[j]) == id(t[0])
    requires id(x) != id(t[0]) && FirstWithItsId(t[m..], id, x)
    ensures FirstWithItsId(t, id, x)
  {
    var d := t[..m];
    var u := t[m..];
    assert t == d + u;
    FilterIdAppend(d, u, id, id(x));
    FilterIdNone(d, id, id(x));
  }

  lemma SameMultisetSameKeys<T>(t: seq<T>, s: seq<T>, id: T -> int)
    requires multiset(t) == multiset(s)
    ensures KeySet(t, id) == KeySet(s, id)
  {
    forall v | v in KeySet(t, id) ensures v in KeySet(s, id) {
      var x :| x in t && id(x) == v;
      assert x in multiset(t);
    }
    forall v | v in KeySet(s, id) ensures v in KeySet(t, id) {
      var x :| x in s && id(x) == v;
      assert x in multiset(s);
    }
  }

  /** A stable sort by id keeps, for every id, the order of the elements
      carrying it. */
  lemma SortKeepsFirstWithId<T>(t: seq<T>, s: seq<T>, id: T -> int, x: T)
    requires t == SortBy(s, ByInt(id))
    ensures FirstWithItsId(t, id, x) <==> FirstWithItsId(s, id, x)
  {
    FilterByIntIsFilterId(t, id, id(x));
    FilterByIntIsFilterId(s, id, id(x));
  }

  /** `_uniq(lst)`: one element per distinct id, in strictly ascending id
      order; each is the first element of `lst` that carries its id. */
  function Uniq<T(==)>(s: seq<T>, id: T -> int): (r: seq<T>)
    ensures forall i, j | 0 <= i < j < |r| :: id(r[i]) < id(r[j])
    ensures KeySet(r, id) == KeySet(s, id)
    ensures forall i | 0 <= i < |r| :: FirstWithItsId(s, id, r[i])
  {
    var t := SortBy(s, ByInt(id));
    SortedByIntAscending(t, id);
    FirstOfRunsAscending(t, id);
    FirstOfRunsKeys(t, id);
    FirstOfRunsFirst(t, id);
    SameMultisetSameKeys(t, s, id);
    var r := FirstOfRuns(t, id);
    assert forall i | 0 <= i < |r| :: FirstWithItsId(s, id, r[i]) by {
      forall i | 0 <= i < |r| ensures FirstWithItsId(s, id, r[i]) {
        SortKeepsFirstWithId(t, s, id, r[i]);
      }
    }
    r
  }
}
