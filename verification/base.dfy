/** Generic building blocks shared by the blog model: an optional value, a
    deterministic enumeration of a finite set of ids, filtering, and a stable
    insertion sort of ids by a preorder on the records they denote. They stand
    in for the ordered queries the ORM runs on the database. */
module Base {

  datatype Option<T> = None | Some(value: T) {
    /** The carried value, or `default` when there is none. */
    function GetOr(default: T): T {
      if Some? then value else default
    }
  }

  /** No element occurs twice. */
  predicate NoDup<T(==)>(xs: seq<T>) {
    forall i, j :: 0 <= i < j < |xs| ==> xs[i] != xs[j]
  }

  /** `le` is a total preorder: any two records are comparable, and the
      comparison is transitive. Ties are allowed. */
  ghost predicate TotalPreorder<T(!new)>(le: (T, T) -> bool) {
    && (forall a, b :: le(a, b) || le(b, a))
    && (forall a, b, c :: le(a, b) && le(b, c) ==> le(a, c))
  }

  /** Every id denotes a record of `m`, and the records come in `le` order. */
  predicate SortedBy<V>(ks: seq<nat>, m: map<nat, V>, le: (V, V) -> bool) {
    && (forall i :: 0 <= i < |ks| ==> ks[i] in m)
    && (forall i, j :: 0 <= i < j < |ks| ==> le(m[ks[i]], m[ks[j]]))
  }

  /** Every non-empty set of naturals has a least element; returns it. */
  lemma {:induction false} LeastElement(ks: set<nat>) returns (least: nat)
    requires ks != {}
    ensures least in ks
    ensures forall j :: j in ks ==> least <= j
    decreases ks
  {
    var x :| x in ks;
    var rest := ks - {x};
    if rest == {} {
      least := x;
    } else {
      var m := LeastElement(rest);
      least := if x <= m then x else m;
    }
    forall j | j in ks ensures least <= j {
      assert j == x || j in rest;
    }
  }

  lemma LeastExists(ks: set<nat>)
    requires ks != {}
    ensures exists k :: k in ks && forall j :: j in ks ==> k <= j
  {
    var k := LeastElement(ks);
  }

  /** The smallest id of a non-empty set. */
  function Least(ks: set<nat>): (k: nat)
    requires ks != {}
    ensures k in ks
    ensures forall j :: j in ks ==> k <= j
  {
    LeastExists(ks);
    var k :| k in ks && forall j :: j in ks ==> k <= j;
    k
  }

  /** The ids of `ks` in strictly increasing order, each exactly once. */
  function Ascending(ks: set<nat>): (r: seq<nat>)
    ensures forall k :: k in r <==> k in ks
    ensures forall i, j :: 0 <= i < j < |r| ==> r[i] < r[j]
    decreases ks
  {
    if ks == {} then []
    else
      var k := Least(ks);
      [k] + Ascending(ks - {k})
  }

  /** The elements of `xs` that satisfy `keep`, in their original order. */
  function Filter<T(==,!new)>(xs: seq<T>, keep: T -> bool): (r: seq<T>)
    ensures forall x :: x in r <==> x in xs && keep(x)
    ensures NoDup(xs) ==> NoDup(r)
    ensures |r| <= |xs|
  {
    if xs == [] then []
    else
      var rest := Filter(xs[1..], keep);
      assert forall x :: x in xs[1..] ==> x in xs;
      if keep(xs[0]) then
        assert NoDup(xs) ==> xs[0] !in xs[1..];
        [xs[0]] + rest
      else rest
  }

  /** Inserts `k` into the sorted `ks` in front of the first record that `k`
      may precede. */
  function InsertBy<V(!new)>(k: nat, ks: seq<nat>, m: map<nat, V>, le: (V, V) -> bool): (r: seq<nat>)
    requires TotalPreorder(le)
    requires k in m
    requires SortedBy(ks, m, le)
    ensures forall x :: x in r <==> x == k || x in ks
    ensures |r| == |ks| + 1
    ensures SortedBy(r, m, le)
    ensures NoDup(ks) && k !in ks ==> NoDup(r)
  {
    if ks == [] then [k]
    else if le(m[k], m[ks[0]]) then [k] + ks
    else
      var rest := InsertBy(k, ks[1..], m, le);
      assert forall x :: x in ks[1..] ==> le(m[ks[0]], m[x]);
      assert NoDup(ks) && k !in ks ==> ks[0] !in rest && NoDup(ks[1..]);
      [ks[0]] + rest
  }

  /** A stable insertion sort of ids by the `le` order of their records. */
  function SortBy<V(!new)>(ks: seq<nat>, m: map<nat, V>, le: (V, V) -> bool): (r: seq<nat>)
    requires TotalPreorder(le)
    requires forall k :: k in ks ==> k in m
    ensures forall x :: x in r <==> x in ks
    ensures |r| == |ks|
    ensures SortedBy(r, m, le)
    ensures NoDup(ks) ==> NoDup(r)
  {
    if ks == [] then []
    else InsertBy(ks[0], SortBy(ks[1..], m, le), m, le)
  }

  /** The ids of the records of `m` that satisfy `keep`, in `le` order: the
      model of `Model.objects.filter(...)` under the model's `Meta.ordering`. */
  function Select<V(!new)>(m: map<nat, V>, keep: V -> bool, le: (V, V) -> bool): (r: seq<nat>)
    requires TotalPreorder(le)
    ensures forall k :: k in r <==> k in m && keep(m[k])
    ensures NoDup(r)
    ensures SortedBy(r, m, le)
  {
    var ids := Ascending(m.Keys);
    var hits := Filter(ids, k => k in m && keep(m[k]));
    SortBy(hits, m, le)
  }

  /** The smallest id whose record satisfies `keep`, if any. */
  function FindKey<V>(m: map<nat, V>, keep: V -> bool): (r: Option<nat>)
    ensures r.Some? ==> r.value in m && keep(m[r.value])
    ensures r.None? ==> forall k :: k in m ==> !keep(m[k])
  {
    var hits := Filter(Ascending(m.Keys), k => k in m && keep(m[k]));
    if hits == [] then None else Some(hits[0])
  }

  /** Lexicographic order on strings by code point. */
  predicate LexLe(a: string, b: string)
    decreases |a|
  {
    |a| == 0 || (|b| > 0 && (a[0] < b[0] || (a[0] == b[0] && LexLe(a[1..], b[1..]))))
  }

  lemma {:induction false} LexLeTotal(a: string, b: string)
    ensures LexLe(a, b) || LexLe(b, a)
    decreases |a|
  {
    if |a| > 0 && |b| > 0 && a[0] == b[0] {
      LexLeTotal(a[1..], b[1..]);
    }
  }

  lemma {:induction false} LexLeTransitive(a: string, b: string, c: string)
    requires LexLe(a, b) && LexLe(b, c)
    ensures LexLe(a, c)
    decreases |a|
  {
    if |a| > 0 && a[0] == b[0] && b[0] == c[0] {
      LexLeTransitive(a[1..], b[1..], c[1..]);
    }
  }

  lemma LexLeIsTotalPreorder()
    ensures TotalPreorder(LexLe)
  {
    forall a, b ensures LexLe(a, b) || LexLe(b, a) {
      LexLeTotal(a, b);
    }
    forall a, b, c | LexLe(a, b) && LexLe(b, c) ensures LexLe(a, c) {
      LexLeTransitive(a, b, c);
    }
  }
}
