/** A stable sort: what `sort_by` and `sort_by_key` promise. */
module Sorting {

  ghost predicate Total<T(!new)>(le: (T, T) -> bool) {
    && (forall x, y :: le(x, y) || le(y, x))
    && (forall x, y, z :: le(x, y) && le(y, z) ==> le(x, z))
  }

  ghost predicate Ordered<T>(s: seq<T>, le: (T, T) -> bool) {
    forall i, j | 0 <= i < j < |s| :: le(s[i], s[j])
  }

  /** Elements equal under `le` stand in the order `tie` puts them in. */
  ghost predicate TiesIn<T>(s: seq<T>, le: (T, T) -> bool, tie: (T, T) -> bool) {
    forall i, j | 0 <= i < j < |s| && le(s[j], s[i]) && le(s[i], s[j]) :: tie(s[i], s[j])
  }

  function Insert<T>(x: T, s: seq<T>, le: (T, T) -> bool): (r: seq<T>)
    ensures multiset(r) == multiset(s) + multiset{x}
    ensures |r| == |s| + 1
  {
    if s == [] then [x]
    else if le(x, s[0]) then [x] + s
    else
      assert s == [s[0]] + s[1..];
      [s[0]] + Insert(x, s[1..], le)
  }

  function Sort<T>(s: seq<T>, le: (T, T) -> bool): (r: seq<T>)
    ensures multiset(r) == multiset(s)
    ensures |r| == |s|
  {
    if s == [] then []
    else
      assert s == [s[0]] + s[1..];
      Insert(s[0], Sort(s[1..], le), le)
  }

  lemma SameElements<T>(r: seq<T>, s: seq<T>)
    requires multiset(r) == multiset(s)
    ensures forall x :: x in r <==> x in s
  {
    forall x ensures x in r <==> x in s {
      assert x in multiset(r) <==> x in multiset(s);
    }
  }

  /** `x` may stand before every element of `s`. */
  ghost predicate Leads<T>(x: T, s: seq<T>, le: (T, T) -> bool, tie: (T, T) -> bool) {
    forall j | 0 <= j < |s| :: le(x, s[j]) && (le(s[j], x) ==> tie(x, s[j]))
  }

  lemma LeadsCons<T>(x: T, s: seq<T>, le: (T, T) -> bool, tie: (T, T) -> bool)
    requires Leads(x, s, le, tie) && Ordered(s, le) && TiesIn(s, le, tie)
    ensures Ordered([x] + s, le) && TiesIn([x] + s, le, tie)
  {}

  lemma {:induction false} InsertOrders<T(!new)>(x: T, s: seq<T>, le: (T, T) -> bool, tie: (T, T) -> bool)
    requires Total(le) && Ordered(s, le) && TiesIn(s, le, tie)
    requires forall j | 0 <= j < |s| :: le(x, s[j]) && le(s[j], x) ==> tie(x, s[j])
    ensures Ordered(Insert(x, s, le), le)
    ensures TiesIn(Insert(x, s, le), le, tie)
  {
    if s == [] {
    } else if le(x, s[0]) {
      assert Leads(x, s, le, tie);
      LeadsCons(x, s, le, tie);
    } else {
      var rest := Insert(x, s[1..], le);
      InsertOrders(x, s[1..], le, tie);
      InsertLeads(s[0], x, s[1..], le, tie);
      LeadsCons(s[0], rest, le, tie);
    }
  }

  lemma InsertLeads<T(!new)>(y: T, x: T, s: seq<T>, le: (T, T) -> bool, tie: (T, T) -> bool)
    requires Total(le) && !le(x, y) && Leads(y, s, le, tie)
    ensures Leads(y, Insert(x, s, le), le, tie)
  {
    var r := Insert(x, s, le);
    forall j | 0 <= j < |r| ensures le(y, r[j]) && (le(r[j], y) ==> tie(y, r[j])) {
      assert r[j] in multiset(r);
      if r[j] in multiset(s) {
        var k :| 0 <= k < |s| && s[k] == r[j];
      } else {
        assert r[j] == x;
      }
    }
  }

  /** Sorted, and **ties keep the order they came in**. */
  lemma {:induction false} SortOrders<T(!new)>(s: seq<T>, le: (T, T) -> bool, tie: (T, T) -> bool)
    requires Total(le) && TiesIn(s, le, tie)
    ensures Ordered(Sort(s, le), le)
    ensures TiesIn(Sort(s, le), le, tie)
  {
    if s != [] {
      SortOrders(s[1..], le, tie);
      SameElements(Sort(s[1..], le), s[1..]);
      var rest := Sort(s[1..], le);
      forall j | 0 <= j < |rest| && le(s[0], rest[j]) && le(rest[j], s[0]) ensures tie(s[0], rest[j]) {
        assert rest[j] in rest;
        var k :| 1 <= k < |s| && s[k] == rest[j];
      }
      InsertOrders(s[0], Sort(s[1..], le), le, tie);
    }
  }

  // ---- the order of text

  /** `str::cmp`: the first character that differs decides, and a prefix comes first. */
  predicate TextLe(a: string, b: string) {
    a == "" || (b != "" && (a[0] < b[0] || (a[0] == b[0] && TextLe(a[1..], b[1..]))))
  }

  /** **The order of text**: a prefix first, and else by the first character that differs. */
  lemma {:induction false} TextLeIs(a: string, b: string)
    ensures TextLe(a, b) <==> a <= b || exists k: nat :: DiffersFirst(a, b, k) && a[k] < b[k]
  {
    if a != "" && b != "" {
      if a[0] != b[0] {
        assert DiffersFirst(a, b, 0);
      } else {
        TextLeIs(a[1..], b[1..]);
        assert a == [a[0]] + a[1..] && b == [b[0]] + b[1..];
        if k: nat :| DiffersFirst(a[1..], b[1..], k) && a[1..][k] < b[1..][k] {
          assert a[..k + 1] == [a[0]] + a[1..][..k] && b[..k + 1] == [b[0]] + b[1..][..k];
          assert DiffersFirst(a, b, k + 1);
        }
        if k: nat :| DiffersFirst(a, b, k) && a[k] < b[k] {
          assert a[1..][..k - 1] == a[..k][1..] && b[1..][..k - 1] == b[..k][1..];
          assert DiffersFirst(a[1..], b[1..], k - 1);
        }
      }
    }
  }

  predicate DiffersFirst(a: string, b: string, k: nat) {
    k < |a| && k < |b| && a[..k] == b[..k] && a[k] != b[k]
  }

  lemma {:induction false} TextTotal(a: string, b: string)
    ensures TextLe(a, b) || TextLe(b, a)
    ensures TextLe(a, b) && TextLe(b, a) ==> a == b
  {
    if a != "" && b != "" && a[0] == b[0] {
      TextTotal(a[1..], b[1..]);
      assert a == [a[0]] + a[1..] && b == [b[0]] + b[1..];
    }
  }

  lemma {:induction false} TextTransitive(a: string, b: string, c: string)
    requires TextLe(a, b) && TextLe(b, c)
    ensures TextLe(a, c)
  {
    if a != "" && a[0] == b[0] && b[0] == c[0] {
      TextTransitive(a[1..], b[1..], c[1..]);
    }
  }

  lemma TextIsTotal()
    ensures Total(TextLe)
  {
    forall a, b ensures TextLe(a, b) || TextLe(b, a) {
      TextTotal(a, b);
    }
    forall a, b, c | TextLe(a, b) && TextLe(b, c) ensures TextLe(a, c) {
      TextTransitive(a, b, c);
    }
  }

  /** The elements of a set of names, in order. */
  method SortedNames(names: set<string>) returns (list: seq<string>)
    ensures forall x :: x in list <==> x in names
    ensures Ordered(list, TextLe)
    ensures forall i, j | 0 <= i < j < |list| :: list[i] != list[j]
  {
    var found: seq<string>, left := [], names;
    while left != {}
      invariant left <= names
      invariant forall x :: x in found <==> x in names && x !in left
      invariant forall i, j | 0 <= i < j < |found| :: found[i] != found[j]
    {
      var x :| x in left;
      found, left := found + [x], left - {x};
    }
    list := Sort(found, TextLe);
    TextIsTotal();
    SameElements(list, found);
    SortOrders(found, TextLe, (a, b) => true);
    SortKeepsDistinct(found, TextLe);
  }

  lemma {:induction false} SortKeepsDistinct<T>(s: seq<T>, le: (T, T) -> bool)
    requires forall i, j | 0 <= i < j < |s| :: s[i] != s[j]
    ensures forall i, j | 0 <= i < j < |s| :: Sort(s, le)[i] != Sort(s, le)[j]
  {
    Distinct(s);
    DistinctBack(Sort(s, le));
  }

  lemma {:induction false} Distinct<T>(s: seq<T>)
    requires forall i, j | 0 <= i < j < |s| :: s[i] != s[j]
    ensures forall x :: multiset(s)[x] <= 1
  {
    if s != [] {
      var n := |s| - 1;
      assert s == s[..n] + [s[n]];
      Distinct(s[..n]);
      assert s[n] !in s[..n];
      assert s[n] !in multiset(s[..n]);
    }
  }

  lemma {:induction false} DistinctBack<T>(s: seq<T>)
    requires forall x :: multiset(s)[x] <= 1
    ensures forall i, j | 0 <= i < j < |s| :: s[i] != s[j]
  {
    forall i, j | 0 <= i < j < |s| ensures s[i] != s[j] {
      assert s == s[..j] + [s[j]] + s[j + 1..];
      assert multiset(s)[s[j]] >= multiset(s[..j])[s[j]] + 1;
      assert s[..j][i] == s[i];
      assert s[i] in multiset(s[..j]);
    }
  }
}
