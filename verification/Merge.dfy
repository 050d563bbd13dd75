/** The deep merge of two JSON values, and what is read in the result (aj-package/config.rs). */
module Merge {
  import opened Text

  datatype Number = PosInt(n: nat) | NegInt(i: int) | Float(x: real)

  datatype Json =
    | Null
    | Bool(b: bool)
    | Num(n: Number)
    | Str(s: string)
    | Array(items: seq<Json>)
    | Object(members: map<string, Json>)

  /** The unsigned `group` member of an object, if it has one. */
  function GroupOf(v: Json): Option<nat> {
    if v.Object? && "group" in v.members && v.members["group"].Num? && v.members["group"].n.PosInt?
    then Some(v.members["group"].n.n)
    else None
  }

  /** Every element carries a group and no two carry the same. */
  predicate Keyed(items: seq<Json>) {
    && (forall i | 0 <= i < |items| :: GroupOf(items[i]).Some?)
    && (forall i, j | 0 <= i < j < |items| :: GroupOf(items[i]) != GroupOf(items[j]))
  }

  /** The first element of group `g`. */
  function Find(items: seq<Json>, g: Option<nat>): (found: Option<nat>)
    ensures found.Some? ==> found.value < |items| && GroupOf(items[found.value]) == g
    ensures found.Some? ==> forall i | 0 <= i < found.value :: GroupOf(items[i]) != g
    ensures found == None ==> forall i | 0 <= i < |items| :: GroupOf(items[i]) != g
  {
    if items == [] then None
    else if GroupOf(items[0]) == g then Some(0)
    else match Find(items[1..], g)
      case None => None
      case Some(k) =>
        assert forall i | 1 <= i < |items| :: items[i] == items[1..][i - 1];
        Some(k + 1)
  }

  /** The elements of `above` whose group `below` does not have, in order. */
  function Added(below: seq<Json>, above: seq<Json>): (more: seq<Json>)
    ensures forall v :: v in more <==> v in above && Find(below, GroupOf(v)) == None
  {
    if above == [] then []
    else
      var front, last := above[..|above| - 1], above[|above| - 1];
      assert above == front + [last];
      if Find(below, GroupOf(last)) == None then Added(below, front) + [last] else Added(below, front)
  }

  predicate Mergeable(base: Json, over: Json) {
    || (base.Object? && over.Object?)
    || (base.Array? && over.Array? && Keyed(base.items) && Keyed(over.items))
  }

  /** Objects member by member, keyed arrays group by group, anything else replaced. */
  function Merge(base: Json, over: Json): Json
    decreases over
  {
    if !Mergeable(base, over) then over
    else if base.Object? then
      var below, above := base.members, over.members;
      Object(map k | k in below.Keys + above.Keys ::
               if k !in above then below[k]
               else if k in below then Merge(below[k], above[k])
               else above[k])
    else
      var below, above := base.items, over.items;
      Array(seq(|below|, i requires 0 <= i < |below| =>
                  match Find(above, GroupOf(below[i]))
                  case None => below[i]
                  case Some(j) => Merge(below[i], above[j]))
            + Added(below, above))
  }

  // ---- the loops

  /** The same test as the source makes it, with a set of the groups seen. */
  method KeyedByGroup(items: seq<Json>) returns (keyed: bool)
    ensures keyed == Keyed(items)
  {
    var seen: set<nat> := {};
    var i := 0;
    while i < |items|
      invariant 0 <= i <= |items|
      invariant forall j | 0 <= j < i :: GroupOf(items[j]).Some? && GroupOf(items[j]).value in seen
      invariant forall g | g in seen :: exists j :: 0 <= j < i && GroupOf(items[j]) == Some(g)
      invariant forall j, k | 0 <= j < k < i :: GroupOf(items[j]) != GroupOf(items[k])
    {
      var g := GroupOf(items[i]);
      if g == None || g.value in seen {
        return false;
      }
      seen := seen + {g.value};
      i := i + 1;
    }
    return true;
  }

  /** The members of `below` with those of `done` already laid over them. */
  ghost function Partly(
      below: map<string, Json>, above: map<string, Json>, done: set<string>): map<string, Json>
    requires done <= above.Keys
  {
    map k | k in below.Keys + done ::
      if k !in done then below[k] else if k in below then Merge(below[k], above[k]) else above[k]
  }

  lemma PartlyNext(below: map<string, Json>, above: map<string, Json>, done: set<string>, name: string)
    requires done <= above.Keys && name in above && name !in done
    ensures var was := Partly(below, above, done);
            && (name in was <==> name in below)
            && (name in below ==> was[name] == below[name])
            && Partly(below, above, done + {name}) ==
                 was[name := if name in below then Merge(below[name], above[name]) else above[name]]
  {}

  /** The elements of `below` with the first `n` of `above` already laid over them. */
  ghost function PartlyItems(below: seq<Json>, above: seq<Json>, n: nat): seq<Json>
    requires n <= |above|
  {
    seq(|below|, i requires 0 <= i < |below| =>
          match Find(above[..n], GroupOf(below[i]))
          case None => below[i]
          case Some(j) => Merge(below[i], above[j]))
    + Added(below, above[..n])
  }

  method MergeValues(base: Json, over: Json) returns (merged: Json)
    ensures merged == Merge(base, over)
    decreases over, 1
  {
    if base.Object? && over.Object? {
      var out := MergeMembers(base.members, over.members);
      return Object(out);
    }
    if base.Array? && over.Array? {
      var keyedBelow := KeyedByGroup(base.items);
      var keyedAbove := KeyedByGroup(over.items);
      if keyedBelow && keyedAbove {
        var out := MergeItems(base.items, over.items);
        assert over.items[..|over.items|] == over.items;
        return Array(out);
      }
    }
    return over;
  }

  method MergeMembers(below: map<string, Json>, above: map<string, Json>) returns (out: map<string, Json>)
    ensures Object(out) == Merge(Object(below), Object(above))
    decreases Object(above), 0
  {
    out := below;
    var names := above.Keys;
    assert Partly(below, above, {}) == below;
    while names != {}
      invariant names <= above.Keys
      invariant out == Partly(below, above, above.Keys - names)
    {
      var name :| name in names;
      ghost var done := above.Keys - names;
      PartlyNext(below, above, done, name);
      var combined := above[name];
      if name in below {
        combined := MergeValues(below[name], above[name]);
      }
      out := out[name := combined];
      names := names - {name};
      assert above.Keys - names == done + {name};
    }
    assert above.Keys - names == above.Keys;
  }

  method MergeItems(below: seq<Json>, above: seq<Json>) returns (out: seq<Json>)
    requires Keyed(below) && Keyed(above)
    ensures out == PartlyItems(below, above, |above|)
    decreases Array(above), 0
  {
    out := below;
    var n := 0;
    while n < |above|
      invariant 0 <= n <= |above|
      invariant out == PartlyItems(below, above, n)
    {
      var element := above[n];
      PartlyStep(below, above, n);
      ghost var next := PartlyItems(below, above, n + 1);
      var existing := Find(out, GroupOf(element));
      if existing.Some? {
        var merged := MergeValues(out[existing.value], element);
        out := out[existing.value := merged];
      } else {
        out := out + [element];
      }
      assert out == next;
      n := n + 1;
    }
  }

  lemma GroupOfMerged(base: Json, over: Json)
    requires GroupOf(base).Some? && GroupOf(base) == GroupOf(over)
    ensures GroupOf(Merge(base, over)) == GroupOf(base)
  {}

  lemma FindInFront(items: seq<Json>, n: nat, g: Option<nat>)
    requires n < |items| && Keyed(items)
    ensures Find(items[..n + 1], g) ==
              if GroupOf(items[n]) == g then Some(n) else Find(items[..n], g)
  {
    var before, after := Find(items[..n], g), Find(items[..n + 1], g);
    if after.Some? {
      assert after.value < n ==> GroupOf(items[..n][after.value]) == g;
    }
    if before.Some? {
      assert GroupOf(items[..n + 1][before.value]) == g;
    }
    assert items[..n + 1][n] == items[n];
  }

  /** The elements of `below` under the first `n` of `above`. */
  lemma PartlyAt(below: seq<Json>, above: seq<Json>, n: nat, i: nat)
    requires Keyed(below) && Keyed(above) && n < |above| && i < |below|
    ensures var out, next, g := PartlyItems(below, above, n), PartlyItems(below, above, n + 1), GroupOf(above[n]);
            && GroupOf(out[i]) == GroupOf(below[i])
            && next[i] == if GroupOf(below[i]) == g then Merge(out[i], above[n]) else out[i]
  {
    FindInFront(above, n, GroupOf(below[i]));
    var j := Find(above[..n], GroupOf(below[i]));
    if j.Some? {
      assert above[..n][j.value] == above[j.value];
      GroupOfMerged(below[i], above[j.value]);
    }
  }

  /** One more element of `above` meets at most one element, untouched until then. */
  lemma PartlyStep(below: seq<Json>, above: seq<Json>, n: nat)
    requires Keyed(below) && Keyed(above) && n < |above|
    ensures var out, next := PartlyItems(below, above, n), PartlyItems(below, above, n + 1);
            match Find(out, GroupOf(above[n]))
            case None => next == out + [above[n]]
            case Some(p) => next == out[p := Merge(out[p], above[n])]
  {
    var out, next, g := PartlyItems(below, above, n), PartlyItems(below, above, n + 1), GroupOf(above[n]);
    AddedStep(below, above, n);
    forall i | 0 <= i < |below|
      ensures GroupOf(out[i]) == GroupOf(below[i])
      ensures next[i] == if GroupOf(below[i]) == g then Merge(out[i], above[n]) else out[i]
    {
      PartlyAt(below, above, n, i);
    }
    StepShape(below, out, next, Added(below, above[..n]), above[n]);
  }

  lemma StepShape(below: seq<Json>, out: seq<Json>, next: seq<Json>, added: seq<Json>, element: Json)
    requires Keyed(below) && |below| <= |out| && |below| <= |next| && out[|below|..] == added
    requires forall i | 0 <= i < |below| :: GroupOf(out[i]) == GroupOf(below[i])
    requires forall i | 0 <= i < |below| ::
               next[i] == if GroupOf(below[i]) == GroupOf(element) then Merge(out[i], element) else out[i]
    requires forall v | v in added :: GroupOf(v) != GroupOf(element)
    requires next[|below|..] == if Find(below, GroupOf(element)) == None then added + [element] else added
    ensures match Find(out, GroupOf(element))
            case None => next == out + [element]
            case Some(p) => next == out[p := Merge(out[p], element)]
  {
    var g, p := GroupOf(element), Find(below, GroupOf(element));
    forall i | |below| <= i < |out| ensures GroupOf(out[i]) != g {
      assert out[i] == added[i - |below|];
    }
    SameFind(below, out, g);
    if p == None {
      Extended(|below|, out, next, element);
    } else {
      OnlyOne(below, p.value);
      Updated(|below|, out, next, p.value, Merge(out[p.value], element));
    }
  }

  lemma OnlyOne(items: seq<Json>, p: nat)
    requires Keyed(items) && p < |items|
    ensures forall i | 0 <= i < |items| :: GroupOf(items[i]) == GroupOf(items[p]) <==> i == p
  {}

  lemma Extended<T>(n: nat, out: seq<T>, next: seq<T>, last: T)
    requires n <= |out| && n <= |next| && next[n..] == out[n..] + [last]
    requires forall i | 0 <= i < n :: next[i] == out[i]
    ensures next == out + [last]
  {
    assert next[..n] == out[..n];
    assert next == next[..n] + next[n..] && out == out[..n] + out[n..];
  }

  lemma Updated<T>(n: nat, out: seq<T>, next: seq<T>, p: nat, v: T)
    requires p < n <= |out| && n <= |next| && next[n..] == out[n..]
    requires forall i | 0 <= i < n :: next[i] == if i == p then v else out[i]
    ensures next == out[p := v]
  {
    assert next[..n] == out[..n][p := v];
    assert next == next[..n] + next[n..] && out == out[..n] + out[n..];
  }

  lemma AddedStep(below: seq<Json>, above: seq<Json>, n: nat)
    requires n < |above| && Keyed(above)
    ensures Added(below, above[..n + 1]) ==
              if Find(below, GroupOf(above[n])) == None then Added(below, above[..n]) + [above[n]]
              else Added(below, above[..n])
    ensures forall v | v in Added(below, above[..n]) :: GroupOf(v) != GroupOf(above[n])
  {
    assert above[..n + 1][..n] == above[..n];
    forall v | v in Added(below, above[..n]) ensures GroupOf(v) != GroupOf(above[n]) {
      assert v in above[..n];
      var k :| 0 <= k < n && above[k] == v;
    }
  }

  /** `Find` sees the groups of the front of `out`, and nothing behind it of group `g`. */
  lemma SameFind(below: seq<Json>, out: seq<Json>, g: Option<nat>)
    requires |below| <= |out|
    requires forall i | 0 <= i < |below| :: GroupOf(out[i]) == GroupOf(below[i])
    requires forall i | |below| <= i < |out| :: GroupOf(out[i]) != g
    ensures Find(out, g) == Find(below, g)
  {
    var p := Find(below, g);
    if p.Some? {
      FoundAt(out, g, p.value);
    } else {
      NotFound(out, g);
    }
  }

  lemma FoundAt(items: seq<Json>, g: Option<nat>, p: nat)
    requires p < |items| && GroupOf(items[p]) == g && forall i | 0 <= i < p :: GroupOf(items[i]) != g
    ensures Find(items, g) == Some(p)
  {
    var q := Find(items, g);
    assert q.Some? && !(q.value < p);
  }

  lemma NotFound(items: seq<Json>, g: Option<nat>)
    requires forall i | 0 <= i < |items| :: GroupOf(items[i]) != g
    ensures Find(items, g) == None
  {
    var q := Find(items, g);
    assert !q.Some?;
  }

  // ---- laws

  lemma FindInKeyed(items: seq<Json>, i: nat)
    requires Keyed(items) && i < |items|
    ensures Find(items, GroupOf(items[i])) == Some(i)
  {
    FoundAt(items, GroupOf(items[i]), i);
  }

  lemma {:induction false} NothingAdded(below: seq<Json>, above: seq<Json>)
    requires forall v | v in above :: Find(below, GroupOf(v)).Some?
    ensures Added(below, above) == []
  {
    if above != [] {
      NothingAdded(below, above[..|above| - 1]);
    }
  }

  /** Laying a value over itself changes nothing. */
  lemma {:induction false} MergeSelf(v: Json)
    ensures Merge(v, v) == v
    decreases v
  {
    if v.Object? {
      forall k | k in v.members ensures Merge(v.members[k], v.members[k]) == v.members[k] {
        MergeSelf(v.members[k]);
      }
      assert Merge(v, v).members == v.members;
    } else if v.Array? && Keyed(v.items) {
      forall i | 0 <= i < |v.items|
        ensures Find(v.items, GroupOf(v.items[i])) == Some(i)
        ensures Merge(v.items[i], v.items[i]) == v.items[i]
      {
        FindInKeyed(v.items, i);
        MergeSelf(v.items[i]);
      }
      NothingAdded(v.items, v.items);
      assert Merge(v, v).items == v.items;
    }
  }

  lemma MergedFront(below: seq<Json>, above: seq<Json>)
    requires Keyed(below) && Keyed(above)
    ensures Merge(Array(below), Array(above)).Array?
    ensures var out := Merge(Array(below), Array(above)).items;
            && out[|below|..] == Added(below, above)
            && (forall i | 0 <= i < |below| :: GroupOf(out[i]) == GroupOf(below[i]))
  {
    var out := Merge(Array(below), Array(above)).items;
    forall i | 0 <= i < |below| ensures GroupOf(out[i]) == GroupOf(below[i]) {
      var j := Find(above, GroupOf(below[i]));
      if j.Some? {
        GroupOfMerged(below[i], above[j.value]);
      }
    }
  }

  /** What the merged array holds for each group. */
  lemma MergedItems(below: seq<Json>, above: seq<Json>)
    requires Keyed(below) && Keyed(above)
    ensures Merge(Array(below), Array(above)).Array?
    ensures var out := Merge(Array(below), Array(above)).items;
            && Keyed(out)
            && |out| >= |below|
            && (forall i | 0 <= i < |below| :: GroupOf(out[i]) == GroupOf(below[i]))
            && (forall i | |below| <= i < |out| :: out[i] in above && Find(below, GroupOf(out[i])) == None)
            && (forall v | v in above :: Find(out, GroupOf(v)).Some?)
  {
    MergedFront(below, above);
    AddedDistinct(below, above);
    var out := Merge(Array(below), Array(above)).items;
    var added := Added(below, above);
    FrontAndAdded(below, above, out, added);
  }

  lemma FrontAndAdded(below: seq<Json>, above: seq<Json>, out: seq<Json>, added: seq<Json>)
    requires Keyed(below) && Keyed(above) && |below| <= |out| && out[|below|..] == added
    requires forall i | 0 <= i < |below| :: GroupOf(out[i]) == GroupOf(below[i])
    requires forall v :: v in added <==> v in above && Find(below, GroupOf(v)) == None
    requires forall i, j | 0 <= i < j < |added| :: GroupOf(added[i]) != GroupOf(added[j])
    ensures Keyed(out)
    ensures forall i | |below| <= i < |out| :: out[i] in above && Find(below, GroupOf(out[i])) == None
    ensures forall v | v in above :: Find(out, GroupOf(v)).Some?
  {
    forall i | |below| <= i < |out|
      ensures out[i] in above && Find(below, GroupOf(out[i])) == None && GroupOf(out[i]).Some?
    {
      assert out[i] == added[i - |below|];
    }
    forall i, j | 0 <= i < j < |out| ensures GroupOf(out[i]) != GroupOf(out[j]) {
      if i >= |below| {
        assert out[i] == added[i - |below|] && out[j] == added[j - |below|];
      }
    }
    forall v | v in above ensures Find(out, GroupOf(v)).Some? {
      var p := Find(below, GroupOf(v));
      if p.Some? {
        assert GroupOf(out[p.value]) == GroupOf(v);
      } else {
        var k :| 0 <= k < |added| && added[k] == v;
        assert out[|below| + k] == v;
      }
    }
  }

  lemma {:induction false} AddedDistinct(below: seq<Json>, above: seq<Json>)
    requires Keyed(above)
    ensures forall i, j | 0 <= i < j < |Added(below, above)| ::
              GroupOf(Added(below, above)[i]) != GroupOf(Added(below, above)[j])
  {
    if above != [] {
      var front, last := above[..|above| - 1], above[|above| - 1];
      AddedDistinct(below, front);
      forall v | v in Added(below, front) ensures GroupOf(v) != GroupOf(last) {
        assert v in front;
      }
    }
  }

  /** **Keyed arrays stay keyed and lose no group**, on either side. */
  lemma NoGroupIsLost(below: seq<Json>, above: seq<Json>, g: nat)
    requires Keyed(below) && Keyed(above)
    ensures Merge(Array(below), Array(above)).Array? && Keyed(Merge(Array(below), Array(above)).items)
    ensures Find(Merge(Array(below), Array(above)).items, Some(g)).Some?
       <==> Find(below, Some(g)).Some? || Find(above, Some(g)).Some?
  {
    MergedItems(below, above);
    GroupsOfBoth(below, above, Merge(Array(below), Array(above)).items, g);
  }

  lemma GroupsOfBoth(below: seq<Json>, above: seq<Json>, out: seq<Json>, g: nat)
    requires |below| <= |out| && forall i | 0 <= i < |below| :: GroupOf(out[i]) == GroupOf(below[i])
    requires forall i | |below| <= i < |out| :: out[i] in above
    requires forall v | v in above :: Find(out, GroupOf(v)).Some?
    ensures Find(out, Some(g)).Some? <==> Find(below, Some(g)).Some? || Find(above, Some(g)).Some?
  {
    var p, a := Find(below, Some(g)), Find(above, Some(g));
    if p.Some? {
      assert GroupOf(out[p.value]) == Some(g);
    }
    if a.Some? {
      assert above[a.value] in above;
    }
    var q := Find(out, Some(g));
    if q.Some? && q.value >= |below| {
      var k :| 0 <= k < |above| && above[k] == out[q.value];
      assert GroupOf(above[k]) == Some(g);
    } else if q.Some? {
      assert GroupOf(below[q.value]) == Some(g);
    }
  }

  /** **Laying the same overlay twice is laying it once.** */
  lemma {:induction false} MergeTwice(base: Json, over: Json)
    ensures Merge(Merge(base, over), over) == Merge(base, over)
    decreases over
  {
    if !Mergeable(base, over) {
      MergeSelf(over);
    } else if base.Object? {
      var below, above, once := base.members, over.members, Merge(base, over).members;
      forall k | k in above ensures Merge(once[k], above[k]) == once[k] {
        if k in below {
          MergeTwice(below[k], above[k]);
        } else {
          MergeSelf(above[k]);
        }
      }
      assert Merge(Merge(base, over), over).members == once;
    } else {
      TwiceItems(base.items, over.items);
    }
  }

  lemma {:induction false} TwiceItems(below: seq<Json>, above: seq<Json>)
    requires Keyed(below) && Keyed(above)
    ensures Merge(Merge(Array(below), Array(above)), Array(above)) == Merge(Array(below), Array(above))
    decreases Array(above), 0
  {
    MergedItems(below, above);
    var out := Merge(Array(below), Array(above)).items;
    forall i | 0 <= i < |out|
      ensures var j := Find(above, GroupOf(out[i])); j.Some? ==> Merge(out[i], above[j.value]) == out[i]
    {
      var j := Find(above, GroupOf(out[i]));
      if i < |below| {
        if j.Some? {
          MergeTwice(below[i], above[j.value]);
        }
      } else {
        var k :| 0 <= k < |above| && above[k] == out[i];
        FindInKeyed(above, k);
        MergeSelf(out[i]);
      }
    }
    NothingAdded(out, above);
    assert Merge(Array(out), Array(above)).items == out;
  }

  /** An array that already has an overlay on it has every group of it, each already overlaid. */
  lemma HasItems(below: seq<Json>, above: seq<Json>)
    requires Keyed(below) && Keyed(above) && Merge(Array(below), Array(above)) == Array(below)
    ensures forall v | v in above :: Find(below, GroupOf(v)).Some?
    ensures forall i | 0 <= i < |below| && Find(above, GroupOf(below[i])).Some? ::
              Merge(below[i], above[Find(above, GroupOf(below[i])).value]) == below[i]
  {
    MergedItems(below, above);
    forall i | 0 <= i < |below| && Find(above, GroupOf(below[i])).Some?
      ensures Merge(below[i], above[Find(above, GroupOf(below[i])).value]) == below[i]
    {
      MergedAt(below, above, i);
    }
  }

  lemma MergedAt(below: seq<Json>, above: seq<Json>, i: nat)
    requires Keyed(below) && Keyed(above) && i < |below| && Find(above, GroupOf(below[i])).Some?
    ensures Merge(Array(below), Array(above)).Array? && i < |Merge(Array(below), Array(above)).items|
    ensures Merge(Array(below), Array(above)).items[i] == Merge(below[i], above[Find(above, GroupOf(below[i])).value])
  {}

  lemma HasMember(below: map<string, Json>, above: map<string, Json>, k: string)
    requires Merge(Object(below), Object(above)) == Object(below) && k in above
    ensures k in below && Merge(below[k], above[k]) == below[k]
  {
    var out := Merge(Object(below), Object(above)).members;
    assert k in out && out == below;
  }

  /** **What has a document on it has all that the document has on it.** */
  lemma {:induction false} MergeTransitive(v: Json, doc: Json, over: Json)
    requires Merge(v, doc) == v && Merge(doc, over) == doc
    ensures Merge(v, over) == v
    decreases over
  {
    if Mergeable(doc, over) && Mergeable(v, doc) {
      if doc.Object? {
        var x, m, o := v.members, doc.members, over.members;
        forall k | k in o ensures k in x && Merge(x[k], o[k]) == x[k] {
          HasMember(m, o, k);
          HasMember(x, m, k);
          MergeTransitive(x[k], m[k], o[k]);
        }
        assert Merge(v, over).members == x;
      } else {
        TransitiveItems(v.items, doc.items, over.items);
      }
    }
  }

  lemma {:induction false} TransitiveItems(x: seq<Json>, m: seq<Json>, o: seq<Json>)
    requires Keyed(x) && Keyed(m) && Keyed(o)
    requires Merge(Array(x), Array(m)) == Array(x) && Merge(Array(m), Array(o)) == Array(m)
    ensures Merge(Array(x), Array(o)) == Array(x)
    decreases Array(o), 0
  {
    HasItems(x, m);
    HasItems(m, o);
    forall i | 0 <= i < |x|
      ensures var j := Find(o, GroupOf(x[i])); j.Some? ==> Merge(x[i], o[j.value]) == x[i]
    {
      var j := Find(o, GroupOf(x[i]));
      if j.Some? {
        assert o[j.value] in o;
        var p := Find(m, GroupOf(x[i])).value;
        MergeTransitive(x[i], m[p], o[j.value]);
      }
    }
    forall v | v in o ensures Find(x, GroupOf(v)).Some? {
      assert m[Find(m, GroupOf(v)).value] in m;
    }
    NothingAdded(x, o);
    assert Merge(Array(x), Array(o)).items == x;
  }

  // ---- which values merge, and how

  /** **Which number keys an element**: an unsigned `group` member, and nothing else. */
  lemma GroupIs(v: Json, n: nat)
    ensures GroupOf(v) == Some(n) <==> v.Object? && "group" in v.members && v.members["group"] == Num(PosInt(n))
  {}

  /** **Objects merge member by member**, and keep the members of both. */
  lemma ObjectsMerge(below: map<string, Json>, above: map<string, Json>, k: string)
    ensures var v := Merge(Object(below), Object(above));
            && v.Object? && (k in v.members <==> k in below || k in above)
            && (k in below && k in above ==> v.members[k] == Merge(below[k], above[k]))
            && (k in below && k !in above ==> v.members[k] == below[k])
            && (k !in below && k in above ==> v.members[k] == above[k])
  {}

  /** **Arrays merge only where every element has a group and no two have the same**; any
      other array, and any other value, is replaced. */
  lemma OthersReplace(base: Json, over: Json)
    requires !(base.Object? && over.Object?)
    ensures Merge(base, over) == over
            || (base.Array? && over.Array?
                && forall items, i, j | (items == base.items || items == over.items) && 0 <= i < j < |items| ::
                     GroupOf(items[i]).Some? && GroupOf(items[j]).Some? && GroupOf(items[i]) != GroupOf(items[j]))
  {}

  function Entry(n: nat, name: string, v: Json): Json {
    Object(map["group" := Num(PosInt(n)), name := v])
  }

  /** So an overlay narrows one group and leaves its neighbour; and a group that is there
      twice is no key. */
  lemma OneGroupIsNarrowed(a: nat, b: nat, name: string, x: Json, y: Json, z: Json)
    requires name != "group"
    ensures Merge(Array([Entry(a, name, x), Entry(b, name, y)]), Array([Entry(b, name, z)])) ==
              if a != b then Array([Entry(a, name, x), Entry(b, name, Merge(y, z))])
              else Array([Entry(b, name, z)])
  {
    var first, second, over := Entry(a, name, x), Entry(b, name, y), Entry(b, name, z);
    var below, above := [first, second], [over];
    assert GroupOf(first) == Some(a) && GroupOf(second) == Some(b) && GroupOf(over) == Some(b);
    assert GroupOf(below[0]) == Some(a) && GroupOf(below[1]) == Some(b);
    if a != b {
      assert Keyed(below) && Keyed(above);
      NotFound(above, Some(a));
      FoundAt(above, Some(b), 0);
      FoundAt(below, Some(b), 1);
      NothingAdded(below, above);
      EntriesMerge(b, name, y, z);
      assert Merge(Array(below), Array(above)).items == [first, Entry(b, name, Merge(y, z))];
    } else {
      assert !Keyed(below);
    }
  }

  lemma EntriesMerge(n: nat, name: string, y: Json, z: Json)
    requires name != "group"
    ensures Merge(Entry(n, name, y), Entry(n, name, z)) == Entry(n, name, Merge(y, z))
  {
    assert Merge(Num(PosInt(n)), Num(PosInt(n))) == Num(PosInt(n));
    assert Merge(Entry(n, name, y), Entry(n, name, z)).members == Entry(n, name, Merge(y, z)).members;
  }

  // ---- what is read where

  datatype Step = Member(name: string) | InGroup(g: nat)

  /** One step down: a member of an object, or a group of a keyed array. */
  function Child(v: Json, step: Step): Option<Json> {
    match step
    case Member(name) => if v.Object? && name in v.members then Some(v.members[name]) else None
    case InGroup(g) =>
      if v.Array? && Keyed(v.items) && Find(v.items, Some(g)).Some?
      then Some(v.items[Find(v.items, Some(g)).value])
      else None
  }

  function Read(v: Json, path: seq<Step>): Option<Json>
    decreases |path|
  {
    if path == [] then Some(v)
    else match Child(v, path[0])
      case None => None
      case Some(w) => Read(w, path[1..])
  }

  /** Somewhere along `path` the overlay's value stands in place of the base's. */
  predicate Replaced(base: Json, over: Json, path: seq<Step>)
    decreases |path|
  {
    if !Mergeable(base, over) then true
    else if path == [] then false
    else match (Child(base, path[0]), Child(over, path[0]))
      case (Some(b), Some(o)) => Replaced(b, o, path[1..])
      case _ => false
  }

  lemma ChildOfMerged(base: Json, over: Json, step: Step)
    requires Mergeable(base, over)
    ensures Child(Merge(base, over), step) ==
              match (Child(base, step), Child(over, step))
              case (Some(b), Some(o)) => Some(Merge(b, o))
              case (None, o) => o
              case (b, None) => b
  {
    if base.Array? {
      var below, above := base.items, over.items;
      MergedItems(below, above);
      match step
      case Member(_) =>
      case InGroup(g) =>
        var out := Merge(base, over).items;
        var p, a, q := Find(below, Some(g)), Find(above, Some(g)), Find(out, Some(g));
        NoGroupIsLost(below, above, g);
        if p.Some? {
          FindInKeyed(out, p.value);
          assert q == p;
        } else if a.Some? {
          assert q.value >= |below|;
          var k :| 0 <= k < |above| && above[k] == out[q.value];
          FindInKeyed(above, k);
        }
    }
  }

  /** **Every path of the merged document**, in terms of the two documents it came
      from: both name it and it is merged, only the overlay does and it reads as the
      overlay, or the overlay does not and it reads as the base unless the overlay
      replaced something on the way. */
  lemma {:induction false} ReadMerged(base: Json, over: Json, path: seq<Step>)
    ensures Read(Merge(base, over), path) ==
              match (Read(base, path), Read(over, path))
              case (Some(b), Some(o)) => Some(Merge(b, o))
              case (None, Some(o)) => Some(o)
              case (b, None) => if Replaced(base, over, path) then None else b
    decreases |path|
  {
    if path == [] {
    } else if Mergeable(base, over) {
      ChildOfMerged(base, over, path[0]);
      match (Child(base, path[0]), Child(over, path[0]))
      case (Some(b), Some(o)) => ReadMerged(b, o, path[1..]);
      case _ =>
    }
  }

  predicate Leaf(v: Json) {
    !v.Object? && !(v.Array? && Keyed(v.items))
  }

  /** A leaf the overlay states is what is read there, whatever the base held. */
  lemma LeafOfOverlayWins(base: Json, over: Json, path: seq<Step>, leaf: Json)
    requires Read(over, path) == Some(leaf) && Leaf(leaf)
    ensures Read(Merge(base, over), path) == Some(leaf)
  {
    ReadMerged(base, over, path);
  }

  /** Nothing an overlay does not name, under something it does not replace, can change. */
  lemma UnnamedPathIsKept(base: Json, over: Json, path: seq<Step>)
    requires Read(over, path) == None && !Replaced(base, over, path)
    ensures Read(Merge(base, over), path) == Read(base, path)
  {
    ReadMerged(base, over, path);
  }

  // ---- the overlay of a whole document

  const IDENTITY := {"type", "format", "version"}

  predicate SaysNothing(overlay: Option<Json>) {
    overlay == None || !overlay.value.Object? || overlay.value.members == map[]
  }

  /** A document with an overlay on it, less the members that say what a document is. */
  function Laid(doc: map<string, Json>, overlay: Option<Json>): map<string, Json> {
    if SaysNothing(overlay) then doc
    else Merge(Object(doc), Object(overlay.value.members - IDENTITY)).members
  }

  /** An overlay never touches what a document is. */
  lemma IdentityIsKept(doc: map<string, Json>, overlay: Option<Json>, name: string)
    requires name in IDENTITY
    ensures name in Laid(doc, overlay) <==> name in doc
    ensures name in doc ==> Laid(doc, overlay)[name] == doc[name]
  {}

  /** Laying an overlay on a document that already has it on changes nothing. */
  lemma LaidTwice(doc: map<string, Json>, overlay: Option<Json>)
    ensures Laid(Laid(doc, overlay), overlay) == Laid(doc, overlay)
  {
    if !SaysNothing(overlay) {
      MergeTwice(Object(doc), Object(overlay.value.members - IDENTITY));
    }
  }

  /** Nor does laying a document on itself. */
  lemma LaidOnItself(doc: map<string, Json>)
    ensures Laid(doc, Some(Object(doc))) == doc
  {
    forall k | k in doc ensures Merge(doc[k], doc[k]) == doc[k] {
      MergeSelf(doc[k]);
    }
    assert Laid(doc, Some(Object(doc))) == doc;
  }

  method LayOver(doc: map<string, Json>, overlay: Option<Json>) returns (merged: map<string, Json>)
    ensures merged == Laid(doc, overlay)
  {
    if overlay == None || !overlay.value.Object? || overlay.value.members == map[] {
      return doc;
    }
    var above := overlay.value.members;
    ghost var kept := above - IDENTITY;
    merged := doc;
    var names := above.Keys;
    assert Partly(doc, kept, {}) == doc;
    while names != {}
      invariant names <= above.Keys
      invariant merged == Partly(doc, kept, kept.Keys - names)
    {
      var name :| name in names;
      ghost var done := kept.Keys - names;
      names := names - {name};
      if name == "type" || name == "format" || name == "version" {
        assert kept.Keys - names == done;
        continue;
      }
      assert name in kept && kept[name] == above[name];
      var combined := above[name];
      if name in merged {
        combined := MergeValues(merged[name], above[name]);
      }
      merged := merged[name := combined];
      PartlyNext(doc, kept, done, name);
      assert kept.Keys - names == done + {name};
    }
    assert kept.Keys - names == kept.Keys;
  }
}
