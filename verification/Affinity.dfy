/** Cutting this Runner's processors between its lanes (aj-sandbox/affinity.rs). */
module Affinity {
  import opened Sequences
  import opened Text
  import opened Decimal

  const WIDEST := 4096

  function Range(first: nat, last: nat): (r: seq<nat>)
    requires first <= last
    ensures |r| == last - first + 1
    ensures forall i | 0 <= i < |r| :: r[i] == first + i
  {
    seq(last - first + 1, i requires 0 <= i <= last - first => first + i)
  }

  function Before(s: string, c: char): (n: nat)
    ensures n <= |s| && (n < |s| <==> c in s)
    ensures n < |s| ==> s[n] == c
  {
    if s == "" then 0 else if s[0] == c then 0 else 1 + Before(s[1..], c)
  }

  /** Processor numbers that a machine word holds. */
  predicate Fits(cpus: seq<nat>) {
    forall i | 0 <= i < |cpus| :: cpus[i] < U64
  }

  /** One comma-separated group: a processor, or a span of them. */
  function ParseGroup(group: string): (cpus: Option<seq<nat>>)
    ensures cpus.Some? ==> Fits(cpus.value)
  {
    if '-' !in group then
      match Parse(Trim(group), U64)
      case None => None
      case Some(n) => Some([n])
    else
      var at := Before(group, '-');
      match (Parse(Trim(group[..at]), U64), Parse(Trim(group[at + 1..]), U64))
      case (Some(first), Some(last)) =>
        if last < first || last - first > WIDEST then None else Some(Range(first, last))
      case _ => None
  }

  /** The processors of the groups from `i` on, in the order written; empty groups are skipped. */
  function ParseGroups(groups: seq<string>, i: nat): (cpus: Option<seq<nat>>)
    requires i <= |groups|
    ensures cpus.Some? ==> Fits(cpus.value)
    decreases |groups| - i
  {
    if i == |groups| then Some([])
    else if groups[i] == "" then ParseGroups(groups, i + 1)
    else match ParseGroup(groups[i])
      case None => None
      case Some(first) => After(first, ParseGroups(groups, i + 1))
  }

  function After(first: seq<nat>, rest: Option<seq<nat>>): Option<seq<nat>> {
    match rest case None => None case Some(cpus) => Some(first + cpus)
  }

  /** A list is readable when every group of it is and there is a processor in it. */
  function Named(list: string): (cpus: Option<seq<nat>>)
    ensures cpus.Some? ==> cpus.value != [] && Fits(cpus.value)
  {
    match ParseGroups(Split(Trim(list), ','), 0)
    case None => None
    case Some(found) => if found == [] then None else Some(found)
  }

  method ParseList(list: string) returns (named: Option<seq<nat>>)
    ensures named == Named(list)
  {
    var groups := Split(Trim(list), ',');
    var found: seq<nat> := [];
    AfterNothing(ParseGroups(groups, 0));
    for i := 0 to |groups|
      invariant ParseGroups(groups, 0) == After(found, ParseGroups(groups, i))
    {
      if groups[i] == "" {
        continue;
      }
      var more := ParseGroup(groups[i]);
      if more == None {
        return None;
      }
      AfterTwice(found, more.value, ParseGroups(groups, i + 1));
      found := found + more.value;
    }
    NothingAfter(found);
    return if found == [] then None else Some(found);
  }

  lemma AfterNothing(rest: Option<seq<nat>>)
    ensures After([], rest) == rest
  {
    if rest.Some? {
      assert [] + rest.value == rest.value;
    }
  }

  lemma NothingAfter(first: seq<nat>)
    ensures After(first, Some([])) == Some(first)
  {
    assert first + [] == first;
  }

  lemma AfterTwice(a: seq<nat>, b: seq<nat>, rest: Option<seq<nat>>)
    ensures After(a, After(b, rest)) == After(a + b, rest)
  {
    if rest.Some? {
      assert a + (b + rest.value) == (a + b) + rest.value;
    }
  }

  // ---- printing a lane's processors

  function Commas(cpus: seq<nat>): string {
    if cpus == [] then "" else if |cpus| == 1 then Digits(cpus[0]) else Digits(cpus[0]) + [','] + Commas(cpus[1..])
  }

  function Texts(cpus: seq<nat>): seq<string> {
    seq(|cpus|, i requires 0 <= i < |cpus| => Digits(cpus[i]))
  }

  lemma {:induction false} SplitOfCommas(cpus: seq<nat>)
    requires cpus != []
    ensures Split(Commas(cpus), ',') == Texts(cpus)
  {
    var head := Digits(cpus[0]);
    assert ',' !in head;
    if |cpus| == 1 {
      SplitOne(head, ',');
    } else {
      SplitOfCommas(cpus[1..]);
      SplitCons(head, Commas(cpus[1..]), ',');
      assert Texts(cpus) == [head] + Texts(cpus[1..]);
    }
  }

  /** **How a lane's processors are written**: in decimal, with a comma between each two. */
  lemma CommasSpelled(cpus: seq<nat>, n: nat)
    ensures Commas([]) == "" && Commas([n]) == Digits(n)
    ensures cpus != [] ==> Commas([n] + cpus) == Digits(n) + "," + Commas(cpus)
  {
    assert ([n] + cpus)[1..] == cpus;
  }

  lemma {:induction false} CommasEnds(cpus: seq<nat>)
    requires cpus != []
    ensures Commas(cpus) != "" && IsDigit(Commas(cpus)[0]) && IsDigit(Commas(cpus)[|Commas(cpus)| - 1])
  {
    if |cpus| > 1 {
      CommasEnds(cpus[1..]);
    }
  }

  lemma GroupOfDigits(n: nat)
    requires n < U64
    ensures ParseGroup(Digits(n)) == Some([n])
  {
    var text := Digits(n);
    assert '-' !in text;
    assert IsDigit(text[0]) && IsDigit(text[|text| - 1]);
    ParseDigits(n, U64);
  }

  lemma {:induction false} GroupsOfTexts(cpus: seq<nat>, i: nat)
    requires i <= |cpus| && Fits(cpus)
    ensures ParseGroups(Texts(cpus), i) == Some(cpus[i..])
    decreases |cpus| - i
  {
    if i < |cpus| {
      GroupsOfTexts(cpus, i + 1);
      GroupOfDigits(cpus[i]);
      assert Texts(cpus)[i] == Digits(cpus[i]);
      GroupFirst(Texts(cpus), i, [cpus[i]], cpus[i + 1..]);
      DropLess(cpus, i, i + 1);
      assert cpus[i..i + 1] == [cpus[i]];
    } else {
      assert cpus[i..] == [];
    }
  }

  lemma GroupFirst(groups: seq<string>, i: nat, first: seq<nat>, rest: seq<nat>)
    requires i < |groups| && groups[i] != ""
    requires ParseGroup(groups[i]) == Some(first) && ParseGroups(groups, i + 1) == Some(rest)
    ensures ParseGroups(groups, i) == Some(first + rest)
  {}

  /** What a lane is told is read back as the processors it was given. */
  lemma NamedCommas(cpus: seq<nat>)
    requires cpus != [] && Fits(cpus)
    ensures Named(Commas(cpus)) == Some(cpus)
  {
    CommasEnds(cpus);
    assert Trim(Commas(cpus)) == Commas(cpus);
    SplitOfCommas(cpus);
    GroupsOfTexts(cpus, 0);
    assert cpus[0..] == cpus;
  }

  lemma {:induction false} BeforeIs(a: string, c: char, b: string)
    requires c !in a
    ensures Before(a + [c] + b, c) == |a|
  {
    if a != "" {
      assert (a + [c] + b)[1..] == a[1..] + [c] + b;
      BeforeIs(a[1..], c, b);
    }
  }

  lemma TrimDigits(n: nat)
    ensures Trim(Digits(n)) == Digits(n)
  {
    assert IsDigit(Digits(n)[0]) && IsDigit(Digits(n)[|Digits(n)| - 1]);
  }

  /** **A span names every processor from its first to its last**, and none where it runs
      backwards or over more than 4096 steps. */
  lemma SpanIsRead(a: nat, b: nat)
    requires a < U64 && b < U64
    ensures var read := ParseGroup(Digits(a) + "-" + Digits(b));
            if a <= b <= a + 4096
            then read.Some? && |read.value| == b - a + 1 && forall i | 0 <= i <= b - a :: read.value[i] == a + i
            else read == None
  {
    TrimDigits(a);
    TrimDigits(b);
    ParseDigits(a, U64);
    ParseDigits(b, U64);
    SpanOf(Digits(a), Digits(b), a, b, Digits(a) + "-" + Digits(b));
  }

  lemma SpanOf(first: string, last: string, a: nat, b: nat, text: string)
    requires '-' !in first && text == first + "-" + last
    requires Parse(Trim(first), U64) == Some(a) && Parse(Trim(last), U64) == Some(b)
    ensures ParseGroup(text) == if a <= b <= a + 4096 then Some(Range(a, b)) else None
  {
    BeforeIs(first, '-', last);
    assert text == first + ['-'] + last && text[|first|] == '-';
    assert text[..|first|] == first && text[|first| + 1..] == last;
  }

  lemma {:induction false} SplitJoin(a: string, b: string, sep: char)
    ensures Split(a + [sep] + b, sep) == Split(a, sep) + Split(b, sep)
  {
    var s := a + [sep] + b;
    if a == "" {
      assert s[1..] == b;
    } else {
      assert s[1..] == a[1..] + [sep] + b && s[0] == a[0];
      SplitJoin(a[1..], b, sep);
      var first, rest := Split(a[1..], sep), Split(b, sep);
      if a[0] == sep {
        Assoc([""], first, rest);
      } else {
        HeadOnFirst(a[0], first, rest);
      }
    }
  }

  lemma HeadOnFirst(c: char, first: seq<string>, rest: seq<string>)
    requires first != []
    ensures [[c] + (first + rest)[0]] + (first + rest)[1..] == ([[c] + first[0]] + first[1..]) + rest
  {}

  lemma {:induction false} GroupsJoin(a: seq<string>, b: seq<string>, i: nat)
    requires i <= |a|
    ensures ParseGroups(a + b, i) ==
              match ParseGroups(a, i) case None => None case Some(first) => After(first, ParseGroups(b, 0))
    decreases |a| - i
  {
    if i == |a| {
      GroupsShift(a, b, 0);
      AfterNothing(ParseGroups(b, 0));
    } else {
      GroupsJoin(a, b, i + 1);
      if a[i] != "" && ParseGroup(a[i]).Some? && ParseGroups(a, i + 1).Some? {
        AfterTwice(ParseGroup(a[i]).value, ParseGroups(a, i + 1).value, ParseGroups(b, 0));
      }
    }
  }

  lemma {:induction false} GroupsShift(a: seq<string>, b: seq<string>, i: nat)
    requires i <= |b|
    ensures ParseGroups(a + b, |a| + i) == ParseGroups(b, i)
    decreases |b| - i
  {
    if i < |b| {
      GroupsShift(a, b, i + 1);
    }
  }

  /** **A comma puts two lists end to end**, in the order written. */
  lemma ListsJoin(x: string, y: string)
    requires Trim(x) == x && Trim(y) == y && Trim(x + "," + y) == x + "," + y
    requires Named(x).Some? && Named(y).Some?
    ensures Named(x + "," + y) == Some(Named(x).value + Named(y).value)
  {
    SplitJoin(x, y, ',');
    GroupsJoin(Split(x, ','), Split(y, ','), 0);
  }

  /** An empty group says nothing. */
  lemma EmptyGroupIsSkipped(x: string)
    requires Trim(x) == x && Trim("," + x) == "," + x
    ensures Named("," + x) == Named(x)
  {
    SplitJoin("", x, ',');
    GroupsJoin([""], Split(x, ','), 0);
    assert "" + [','] + x == "," + x && Split("", ',') == [""];
    AfterNothing(ParseGroups(Split(x, ','), 0));
  }

  // ---- the cut

  /** The processors a lane's string names. */
  function Cpus(lane: Option<string>): seq<nat> {
    match lane
    case None => []
    case Some(text) => match Named(text) case None => [] case Some(cpus) => cpus
  }

  lemma CpusOfCommas(cpus: seq<nat>)
    requires cpus != [] && Fits(cpus)
    ensures Cpus(Some(Commas(cpus))) == cpus
  {
    NamedCommas(cpus);
  }

  lemma ToldIsRead(lane: Option<string>, piece: seq<nat>)
    requires lane == Some(Commas(piece)) && piece != [] && Fits(piece)
    ensures Cpus(lane) == piece && lane == Some(Commas(Cpus(lane)))
  {
    CpusOfCommas(piece);
  }

  /** The first `n` pieces end to end. */
  function Flat(pieces: seq<seq<nat>>, n: nat): seq<nat>
    requires n <= |pieces|
  {
    if n == 0 then [] else Flat(pieces, n - 1) + pieces[n - 1]
  }

  /** What each lane names. */
  function Pieces(lanes: seq<Option<string>>): seq<seq<nat>> {
    seq(|lanes|, k requires 0 <= k < |lanes| => Cpus(lanes[k]))
  }

  /** Pins nothing without a readable list, gives every lane the whole of one too short
      to divide, and otherwise **divides it exactly**: consecutive pieces in the written
      order, none empty, none more than one longer than another, the longer ones first. */
  method Cut(mine: Option<string>, lanes: nat) returns (cut: seq<Option<string>>)
    ensures lanes <= 1 ==> cut == [mine]
    ensures lanes > 1 ==> |cut| == lanes
    ensures lanes > 1 && (mine == None || Named(mine.value) == None) ==> forall k | 0 <= k < lanes :: cut[k] == None
    ensures lanes > 1 && mine.Some? && Named(mine.value).Some? && |Named(mine.value).value| < lanes ==>
              forall k | 0 <= k < lanes :: cut[k] == mine
    ensures lanes > 1 && mine.Some? && Named(mine.value).Some? && |Named(mine.value).value| >= lanes ==>
              && Flat(Pieces(cut), |cut|) == Named(mine.value).value
              && (forall k | 0 <= k < lanes :: Cpus(cut[k]) != [] && cut[k] == Some(Commas(Cpus(cut[k]))))
              && (forall j, k | 0 <= j < k < lanes :: |Cpus(cut[k])| <= |Cpus(cut[j])| <= |Cpus(cut[k])| + 1)
  {
    if lanes <= 1 {
      return [mine];
    }
    if mine == None {
      return seq(lanes, i => None);
    }
    var named := ParseList(mine.value);
    if named == None {
      return seq(lanes, i => None);
    }
    var found := named.value;
    if |found| < lanes {
      return seq(lanes, i => mine);
    }
    cut := CutFound(found, lanes);
  }

  method CutFound(found: seq<nat>, lanes: nat) returns (cut: seq<Option<string>>)
    requires 1 < lanes <= |found| && Fits(found)
    ensures |cut| == lanes
    ensures Flat(Pieces(cut), |cut|) == found
    ensures forall k | 0 <= k < lanes :: Cpus(cut[k]) != [] && cut[k] == Some(Commas(Cpus(cut[k])))
    ensures forall j, k | 0 <= j < k < lanes :: |Cpus(cut[k])| <= |Cpus(cut[j])| <= |Cpus(cut[k])| + 1
  {
    WholeIsCut(|found|, lanes);
    cut := CutBy(found, lanes, |found| / lanes, |found| % lanes);
  }

  lemma WholeIsCut(n: nat, lanes: nat)
    requires 0 < lanes <= n
    ensures Start(n / lanes, n % lanes, lanes) == n && n / lanes >= 1
  {
    StartIs(n / lanes, n % lanes, lanes);
  }

  method CutBy(found: seq<nat>, lanes: nat, each: nat, over: nat) returns (cut: seq<Option<string>>)
    requires Start(each, over, lanes) == |found| && each >= 1 && Fits(found)
    ensures |cut| == lanes && Flat(Pieces(cut), lanes) == found
    ensures forall k | 0 <= k < lanes :: |Cpus(cut[k])| == Width(each, over, k)
    ensures forall k | 0 <= k < lanes :: cut[k] == Some(Commas(Cpus(cut[k])))
  {
    cut := [];
    var at, lane := 0, 0;
    ghost var pieces: seq<seq<nat>> := [];
    while lane < lanes
      invariant 0 <= lane <= lanes && |cut| == |pieces| == lane
      invariant at == Start(each, over, lane) <= |found|
      invariant forall k | 0 <= k < lane :: IsStretch(found, each, over, k, pieces[k])
      invariant forall k | 0 <= k < lane :: cut[k] == Some(Commas(pieces[k]))
    {
      var width := Width(each, over, lane);
      StartGrows(each, over, lane + 1, lanes);
      cut := cut + [Some(Commas(found[at..at + width]))];
      pieces := pieces + [found[at..at + width]];
      at := at + width;
      lane := lane + 1;
    }
    forall k | 0 <= k < lanes
      ensures Cpus(cut[k]) == pieces[k] && |pieces[k]| == Width(each, over, k)
      ensures cut[k] == Some(Commas(Cpus(cut[k])))
    {
      StretchFits(found, each, over, k, pieces[k]);
      ToldIsRead(cut[k], pieces[k]);
    }
    assert Pieces(cut) == pieces;
    PiecesMakeWhole(found, each, over, pieces, lanes);
    assert found[..|found|] == found;
  }

  /** The `k`-th stretch of the list. */
  ghost predicate IsStretch(found: seq<nat>, each: nat, over: nat, k: nat, piece: seq<nat>) {
    var at := Start(each, over, k);
    at + Width(each, over, k) <= |found| && piece == found[at..at + Width(each, over, k)]
  }

  lemma StretchFits(found: seq<nat>, each: nat, over: nat, k: nat, piece: seq<nat>)
    requires IsStretch(found, each, over, k, piece) && each >= 1 && Fits(found)
    ensures piece != [] && Fits(piece) && |piece| == Width(each, over, k)
  {}

  lemma {:induction false} PiecesMakeWhole(
      found: seq<nat>, each: nat, over: nat, pieces: seq<seq<nat>>, n: nat)
    requires n <= |pieces| && Start(each, over, n) <= |found|
    requires forall k | 0 <= k < n :: IsStretch(found, each, over, k, pieces[k])
    ensures Flat(pieces, n) == found[..Start(each, over, n)]
  {
    if n > 0 {
      PiecesMakeWhole(found, each, over, pieces, n - 1);
      assert IsStretch(found, each, over, n - 1, pieces[n - 1]);
      TakeMore(found, Start(each, over, n - 1), Width(each, over, n - 1));
    }
  }

  /** The size of a lane's piece: one more for as many lanes as the division leaves over. */
  function Width(each: nat, over: nat, lane: nat): nat {
    each + (if lane < over then 1 else 0)
  }

  function Start(each: nat, over: nat, lane: nat): nat {
    if lane == 0 then 0 else Start(each, over, lane - 1) + Width(each, over, lane - 1)
  }

  lemma {:induction false} StartIs(each: nat, over: nat, lane: nat)
    ensures Start(each, over, lane) == each * lane + (if lane < over then lane else over)
  {
    if lane > 0 {
      StartIs(each, over, lane - 1);
      assert each * lane == each * (lane - 1) + each;
    }
  }

  lemma {:induction false} StartGrows(each: nat, over: nat, a: nat, b: nat)
    requires a <= b
    ensures Start(each, over, a) <= Start(each, over, b)
  {
    if a < b {
      StartGrows(each, over, a, b - 1);
    }
  }
}
