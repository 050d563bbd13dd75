/** The names that keep Runners and lanes apart in the cgroup tree (aj-sandbox/cgroups.rs). */
module Slices {
  import opened Sequences
  import opened Text
  import opened Decimal

  const OURS := "algojudge"
  const SUFFIX := ".slice"

  /** A Runner's name made fit for a slice: its first 64 characters, each kept exactly if
      it is an ASCII letter or digit or an underscore. */
  function UnitSafe(instance: string): (safe: string)
    ensures safe != "" && |safe| <= 64
    ensures forall i | 0 <= i < |safe| :: IsAlphanumeric(safe[i]) || safe[i] == '_'
    ensures forall i | 0 <= i < |instance| && i < 64 ::
              i < |safe| && (safe[i] == instance[i] <==> IsAlphanumeric(instance[i]) || instance[i] == '_')
    ensures instance != "" ==> |safe| <= |instance|
  {
    var taken := if |instance| > 64 then instance[..64] else instance;
    if taken == "" then "_"
    else seq(|taken|, i requires 0 <= i < |taken| =>
               if IsAlphanumeric(taken[i]) || taken[i] == '_' then taken[i] else '_')
  }

  function LaneSuffix(lane: nat): string {
    if lane == 0 then "" else "_l" + Digits(lane)
  }

  function SliceName(instance: string, lane: nat): string {
    OURS + "-" + UnitSafe(instance) + LaneSuffix(lane) + SUFFIX
  }

  function RunPrefix(instance: string): string {
    OURS + "-" + UnitSafe(instance) + "-"
  }

  /** **The names themselves**, for an instance that is a name as it stands. */
  lemma NamesSpelled(instance: string, lane: nat)
    requires 1 <= |instance| <= 64
    requires forall i | 0 <= i < |instance| :: IsAlphanumeric(instance[i]) || instance[i] == '_'
    ensures SliceName(instance, 0) == "algojudge-" + instance + ".slice"
    ensures lane > 0 ==> SliceName(instance, lane) == "algojudge-" + instance + ("_l" + Digits(lane)) + ".slice"
    ensures RunPrefix(instance) == "algojudge-" + instance + "-"
  {
    SafeIsItself(instance);
    assert OURS + "-" == "algojudge-";
    assert instance + "" == instance;
  }

  // ---- from a name to a path

  /** The first `n` parts with a dash between each two. */
  function DashPrefix(parts: seq<string>, n: nat): string
    requires n <= |parts|
  {
    if n == 0 then "" else if n == 1 then parts[0] else DashPrefix(parts, n - 1) + ['-'] + parts[n - 1]
  }

  predicate IsPart(p: string) {
    p != "" && p != "." && p != ".." && '/' !in p && '\\' !in p
  }

  predicate HasSuffix(s: string, suffix: string) {
    |s| >= |suffix| && s[|s| - |suffix|..] == suffix
  }

  function Stem(slice: string): string
    requires HasSuffix(slice, SUFFIX)
  {
    slice[..|slice| - |SUFFIX|]
  }

  /** A suffix, and before it parts that are all usable as directory names. */
  predicate Accepted(slice: string) {
    HasSuffix(slice, SUFFIX) && forall p | p in Split(Stem(slice), '-') :: IsPart(p)
  }

  /** Every dash-prefix of the name is a slice, each inside the one before. */
  function Nested(parts: seq<string>, n: nat): seq<string>
    requires n <= |parts|
  {
    seq(n, i requires 0 <= i < n => DashPrefix(parts, i + 1) + SUFFIX)
  }

  /** The path of an accepted slice, below the root. */
  function PathOf(slice: string): seq<string>
    requires Accepted(slice)
  {
    var parts := Split(Stem(slice), '-');
    Nested(parts, |parts|)
  }

  /** The path of a slice whose name is accepted, and none for any other. */
  method SlicePath(slice: string) returns (path: Option<seq<string>>)
    ensures path.Some? <==> Accepted(slice)
    ensures path.Some? ==> path.value == PathOf(slice)
  {
    if !HasSuffix(slice, SUFFIX) {
      return None;
    }
    var stem := Stem(slice);
    if stem == "" || stem == "-" {
      EmptyParts();
      assert !IsPart("");
      return None;
    }
    path := PathOfParts(Split(stem, '-'));
  }

  method PathOfParts(parts: seq<string>) returns (path: Option<seq<string>>)
    ensures path.Some? <==> forall p | p in parts :: IsPart(p)
    ensures path.Some? ==> path.value == Nested(parts, |parts|)
  {
    var under: seq<string>, prefix := [], "";
    var i := 0;
    while i < |parts|
      invariant 0 <= i <= |parts|
      invariant forall j | 0 <= j < i :: IsPart(parts[j])
      invariant prefix == DashPrefix(parts, i) && (i > 0 ==> prefix != "")
      invariant under == Nested(parts, i)
    {
      var part := parts[i];
      if !IsPart(part) {
        assert part in parts;
        return None;
      }
      if prefix != "" {
        prefix := prefix + ['-'];
      }
      prefix := prefix + part;
      under := under + [prefix + SUFFIX];
      i := i + 1;
    }
    return Some(under);
  }

  lemma EmptyParts()
    ensures "" in Split("", '-') && "" in Split("-", '-')
  {
    assert "-"[1..] == "";
  }

  lemma {:induction false} DashPrefixCons(p: string, rest: seq<string>, n: nat)
    requires 1 <= n <= |rest|
    ensures DashPrefix([p] + rest, n + 1) == p + ['-'] + DashPrefix(rest, n)
  {
    if n > 1 {
      DashPrefixCons(p, rest, n - 1);
    }
  }

  lemma {:induction false} DashPrefixHead(c: char, parts: seq<string>, n: nat)
    requires 1 <= n <= |parts|
    ensures DashPrefix([[c] + parts[0]] + parts[1..], n) == [c] + DashPrefix(parts, n)
  {
    if n > 1 {
      DashPrefixHead(c, parts, n - 1);
    }
  }

  /** Splitting loses nothing. */
  lemma {:induction false} SplitIsWhole(s: string)
    ensures DashPrefix(Split(s, '-'), |Split(s, '-')|) == s
  {
    if s != "" {
      SplitIsWhole(s[1..]);
      var rest := Split(s[1..], '-');
      if s[0] == '-' {
        DashPrefixCons("", rest, |rest|);
        assert "" + ['-'] + s[1..] == s;
      } else {
        DashPrefixHead(s[0], rest, |rest|);
        assert [s[0]] + s[1..] == s;
      }
    }
  }

  lemma NestedEndsInWhole(parts: seq<string>, n: nat)
    requires 0 < n <= |parts|
    ensures Nested(parts, n) != [] && Nested(parts, n)[n - 1] == DashPrefix(parts, n) + SUFFIX
  {}

  /** **The path ends in the slice's own name**, so no two names share one. */
  lemma PathEndsInName(slice: string, path: seq<string>)
    requires Accepted(slice) && path == PathOf(slice)
    ensures path != [] && path[|path| - 1] == slice
  {
    EndsInStem(Stem(slice), path);
    StemAndSuffix(slice);
  }

  lemma EndsInStem(stem: string, path: seq<string>)
    requires path == Nested(Split(stem, '-'), |Split(stem, '-')|)
    ensures path != [] && path[|path| - 1] == stem + SUFFIX
  {
    SplitIsWhole(stem);
    NestedEndsInWhole(Split(stem, '-'), |path|);
  }

  lemma StemAndSuffix(slice: string)
    requires HasSuffix(slice, SUFFIX)
    ensures Stem(slice) + SUFFIX == slice
  {}

  lemma PathIsInjective(a: string, b: string, path: seq<string>)
    requires Accepted(a) && Accepted(b) && PathOf(a) == path && PathOf(b) == path
    ensures a == b
  {
    PathEndsInName(a, path);
    PathEndsInName(b, path);
  }

  lemma {:induction false} SplitOfDashes(parts: seq<string>, n: nat)
    requires 1 <= n <= |parts| && forall p | p in parts :: '-' !in p
    ensures Split(DashPrefix(parts, n), '-') == parts[..n]
  {
    if n == 1 {
      SplitOne(parts[0], '-');
    } else {
      var p, rest := parts[0], parts[1..];
      assert forall q | q in rest :: q in parts;
      SplitOfDashes(rest, n - 1);
      SplitOfLonger(p, rest, n - 1);
      assert [p] + rest == parts && [p] + rest[..n - 1] == parts[..n];
    }
  }

  lemma SplitOfLonger(p: string, rest: seq<string>, n: nat)
    requires 1 <= n <= |rest| && '-' !in p && Split(DashPrefix(rest, n), '-') == rest[..n]
    ensures Split(DashPrefix([p] + rest, n + 1), '-') == [p] + rest[..n]
  {
    DashPrefixCons(p, rest, n);
    SplitCons(p, DashPrefix(rest, n), '-');
  }

  lemma {:induction false} DashPrefixOfFront(parts: seq<string>, m: nat, n: nat)
    requires n <= m <= |parts|
    ensures DashPrefix(parts[..m], n) == DashPrefix(parts, n)
  {
    if n > 1 {
      DashPrefixOfFront(parts, m, n - 1);
    }
  }

  lemma NestedOfFront(parts: seq<string>, n: nat)
    requires n <= |parts|
    ensures Nested(parts[..n], n) == Nested(parts, |parts|)[..n]
  {
    forall j | 0 <= j < n ensures Nested(parts[..n], n)[j] == Nested(parts, |parts|)[j] {
      DashPrefixOfFront(parts, n, j + 1);
    }
  }

  /** **Each level of a path is a slice of its own**, and its own path is that path down
      to it: the name above, one dash and one part more. */
  lemma EachLevelIsASlice(slice: string, i: nat, level: string)
    requires Accepted(slice) && i < |PathOf(slice)| && level == PathOf(slice)[i]
    ensures Accepted(level) && PathOf(level) == PathOf(slice)[..i + 1]
    ensures i == 0 ==> level == Split(Stem(slice), '-')[0] + SUFFIX
    ensures i > 0 ==>
              && HasSuffix(PathOf(slice)[i - 1], SUFFIX)
              && level == Stem(PathOf(slice)[i - 1]) + ['-'] + Split(Stem(slice), '-')[i] + SUFFIX
  {
    var parts := Split(Stem(slice), '-');
    SplitOfDashes(parts, i + 1);
    StemOf(DashPrefix(parts, i + 1), level);
    NestedOfFront(parts, i + 1);
    if i > 0 {
      StemOf(DashPrefix(parts, i), PathOf(slice)[i - 1]);
    }
  }

  /** **Which names are accepted**: a suffix of `.slice` after parts that may each be the name
      of a directory. */
  lemma AcceptedAre(parts: seq<string>, slice: string)
    requires parts != [] && (forall p | p in parts :: '-' !in p)
    requires slice == DashPrefix(parts, |parts|) + ".slice"
    ensures Accepted(slice) <==> forall p | p in parts :: MayBeADirectory(p)
  {
    PartsOfSlice(parts, slice);
    forall p ensures IsPart(p) <==> MayBeADirectory(p) {
    }
  }

  /** What one level of a path may be called. */
  predicate MayBeADirectory(p: string) {
    |p| > 0 && p != "." && p != ".." && forall i | 0 <= i < |p| :: p[i] != '/' && p[i] != '\\'
  }

  /** And then every first so many of the parts are a level. */
  lemma LevelsAre(parts: seq<string>, slice: string, i: nat)
    requires parts != [] && (forall p | p in parts :: '-' !in p)
    requires slice == DashPrefix(parts, |parts|) + ".slice" && Accepted(slice) && i < |parts|
    ensures |PathOf(slice)| == |parts| && PathOf(slice)[i] == DashPrefix(parts, i + 1) + ".slice"
  {
    PartsOfSlice(parts, slice);
    NestedAt(parts, |parts|, i);
  }

  lemma NestedAt(parts: seq<string>, n: nat, i: nat)
    requires i < n <= |parts|
    ensures |Nested(parts, n)| == n && Nested(parts, n)[i] == DashPrefix(parts, i + 1) + ".slice"
  {}

  lemma PartsOfSlice(parts: seq<string>, slice: string)
    requires parts != [] && (forall p | p in parts :: '-' !in p)
    requires slice == DashPrefix(parts, |parts|) + SUFFIX
    ensures HasSuffix(slice, SUFFIX) && Split(Stem(slice), '-') == parts
  {
    SplitOfDashes(parts, |parts|);
    StemOf(DashPrefix(parts, |parts|), slice);
    assert parts[..|parts|] == parts;
  }

  /** Without the suffix there is no slice. */
  lemma OtherSuffixRefused(slice: string)
    requires |slice| < 6 || slice[|slice| - 6..] != ".slice"
    ensures !Accepted(slice)
  {}

  /** **Exactly two levels deep, always under the one slice all Runners share**: lanes
      and Runners are siblings, whatever the instance is called. */
  lemma LanesAreSiblings(instance: string, lane: nat)
    ensures Accepted(SliceName(instance, lane))
    ensures PathOf(SliceName(instance, lane)) == [OURS + SUFFIX, SliceName(instance, lane)]
  {
    var own := UnitSafe(instance) + LaneSuffix(lane);
    assert forall i | 0 <= i < |own| :: IsAlphanumeric(own[i]) || own[i] == '_';
    assert own != "";
    assert SliceName(instance, lane) == OURS + ['-'] + own + SUFFIX;
    SiblingPath(own, SliceName(instance, lane));
  }

  /** One part below the shared slice is two levels. */
  lemma SiblingPath(own: string, name: string)
    requires own != "" && forall i | 0 <= i < |own| :: IsAlphanumeric(own[i]) || own[i] == '_'
    requires name == OURS + ['-'] + own + SUFFIX
    ensures Accepted(name) && PathOf(name) == [OURS + SUFFIX, name]
  {
    var parts := [OURS, own];
    StemOf(OURS + ['-'] + own, name);
    assert '-' !in OURS && '-' !in own;
    SplitTwo(OURS, own, '-');
    assert own[0] != '.';
    assert IsPart(own) && IsPart(OURS);
    assert DashPrefix(parts, 1) == OURS && DashPrefix(parts, 2) == OURS + ['-'] + own;
    assert Nested(parts, 2) == [OURS + SUFFIX, name];
  }

  lemma StemOf(stem: string, name: string)
    requires name == stem + SUFFIX
    ensures HasSuffix(name, SUFFIX) && Stem(name) == stem
  {
    SliceOfRest(stem, SUFFIX, 0);
    assert SUFFIX[0..] == SUFFIX;
  }

  // ---- distinct names

  function TrailingDigits(s: string): nat {
    if s == "" || !IsDigit(s[|s| - 1]) then 0 else 1 + TrailingDigits(s[..|s| - 1])
  }

  lemma {:induction false} TrailingOf(x: string, m: string)
    requires AllDigits(m) && (x == "" || !IsDigit(x[|x| - 1]))
    ensures TrailingDigits(x + m) == |m|
  {
    if m == "" {
      assert x + m == x;
    } else {
      assert (x + m)[..|x + m| - 1] == x + m[..|m| - 1];
      TrailingOf(x, m[..|m| - 1]);
    }
  }

  /** Two texts end in the same number only if the rest agrees too. */
  lemma DigitTailsAgree(x: string, m: string, y: string, n: string)
    requires AllDigits(m) && AllDigits(n)
    requires (x == "" || !IsDigit(x[|x| - 1])) && (y == "" || !IsDigit(y[|y| - 1]))
    requires x + m == y + n
    ensures x == y && m == n
  {
    TrailingOf(x, m);
    TrailingOf(y, n);
    assert (x + m)[..|x|] == x && (y + n)[..|y|] == y;
    assert (x + m)[|x|..] == m && (y + n)[|y|..] == n;
  }

  lemma StripCommon(p: string, a: string, b: string, q: string)
    ensures p + a + q == p + b + q <==> a == b
  {
    if p + a + q == p + b + q {
      assert (p + a + q)[|p|..|p| + |a|] == a;
      assert (p + b + q)[|p|..|p| + |b|] == b;
    }
  }

  lemma StripFront(x: string, y: string, t: string)
    ensures x + t == y + t <==> x == y
  {
    if x + t == y + t {
      TakeOfFront(x, t, |x|);
      TakeOfFront(y, t, |y|);
      assert x[..|x|] == x && y[..|y|] == y;
    }
  }

  /** Two names of lanes past the first agree only in both their parts. */
  lemma NumberedSuffixesMeet(x: string, k: nat, y: string, l: nat)
    requires k > 0 && l > 0
    ensures x + LaneSuffix(k) == y + LaneSuffix(l) <==> x == y && k == l
  {
    if x + LaneSuffix(k) == y + LaneSuffix(l) {
      Assoc(x, "_l", Digits(k));
      Assoc(y, "_l", Digits(l));
      DigitTailsAgree(x + "_l", Digits(k), y + "_l", Digits(l));
      DigitsInjective(k, l);
      StripFront(x, y, "_l");
    }
  }

  lemma SuffixesMeet(x: string, k: nat, y: string, l: nat)
    ensures x + LaneSuffix(k) == y + LaneSuffix(l) <==>
              || (x == y && k == l)
              || (k == 0 && l > 0 && x == y + LaneSuffix(l))
              || (l == 0 && k > 0 && y == x + LaneSuffix(k))
  {
    assert x + "" == x && y + "" == y;
    if k > 0 && l > 0 {
      NumberedSuffixesMeet(x, k, y, l);
    }
  }

  /** **When two slices share a name**, exactly: the same lane of instances that are the
      same to systemd, or one Runner's plain name spelling another's lane. */
  lemma SliceNamesMeet(a: string, k: nat, b: string, l: nat)
    ensures SliceName(a, k) == SliceName(b, l) <==>
              || (UnitSafe(a) == UnitSafe(b) && k == l)
              || (k == 0 && l > 0 && UnitSafe(a) == UnitSafe(b) + LaneSuffix(l))
              || (l == 0 && k > 0 && UnitSafe(b) == UnitSafe(a) + LaneSuffix(k))
  {
    SuffixesMeet(UnitSafe(a), k, UnitSafe(b), l);
    NamesMeet(UnitSafe(a), LaneSuffix(k), UnitSafe(b), LaneSuffix(l));
  }

  lemma NamesMeet(x: string, p: string, y: string, q: string)
    ensures OURS + "-" + x + p + SUFFIX == OURS + "-" + y + q + SUFFIX <==> x + p == y + q
  {
    Assoc(OURS + "-", x, p);
    Assoc(OURS + "-", y, q);
    StripCommon(OURS + "-", x + p, y + q, SUFFIX);
  }

  /** A key fingerprint: hex digits, no more than systemd's names are cut to. */
  predicate IsFingerprint(s: string) {
    1 <= |s| <= 64 && forall i | 0 <= i < |s| :: IsDigit(s[i]) || 'a' <= s[i] <= 'f'
  }

  lemma SafeIsItself(s: string)
    requires 1 <= |s| <= 64 && forall i | 0 <= i < |s| :: IsAlphanumeric(s[i]) || s[i] == '_'
    ensures UnitSafe(s) == s
  {
    var safe := UnitSafe(s);
    assert |safe| == |s|;
    assert forall i | 0 <= i < |s| :: safe[i] == s[i];
    assert safe == s;
  }

  lemma FingerprintIsSafe(s: string)
    requires IsFingerprint(s)
    ensures UnitSafe(s) == s
  {
    SafeIsItself(s);
  }

  /** Distinct Runners and lanes measure in distinct slices. */
  lemma DistinctSlices(a: string, k: nat, b: string, l: nat)
    requires IsFingerprint(a) && IsFingerprint(b) && (a != b || k != l)
    ensures SliceName(a, k) != SliceName(b, l)
  {
    FingerprintIsSafe(a);
    FingerprintIsSafe(b);
    SliceNamesMeet(a, k, b, l);
    assert l > 0 ==> (b + LaneSuffix(l))[|b|] == '_';
    assert k > 0 ==> (a + LaneSuffix(k))[|a|] == '_';
  }

  /** The reason a fingerprint is asked for: these two names are one slice. */
  lemma PlainNamesMayMeet()
    ensures SliceName("a_l1", 0) == SliceName("a", 1)
  {
    SafeIsItself("a_l1");
    SafeIsItself("a");
    assert Digits(1) == "1";
    assert LaneSuffix(1) == "_l1";
    assert SliceName("a", 1) == OURS + "-" + ("a" + "_l1") + SUFFIX;
  }

  // ---- whose a leftover is

  predicate StartsWith(s: string, prefix: string) {
    |prefix| <= |s| && s[..|prefix|] == prefix
  }

  /** How many characters stand before the first dash. */
  function BeforeDash(s: string): nat {
    if s == "" || s[0] == '-' then 0 else 1 + BeforeDash(s[1..])
  }

  lemma {:induction false} BeforeDashOf(x: string, rest: string)
    requires '-' !in x
    ensures BeforeDash(x + ['-'] + rest) == |x|
  {
    if x != "" {
      assert (x + ['-'] + rest)[1..] == x[1..] + ['-'] + rest;
      BeforeDashOf(x[1..], rest);
    }
  }

  lemma StartsAfter(head: string, s: string, prefix: string)
    ensures StartsWith(head + s, head + prefix) <==> StartsWith(s, prefix)
  {
    if |prefix| <= |s| {
      assert (head + s)[..|head + prefix|] == head + s[..|prefix|];
      assert (head + s[..|prefix|])[|head|..] == s[..|prefix|] && (head + prefix)[|head|..] == prefix;
    }
  }

  /** **A Runner's prefix fits a run's name only where the run is that Runner's own.** */
  lemma PrefixSaysWhose(a: string, b: string, rest: string)
    ensures StartsWith(RunPrefix(b) + rest, RunPrefix(a)) <==> UnitSafe(a) == UnitSafe(b)
  {
    var x, y, head := UnitSafe(a), UnitSafe(b), OURS + "-";
    var tail := y + ['-'] + rest;
    assert RunPrefix(a) == head + (x + ['-']) && RunPrefix(b) + rest == head + tail;
    StartsAfter(head, tail, x + ['-']);
    BeforeDashOf(y, rest);
    if StartsWith(tail, x + ['-']) {
      assert tail == x + ['-'] + tail[|x| + 1..];
      BeforeDashOf(x, tail[|x| + 1..]);
      assert tail[..|x|] == x && tail[..|y|] == y;
    } else {
      assert tail[..|y| + 1] == y + ['-'];
    }
  }

  /** Removes what this Runner's runs left and nothing is using any more. */
  method Abandoned(listing: seq<string>, busy: set<string>, instance: string)
    returns (kept: seq<string>, removed: nat)
    ensures removed + |kept| == |listing|
    ensures forall name | name in listing :: name in kept <==> name in busy || !StartsWith(name, RunPrefix(instance))
    ensures forall name | name in kept :: name in listing
    ensures forall other, rest :: RunPrefix(other) + rest in listing && UnitSafe(other) != UnitSafe(instance) ==>
              RunPrefix(other) + rest in kept
  {
    kept, removed := [], 0;
    for i := 0 to |listing|
      invariant removed + |kept| == i
      invariant forall j | 0 <= j < i ::
                  listing[j] in kept <==> listing[j] in busy || !StartsWith(listing[j], RunPrefix(instance))
      invariant forall name | name in kept :: name in listing[..i]
      invariant forall name | name in kept :: name in busy || !StartsWith(name, RunPrefix(instance))
    {
      if StartsWith(listing[i], RunPrefix(instance)) && listing[i] !in busy {
        removed := removed + 1;
      } else {
        kept := kept + [listing[i]];
      }
    }
    forall other, rest | RunPrefix(other) + rest in listing && UnitSafe(other) != UnitSafe(instance)
      ensures RunPrefix(other) + rest in kept
    {
      PrefixSaysWhose(instance, other, rest);
    }
  }
}
