/** What a package's configuration must satisfy, and the limits a test runs under
    (aj-package/config.rs). */
module Limits {
  import opened Text
  import Paths

  datatype Limits = Limits(timeMs: nat, memoryBytes: nat)

  /** An override, of as many fields as it states. */
  datatype PartialLimits = PartialLimits(timeMs: Option<nat>, memoryBytes: Option<nat>)

  datatype Group = Group(group: nat, limits: Option<PartialLimits>, tests: Option<nat>)

  /** A checker, an interactor and the model solutions are each the path of their source. */
  datatype Config = Config(
    limits: Limits,
    overrides: map<string, PartialLimits>,
    groups: seq<Group>,
    checker: Option<string>,
    interactor: Option<string>,
    models: seq<string>)

  const MOST_TESTS_IN_A_GROUP := 26
  const MOST_IN_A_PATH := 255

  datatype Fault =
    | ZeroLimit
    | NoGroups
    | DeclaredTwice(group: nat)
    | ZeroGroupLimit(group: nat)
    | ZeroOverride(language: string)
    | UnsafePath(path: string, why: Paths.Refusal)
    | CountWithoutInteractor(group: nat)
    | NoTests(group: nat)
    | TooManyTests(group: nat)
    | TwoJudges

  datatype Result<+T> = Ok(value: T) | Refused(fault: Fault)

  /** Neither limit is stated as zero. */
  predicate States(over: PartialLimits) {
    over.timeMs != Some(0) && over.memoryBytes != Some(0)
  }

  /** The paths a configuration declares, all of them the package's own files. */
  function Declared(c: Config): seq<string> {
    OrNone(c.checker) + OrNone(c.interactor) + c.models
  }

  function OrNone(path: Option<string>): seq<string> {
    match path case None => [] case Some(p) => [p]
  }

  predicate CountIsFair(c: Config, g: Group) {
    g.tests.Some? ==> c.interactor.Some? && 1 <= g.tests.value <= MOST_TESTS_IN_A_GROUP
  }

  predicate Distinct(groups: seq<Group>) {
    forall i, j | 0 <= i < j < |groups| :: groups[i].group != groups[j].group
  }

  /** A configuration this Runner will judge by. */
  predicate Sound(c: Config) {
    && c.limits.timeMs > 0 && c.limits.memoryBytes > 0
    && c.groups != []
    && Distinct(c.groups)
    && (forall g | g in c.groups :: g.limits.Some? ==> States(g.limits.value))
    && (forall language | language in c.overrides :: States(c.overrides[language]))
    && (forall path | path in Declared(c) :: Paths.Safe(path, MOST_IN_A_PATH))
    && (forall g | g in c.groups :: CountIsFair(c, g))
    && !(c.checker.Some? && c.interactor.Some?)
  }

  /** The fault named is one the configuration has. */
  ghost predicate Has(c: Config, fault: Fault) {
    match fault
    case ZeroLimit => c.limits.timeMs == 0 || c.limits.memoryBytes == 0
    case NoGroups => c.groups == []
    case DeclaredTwice(g) => exists i, j :: 0 <= i < j < |c.groups| && c.groups[i].group == g && c.groups[j].group == g
    case ZeroGroupLimit(n) => exists g :: g in c.groups && g.group == n && g.limits.Some? && !States(g.limits.value)
    case ZeroOverride(language) => language in c.overrides && !States(c.overrides[language])
    case UnsafePath(path, why) =>
      path in Declared(c) && !Paths.Safe(path, MOST_IN_A_PATH) && Paths.Has(path, MOST_IN_A_PATH, why)
    case CountWithoutInteractor(n) => c.interactor == None && exists g :: g in c.groups && g.group == n && g.tests.Some?
    case NoTests(n) => exists g :: g in c.groups && g.group == n && g.tests == Some(0)
    case TooManyTests(n) =>
      exists g :: g in c.groups && g.group == n && g.tests.Some? && g.tests.value > MOST_TESTS_IN_A_GROUP
    case TwoJudges => c.checker.Some? && c.interactor.Some?
  }

  /** The numbers of the first `n` groups. */
  ghost function NumbersOf(groups: seq<Group>, n: nat): set<nat>
    requires n <= |groups|
  {
    set j | 0 <= j < n :: groups[j].group
  }

  lemma DistinctGrows(groups: seq<Group>, n: nat)
    requires n < |groups| && Distinct(groups[..n]) && groups[n].group !in NumbersOf(groups, n)
    ensures Distinct(groups[..n + 1]) && NumbersOf(groups, n + 1) == NumbersOf(groups, n) + {groups[n].group}
  {
    forall i | 0 <= i < n ensures groups[i].group != groups[n].group {
      assert groups[i].group in NumbersOf(groups, n);
    }
  }

  /** **A configuration is sound exactly if no fault can be found in it.** */
  lemma SoundIffNoFault(c: Config)
    ensures Sound(c) <==> forall fault :: !Has(c, fault)
  {
    if !Sound(c) {
      var fault := FaultOf(c);
    }
  }

  lemma FaultOf(c: Config) returns (fault: Fault)
    requires !Sound(c)
    ensures Has(c, fault)
  {
    if c.limits.timeMs == 0 || c.limits.memoryBytes == 0 {
      fault := ZeroLimit;
    } else if c.groups == [] {
      fault := NoGroups;
    } else if !Distinct(c.groups) {
      var i, j :| 0 <= i < j < |c.groups| && c.groups[i].group == c.groups[j].group;
      fault := DeclaredTwice(c.groups[i].group);
    } else if g :| g in c.groups && g.limits.Some? && !States(g.limits.value) {
      fault := ZeroGroupLimit(g.group);
    } else if language :| language in c.overrides && !States(c.overrides[language]) {
      fault := ZeroOverride(language);
    } else if path :| path in Declared(c) && !Paths.Safe(path, MOST_IN_A_PATH) {
      fault := UnsafePath(path, Paths.ReasonAgainst(path, MOST_IN_A_PATH));
    } else if g :| g in c.groups && !CountIsFair(c, g) {
      fault := if c.interactor == None then CountWithoutInteractor(g.group)
               else if g.tests.value == 0 then NoTests(g.group)
               else TooManyTests(g.group);
    } else {
      fault := TwoJudges;
    }
  }

  /** **What each fault is**, in the numbers of the format. */
  lemma FaultsAre(c: Config, g: Group, path: string)
    ensures Has(c, ZeroLimit) <==> c.limits.timeMs == 0 || c.limits.memoryBytes == 0
    ensures Has(c, NoGroups) <==> |c.groups| == 0
    ensures Has(c, TwoJudges) <==> c.checker.Some? && c.interactor.Some?
    ensures g in c.groups && g.tests.Some? && g.tests.value > 26 ==> Has(c, TooManyTests(g.group))
    ensures Has(c, TooManyTests(g.group)) ==>
              exists h :: h in c.groups && h.group == g.group && h.tests.Some? && h.tests.value > 26
    ensures Has(c, NoTests(g.group)) ==> exists h :: h in c.groups && h.group == g.group && h.tests == Some(0)
    ensures Has(c, CountWithoutInteractor(g.group)) ==>
              c.interactor == None && exists h :: h in c.groups && h.group == g.group && h.tests.Some?
    ensures Has(c, ZeroGroupLimit(g.group)) ==>
              exists h :: h in c.groups && h.group == g.group && h.limits.Some?
                && (h.limits.value.timeMs == Some(0) || h.limits.value.memoryBytes == Some(0))
    ensures Has(c, ZeroOverride(path)) <==>
              path in c.overrides && (c.overrides[path].timeMs == Some(0) || c.overrides[path].memoryBytes == Some(0))
    ensures Has(c, DeclaredTwice(g.group)) <==>
              exists i, j :: 0 <= i < j < |c.groups| && c.groups[i].group == c.groups[j].group == g.group
    ensures g in c.groups && g.tests == Some(0) ==> Has(c, NoTests(g.group))
    ensures g in c.groups && g.tests.Some? && c.interactor == None ==> Has(c, CountWithoutInteractor(g.group))
    ensures g in c.groups && g.limits.Some? && g.limits.value.timeMs == Some(0) ==> Has(c, ZeroGroupLimit(g.group))
    ensures g in c.groups && g.limits.Some? && g.limits.value.memoryBytes == Some(0) ==> Has(c, ZeroGroupLimit(g.group))
    ensures !Paths.Safe(path, 255) && path in c.models ==> Has(c, UnsafePath(path, Paths.ReasonAgainst(path, 255)))
    ensures !Paths.Safe(path, 255) && (c.checker == Some(path) || c.interactor == Some(path)) ==>
              Has(c, UnsafePath(path, Paths.ReasonAgainst(path, 255)))
  {}

  /** Every declared path is a package's own. */
  method CheckPaths(c: Config) returns (fault: Option<Fault>)
    ensures fault == None <==> forall path | path in Declared(c) :: Paths.Safe(path, MOST_IN_A_PATH)
    ensures fault.Some? ==> Has(c, fault.value)
  {
    var declared := Declared(c);
    for i := 0 to |declared|
      invariant forall j | 0 <= j < i :: Paths.Safe(declared[j], MOST_IN_A_PATH)
    {
      var safe := Paths.SafePath(declared[i], MOST_IN_A_PATH);
      if safe.Outside? {
        return Some(UnsafePath(declared[i], safe.why));
      }
    }
    return None;
  }

  /** Accepts exactly the sound configurations, unchanged, and names a real fault otherwise. */
  method Validated(c: Config) returns (r: Result<Config>)
    ensures r.Ok? <==> Sound(c)
    ensures r.Ok? ==> r.value == c
    ensures r.Refused? ==> Has(c, r.fault)
  {
    if c.limits.timeMs == 0 || c.limits.memoryBytes == 0 {
      return Refused(ZeroLimit);
    }
    if c.groups == [] {
      return Refused(NoGroups);
    }
    var seen: set<nat> := {};
    for i := 0 to |c.groups|
      invariant seen == NumbersOf(c.groups, i) && Distinct(c.groups[..i])
      invariant forall j | 0 <= j < i :: c.groups[j].limits.Some? ==> States(c.groups[j].limits.value)
    {
      var g := c.groups[i];
      assert g in c.groups;
      if g.group in seen {
        assert Has(c, DeclaredTwice(g.group));
        return Refused(DeclaredTwice(g.group));
      }
      DistinctGrows(c.groups, i);
      seen := seen + {g.group};
      if g.limits.Some? && !States(g.limits.value) {
        return Refused(ZeroGroupLimit(g.group));
      }
    }
    var languages := c.overrides.Keys;
    while languages != {}
      invariant languages <= c.overrides.Keys
      invariant forall language | language in c.overrides.Keys - languages :: States(c.overrides[language])
    {
      var language :| language in languages;
      if !States(c.overrides[language]) {
        return Refused(ZeroOverride(language));
      }
      languages := languages - {language};
    }
    assert c.groups[..|c.groups|] == c.groups;
    assert forall language | language in c.overrides :: language in c.overrides.Keys - languages;
    var unsafe := CheckPaths(c);
    if unsafe.Some? {
      return Refused(unsafe.value);
    }
    for i := 0 to |c.groups|
      invariant forall j | 0 <= j < i :: CountIsFair(c, c.groups[j])
    {
      var g := c.groups[i];
      assert g in c.groups;
      if g.tests == None {
        continue;
      }
      if c.interactor == None {
        return Refused(CountWithoutInteractor(g.group));
      }
      if g.tests.value == 0 {
        return Refused(NoTests(g.group));
      }
      if g.tests.value > MOST_TESTS_IN_A_GROUP {
        return Refused(TooManyTests(g.group));
      }
    }
    if c.checker.Some? && c.interactor.Some? {
      return Refused(TwoJudges);
    }
    return Ok(c);
  }

  /** The last value stated, or the default where none is. */
  function LastStated(values: seq<Option<nat>>, default: nat): (v: nat)
    ensures v == default || Some(v) in values
    ensures forall i | 0 <= i < |values| && values[i].Some? && (forall j | i < j < |values| :: values[j] == None) ::
              v == values[i].value
  {
    if values == [] then default
    else if values[|values| - 1].Some? then values[|values| - 1].value
    else
      assert forall i | 0 <= i < |values| - 1 :: values[..|values| - 1][i] == values[i];
      LastStated(values[..|values| - 1], default)
  }

  function Overlay(c: Config, key: string): PartialLimits {
    if key in c.overrides then c.overrides[key] else PartialLimits(None, None)
  }

  /** What each key says of the time, least specific first. */
  function Times(c: Config, keys: seq<string>): seq<Option<nat>> {
    seq(|keys|, i requires 0 <= i < |keys| => Overlay(c, keys[i]).timeMs)
  }

  function Memories(c: Config, keys: seq<string>): seq<Option<nat>> {
    seq(|keys|, i requires 0 <= i < |keys| => Overlay(c, keys[i]).memoryBytes)
  }

  /** What the first group of this number says for itself. */
  function OfGroup(groups: seq<Group>, group: nat): (over: PartialLimits)
  {
    if groups == [] then PartialLimits(None, None)
    else if groups[0].group == group then
      (match groups[0].limits case Some(l) => l case None => PartialLimits(None, None))
    else OfGroup(groups[1..], group)
  }

  method Apply(limits: Limits, over: PartialLimits) returns (r: Limits)
    ensures r.timeMs == LastStated([over.timeMs], limits.timeMs)
    ensures r.memoryBytes == LastStated([over.memoryBytes], limits.memoryBytes)
  {
    r := limits;
    if over.timeMs.Some? {
      r := r.(timeMs := over.timeMs.value);
    }
    if over.memoryBytes.Some? {
      r := r.(memoryBytes := over.memoryBytes.value);
    }
  }

  lemma LastStatedOf(values: seq<Option<nat>>, last: Option<nat>, default: nat)
    ensures LastStated(values + [last], default) == LastStated([last], LastStated(values, default))
  {
    assert (values + [last])[..|values|] == values;
  }

  /** Each field comes from the last key that states it, else from the package's own limits. */
  method ForLanguage(c: Config, keys: seq<string>) returns (r: Limits)
    ensures r.timeMs == LastStated(Times(c, keys), c.limits.timeMs)
    ensures r.memoryBytes == LastStated(Memories(c, keys), c.limits.memoryBytes)
  {
    r := c.limits;
    for i := 0 to |keys|
      invariant r.timeMs == LastStated(Times(c, keys[..i]), c.limits.timeMs)
      invariant r.memoryBytes == LastStated(Memories(c, keys[..i]), c.limits.memoryBytes)
    {
      assert Times(c, keys[..i + 1]) == Times(c, keys[..i]) + [Overlay(c, keys[i]).timeMs];
      assert Memories(c, keys[..i + 1]) == Memories(c, keys[..i]) + [Overlay(c, keys[i]).memoryBytes];
      LastStatedOf(Times(c, keys[..i]), Overlay(c, keys[i]).timeMs, c.limits.timeMs);
      LastStatedOf(Memories(c, keys[..i]), Overlay(c, keys[i]).memoryBytes, c.limits.memoryBytes);
      r := Apply(r, Overlay(c, keys[i]));
    }
    assert keys[..|keys|] == keys;
  }

  function EffectiveTime(c: Config, group: nat, keys: seq<string>): nat {
    LastStated(Times(c, keys) + [OfGroup(c.groups, group).timeMs], c.limits.timeMs)
  }

  function EffectiveMemory(c: Config, group: nat, keys: seq<string>): nat {
    LastStated(Memories(c, keys) + [OfGroup(c.groups, group).memoryBytes], c.limits.memoryBytes)
  }

  /** Most specific first, field by field: the group, then the last key that says, then the package. */
  method Effective(c: Config, group: nat, keys: seq<string>) returns (r: Limits)
    ensures r == Limits(EffectiveTime(c, group, keys), EffectiveMemory(c, group, keys))
  {
    r := ForLanguage(c, keys);
    LastStatedOf(Times(c, keys), OfGroup(c.groups, group).timeMs, c.limits.timeMs);
    LastStatedOf(Memories(c, keys), OfGroup(c.groups, group).memoryBytes, c.limits.memoryBytes);
    r := Apply(r, OfGroup(c.groups, group));
  }

  lemma {:induction false} OfGroupIsOne(groups: seq<Group>, group: nat)
    ensures || OfGroup(groups, group) == PartialLimits(None, None)
            || exists g :: g in groups && g.limits == Some(OfGroup(groups, group))
  {
    if groups == [] {
    } else if groups[0].group == group {
      assert groups[0] in groups;
    } else {
      OfGroupIsOne(groups[1..], group);
      if OfGroup(groups, group) != PartialLimits(None, None) {
        var g :| g in groups[1..] && g.limits == Some(OfGroup(groups[1..], group));
        assert g in groups;
      }
    }
  }

  /** **The limits of a group are its own**, where it is declared and states them. */
  lemma {:induction false} OfGroupIs(groups: seq<Group>, g: Group, n: nat)
    requires Distinct(groups)
    ensures g in groups ==>
              OfGroup(groups, g.group) == (match g.limits case Some(l) => l case None => PartialLimits(None, None))
    ensures (forall h | h in groups :: h.group != n) ==> OfGroup(groups, n) == PartialLimits(None, None)
  {
    if groups != [] {
      assert groups == [groups[0]] + groups[1..];
      OfGroupIs(groups[1..], g, n);
    }
  }

  /** **For any number of keys, the last that states a limit decides**, where the group does
      not; and the package where nothing does. */
  lemma LastKeyWins(c: Config, group: nat, keys: seq<string>, i: nat)
    requires OfGroup(c.groups, group).timeMs == None && i < |keys|
    requires forall j | i < j < |keys| :: keys[j] in c.overrides ==> c.overrides[keys[j]].timeMs == None
    ensures keys[i] in c.overrides && c.overrides[keys[i]].timeMs.Some? ==>
              EffectiveTime(c, group, keys) == c.overrides[keys[i]].timeMs.value
    ensures i == 0 && (keys[0] in c.overrides ==> c.overrides[keys[0]].timeMs == None) ==>
              EffectiveTime(c, group, keys) == c.limits.timeMs
  {
    var times := Times(c, keys);
    LastStatedOf(times, None, c.limits.timeMs);
    assert LastStated([None], LastStated(times, c.limits.timeMs)) == LastStated(times, c.limits.timeMs);
    assert forall j | 0 <= j < |keys| :: times[j] == Overlay(c, keys[j]).timeMs;
    NoneStated(times, c.limits.timeMs);
  }

  /** The same of memory. */
  lemma LastKeyWinsMemory(c: Config, group: nat, keys: seq<string>, i: nat)
    requires OfGroup(c.groups, group).memoryBytes == None && i < |keys|
    requires forall j | i < j < |keys| :: keys[j] in c.overrides ==> c.overrides[keys[j]].memoryBytes == None
    ensures keys[i] in c.overrides && c.overrides[keys[i]].memoryBytes.Some? ==>
              EffectiveMemory(c, group, keys) == c.overrides[keys[i]].memoryBytes.value
    ensures i == 0 && (keys[0] in c.overrides ==> c.overrides[keys[0]].memoryBytes == None) ==>
              EffectiveMemory(c, group, keys) == c.limits.memoryBytes
  {
    var memories := Memories(c, keys);
    LastStatedOf(memories, None, c.limits.memoryBytes);
    assert LastStated([None], LastStated(memories, c.limits.memoryBytes)) == LastStated(memories, c.limits.memoryBytes);
    assert forall j | 0 <= j < |keys| :: memories[j] == Overlay(c, keys[j]).memoryBytes;
    NoneStated(memories, c.limits.memoryBytes);
  }

  lemma {:induction false} NoneStated(values: seq<Option<nat>>, default: nat)
    ensures (forall i | 0 <= i < |values| :: values[i] == None) ==> LastStated(values, default) == default
  {
    if values != [] {
      NoneStated(values[..|values| - 1], default);
    }
  }

  /** And an override is what its own key says. */
  lemma OverlayIs(c: Config, key: string)
    ensures key in c.overrides ==> Overlay(c, key) == c.overrides[key]
    ensures key !in c.overrides ==> Overlay(c, key) == PartialLimits(None, None)
  {}

  /** **No accepted package runs a test under a limit of zero**, whatever the group and
      language. */
  lemma SoundLimitsArePositive(c: Config, group: nat, keys: seq<string>)
    requires Sound(c)
    ensures EffectiveTime(c, group, keys) > 0 && EffectiveMemory(c, group, keys) > 0
  {
    var own := OfGroup(c.groups, group);
    OfGroupIsOne(c.groups, group);
    assert own.timeMs != Some(0) && own.memoryBytes != Some(0);
    var times, memories := Times(c, keys) + [own.timeMs], Memories(c, keys) + [own.memoryBytes];
    assert forall i | 0 <= i < |keys| :: States(Overlay(c, keys[i]));
    assert Some(0) !in times && Some(0) !in memories;
  }

  /** An override for a family holds for every toolchain in it, except for the fields a
      toolchain's own override or the group states. */
  lemma MoreSpecificWins(c: Config, group: nat, family: string, toolchain: string)
    ensures EffectiveTime(c, group, [family, toolchain]) ==
              if OfGroup(c.groups, group).timeMs.Some? then OfGroup(c.groups, group).timeMs.value
              else if Overlay(c, toolchain).timeMs.Some? then Overlay(c, toolchain).timeMs.value
              else if Overlay(c, family).timeMs.Some? then Overlay(c, family).timeMs.value
              else c.limits.timeMs
    ensures EffectiveMemory(c, group, [family, toolchain]) ==
              if OfGroup(c.groups, group).memoryBytes.Some? then OfGroup(c.groups, group).memoryBytes.value
              else if Overlay(c, toolchain).memoryBytes.Some? then Overlay(c, toolchain).memoryBytes.value
              else if Overlay(c, family).memoryBytes.Some? then Overlay(c, family).memoryBytes.value
              else c.limits.memoryBytes
  {
    var f, t := Overlay(c, family), Overlay(c, toolchain);
    assert Times(c, [family, toolchain]) == [f.timeMs] + [t.timeMs];
    assert Memories(c, [family, toolchain]) == [f.memoryBytes] + [t.memoryBytes];
    LastOfThree(f.timeMs, t.timeMs, OfGroup(c.groups, group).timeMs, c.limits.timeMs);
    LastOfThree(f.memoryBytes, t.memoryBytes, OfGroup(c.groups, group).memoryBytes, c.limits.memoryBytes);
  }

  lemma LastOfThree(a: Option<nat>, b: Option<nat>, c: Option<nat>, default: nat)
    ensures LastStated([a] + [b] + [c], default) ==
              if c.Some? then c.value else if b.Some? then b.value else if a.Some? then a.value else default
  {
    LastStatedOf([a] + [b], c, default);
    LastStatedOf([a], b, default);
  }
}
