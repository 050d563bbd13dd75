/** The cache object of one Runner, and its eviction (aj-protocol/cache.rs).

    `Volume` is the filesystem several `Cache` values share. */
module Eviction {
  import opened Sequences
  import opened Sorting
  import opened SharedCache

  /** One entry of a listing: its bytes, the time of its last use (zero if it has none), and
      whether an unfinished product lies in it. */
  datatype Stored = Stored(file: string, size: nat, used: nat, working: bool)

  function Sum(list: seq<Stored>): nat {
    if list == [] then 0 else list[0].size + Sum(list[1..])
  }

  predicate OlderFirst(a: Stored, b: Stored) {
    a.used <= b.used
  }

  /** Neither written in nor held, and the host would remove it. */
  predicate Evictable(markers: set<Marker>, stuck: set<string>, e: Stored) {
    !e.working && !HeldByAnybody(markers, e.file) && e.file !in stuck
  }

  /** What is left of `list` when entries go in order while `total` is over the ceiling. */
  function Survivors(
      list: seq<Stored>, total: nat, max: nat, markers: set<Marker>, stuck: set<string>): (left: seq<Stored>)
    ensures forall e | e in left :: e in list
  {
    if list == [] || total <= max then list
    else if !Evictable(markers, stuck, list[0]) then [list[0]] + Survivors(list[1..], total, max, markers, stuck)
    else Survivors(list[1..], Less(total, list[0].size), max, markers, stuck)
  }

  function Less(total: nat, size: nat): nat {
    if total > size then total - size else 0
  }

  /** A listing costs what its entries cost, whoever holds them. */
  lemma {:induction false} SumIsSizes(a: seq<Stored>, e: Stored, b: seq<Stored>)
    ensures Sum([]) == 0
    ensures Sum(a + [e] + b) == Sum(a) + e.size + Sum(b)
  {
    if a == [] {
      assert ([] + [e] + b)[1..] == b;
    } else {
      SumIsSizes(a[1..], e, b);
      assert (a + [e] + b)[1..] == a[1..] + [e] + b;
    }
  }

  /** One entry further, with `kept` of those before it. */
  lemma SurvivorsNext(
      list: seq<Stored>, i: nat, kept: seq<Stored>, total: nat, max: nat, markers: set<Marker>,
      stuck: set<string>)
    requires i < |list| && total > max
    ensures kept + Survivors(list[i..], total, max, markers, stuck) ==
              if Evictable(markers, stuck, list[i])
              then kept + Survivors(list[i + 1..], Less(total, list[i].size), max, markers, stuck)
              else (kept + [list[i]]) + Survivors(list[i + 1..], total, max, markers, stuck)
  {
    var rest := list[i..];
    assert rest[0] == list[i] && rest[1..] == list[i + 1..];
    Assoc(kept, [list[i]], Survivors(list[i + 1..], total, max, markers, stuck));
  }

  lemma SumCons(e: Stored, rest: seq<Stored>)
    ensures Sum([e] + rest) == e.size + Sum(rest)
  {
    assert ([e] + rest)[1..] == rest;
  }

  /** Whoever goes is not in use, and whoever is in use stays. */
  lemma {:induction false} SurvivorsKeepUsed(
      list: seq<Stored>, total: nat, max: nat, markers: set<Marker>, stuck: set<string>, e: Stored)
    requires e in list && !Evictable(markers, stuck, e)
    ensures e in Survivors(list, total, max, markers, stuck)
  {
    if total > max && list[0] != e {
      assert e in list[1..];
      SurvivorsKeepUsed(list[1..], if Evictable(markers, stuck, list[0]) then Less(total, list[0].size) else total,
                        max, markers, stuck, e);
    }
  }

  /** The loop ends with the cache fitting or with nothing left that could go. */
  lemma {:induction false} SurvivorsFit(
      list: seq<Stored>, rest: nat, total: nat, max: nat, markers: set<Marker>, stuck: set<string>)
    requires total == rest + Sum(list)
    ensures var left := Survivors(list, total, max, markers, stuck);
            rest + Sum(left) <= max || forall i | 0 <= i < |left| :: !Evictable(markers, stuck, left[i])
  {
    if list == [] || total <= max {
    } else if !Evictable(markers, stuck, list[0]) {
      SurvivorsFit(list[1..], rest + list[0].size, total, max, markers, stuck);
      SumCons(list[0], Survivors(list[1..], total, max, markers, stuck));
    } else {
      SurvivorsFit(list[1..], rest, Less(total, list[0].size), max, markers, stuck);
    }
  }

  /** Oldest first: whatever went was wanted no later than anything left that could have gone. */
  lemma {:induction false} SurvivorsAreNewer(
      list: seq<Stored>, total: nat, max: nat, markers: set<Marker>, stuck: set<string>,
      gone: Stored, kept: Stored)
    requires Ordered(list, OlderFirst)
    requires gone in list && gone !in Survivors(list, total, max, markers, stuck)
    requires kept in Survivors(list, total, max, markers, stuck) && Evictable(markers, stuck, kept)
    ensures gone.used <= kept.used
  {
    var first, rest := list[0], list[1..];
    if Evictable(markers, stuck, first) {
      if gone in rest && gone !in Survivors(rest, Less(total, first.size), max, markers, stuck) {
        SurvivorsAreNewer(rest, Less(total, first.size), max, markers, stuck, gone, kept);
      } else {
        assert gone == first && kept in rest;
        var i :| 0 <= i < |rest| && rest[i] == kept;
        assert OlderFirst(list[0], list[i + 1]);
      }
    } else {
      SurvivorsAreNewer(rest, total, max, markers, stuck, gone, kept);
    }
  }

  /** The entries that an eviction passes over however long it goes on. */
  function Spared(list: seq<Stored>, markers: set<Marker>, stuck: set<string>): (spared: seq<Stored>)
    ensures forall e | e in spared :: !Evictable(markers, stuck, e)
  {
    if list == [] then []
    else if Evictable(markers, stuck, list[0]) then Spared(list[1..], markers, stuck)
    else [list[0]] + Spared(list[1..], markers, stuck)
  }

  /** **Only while over**: what goes is exactly the evictable part of the first `k` entries,
      and putting back only the last of them would be over the ceiling again. */
  lemma {:induction false} SurvivorsAreMost(
      list: seq<Stored>, rest: nat, total: nat, max: nat, markers: set<Marker>, stuck: set<string>)
    returns (k: nat)
    requires total == rest + Sum(list)
    ensures k <= |list|
    ensures Survivors(list, total, max, markers, stuck) == Spared(list[..k], markers, stuck) + list[k..]
    ensures k > 0 ==> Evictable(markers, stuck, list[k - 1])
    ensures k > 0 ==> rest + Sum(Survivors(list, total, max, markers, stuck)) + list[k - 1].size > max
  {
    if list == [] || total <= max {
      k := 0;
      NothingSpared(list, markers, stuck);
    } else {
      var first, later := list[0], list[1..];
      assert list == [first] + later;
      NothingSpared(later, markers, stuck);
      if Evictable(markers, stuck, first) {
        var j := SurvivorsAreMost(later, rest, Less(total, first.size), max, markers, stuck);
        SparedCons(first, later, j, markers, stuck);
        k := j + 1;
      } else {
        var j := SurvivorsAreMost(later, rest + first.size, total, max, markers, stuck);
        SparedCons(first, later, j, markers, stuck);
        SumCons(first, Survivors(later, total, max, markers, stuck));
        k := if j == 0 then 0 else j + 1;
        NothingSpared(list, markers, stuck);
      }
    }
  }

  lemma NothingSpared(list: seq<Stored>, markers: set<Marker>, stuck: set<string>)
    ensures Spared(list[..0], markers, stuck) + list[0..] == list
  {
    assert list[..0] == [];
  }

  /** What one entry more in front makes of the spared of the first, with the rest behind. */
  lemma SparedCons(first: Stored, later: seq<Stored>, j: nat, markers: set<Marker>, stuck: set<string>)
    requires j <= |later|
    ensures var list, behind := [first] + later, Spared(later[..j], markers, stuck) + later[j..];
            Spared(list[..j + 1], markers, stuck) + list[j + 1..] ==
              if Evictable(markers, stuck, first) then behind else [first] + behind
  {
    var list := [first] + later;
    assert list[..j + 1] == [first] + later[..j] && list[j + 1..] == later[j..];
    assert ([first] + later[..j])[1..] == later[..j];
    Assoc([first], Spared(later[..j], markers, stuck), later[j..]);
  }

  /** So an evictable entry that stands among the first `k` has gone. */
  lemma GoneFromFront(list: seq<Stored>, k: nat, markers: set<Marker>, stuck: set<string>, gone: Stored)
    requires k <= |list| && gone in list[..k] && Evictable(markers, stuck, gone)
    ensures multiset(Spared(list[..k], markers, stuck) + list[k..])[gone] < multiset(list)[gone]
  {
    assert list == list[..k] + list[k..];
    assert gone !in multiset(Spared(list[..k], markers, stuck));
    assert gone in multiset(list[..k]);
  }

  /** What is on disk that every Runner's cache sees. */
  class Volume {
    var markers: set<Marker>
    var partials: set<Marker>
    var stored: seq<Stored>

    constructor (markers: set<Marker>, partials: set<Marker>, stored: seq<Stored>)
      ensures this.markers == markers && this.partials == partials && this.stored == stored
    {
      this.markers, this.partials, this.stored := markers, partials, stored;
    }
  }

  class Cache {
    const volume: Volume
    const instance: string
    const maxBytes: nat
    var inUse: map<string, nat>

    /** Every positive count has its marker, and no count is kept at zero. */
    ghost predicate Valid()
      reads this, volume
    {
      forall f | f in inUse :: inUse[f] > 0 && Marker(f, instance) in volume.markers
    }

    constructor (volume: Volume, instance: string, maxBytes: nat)
      ensures this.volume == volume && this.instance == instance && this.maxBytes == maxBytes
      ensures Valid() && inUse == map[]
    {
      this.volume, this.instance, this.maxBytes, inUse := volume, instance, maxBytes, map[];
    }

    method Hold(file: string)
      requires Valid()
      modifies this`inUse, volume`markers
      ensures Valid()
      ensures inUse == CountUp(old(inUse), file)
      ensures volume.markers == MarkUp(old(volume.markers), old(inUse), Marker(file, instance))
      ensures volume.markers == old(volume.markers) + {Marker(file, instance)}
    {
      var holders := Holders(inUse, file) + 1;
      inUse := inUse[file := holders];
      if holders == 1 {
        volume.markers := volume.markers + {Marker(file, instance)};
      }
    }

    method Release(file: string)
      requires Valid()
      modifies this`inUse, volume`markers
      ensures Valid()
      ensures inUse == CountDown(old(inUse), file)
      ensures volume.markers == MarkDown(old(volume.markers), old(inUse), Marker(file, instance))
    {
      if file !in inUse {
        return;
      }
      var holders := inUse[file] - 1;
      inUse := inUse[file := holders];
      if holders == 0 {
        inUse := inUse - {file};
        volume.markers := volume.markers - {Marker(file, instance)};
      }
    }

    method IsHeld(file: string) returns (held: bool)
      ensures held == HeldByAnybody(volume.markers, file)
    {
      var left := volume.markers;
      while left != {}
        invariant left <= volume.markers
        invariant forall m | m in volume.markers && m !in left :: m.file != file
      {
        var m :| m in left;
        if m.file == file {
          return true;
        }
        left := left - {m};
      }
      return false;
    }

    /** A hold and its release leave everything as it was, however many others hold. */
    method HoldAndRelease(file: string)
      requires Valid() && (file !in inUse ==> Marker(file, instance) !in volume.markers)
      modifies this`inUse, volume`markers
      ensures inUse == old(inUse) && volume.markers == old(volume.markers)
    {
      Hold(file);
      Release(file);
    }

    /** Leaves no marker of this instance, and none of its unfinished work outside entries that
        some other instance has marked; every other marker and partial stays. */
    method Sweep() returns (cleared: nat)
      requires Valid() && inUse == map[]
      modifies volume`markers, volume`partials
      ensures Valid()
      ensures volume.markers == set m | m in old(volume.markers) && m.instance != instance
      ensures volume.partials == set m | m in old(volume.partials)
                                   && (m.instance != instance || HeldByAnybody(volume.markers, m.file))
      ensures cleared == |set m | m in old(volume.markers) && m.instance == instance|
    {
      cleared := 0;
      var holds := volume.markers;
      ghost var was, mine: set<Marker> := volume.markers, {};
      while holds != {}
        invariant holds <= was && volume.partials == old(volume.partials)
        invariant volume.markers == was - mine
        invariant mine == set m | m in was && m !in holds && m.instance == instance
        invariant cleared == |mine|
      {
        var m :| m in holds;
        holds := holds - {m};
        if m.instance == instance {
          volume.markers := volume.markers - {m};
          cleared := cleared + 1;
          mine := mine + {m};
        }
      }
      assert mine == set m | m in was && m.instance == instance;
      var work := volume.partials;
      ghost var unfinished := volume.partials;
      while work != {}
        invariant work <= unfinished
        invariant volume.markers == was - mine
        invariant volume.partials == set m | m in unfinished
                    && (m in work || m.instance != instance || HeldByAnybody(volume.markers, m.file))
      {
        var m :| m in work;
        work := work - {m};
        var held := IsHeld(m.file);
        if !held && m.instance == instance {
          volume.partials := volume.partials - {m};
        }
      }
      assert volume.markers == set m | m in was && m.instance != instance;
      assert volume.partials == set m | m in unfinished
                                && (m.instance != instance || HeldByAnybody(volume.markers, m.file));
    }

    /** Leaves everything where it fits, and otherwise the survivors of one pass over the
        entries by age.  `stuck` names the entries whose removal the host refuses. */
    method EvictToFit(stuck: set<string>)
      modifies volume`stored
      ensures Sum(old(volume.stored)) <= maxBytes ==> volume.stored == old(volume.stored)
      ensures Sum(old(volume.stored)) > maxBytes ==>
                volume.stored == LeftBy(old(volume.stored), maxBytes, volume.markers, stuck)
    {
      var total: nat := Sum(volume.stored);
      if total <= maxBytes {
        return;
      }
      var list := Sort(volume.stored, OlderFirst);
      ghost var over: nat := total;
      ghost var markers := volume.markers;
      var kept: seq<Stored> := [];
      var i := 0;
      while i < |list|
        invariant 0 <= i <= |list|
        invariant volume.markers == markers
        invariant kept + Survivors(list[i..], total, maxBytes, markers, stuck)
               == Survivors(list, over, maxBytes, markers, stuck)
      {
        if total <= maxBytes {
          break;
        }
        var e := list[i];
        SurvivorsNext(list, i, kept, total, maxBytes, markers, stuck);
        if e.working {
          kept := kept + [e];
        } else {
          var held := IsHeld(e.file);
          if held || e.file in stuck {
            kept := kept + [e];
          } else {
            total := Less(total, e.size);
          }
        }
        i := i + 1;
      }
      volume.stored := kept + list[i..];
    }
  }

  lemma {:induction false} SumOfInsert(x: Stored, s: seq<Stored>)
    ensures Sum(Insert(x, s, OlderFirst)) == x.size + Sum(s)
  {
    if s == [] {
    } else if OlderFirst(x, s[0]) {
      assert ([x] + s)[1..] == s;
    } else {
      SumOfInsert(x, s[1..]);
      assert ([s[0]] + Insert(x, s[1..], OlderFirst))[1..] == Insert(x, s[1..], OlderFirst);
    }
  }

  lemma {:induction false} SumOfSorted(s: seq<Stored>)
    ensures Sum(Sort(s, OlderFirst)) == Sum(s)
  {
    if s != [] {
      SumOfSorted(s[1..]);
      SumOfInsert(s[0], Sort(s[1..], OlderFirst));
    }
  }

  /** The entries an eviction leaves, of these contents under this ceiling. */
  function LeftBy(stored: seq<Stored>, max: nat, markers: set<Marker>, stuck: set<string>): seq<Stored> {
    Survivors(Sort(stored, OlderFirst), Sum(stored), max, markers, stuck)
  }

  /** Some Runner has left a marker for the file. */
  ghost predicate Marks(markers: set<Marker>, file: string) {
    exists i :: Marker(file, i) in markers
  }

  lemma MarksIsHeld(markers: set<Marker>, file: string)
    ensures Marks(markers, file) <==> HeldByAnybody(markers, file)
  {
    if HeldByAnybody(markers, file) {
      var m :| m in markers && m.file == file;
      assert m == Marker(file, m.instance);
    }
    if Marks(markers, file) {
      var i :| Marker(file, i) in markers;
      assert Marker(file, i).file == file;
    }
  }

  /** **What an eviction leaves fits, or nothing more could go**: all of it is being written,
      marked, or not to be removed. */
  lemma EvictionFits(stored: seq<Stored>, max: nat, markers: set<Marker>, stuck: set<string>)
    ensures var left := LeftBy(stored, max, markers, stuck);
            Sum(left) <= max || forall e | e in left :: e.working || e.file in stuck || Marks(markers, e.file)
  {
    var left := LeftBy(stored, max, markers, stuck);
    forall e | e in left
      ensures Evictable(markers, stuck, e) || e.working || e.file in stuck || Marks(markers, e.file)
    {
      MarksIsHeld(markers, e.file);
    }
    SumOfSorted(stored);
    SurvivorsFit(Sort(stored, OlderFirst), 0, Sum(stored), max, markers, stuck);
  }

  /** **Nothing in use goes**, and nothing is there that was not. */
  lemma EvictionSparesUsed(stored: seq<Stored>, max: nat, markers: set<Marker>, stuck: set<string>, e: Stored)
    ensures e in LeftBy(stored, max, markers, stuck) ==> e in stored
    ensures e in stored && (e.working || e.file in stuck || Marks(markers, e.file)) ==>
              e in LeftBy(stored, max, markers, stuck)
  {
    MarksIsHeld(markers, e.file);
    SameElements(Sort(stored, OlderFirst), stored);
    if e in stored && !Evictable(markers, stuck, e) {
      SurvivorsKeepUsed(Sort(stored, OlderFirst), Sum(stored), max, markers, stuck, e);
    }
  }

  /** Whatever went is what the shared machine lets any Runner evict, file by file. */
  lemma EvictionIsAllowed(
      w: World, s: State, i: string, stored: seq<Stored>, max: nat, stuck: set<string>,
      gone: Stored)
    requires gone in stored && gone !in LeftBy(stored, max, s.disk.markers, stuck)
    ensures Can(w, s, i, Evict(gone.file))
  {
    EvictionSparesUsed(stored, max, s.disk.markers, stuck, gone);
  }

  lemma OlderFirstIsTotal()
    ensures Total(OlderFirst)
  {}

  /** **Oldest first**: nothing went while something older that could have gone remains. */
  lemma EvictionIsOldestFirst(
      stored: seq<Stored>, max: nat, markers: set<Marker>, stuck: set<string>, gone: Stored,
      kept: Stored)
    requires gone in stored && gone !in LeftBy(stored, max, markers, stuck)
    requires kept in LeftBy(stored, max, markers, stuck)
    requires !kept.working && kept.file !in stuck && !Marks(markers, kept.file)
    ensures gone.used <= kept.used
  {
    MarksIsHeld(markers, kept.file);
    SameElements(Sort(stored, OlderFirst), stored);
    OlderFirstIsTotal();
    SortOrders(stored, OlderFirst, OlderFirst);
    SurvivorsAreNewer(Sort(stored, OlderFirst), Sum(stored), max, markers, stuck, gone, kept);
  }

  /** **Only while over**: what went is exactly the evictable part of the `k` entries that
      were used longest ago, and with only the last of those put back the ceiling is passed. */
  lemma EvictionIsNeeded(stored: seq<Stored>, max: nat, markers: set<Marker>, stuck: set<string>)
    returns (k: nat)
    ensures var byAge, left := Sort(stored, OlderFirst), LeftBy(stored, max, markers, stuck);
            && k <= |byAge| && left == Spared(byAge[..k], markers, stuck) + byAge[k..]
            && (k == 0 <==> left == byAge)
            && (k > 0 ==>
                  var gone := byAge[k - 1];
                  && gone in stored && !gone.working && gone.file !in stuck && !Marks(markers, gone.file)
                  && multiset(left)[gone] < multiset(stored)[gone]
                  && Sum(left) + gone.size > max)
  {
    var byAge := Sort(stored, OlderFirst);
    SumOfSorted(stored);
    SameElements(byAge, stored);
    k := SurvivorsAreMost(byAge, 0, Sum(stored), max, markers, stuck);
    if k == 0 {
      NothingSpared(byAge, markers, stuck);
    } else {
      assert byAge[k - 1] in byAge[..k];
      MarksIsHeld(markers, byAge[k - 1].file);
      GoneFromFront(byAge, k, markers, stuck, byAge[k - 1]);
    }
  }
}
