/** Several Runners on one cache volume (aj-protocol/cache.rs).

    A state machine over any number of Runners.  What they share is the filesystem:
    holding markers, unfinished downloads under per-Runner names, and published files.
    Each keeps a count of holders per file in memory, and nothing else is shared.

    `hold`, `release` and "not held by anybody, so remove the entry" are single steps;
    in the source each is a few filesystem calls that another process could come between. */
module SharedCache {
  import opened Text

  /** What is true for good: the digest, and the checksum the Server promises per file id. */
  datatype World = World(hash: seq<byte> -> string, promised: string -> string)

  /** A file, and a Runner that has it marked as held. */
  datatype Marker = Marker(file: string, instance: string)

  datatype Stage = Fetching | Handed

  /** A live `Entry` value: which file, and whether `fetch` has returned it yet. */
  datatype Entry = Entry(file: string, stage: Stage)

  /** A download in progress: the entry it is for, every byte that arrived, and whether
      the checksum of those bytes has been found to match. */
  datatype Download = Download(entry: nat, received: seq<byte>, verified: bool)

  datatype Runner =
    | Down
    | Sweeping
    | Up(inUse: map<string, nat>, entries: map<nat, Entry>, downloads: map<string, Download>)

  datatype Disk = Disk(markers: set<Marker>, files: map<string, seq<byte>>, partials: map<Marker, seq<byte>>)

  datatype State = State(disk: Disk, runners: map<string, Runner>)

  datatype Action =
    | Start
    | ClearMarker(file: string)
    | ClearPartial(file: string)
    | Ready
    | Fetch(file: string, entry: nat)
    | Hit(entry: nat)
    | Miss(entry: nat)
    | Chunk(file: string, bytes: seq<byte>)
    | Verify(file: string)
    | Refuse(file: string)
    | Fail(file: string)
    | Rename(file: string)
    | Drop(entry: nat)
    | Evict(file: string)
    | Crash

  // ---- what hold and release do

  function Holders(inUse: map<string, nat>, file: string): nat {
    if file in inUse then inUse[file] else 0
  }

  function CountUp(inUse: map<string, nat>, file: string): map<string, nat> {
    inUse[file := Holders(inUse, file) + 1]
  }

  function CountDown(inUse: map<string, nat>, file: string): map<string, nat> {
    if file !in inUse || inUse[file] == 0 then inUse
    else if inUse[file] == 1 then inUse - {file}
    else inUse[file := inUse[file] - 1]
  }

  /** A marker is written when the count leaves zero. */
  function MarkUp(markers: set<Marker>, inUse: map<string, nat>, m: Marker): set<Marker> {
    if Holders(inUse, m.file) == 0 then markers + {m} else markers
  }

  /** And removed when it returns there. */
  function MarkDown(markers: set<Marker>, inUse: map<string, nat>, m: Marker): set<Marker> {
    if Holders(inUse, m.file) == 1 then markers - {m} else markers
  }

  predicate HeldByAnybody(markers: set<Marker>, file: string) {
    exists m :: m in markers && m.file == file
  }

  /** What a descriptor at offset `at` leaves in a file: bytes over it, zeros before it. */
  function WriteAt(content: seq<byte>, at: nat, bytes: seq<byte>): seq<byte> {
    var reach := if |content| < at then content + seq(at - |content|, _ => 0) else content;
    reach[..at] + bytes + (if at + |bytes| < |reach| then reach[at + |bytes|..] else [])
  }

  // ---- steps

  /** Runner `i` may do this now. */
  predicate Can(w: World, s: State, i: string, a: Action) {
    if a.Evict? then !HeldByAnybody(s.disk.markers, a.file)
    else if a.Start? then i !in s.runners || s.runners[i].Down?
    else if i !in s.runners then false
    else if a.ClearMarker? then s.runners[i].Sweeping?
    else if a.ClearPartial? then s.runners[i].Sweeping? && !HeldByAnybody(s.disk.markers, a.file)
    else if a.Ready? then s.runners[i].Sweeping? && forall m | m in s.disk.markers :: m.instance != i
    else if a.Crash? then !s.runners[i].Down?
    else s.runners[i].Up? && CanUp(w, s.disk, s.runners[i], a)
  }

  predicate CanUp(w: World, d: Disk, r: Runner, a: Action)
    requires r.Up?
  {
    match a
    case Fetch(_, e) => e !in r.entries
    case Hit(e) => IsFetching(r, e) && r.entries[e].file in d.files
    case Miss(e) => IsFetching(r, e) && r.entries[e].file !in d.files && r.entries[e].file !in r.downloads
    case Chunk(f, _) => f in r.downloads && !r.downloads[f].verified
    case Verify(f) => f in r.downloads && w.hash(r.downloads[f].received) == w.promised(f)
    case Refuse(f) => f in r.downloads && !r.downloads[f].verified && w.hash(r.downloads[f].received) != w.promised(f)
    case Fail(f) => f in r.downloads && !r.downloads[f].verified
    case Rename(f) => f in r.downloads && r.downloads[f].verified
    case Drop(e) => e in r.entries && forall f | f in r.downloads :: r.downloads[f].entry != e
    case _ => false
  }

  /** An entry `fetch` has neither returned nor begun to download. */
  predicate IsFetching(r: Runner, e: nat)
    requires r.Up?
  {
    e in r.entries && r.entries[e].stage.Fetching? && forall f | f in r.downloads :: r.downloads[f].entry != e
  }

  function Do(w: World, s: State, i: string, a: Action): State
    requires Can(w, s, i, a)
  {
    var d := s.disk;
    match a
    case Start => s.(runners := s.runners[i := Sweeping])
    case ClearMarker(f) => s.(disk := d.(markers := d.markers - {Marker(f, i)}))
    case ClearPartial(f) => s.(disk := d.(partials := d.partials - {Marker(f, i)}))
    case Ready => s.(runners := s.runners[i := Up(map[], map[], map[])])
    case Crash => s.(runners := s.runners[i := Down])
    case Evict(f) => s.(disk := Evicted(d, f))
    case _ => State(DiskAfter(w, d, i, s.runners[i], a), s.runners[i := RunnerAfter(w, d, i, s.runners[i], a)])
  }

  /** A whole entry goes: the file and whatever was unfinished in it. */
  function Evicted(d: Disk, f: string): Disk {
    d.(files := d.files - {f}, partials := map m | m in d.partials && m.file != f :: d.partials[m])
  }

  function Released(r: Runner, e: nat): Runner
    requires r.Up? && e in r.entries
  {
    r.(inUse := CountDown(r.inUse, r.entries[e].file), entries := r.entries - {e})
  }

  function RunnerAfter(w: World, d: Disk, i: string, r: Runner, a: Action): Runner
    requires r.Up? && CanUp(w, d, r, a)
  {
    match a
    case Fetch(f, e) => r.(inUse := CountUp(r.inUse, f), entries := r.entries[e := Entry(f, Fetching)])
    case Hit(e) => r.(entries := r.entries[e := r.entries[e].(stage := Handed)])
    case Miss(e) => r.(downloads := r.downloads[r.entries[e].file := Download(e, [], false)])
    case Chunk(f, b) => r.(downloads := r.downloads[f := r.downloads[f].(received := r.downloads[f].received + b)])
    case Verify(f) => r.(downloads := r.downloads[f := r.downloads[f].(verified := true)])
    case Refuse(f) => Ended(r, f)
    case Fail(f) => Ended(r, f)
    case Rename(f) =>
      if Marker(f, i) !in d.partials then Ended(r, f)
      else
        var e := r.downloads[f].entry;
        r.(downloads := r.downloads - {f},
           entries := if e in r.entries then r.entries[e := r.entries[e].(stage := Handed)] else r.entries)
    case Drop(e) => Released(r, e)
    case _ => r
  }

  /** A download that came to nothing: `fetch` returns an error and its entry is dropped. */
  function Ended(r: Runner, f: string): Runner
    requires r.Up? && f in r.downloads
  {
    var e, without := r.downloads[f].entry, r.(downloads := r.downloads - {f});
    if e in r.entries then Released(without, e) else without
  }

  function DiskAfter(w: World, d: Disk, i: string, r: Runner, a: Action): Disk
    requires r.Up? && CanUp(w, d, r, a)
  {
    match a
    case Fetch(f, _) => d.(markers := MarkUp(d.markers, r.inUse, Marker(f, i)))
    case Miss(e) => d.(partials := d.partials[Marker(r.entries[e].file, i) := []])
    case Chunk(f, b) =>
      if Marker(f, i) in d.partials
      then d.(partials := d.partials[Marker(f, i) := WriteAt(d.partials[Marker(f, i)], |r.downloads[f].received|, b)])
      else d
    case Refuse(f) => Unmarked(d.(partials := d.partials - {Marker(f, i)}), i, r, r.downloads[f].entry)
    case Fail(f) => Unmarked(d, i, r, r.downloads[f].entry)
    case Rename(f) =>
      if Marker(f, i) in d.partials
      then d.(files := d.files[f := d.partials[Marker(f, i)]], partials := d.partials - {Marker(f, i)})
      else Unmarked(d, i, r, r.downloads[f].entry)
    case Drop(e) => Unmarked(d, i, r, e)
    case _ => d
  }

  function Unmarked(d: Disk, i: string, r: Runner, e: nat): Disk
    requires r.Up?
  {
    if e in r.entries then d.(markers := MarkDown(d.markers, r.inUse, Marker(r.entries[e].file, i))) else d
  }

  // ---- what every step keeps

  /** The live `Entry` values of one file. */
  function LiveOf(entries: map<nat, Entry>, file: string): set<nat> {
    set e | e in entries && entries[e].file == file
  }

  /** The count in memory is the number of live `Entry` values, file by file. */
  ghost predicate Counted(r: Runner)
    requires r.Up?
  {
    && (forall f :: Holders(r.inUse, f) == |LiveOf(r.entries, f)|)
    && (forall f | f in r.inUse :: r.inUse[f] > 0)
  }

  /** A file is marked by a Runner exactly while it counts a holder of it. */
  ghost predicate Marked(d: Disk, i: string, r: Runner)
    requires r.Up?
  {
    forall f :: f in r.inUse <==> Marker(f, i) in d.markers
  }

  /** What `fetch` has handed out is there. */
  ghost predicate Present(d: Disk, r: Runner)
    requires r.Up?
  {
    forall e | e in r.entries && r.entries[e].stage.Handed? :: r.entries[e].file in d.files
  }

  /** Each partial holds exactly the bytes its download has received, under this Runner's name. */
  ghost predicate Streamed(w: World, d: Disk, i: string, r: Runner)
    requires r.Up?
  {
    forall f | f in r.downloads ::
      var g := r.downloads[f];
      && g.entry in r.entries && r.entries[g.entry] == Entry(f, Fetching)
      && Marker(f, i) in d.partials && d.partials[Marker(f, i)] == g.received
      && (g.verified ==> w.hash(g.received) == w.promised(f))
  }

  ghost predicate RunnerInv(w: World, d: Disk, i: string, r: Runner) {
    r.Up? ==> Counted(r) && Marked(d, i, r) && Present(d, r) && Streamed(w, d, i, r)
  }

  /** Every published file is the bytes whose checksum was promised. */
  ghost predicate FilesTrue(w: World, d: Disk) {
    forall f | f in d.files :: w.hash(d.files[f]) == w.promised(f)
  }

  ghost predicate Inv(w: World, s: State) {
    FilesTrue(w, s.disk) && forall i | i in s.runners :: RunnerInv(w, s.disk, i, s.runners[i])
  }

  lemma LiveMore(entries: map<nat, Entry>, e: nat, f: string, stage: Stage)
    requires e !in entries
    ensures forall g :: |LiveOf(entries[e := Entry(f, stage)], g)| == |LiveOf(entries, g)| + (if g == f then 1 else 0)
  {
    forall g
      ensures |LiveOf(entries[e := Entry(f, stage)], g)| == |LiveOf(entries, g)| + (if g == f then 1 else 0)
    {
      var after := LiveOf(entries[e := Entry(f, stage)], g);
      assert after == if g == f then LiveOf(entries, g) + {e} else LiveOf(entries, g);
    }
  }

  lemma LiveLess(entries: map<nat, Entry>, e: nat)
    requires e in entries
    ensures forall g :: |LiveOf(entries - {e}, g)| == |LiveOf(entries, g)| - (if g == entries[e].file then 1 else 0)
  {
    forall g
      ensures |LiveOf(entries - {e}, g)| == |LiveOf(entries, g)| - (if g == entries[e].file then 1 else 0)
    {
      assert LiveOf(entries - {e}, g) == if g == entries[e].file then LiveOf(entries, g) - {e} else LiveOf(entries, g);
    }
  }

  lemma LiveSame(entries: map<nat, Entry>, e: nat, stage: Stage)
    requires e in entries
    ensures forall g :: LiveOf(entries[e := entries[e].(stage := stage)], g) == LiveOf(entries, g)
  {}

  /** A live entry is held: its file cannot be chosen for eviction. */
  lemma LiveIsHeld(w: World, d: Disk, i: string, r: Runner, e: nat)
    requires RunnerInv(w, d, i, r) && r.Up? && e in r.entries
    ensures Marker(r.entries[e].file, i) in d.markers
    ensures HeldByAnybody(d.markers, r.entries[e].file)
  {
    var f := r.entries[e].file;
    assert e in LiveOf(r.entries, f);
    assert Holders(r.inUse, f) > 0;
    assert Marker(f, i).file == f;
  }

  /** Another Runner's invariant rests only on its own markers, its own partials, and the
      files it holds. */
  lemma OthersKeep(w: World, d: Disk, after: Disk, j: string, r: Runner)
    requires RunnerInv(w, d, j, r)
    requires forall f :: Marker(f, j) in d.markers <==> Marker(f, j) in after.markers
    requires forall f | Marker(f, j) in d.partials && HeldByAnybody(d.markers, f) ::
               Marker(f, j) in after.partials && after.partials[Marker(f, j)] == d.partials[Marker(f, j)]
    requires forall f | f in d.files && HeldByAnybody(d.markers, f) :: f in after.files
    ensures RunnerInv(w, after, j, r)
  {
    if r.Up? {
      forall e | e in r.entries ensures HeldByAnybody(d.markers, r.entries[e].file) {
        LiveIsHeld(w, d, j, r, e);
      }
    }
  }

  lemma WriteAtEnd(content: seq<byte>, bytes: seq<byte>)
    ensures WriteAt(content, |content|, bytes) == content + bytes
  {
    assert content[..|content|] == content;
  }

  lemma ReleaseKeeps(w: World, d: Disk, i: string, r: Runner, e: nat)
    requires RunnerInv(w, d, i, r) && r.Up? && e in r.entries
    requires forall f | f in r.downloads :: r.downloads[f].entry != e
    ensures RunnerInv(w, Unmarked(d, i, r, e), i, Released(r, e))
  {
    var f := r.entries[e].file;
    LiveLess(r.entries, e);
    assert e in LiveOf(r.entries, f);
    var after := Released(r, e);
    forall g ensures Holders(after.inUse, g) == |LiveOf(after.entries, g)| {
      assert Holders(r.inUse, g) == |LiveOf(r.entries, g)|;
    }
  }

  /** A download that ends leaves an entry nothing else is downloading for. */
  lemma EndedKeeps(w: World, d: Disk, i: string, r: Runner, f: string)
    requires RunnerInv(w, d, i, r) && r.Up? && f in r.downloads
    ensures RunnerInv(w, Unmarked(d, i, r, r.downloads[f].entry), i, Ended(r, f))
    ensures var cleared := d.(partials := d.partials - {Marker(f, i)});
            RunnerInv(w, Unmarked(cleared, i, r, r.downloads[f].entry), i, Ended(r, f))
  {
    var e := r.downloads[f].entry;
    var without := r.(downloads := r.downloads - {f});
    assert r.entries[e] == Entry(f, Fetching);
    forall g | g in without.downloads ensures without.downloads[g].entry != e {
      assert r.entries[r.downloads[g].entry] == Entry(g, Fetching);
    }
    var cleared := d.(partials := d.partials - {Marker(f, i)});
    assert RunnerInv(w, d, i, without);
    assert RunnerInv(w, cleared, i, without);
    ReleaseKeeps(w, d, i, without, e);
    ReleaseKeeps(w, cleared, i, without, e);
  }

  lemma OwnStepKeeps(w: World, d: Disk, i: string, r: Runner, a: Action)
    requires RunnerInv(w, d, i, r) && FilesTrue(w, d) && r.Up? && CanUp(w, d, r, a)
    ensures RunnerInv(w, DiskAfter(w, d, i, r, a), i, RunnerAfter(w, d, i, r, a))
    ensures FilesTrue(w, DiskAfter(w, d, i, r, a))
  {
    match a
    case Fetch(f, e) => FetchKeeps(w, d, i, r, f, e);
    case Hit(e) => LiveSame(r.entries, e, Handed);
    case Miss(e) =>
    case Chunk(f, b) => WriteAtEnd(r.downloads[f].received, b);
    case Verify(f) =>
    case Refuse(f) => EndedKeeps(w, d, i, r, f);
    case Fail(f) => EndedKeeps(w, d, i, r, f);
    case Rename(f) => RenameKeeps(w, d, i, r, f);
    case Drop(e) => ReleaseKeeps(w, d, i, r, e);
    case _ =>
  }

  lemma FetchKeeps(w: World, d: Disk, i: string, r: Runner, f: string, e: nat)
    requires RunnerInv(w, d, i, r) && r.Up? && CanUp(w, d, r, Fetch(f, e))
    ensures RunnerInv(w, DiskAfter(w, d, i, r, Fetch(f, e)), i, RunnerAfter(w, d, i, r, Fetch(f, e)))
  {
    LiveMore(r.entries, e, f, Fetching);
    var after := RunnerAfter(w, d, i, r, Fetch(f, e));
    forall g ensures Holders(after.inUse, g) == |LiveOf(after.entries, g)| {
      assert Holders(r.inUse, g) == |LiveOf(r.entries, g)|;
    }
  }

  lemma RenameKeeps(w: World, d: Disk, i: string, r: Runner, f: string)
    requires RunnerInv(w, d, i, r) && FilesTrue(w, d) && r.Up? && CanUp(w, d, r, Rename(f))
    ensures RunnerInv(w, DiskAfter(w, d, i, r, Rename(f)), i, RunnerAfter(w, d, i, r, Rename(f)))
    ensures FilesTrue(w, DiskAfter(w, d, i, r, Rename(f)))
  {
    var e := r.downloads[f].entry;
    LiveSame(r.entries, e, Handed);
    forall g | g in r.downloads && g != f ensures r.downloads[g].entry != e {
      assert r.entries[r.downloads[g].entry] == Entry(g, Fetching);
    }
  }

  /** Another Runner's step leaves this one's markers and partials alone, and takes no
      file anybody holds. */
  lemma StepSpares(w: World, s: State, i: string, a: Action, j: string)
    requires Can(w, s, i, a) && j != i
    ensures var d, after := s.disk, Do(w, s, i, a).disk;
            && (forall f :: Marker(f, j) in d.markers <==> Marker(f, j) in after.markers)
            && (forall f | Marker(f, j) in d.partials && HeldByAnybody(d.markers, f) ::
                  Marker(f, j) in after.partials && after.partials[Marker(f, j)] == d.partials[Marker(f, j)])
            && (forall f | f in d.files && HeldByAnybody(d.markers, f) :: f in after.files)
  {}

  lemma EvictSpares(w: World, s: State, i: string, f: string, j: string)
    requires Inv(w, s) && Can(w, s, i, Evict(f)) && j in s.runners
    ensures RunnerInv(w, Evicted(s.disk, f), j, s.runners[j])
  {
    OthersKeep(w, s.disk, Evicted(s.disk, f), j, s.runners[j]);
  }

  /** **Every step of every Runner keeps the invariant.** */
  lemma StepKeeps(w: World, s: State, i: string, a: Action)
    requires Inv(w, s) && Can(w, s, i, a)
    ensures Inv(w, Do(w, s, i, a))
  {
    var t := Do(w, s, i, a);
    if a.Evict? {
      forall j | j in s.runners ensures RunnerInv(w, t.disk, j, t.runners[j]) {
        EvictSpares(w, s, i, a.file, j);
      }
    } else {
      if i in s.runners && s.runners[i].Up? && !a.Crash? {
        assert RunnerInv(w, s.disk, i, s.runners[i]);
        OwnStepKeeps(w, s.disk, i, s.runners[i], a);
      }
      forall j | j in t.runners && j != i ensures RunnerInv(w, t.disk, j, t.runners[j]) {
        StepSpares(w, s, i, a, j);
        OthersKeep(w, s.disk, t.disk, j, s.runners[j]);
      }
      assert i in t.runners ==> RunnerInv(w, t.disk, i, t.runners[i]);
    }
  }

  ghost predicate Runs(w: World, s: State, steps: seq<(string, Action)>, t: State)
    decreases |steps|
  {
    if steps == [] then s == t
    else
      var (i, a) := steps[0];
      Can(w, s, i, a) && Runs(w, Do(w, s, i, a), steps[1..], t)
  }

  /** A volume before any Runner is up: true files, and whatever markers and unfinished
      downloads earlier Runners left. */
  ghost predicate Boot(w: World, s: State) {
    FilesTrue(w, s.disk) && forall i | i in s.runners :: s.runners[i].Down?
  }

  lemma {:induction false} InvHolds(w: World, s: State, steps: seq<(string, Action)>, t: State)
    requires Inv(w, s) && Runs(w, s, steps, t)
    ensures Inv(w, t)
    decreases |steps|
  {
    if steps != [] {
      StepKeeps(w, s, steps[0].0, steps[0].1);
      InvHolds(w, Do(w, s, steps[0].0, steps[0].1), steps[1..], t);
    }
  }

  /** **In every reachable state** each Runner's count is its live entries, a positive
      count is marked on disk, and what `fetch` handed out is on disk until its last
      holder anywhere is gone, holding bytes of the promised checksum. */
  lemma ReachableIsSafe(w: World, s: State, steps: seq<(string, Action)>, t: State, i: string)
    requires Boot(w, s) && Runs(w, s, steps, t) && i in t.runners && t.runners[i].Up?
    ensures forall f :: Holders(t.runners[i].inUse, f) == |LiveOf(t.runners[i].entries, f)|
    ensures forall f :: Holders(t.runners[i].inUse, f) > 0 <==> Marker(f, i) in t.disk.markers
    ensures forall e | e in t.runners[i].entries && t.runners[i].entries[e].stage.Handed? ::
              var f := t.runners[i].entries[e].file;
              f in t.disk.files && w.hash(t.disk.files[f]) == w.promised(f)
  {
    InvHolds(w, s, steps, t);
    assert RunnerInv(w, t.disk, i, t.runners[i]);
  }

  /** **A verified download is published whole**: the rename always finds its partial, and
      what it publishes is every byte that was hashed and nothing else. */
  lemma RenamePublishesWhatWasVerified(
      w: World, s: State, steps: seq<(string, Action)>, t: State, i: string, f: string)
    requires Boot(w, s) && Runs(w, s, steps, t) && Can(w, t, i, Rename(f)) && i in t.runners
    ensures f in t.runners[i].downloads
    ensures var after := Do(w, t, i, Rename(f)).disk;
            && f in after.files
            && after.files[f] == t.runners[i].downloads[f].received
            && w.hash(after.files[f]) == w.promised(f)
  {
    InvHolds(w, s, steps, t);
    assert RunnerInv(w, t.disk, i, t.runners[i]);
  }

  /** **Eviction takes nothing in use**: an entry nobody has marked is one no live Runner
      holds, is fetching, or is downloading. */
  lemma EvictionTakesNothingInUse(
      w: World, s: State, steps: seq<(string, Action)>, t: State, i: string, f: string, j: string)
    requires Boot(w, s) && Runs(w, s, steps, t) && Can(w, t, i, Evict(f)) && j in t.runners && t.runners[j].Up?
    ensures forall e | e in t.runners[j].entries :: t.runners[j].entries[e].file != f
    ensures f !in t.runners[j].downloads
  {
    InvHolds(w, s, steps, t);
    var r := t.runners[j];
    assert RunnerInv(w, t.disk, j, r);
    forall e | e in r.entries ensures r.entries[e].file != f {
      LiveIsHeld(w, t.disk, j, r, e);
    }
    forall g | g in r.downloads ensures g != f {
      assert r.entries[r.downloads[g].entry].file == g;
    }
  }

  lemma RunsOne(w: World, s: State, i: string, a: Action)
    requires Can(w, s, i, a)
    ensures Runs(w, s, [(i, a)], Do(w, s, i, a))
  {
    assert [(i, a)][1..] == [];
  }

  lemma {:induction false} RunsSnoc(w: World, s: State, steps: seq<(string, Action)>, t: State, i: string, a: Action)
    requires Runs(w, s, steps, t) && Can(w, t, i, a)
    ensures Runs(w, s, steps + [(i, a)], Do(w, t, i, a))
    decreases |steps|
  {
    if steps == [] {
      RunsOne(w, s, i, a);
      assert [] + [(i, a)] == [(i, a)];
    } else {
      RunsSnoc(w, Do(w, s, steps[0].0, steps[0].1), steps[1..], t, i, a);
      assert (steps + [(i, a)])[1..] == steps[1..] + [(i, a)];
    }
  }

  /** Runner `i` stands as `r` in `s`. */
  predicate Stands(s: State, i: string, r: Runner) {
    i in s.runners && s.runners[i] == r
  }

  /** **A fetch of what is there** is a hit: two steps, after which it is handed out, counted
      and marked, and no file has changed. */
  lemma HitRun(w: World, s: State, i: string, r: Runner, f: string, e: nat)
    returns (steps: seq<(string, Action)>, t: State)
    requires Inv(w, s) && Stands(s, i, r) && r.Up? && e !in r.entries && f in s.disk.files
    ensures Runs(w, s, steps, t) && i in t.runners && t.runners[i].Up?
    ensures t.runners[i].entries == r.entries[e := Entry(f, Handed)]
    ensures t.disk.files == s.disk.files && t.disk.partials == s.disk.partials
    ensures t.disk.markers == s.disk.markers + {Marker(f, i)}
    ensures steps == [(i, Fetch(f, e)), (i, Hit(e))]
  {
    NotDownloaded(w, s, i, r, e);
    assert RunnerInv(w, s.disk, i, r);
    steps, t := [(i, Fetch(f, e))], Do(w, s, i, Fetch(f, e));
    RunsOne(w, s, i, Fetch(f, e));
    RunsSnoc(w, s, steps, t, i, Hit(e));
    steps, t := steps + [(i, Hit(e))], Do(w, t, i, Hit(e));
  }

  lemma NotDownloaded(w: World, s: State, i: string, r: Runner, e: nat)
    requires Inv(w, s) && Stands(s, i, r) && r.Up? && e !in r.entries
    ensures forall f | f in r.downloads :: r.downloads[f].entry != e
  {
    assert RunnerInv(w, s.disk, i, r);
  }

  lemma AddThenRemove<K, V>(m: map<K, V>, k: K, v: V)
    requires k !in m
    ensures m[k := v] - {k} == m
  {}

  lemma FetchStep(w: World, s: State, i: string, r: Runner, f: string, e: nat) returns (t: State)
    requires Inv(w, s) && Stands(s, i, r) && r.Up? && e !in r.entries
    ensures Runs(w, s, [(i, Fetch(f, e))], t) && Inv(w, t) && i in t.runners && t.runners[i].Up?
    ensures t.runners[i].entries == r.entries[e := Entry(f, Fetching)] && t.runners[i].downloads == r.downloads
    ensures t.disk.files == s.disk.files && t.disk.partials == s.disk.partials
  {
    t := Do(w, s, i, Fetch(f, e));
    RunsOne(w, s, i, Fetch(f, e));
    StepKeeps(w, s, i, Fetch(f, e));
  }

  /** A download begins with an empty partial of this Runner's, and its first bytes go there. */
  lemma BeginRun(w: World, s: State, i: string, r: Runner, f: string, e: nat, bytes: seq<byte>)
    returns (steps: seq<(string, Action)>, t: State)
    requires Inv(w, s) && Stands(s, i, r) && r.Up? && e in r.entries && r.entries[e] == Entry(f, Fetching)
    requires f !in s.disk.files && f !in r.downloads && forall g | g in r.downloads :: r.downloads[g].entry != e
    ensures Runs(w, s, steps, t) && Inv(w, t) && i in t.runners && t.runners[i].Up?
    ensures t.runners[i].entries == r.entries
    ensures t.runners[i].downloads == r.downloads[f := Download(e, bytes, false)]
    ensures t.disk.files == s.disk.files
  {
    var begun := Do(w, s, i, Miss(e));
    assert begun.runners[i].downloads == r.downloads[f := Download(e, [], false)];
    RunsOne(w, s, i, Miss(e));
    RunsSnoc(w, s, [(i, Miss(e))], begun, i, Chunk(f, bytes));
    steps, t := [(i, Miss(e))] + [(i, Chunk(f, bytes))], Do(w, begun, i, Chunk(f, bytes));
    assert [] + bytes == bytes;
    InvHolds(w, s, steps, t);
  }

  /** One that is not there is held and begun. */
  lemma MissRun(w: World, s: State, i: string, r: Runner, f: string, e: nat, bytes: seq<byte>)
    returns (steps: seq<(string, Action)>, t: State)
    requires Inv(w, s) && Stands(s, i, r) && r.Up? && e !in r.entries && f !in s.disk.files && f !in r.downloads
    ensures Runs(w, s, steps, t) && Inv(w, t) && i in t.runners && t.runners[i].Up?
    ensures t.runners[i].entries == r.entries[e := Entry(f, Fetching)]
    ensures t.runners[i].downloads == r.downloads[f := Download(e, bytes, false)]
    ensures t.disk.files == s.disk.files
  {
    NotDownloaded(w, s, i, r, e);
    var held := FetchStep(w, s, i, r, f, e);
    var rest;
    rest, t := BeginRun(w, held, i, held.runners[i], f, e, bytes);
    RunsConcat(w, s, [(i, Fetch(f, e))], held, rest, t);
    steps := [(i, Fetch(f, e))] + rest;
  }

  /** **A fetch of what is not there** downloads it: bytes of the promised checksum are
      published and handed out. */
  lemma DownloadRun(w: World, s: State, i: string, r: Runner, f: string, e: nat, bytes: seq<byte>)
    returns (steps: seq<(string, Action)>, t: State)
    requires Inv(w, s) && Stands(s, i, r) && r.Up? && e !in r.entries && f !in s.disk.files && f !in r.downloads
    requires w.hash(bytes) == w.promised(f)
    ensures Runs(w, s, steps, t) && i in t.runners && t.runners[i].Up?
    ensures t.runners[i].downloads == r.downloads && Marker(f, i) !in t.disk.partials
    ensures t.disk.files == s.disk.files[f := bytes] && t.runners[i].entries == r.entries[e := Entry(f, Handed)]
  {
    var missing, begun := MissRun(w, s, i, r, f, e, bytes);
    var q := begun.runners[i];
    assert f in q.downloads && q.downloads[f] == Download(e, bytes, false);
    var rest;
    rest, t := PublishRun(w, begun, i, q, f, e);
    RunsConcat(w, s, missing, begun, rest, t);
    steps := missing + rest;
    AddThenRemove(r.downloads, f, Download(e, bytes, false));
  }

  /** **Bytes of any other checksum** are not published: the partial is gone, the entry let go. */
  lemma MismatchRun(w: World, s: State, i: string, r: Runner, f: string, e: nat, bytes: seq<byte>)
    returns (steps: seq<(string, Action)>, t: State)
    requires Inv(w, s) && Stands(s, i, r) && r.Up? && e !in r.entries && f !in s.disk.files && f !in r.downloads
    requires w.hash(bytes) != w.promised(f)
    ensures Runs(w, s, steps, t) && i in t.runners && t.runners[i].Up?
    ensures t.runners[i].downloads == r.downloads && Marker(f, i) !in t.disk.partials
    ensures t.disk.files == s.disk.files && t.runners[i].entries == r.entries
  {
    var missing, begun := MissRun(w, s, i, r, f, e, bytes);
    var q := begun.runners[i];
    assert f in q.downloads && q.downloads[f] == Download(e, bytes, false);
    var rest;
    rest, t := RefuseRun(w, begun, i, q, f, e);
    RunsConcat(w, s, missing, begun, rest, t);
    steps := missing + rest;
    AddThenRemove(r.downloads, f, Download(e, bytes, false));
    AddThenRemove(r.entries, e, Entry(f, Fetching));
  }

  lemma {:induction false} RunsConcat(
      w: World, s: State, a: seq<(string, Action)>, t: State, b: seq<(string, Action)>, u: State)
    requires Runs(w, s, a, t) && Runs(w, t, b, u)
    ensures Runs(w, s, a + b, u)
    decreases |a|
  {
    if a == [] {
      assert a + b == b;
    } else {
      RunsConcat(w, Do(w, s, a[0].0, a[0].1), a[1..], t, b, u);
      assert (a + b)[1..] == a[1..] + b;
    }
  }

  lemma PublishRun(w: World, s: State, i: string, r: Runner, f: string, e: nat)
    returns (steps: seq<(string, Action)>, t: State)
    requires Inv(w, s) && Stands(s, i, r) && r.Up? && f in r.downloads && !r.downloads[f].verified
    requires e == r.downloads[f].entry && w.hash(r.downloads[f].received) == w.promised(f)
    ensures Runs(w, s, steps, t) && i in t.runners && t.runners[i].Up?
    ensures t.runners[i].downloads == r.downloads - {f} && Marker(f, i) !in t.disk.partials
    ensures t.disk.files == s.disk.files[f := r.downloads[f].received]
    ensures t.runners[i].entries == r.entries[e := Entry(f, Handed)]
  {
    assert RunnerInv(w, s.disk, i, r);
    var checked := Do(w, s, i, Verify(f));
    RunsOne(w, s, i, Verify(f));
    assert checked.runners[i].downloads - {f} == r.downloads - {f};
    RunsSnoc(w, s, [(i, Verify(f))], checked, i, Rename(f));
    steps, t := [(i, Verify(f))] + [(i, Rename(f))], Do(w, checked, i, Rename(f));
  }

  lemma RefuseRun(w: World, s: State, i: string, r: Runner, f: string, e: nat)
    returns (steps: seq<(string, Action)>, t: State)
    requires Inv(w, s) && Stands(s, i, r) && r.Up? && f in r.downloads && !r.downloads[f].verified
    requires e == r.downloads[f].entry && w.hash(r.downloads[f].received) != w.promised(f)
    ensures Runs(w, s, steps, t) && i in t.runners && t.runners[i].Up?
    ensures t.runners[i].downloads == r.downloads - {f} && Marker(f, i) !in t.disk.partials
    ensures t.disk.files == s.disk.files && t.runners[i].entries == r.entries - {e}
  {
    assert RunnerInv(w, s.disk, i, r);
    RunsOne(w, s, i, Refuse(f));
    steps, t := [(i, Refuse(f))], Do(w, s, i, Refuse(f));
  }

  /** **A crash leaves everything on disk, and a restart clears up after it**: however many
      markers the Runner left, it can take its own away, and no other, and be up with
      nothing held. */
  lemma {:induction false} RestartRun(w: World, s: State, i: string, left: set<Marker>)
    returns (steps: seq<(string, Action)>, t: State)
    requires i in s.runners && s.runners[i].Sweeping?
    requires left == set m | m in s.disk.markers && m.instance == i
    ensures Runs(w, s, steps, t) && Stands(t, i, Up(map[], map[], map[]))
    ensures t.disk.files == s.disk.files && t.disk.partials == s.disk.partials
    ensures t.disk.markers == set m | m in s.disk.markers && m.instance != i
    decreases left
  {
    if left == {} {
      assert forall m | m in s.disk.markers :: m.instance == i ==> m in left;
      steps, t := [(i, Ready)], Do(w, s, i, Ready);
      RunsOne(w, s, i, Ready);
    } else {
      var m :| m in left;
      var a := ClearMarker(m.file);
      var next := Do(w, s, i, a);
      assert m == Marker(m.file, i);
      var rest;
      rest, t := RestartRun(w, next, i, left - {m});
      steps := [(i, a)] + rest;
      assert steps[1..] == rest;
    }
  }

  lemma CrashLeavesTheDisk(w: World, s: State, i: string)
    requires i in s.runners && !s.runners[i].Down?
    ensures Can(w, s, i, Crash)
    ensures var t := Do(w, s, i, Crash);
            && t.disk == s.disk && Stands(t, i, Down) && Can(w, t, i, Start)
            && Stands(Do(w, t, i, Start), i, Sweeping) && Do(w, t, i, Start).disk == s.disk
  {}

  /** **When each step may be taken** that another could be mistaken for: a hit only of what
      is there and a download only of what is not; a verification only of the promised
      checksum and a refusal only of another; and a sweep of a partial, or an eviction, only
      where no marker names the file. */
  lemma OnlyWhen(w: World, s: State, i: string, e: nat, f: string)
    ensures Can(w, s, i, Hit(e)) ==> s.runners[i].entries[e].file in s.disk.files
    ensures Can(w, s, i, Miss(e)) ==> s.runners[i].entries[e].file !in s.disk.files
    ensures Can(w, s, i, Verify(f)) ==> w.hash(s.runners[i].downloads[f].received) == w.promised(f)
    ensures Can(w, s, i, Refuse(f)) ==> w.hash(s.runners[i].downloads[f].received) != w.promised(f)
    ensures Can(w, s, i, Rename(f)) ==> s.runners[i].downloads[f].verified
    ensures Can(w, s, i, Chunk(f, [])) ==> !s.runners[i].downloads[f].verified
    ensures Can(w, s, i, Fail(f)) ==> !s.runners[i].downloads[f].verified
    ensures Can(w, s, i, ClearPartial(f)) <==>
              i in s.runners && s.runners[i].Sweeping? && forall m | m in s.disk.markers :: m.file != f
    ensures Can(w, s, i, Evict(f)) <==> forall m | m in s.disk.markers :: m.file != f
  {}

  /** **And all else can be evicted**: where every marker is a live Runner's, a file can go
      exactly when no live `Entry` anywhere is for it. */
  lemma EvictableIffNobodyHolds(w: World, s: State, steps: seq<(string, Action)>, t: State, i: string, f: string)
    requires Boot(w, s) && Runs(w, s, steps, t)
    requires forall m | m in t.disk.markers :: m.instance in t.runners && t.runners[m.instance].Up?
    ensures Can(w, t, i, Evict(f)) <==>
              forall j, e | j in t.runners && t.runners[j].Up? && e in t.runners[j].entries ::
                t.runners[j].entries[e].file != f
  {
    InvHolds(w, s, steps, t);
    forall j, e | j in t.runners && t.runners[j].Up? && e in t.runners[j].entries
      ensures Marker(t.runners[j].entries[e].file, j) in t.disk.markers
    {
      assert RunnerInv(w, t.disk, j, t.runners[j]);
      LiveIsHeld(w, t.disk, j, t.runners[j], e);
    }
    forall m | m in t.disk.markers
      ensures exists e :: e in t.runners[m.instance].entries && t.runners[m.instance].entries[e].file == m.file
    {
      var r := t.runners[m.instance];
      assert RunnerInv(w, t.disk, m.instance, r);
      assert m == Marker(m.file, m.instance);
      assert Holders(r.inUse, m.file) > 0;
      assert LiveOf(r.entries, m.file) != {};
      var e :| e in LiveOf(r.entries, m.file);
    }
  }

  /** **Only a rename publishes and only an eviction takes away**: every other step leaves
      every published file as it is, and those two leave all but their own. */
  lemma PublishedChangesOnlyBy(w: World, s: State, i: string, a: Action, f: string)
    requires Can(w, s, i, a)
    ensures a != Rename(f) && a != Evict(f) ==>
              var was, now := s.disk.files, Do(w, s, i, a).disk.files;
              (f in now <==> f in was) && (f in was ==> now[f] == was[f])
    ensures a == Evict(f) ==> f !in Do(w, s, i, a).disk.files
  {}

  /** Which unfinished download a step leaves behind: an evicted one none, a refused one
      none, a swept one none, a published one none; a failed one its own. */
  lemma PartialsLeft(w: World, s: State, i: string, a: Action, m: Marker)
    requires Can(w, s, i, a) && m in s.disk.partials
    ensures m !in Do(w, s, i, a).disk.partials <==>
              || a == Evict(m.file)
              || (m.instance == i && (a == Refuse(m.file) || a == ClearPartial(m.file) || a == Rename(m.file)))
  {}

  /** **Every fetch can end**, whatever has become of the disk: with the file there it is a
      hit, and otherwise it can be downloaded, refused, or given up. */
  lemma FetchCanEnd(w: World, t: State, i: string, e: nat) returns (a: Action)
    requires Inv(w, t) && i in t.runners && t.runners[i].Up? && e in t.runners[i].entries
    ensures Can(w, t, i, a)
    ensures var r := t.runners[i];
            var f := r.entries[e].file;
            if f in r.downloads && r.entries[e].stage.Fetching? then a == Verify(f) || a == Refuse(f) || a == Rename(f)
            else if r.entries[e].stage.Fetching? then a == (if f in t.disk.files then Hit(e) else Miss(e))
            else a == Drop(e)
  {
    var r := t.runners[i];
    var f := r.entries[e].file;
    assert RunnerInv(w, t.disk, i, r);
    forall g | g in r.downloads && g != f ensures r.downloads[g].entry != e {
      assert r.entries[r.downloads[g].entry] == Entry(g, Fetching);
    }
    if r.entries[e].stage.Handed? {
      assert f in r.downloads ==> r.entries[r.downloads[f].entry].stage.Fetching?;
      a := Drop(e);
    } else if f in r.downloads {
      a := if r.downloads[f].verified then Rename(f)
           else if w.hash(r.downloads[f].received) == w.promised(f) then Verify(f)
           else Refuse(f);
    } else {
      a := if f in t.disk.files then Hit(e) else Miss(e);
    }
  }

  /** Nobody takes away another's marker: what a crashed Runner held stays held until that
      Runner itself is back. */
  lemma OnlyItsOwnerUnmarks(w: World, s: State, i: string, a: Action, m: Marker)
    requires Can(w, s, i, a) && m in s.disk.markers && m.instance != i
    ensures m in Do(w, s, i, a).disk.markers
    ensures m.file in s.disk.files ==> m.file in Do(w, s, i, a).disk.files
  {
    StepSpares(w, s, i, a, m.instance);
    assert m == Marker(m.file, m.instance);
    assert HeldByAnybody(s.disk.markers, m.file);
  }

  function Zeros(n: nat): seq<byte> {
    seq(n, _ => 0)
  }

  /** Why the name carries the instance: had another writer truncated the file after
      `first` was written, what is left would be what was hashed only if `first` was
      all zeros. */
  lemma SharedNameLosesTheHead(first: seq<byte>, second: seq<byte>)
    ensures WriteAt([], |first|, second) == Zeros(|first|) + second
    ensures WriteAt([], |first|, second) == first + second <==> first == Zeros(|first|)
  {
    var left := WriteAt([], |first|, second);
    assert left == Zeros(|first|) + second;
    assert left[..|first|] == Zeros(|first|) && (first + second)[..|first|] == first;
  }
}
