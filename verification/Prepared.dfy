/** What an entry holds beside its bytes: products filled under one lock, recorded in a
    manifest, handed out, and superseded (aj-protocol/cache.rs, aj-runner/prepare.rs).

    A state machine of one entry's directory and any number of Runners, each of whose
    filesystem calls is one step and any of which may crash between two of them. */
module Prepared {
  import opened Text

  /** Which archive something was derived from. */
  datatype Identity = Identity(fileId: string, sha256: string)

  /** A directory on disk.  The number tells one filling from another; a rename keeps it. */
  datatype Dir = Dir(id: nat, complete: bool, origin: Identity)

  /** What is recorded of a product, as far as anything reads it back. */
  datatype Record = Record(source: Option<string>, language: Option<string>)

  datatype Manifest = Manifest(owner: Option<Identity>, products: map<string, Record>)

  /** Something under a name of one Runner's own, until a rename publishes it. */
  datatype Partial = Partial(name: string, instance: string)

  datatype Disk = Disk(
    manifest: Option<Manifest>,
    dirs: map<string, Dir>,
    partials: map<Partial, Dir>,
    drafts: map<string, Manifest>)

  /** Where a Runner is in the protocol. */
  datatype Phase =
    | Away
    | Holding
    | Idle
    | Filling(name: string, made: Option<nat>)
    | Cleared(name: string, id: nat)
    | Renamed(name: string, id: nat)
    | Drafted(name: string, id: nat)
    | Forgetting(name: string)
    | Forgotten(name: string)
    | Aside(name: string)

  datatype State = State(
    disk: Disk,
    phases: map<string, Phase>,
    lock: Option<string>,
    next: nat,
    /** Every directory a caller was ever given. */
    handed: set<nat>,
    /** Whether a Runner crashed between forgetting a product and moving it aside. */
    tornForget: bool)

  datatype Action =
    | Attach | Detach | Lock | Unlock
    | Ask(name: string)
    | Fill(name: string) | Make | Complete | GiveUp
    | Clear | Rename | Draft(record: Record) | Sign
    | Forget(name: string) | SignForget | ClearAside | MoveAside
    | Crash | Sweep | Evict

  // ---- what the lock's holder reads and writes

  /** A manifest that is absent reads as one that vouches for nothing. */
  function Read(d: Disk): Manifest {
    match d.manifest case None => Manifest(None, map[]) case Some(m) => m
  }

  /** The directory under a name, if the manifest is this archive's and records it. */
  function Published(d: Disk, me: Identity, name: string): Option<Dir> {
    if Read(d).owner == Some(me) && name in Read(d).products && name in d.dirs then Some(d.dirs[name]) else None
  }

  function RemoveDir(d: Disk, name: string): Disk {
    d.(dirs := d.dirs - {name})
  }

  function RemovePartial(d: Disk, p: Partial): Disk {
    d.(partials := d.partials - {p})
  }

  function RenameIn(d: Disk, p: Partial): Disk
    requires p in d.partials
  {
    d.(dirs := d.dirs[p.name := d.partials[p]], partials := d.partials - {p})
  }

  /** A name given to a forgotten product so that nobody judging with it loses it. */
  function MoveOut(d: Disk, p: Partial): Disk {
    if p.name in d.dirs
    then d.(dirs := d.dirs - {p.name}, partials := d.partials[p := d.dirs[p.name]])
    else d
  }

  /** The manifest is always written with this entry's own identity. */
  function DraftOf(d: Disk, me: Identity, i: string, products: map<string, Record>): Disk {
    d.(drafts := d.drafts[i := Manifest(Some(me), products)])
  }

  function SignDraft(d: Disk, i: string): Disk
    requires i in d.drafts
  {
    d.(manifest := Some(d.drafts[i]), drafts := d.drafts - {i})
  }

  // ---- steps

  function PhaseOf(s: State, i: string): Phase {
    if i in s.phases then s.phases[i] else Away
  }

  predicate Locked(p: Phase) {
    !p.Away? && !p.Holding?
  }

  predicate NobodyHolds(s: State) {
    forall i | i in s.phases :: s.phases[i].Away?
  }

  predicate Can(me: Identity, s: State, i: string, a: Action) {
    var p := PhaseOf(s, i);
    match a
    case Attach => p.Away?
    case Detach => p.Holding?
    case Lock => p.Holding? && s.lock == None
    case Unlock => p.Idle?
    case Ask(_) => p.Idle?
    // Only what is not published is filled: the discipline of `prepare`.
    case Fill(n) => p.Idle? && Published(s.disk, me, n) == None
    case Make => p.Filling? && p.made == None
    case Complete => p.Filling? && p.made.Some? && Partial(p.name, i) in s.disk.partials
    case GiveUp => p.Filling?
    case Clear => p.Filling? && Partial(p.name, i) in s.disk.partials && s.disk.partials[Partial(p.name, i)].complete
    case Rename => p.Cleared? && Partial(p.name, i) in s.disk.partials
    case Draft(_) => p.Renamed?
    case Sign => p.Drafted? && i in s.disk.drafts && p.name in s.disk.dirs
    case Forget(n) => p.Idle? && n in Read(s.disk).products
    case SignForget => p.Forgetting? && i in s.disk.drafts
    case ClearAside => p.Forgotten?
    case MoveAside => p.Aside?
    case Crash => !p.Away?
    case Sweep => NobodyHolds(s)
    case Evict => NobodyHolds(s)
  }

  function Go(s: State, i: string, d: Disk, p: Phase): State {
    s.(disk := d, phases := s.phases[i := p])
  }

  function Do(me: Identity, s: State, i: string, a: Action): State
    requires Can(me, s, i, a)
  {
    var d, p := s.disk, PhaseOf(s, i);
    match a
    case Attach => Go(s, i, d, Holding)
    case Detach => Go(s, i, d, Away)
    case Lock => Go(s, i, d, Idle).(lock := Some(i))
    case Unlock => Go(s, i, d, Holding).(lock := None)
    case Ask(n) =>
      (match Published(d, me, n) case None => s case Some(dir) => s.(handed := s.handed + {dir.id}))
    case Fill(n) => Go(s, i, RemovePartial(d, Partial(n, i)), Filling(n, None))
    case Make =>
      Go(s, i, d.(partials := d.partials[Partial(p.name, i) := Dir(s.next, false, me)]), Filling(p.name, Some(s.next)))
        .(next := s.next + 1)
    case Complete =>
      var at := Partial(p.name, i);
      Go(s, i, d.(partials := d.partials[at := d.partials[at].(complete := true)]), p)
    case GiveUp => Go(s, i, RemovePartial(d, Partial(p.name, i)), Idle)
    case Clear => Go(s, i, RemoveDir(d, p.name), Cleared(p.name, d.partials[Partial(p.name, i)].id))
    case Rename => Go(s, i, RenameIn(d, Partial(p.name, i)), Renamed(p.name, p.id))
    case Draft(r) => Go(s, i, DraftOf(d, me, i, Read(d).products[p.name := r]), Drafted(p.name, p.id))
    case Sign => Go(s, i, SignDraft(d, i), Idle).(handed := s.handed + {d.dirs[p.name].id})
    case Forget(n) => Go(s, i, DraftOf(d, me, i, Read(d).products - {n}), Forgetting(n))
    case SignForget => Go(s, i, SignDraft(d, i), Forgotten(p.name))
    case ClearAside => Go(s, i, RemovePartial(d, Partial(p.name, i)), Aside(p.name))
    case MoveAside => Go(s, i, MoveOut(d, Partial(p.name, i)), Idle)
    case Crash =>
      Go(s, i, d, Away).(lock := if s.lock == Some(i) then None else s.lock,
                         tornForget := s.tornForget || p.Forgotten? || p.Aside?)
    case Sweep =>
      s.(disk := d.(partials := map q | q in d.partials && q.instance != i :: d.partials[q], drafts := d.drafts - {i}))
    case Evict => s.(disk := Disk(None, map[], map[], map[]))
  }

  // ---- what every step keeps

  /** A finished filling of this archive. */
  predicate Good(me: Identity, dir: Dir) {
    dir.complete && dir.origin == me
  }

  /** Every product that is both recorded and on disk is a finished filling of this archive. */
  ghost predicate RecordsGood(me: Identity, d: Disk) {
    forall n | n in Read(d).products && n in d.dirs :: Good(me, d.dirs[n])
  }

  /** Nobody has been handed this number, and no directory carries it. */
  ghost predicate Unseen(s: State, id: nat) {
    id < s.next && id !in s.handed && forall n | n in s.disk.dirs :: s.disk.dirs[n].id != id
  }

  /** What a phase says of the disk while the lock is held. */
  ghost predicate PhaseInv(me: Identity, s: State, i: string, p: Phase) {
    var d := s.disk;
    match p
    case Filling(n, id) =>
      && Published(d, me, n) == None
      && (id == None ==> Partial(n, i) !in d.partials)
      && (id.Some? ==> Partial(n, i) in d.partials && d.partials[Partial(n, i)].id == id.value
                       && d.partials[Partial(n, i)].origin == me && Unseen(s, id.value))
    case Cleared(n, id) =>
      && n !in d.dirs && Partial(n, i) in d.partials && d.partials[Partial(n, i)].id == id
      && Good(me, d.partials[Partial(n, i)]) && Unseen(s, id)
    case Renamed(n, id) => n in d.dirs && d.dirs[n].id == id && Good(me, d.dirs[n]) && id !in s.handed
    case Drafted(n, id) =>
      && n in d.dirs && d.dirs[n].id == id && Good(me, d.dirs[n])
      && i in d.drafts && d.drafts[i].owner == Some(me) && d.drafts[i].products.Keys == Read(d).products.Keys + {n}
    case Forgetting(n) => i in d.drafts && d.drafts[i] == Manifest(Some(me), Read(d).products - {n})
    case Forgotten(n) => n !in Read(d).products
    case Aside(n) => n !in Read(d).products
    case _ => true
  }

  predicate Forgets(p: Phase, n: string) {
    (p.Forgotten? || p.Aside?) && p.name == n
  }

  /** A directory somebody was given is recorded, unless the lock's holder is just now
      forgetting it. */
  ghost predicate HandedRecorded(s: State) {
    forall n | n in s.disk.dirs && s.disk.dirs[n].id in s.handed ::
      n in Read(s.disk).products || exists i :: i in s.phases && Forgets(s.phases[i], n)
  }

  ghost predicate OneHolder(s: State) {
    forall i | i in s.phases && Locked(s.phases[i]) :: s.lock == Some(i)
  }

  /** No two directories carry one number, and all numbers were given out. */
  ghost predicate Numbered(s: State) {
    && (forall n, m | n in s.disk.dirs && m in s.disk.dirs && n != m :: s.disk.dirs[n].id != s.disk.dirs[m].id)
    && (forall n | n in s.disk.dirs :: s.disk.dirs[n].id < s.next)
    && (forall q | q in s.disk.partials :: s.disk.partials[q].id < s.next)
    && (forall id | id in s.handed :: id < s.next)
  }

  /** The manifest is absent or this entry's own. */
  predicate OwnManifest(me: Identity, d: Disk) {
    d.manifest.Some? ==> d.manifest.value.owner == Some(me)
  }

  ghost predicate Inv(me: Identity, s: State) {
    && OneHolder(s) && Numbered(s)
    && (OwnManifest(me, s.disk) || s.handed == {})
    && (forall i | i in s.phases :: PhaseInv(me, s, i, s.phases[i]))
    && (!s.tornForget ==> HandedRecorded(s))
  }

  /** The steps that only the lock's holder takes leave every other Runner outside it. */
  lemma OthersOutside(me: Identity, s: State, i: string, j: string)
    requires Inv(me, s) && Locked(PhaseOf(s, i)) && j in s.phases && j != i
    ensures !Locked(s.phases[j])
  {
    assert i in s.phases;
  }

  lemma KeepsLock(me: Identity, s: State, i: string, a: Action)
    requires OneHolder(s) && Can(me, s, i, a)
    ensures OneHolder(Do(me, s, i, a))
  {}

  lemma KeepsNumbers(me: Identity, s: State, i: string, a: Action)
    requires Inv(me, s) && Can(me, s, i, a)
    ensures Numbered(Do(me, s, i, a))
  {
    assert i in s.phases ==> PhaseInv(me, s, i, s.phases[i]);
  }

  lemma KeepsRecords(me: Identity, s: State, i: string, a: Action)
    requires Inv(me, s) && Can(me, s, i, a)
    ensures OwnManifest(me, Do(me, s, i, a).disk) || Do(me, s, i, a).handed == {}
    ensures RecordsGood(me, s.disk) ==> RecordsGood(me, Do(me, s, i, a).disk)
  {
    assert i in s.phases ==> PhaseInv(me, s, i, s.phases[i]);
  }

  lemma KeepsPhases(me: Identity, s: State, i: string, a: Action)
    requires Inv(me, s) && Can(me, s, i, a)
    ensures var t := Do(me, s, i, a); forall j | j in t.phases :: PhaseInv(me, t, j, t.phases[j])
  {
    var t := Do(me, s, i, a);
    forall j | j in t.phases ensures PhaseInv(me, t, j, t.phases[j]) {
      if j == i {
        OwnPhaseKept(me, s, i, a);
      } else {
        assert PhaseInv(me, s, j, s.phases[j]);
        OtherPhaseKept(me, s, i, a, j);
      }
    }
  }

  lemma OwnPhaseKept(me: Identity, s: State, i: string, a: Action)
    requires Inv(me, s) && Can(me, s, i, a) && i in Do(me, s, i, a).phases
    ensures PhaseInv(me, Do(me, s, i, a), i, Do(me, s, i, a).phases[i])
  {
    assert i in s.phases ==> PhaseInv(me, s, i, s.phases[i]);
  }

  lemma OtherPhaseKept(me: Identity, s: State, i: string, a: Action, j: string)
    requires Inv(me, s) && Can(me, s, i, a) && j in s.phases && j != i
    ensures PhaseInv(me, Do(me, s, i, a), j, s.phases[j])
  {
    assert PhaseInv(me, s, j, s.phases[j]);
    if Locked(PhaseOf(s, i)) {
      OthersOutside(me, s, i, j);
    }
  }

  lemma KeepsHanded(me: Identity, s: State, i: string, a: Action)
    requires Inv(me, s) && Can(me, s, i, a) && !Do(me, s, i, a).tornForget
    ensures HandedRecorded(Do(me, s, i, a))
  {
    var t := Do(me, s, i, a);
    assert i in s.phases ==> PhaseInv(me, s, i, s.phases[i]);
    forall n | n in t.disk.dirs && t.disk.dirs[n].id in t.handed
      ensures n in Read(t.disk).products || exists j :: j in t.phases && Forgets(t.phases[j], n)
    {
      if n !in Read(t.disk).products {
        HandedStep(me, s, i, a, n);
      }
    }
  }

  lemma HandedStep(me: Identity, s: State, i: string, a: Action, n: string)
    requires Inv(me, s) && Can(me, s, i, a) && !Do(me, s, i, a).tornForget
    requires n in Do(me, s, i, a).disk.dirs && Do(me, s, i, a).disk.dirs[n].id in Do(me, s, i, a).handed
    requires n !in Read(Do(me, s, i, a).disk).products
    ensures exists j :: j in Do(me, s, i, a).phases && Forgets(Do(me, s, i, a).phases[j], n)
  {
    var t := Do(me, s, i, a);
    if a.SignForget? && n == PhaseOf(s, i).name {
      assert Forgets(t.phases[i], n);
    } else {
      WasHanded(me, s, i, a, n);
      var j :| j in s.phases && Forgets(s.phases[j], n);
      ForgetsStill(me, s, i, a, n, j);
    }
  }

  lemma WasHanded(me: Identity, s: State, i: string, a: Action, n: string)
    requires Inv(me, s) && Can(me, s, i, a) && !(a.SignForget? && n == PhaseOf(s, i).name)
    requires n in Do(me, s, i, a).disk.dirs && Do(me, s, i, a).disk.dirs[n].id in Do(me, s, i, a).handed
    requires n !in Read(Do(me, s, i, a).disk).products
    ensures n in s.disk.dirs && s.disk.dirs[n].id in s.handed && n !in Read(s.disk).products
  {
    assert i in s.phases ==> PhaseInv(me, s, i, s.phases[i]);
  }

  lemma ForgetsStill(me: Identity, s: State, i: string, a: Action, n: string, j: string)
    requires Can(me, s, i, a) && !Do(me, s, i, a).tornForget && j in s.phases && Forgets(s.phases[j], n)
    requires n in Do(me, s, i, a).disk.dirs
    ensures j in Do(me, s, i, a).phases && Forgets(Do(me, s, i, a).phases[j], n)
  {}

  /** **Every step of every Runner, a crash at any point included, keeps the invariant.** */
  lemma StepKeeps(me: Identity, s: State, i: string, a: Action)
    requires Inv(me, s) && Can(me, s, i, a)
    ensures Inv(me, Do(me, s, i, a))
    ensures RecordsGood(me, s.disk) ==> RecordsGood(me, Do(me, s, i, a).disk)
  {
    KeepsLock(me, s, i, a);
    KeepsNumbers(me, s, i, a);
    KeepsRecords(me, s, i, a);
    KeepsPhases(me, s, i, a);
    if !Do(me, s, i, a).tornForget {
      KeepsHanded(me, s, i, a);
    }
  }

  ghost predicate Runs(me: Identity, s: State, steps: seq<(string, Action)>, t: State)
    decreases |steps|
  {
    if steps == [] then s == t
    else
      var (i, a) := steps[0];
      Can(me, s, i, a) && Runs(me, Do(me, s, i, a), steps[1..], t)
  }

  /** An entry before any Runner is in it: whatever crashes left unfinished, and any manifest. */
  ghost predicate Boot(s: State) {
    NobodyHolds(s) && s.lock == None && s.handed == {} && !s.tornForget && Numbered(s)
  }

  lemma {:induction false} InvHolds(me: Identity, s: State, steps: seq<(string, Action)>, t: State)
    requires Inv(me, s) && Runs(me, s, steps, t)
    ensures Inv(me, t) && (RecordsGood(me, s.disk) ==> RecordsGood(me, t.disk))
    decreases |steps|
  {
    if steps != [] {
      StepKeeps(me, s, steps[0].0, steps[0].1);
      InvHolds(me, Do(me, s, steps[0].0, steps[0].1), steps[1..], t);
    }
  }

  /** **What is published is a finished filling of this archive**, after any run from an
      entry whose manifest, if it has one, records only such. */
  lemma PublishedIsFinished(me: Identity, s: State, steps: seq<(string, Action)>, t: State, name: string)
    requires Boot(s) && RecordsGood(me, s.disk) && Runs(me, s, steps, t)
    ensures Published(t.disk, me, name).Some? ==>
              Published(t.disk, me, name).value.complete && Published(t.disk, me, name).value.origin == me
  {
    InvHolds(me, s, steps, t);
  }

  lemma RunsSnoc(me: Identity, s: State, steps: seq<(string, Action)>, t: State, i: string, a: Action)
    requires Runs(me, s, steps, t) && Can(me, t, i, a)
    ensures Runs(me, s, steps + [(i, a)], Do(me, t, i, a))
    decreases |steps|
  {
    if steps == [] {
      assert [(i, a)][1..] == [];
    } else {
      RunsSnoc(me, Do(me, s, steps[0].0, steps[0].1), steps[1..], t, i, a);
      assert (steps + [(i, a)])[1..] == steps[1..] + [(i, a)];
    }
  }

  /** Every Runner but `i` is where it was. */
  ghost predicate Undisturbed(s: State, t: State, i: string) {
    forall j | j != i :: PhaseOf(t, j) == PhaseOf(s, j)
  }

  /** One Runner enters an idle entry, takes the lock and fills `name`. */
  lemma FillingRun(me: Identity, s: State, i: string, name: string)
    returns (steps: seq<(string, Action)>, t: State)
    requires PhaseOf(s, i).Away? && s.lock == None && Published(s.disk, me, name) == None
    ensures Runs(me, s, steps, t)
    ensures PhaseOf(t, i) == Filling(name, Some(s.next)) && Can(me, t, i, Clear)
    ensures t.disk.dirs == s.disk.dirs && t.disk.manifest == s.disk.manifest && t.handed == s.handed
    ensures Undisturbed(s, t, i)
  {
    steps, t := [], s;
    RunsSnoc(me, s, steps, t, i, Attach);
    steps, t := steps + [(i, Attach)], Do(me, t, i, Attach);
    RunsSnoc(me, s, steps, t, i, Lock);
    steps, t := steps + [(i, Lock)], Do(me, t, i, Lock);
    RunsSnoc(me, s, steps, t, i, Fill(name));
    steps, t := steps + [(i, Fill(name))], Do(me, t, i, Fill(name));
    RunsSnoc(me, s, steps, t, i, Make);
    steps, t := steps + [(i, Make)], Do(me, t, i, Make);
    RunsSnoc(me, s, steps, t, i, Complete);
    steps, t := steps + [(i, Complete)], Do(me, t, i, Complete);
  }

  lemma {:induction false} RunsConcat(
      me: Identity, s: State, a: seq<(string, Action)>, t: State, b: seq<(string, Action)>,
      u: State)
    requires Runs(me, s, a, t) && Runs(me, t, b, u)
    ensures Runs(me, s, a + b, u)
    decreases |a|
  {
    if a == [] {
      assert a + b == b;
    } else {
      RunsConcat(me, Do(me, s, a[0].0, a[0].1), a[1..], t, b, u);
      assert (a + b)[1..] == a[1..] + b;
    }
  }

  /** The filling takes its place. */
  lemma PlacingRun(me: Identity, s: State, i: string) returns (steps: seq<(string, Action)>, t: State)
    requires Can(me, s, i, Clear)
    ensures Runs(me, s, steps, t)
    ensures var n, p := PhaseOf(s, i).name, Partial(PhaseOf(s, i).name, i);
            && PhaseOf(t, i) == Renamed(n, s.disk.partials[p].id)
            && t.disk.dirs == s.disk.dirs[n := s.disk.partials[p]]
            && t.disk.manifest == s.disk.manifest && t.handed == s.handed
    ensures Undisturbed(s, t, i)
  {
    steps, t := [], s;
    RunsSnoc(me, s, steps, t, i, Clear);
    steps, t := steps + [(i, Clear)], Do(me, t, i, Clear);
    RunsSnoc(me, s, steps, t, i, Rename);
    steps, t := steps + [(i, Rename)], Do(me, t, i, Rename);
  }

  /** What has taken its place is recorded and handed out. */
  lemma SigningRun(me: Identity, s: State, i: string, record: Record)
    returns (steps: seq<(string, Action)>, t: State)
    requires PhaseOf(s, i).Renamed? && PhaseOf(s, i).name in s.disk.dirs
    ensures Runs(me, s, steps, t) && PhaseOf(t, i).Idle?
    ensures var n := PhaseOf(s, i).name;
            && t.disk.manifest == Some(Manifest(Some(me), Read(s.disk).products[n := record]))
            && t.disk.dirs == s.disk.dirs && t.handed == s.handed + {s.disk.dirs[n].id}
    ensures Undisturbed(s, t, i)
  {
    steps, t := [], s;
    RunsSnoc(me, s, steps, t, i, Draft(record));
    steps, t := steps + [(i, Draft(record))], Do(me, t, i, Draft(record));
    RunsSnoc(me, s, steps, t, i, Sign);
    steps, t := steps + [(i, Sign)], Do(me, t, i, Sign);
  }

  /** The filling is published: four steps, the last of which signs. */
  lemma PublishingRun(me: Identity, s: State, i: string, record: Record)
    returns (steps: seq<(string, Action)>, t: State)
    requires Can(me, s, i, Clear)
    ensures Runs(me, s, steps, t)
    ensures var n := PhaseOf(s, i).name;
            && t.disk.manifest == Some(Manifest(Some(me), Read(s.disk).products[n := record]))
            && t.disk.dirs == s.disk.dirs[n := s.disk.partials[Partial(n, i)]]
            && PhaseOf(t, i).Idle? && t.handed == s.handed + {t.disk.dirs[n].id}
    ensures Undisturbed(s, t, i)
  {
    var placing, placed := PlacingRun(me, s, i);
    var signing;
    signing, t := SigningRun(me, placed, i, record);
    RunsConcat(me, s, placing, placed, signing, t);
    steps := placing + signing;
  }

  /** **And the condition is exact**: a manifest that records anything else, whoever wrote
      it, can be brought to vouch for it, because publishing signs what it finds. */
  lemma BadRecordIsVouchedFor(me: Identity, s: State, i: string, bad: string)
    returns (steps: seq<(string, Action)>, t: State)
    requires Boot(s) && bad in Read(s.disk).products && bad in s.disk.dirs && !Good(me, s.disk.dirs[bad])
    ensures Runs(me, s, steps, t)
    ensures Published(t.disk, me, bad) == Some(s.disk.dirs[bad])
  {
    steps, t := [], s;
    if Read(s.disk).owner != Some(me) {
      var other := bad + "'";
      assert |other| != |bad|;
      var filling, full := FillingRun(me, s, i, other);
      var publishing;
      publishing, t := PublishingRun(me, full, i, Record(None, None));
      RunsConcat(me, s, filling, full, publishing, t);
      steps := filling + publishing;
    }
  }

  /** **Publishing deletes nothing anybody was given**, as long as no Runner has crashed
      between forgetting a product and moving it aside. */
  lemma PublishDeletesNothingHanded(me: Identity, s: State, steps: seq<(string, Action)>, t: State, i: string)
    requires Boot(s) && Runs(me, s, steps, t)
    requires !t.tornForget && Can(me, t, i, Clear) && PhaseOf(t, i).name in t.disk.dirs
    ensures t.disk.dirs[PhaseOf(t, i).name].id !in t.handed
  {
    InvHolds(me, s, steps, t);
    var n := PhaseOf(t, i).name;
    assert PhaseInv(me, t, i, t.phases[i]);
    if t.handed != {} {
      assert n !in Read(t.disk).products;
      forall j | j in t.phases ensures !Forgets(t.phases[j], n) {
        if j != i {
          OthersOutside(me, t, i, j);
        }
      }
    }
  }

  /** One Runner comes to hold the lock of an entry nobody is in, having been given `name`:
      what is published there already, or its own filling. */
  lemma HandedRun(me: Identity, s: State, i: string, name: string)
    returns (steps: seq<(string, Action)>, t: State)
    requires PhaseOf(s, i).Away? && s.lock == None
    ensures Runs(me, s, steps, t) && PhaseOf(t, i).Idle?
    ensures Published(t.disk, me, name).Some? && Published(t.disk, me, name).value.id in t.handed
    ensures Undisturbed(s, t, i)
  {
    if Published(s.disk, me, name) == None {
      var filling, full := FillingRun(me, s, i, name);
      var publishing;
      publishing, t := PublishingRun(me, full, i, Record(None, None));
      RunsConcat(me, s, filling, full, publishing, t);
      steps := filling + publishing;
    } else {
      steps, t := [], s;
      RunsSnoc(me, s, steps, t, i, Attach);
      steps, t := steps + [(i, Attach)], Do(me, t, i, Attach);
      RunsSnoc(me, s, steps, t, i, Lock);
      steps, t := steps + [(i, Lock)], Do(me, t, i, Lock);
      RunsSnoc(me, s, steps, t, i, Ask(name));
      steps, t := steps + [(i, Ask(name))], Do(me, t, i, Ask(name));
    }
  }

  /** The first half of a forget: the name is no longer recorded, its directory still there. */
  lemma UnrecordingRun(me: Identity, s: State, i: string, name: string)
    returns (steps: seq<(string, Action)>, t: State)
    requires PhaseOf(s, i).Idle? && name in Read(s.disk).products
    ensures Runs(me, s, steps, t) && PhaseOf(t, i) == Forgotten(name) && t.lock == s.lock
    ensures t.disk.manifest == Some(Manifest(Some(me), Read(s.disk).products - {name}))
    ensures t.disk.dirs == s.disk.dirs && t.disk.partials == s.disk.partials && t.handed == s.handed
    ensures Undisturbed(s, t, i)
  {
    steps, t := [], s;
    RunsSnoc(me, s, steps, t, i, Forget(name));
    steps, t := steps + [(i, Forget(name))], Do(me, t, i, Forget(name));
    RunsSnoc(me, s, steps, t, i, SignForget);
    steps, t := steps + [(i, SignForget)], Do(me, t, i, SignForget);
  }

  /** Half of a forget, then a crash: the name is free again, its directory still there. */
  lemma TearingRun(me: Identity, s: State, i: string, name: string)
    returns (steps: seq<(string, Action)>, t: State)
    requires PhaseOf(s, i).Idle? && Published(s.disk, me, name).Some? && s.lock == Some(i)
    ensures Runs(me, s, steps, t) && t.tornForget && t.lock == None && PhaseOf(t, i).Away?
    ensures Published(t.disk, me, name) == None && t.disk.dirs == s.disk.dirs && t.handed == s.handed
  {
    steps, t := UnrecordingRun(me, s, i, name);
    RunsSnoc(me, s, steps, t, i, Crash);
    steps, t := steps + [(i, Crash)], Do(me, t, i, Crash);
  }

  /** **A crash there is enough to lose it**: from every start and for every name there is
      a run, with one such crash in it, after which a publish is about to delete a
      directory somebody was given. */
  lemma TornForgetLosesIt(me: Identity, s: State, i: string, name: string)
    returns (steps: seq<(string, Action)>, t: State)
    requires Boot(s)
    ensures Runs(me, s, steps, t) && t.tornForget && Can(me, t, i, Clear) && PhaseOf(t, i).name == name
    ensures name in t.disk.dirs && t.disk.dirs[name].id in t.handed
  {
    var handing, given := HandedRun(me, s, i, name);
    InvHolds(me, s, handing, given);
    assert Locked(given.phases[i]);
    var tearing, torn := TearingRun(me, given, i, name);
    RunsConcat(me, s, handing, given, tearing, torn);
    var filling;
    filling, t := FillingRun(me, torn, i, name);
    RunsConcat(me, s, handing + tearing, torn, filling, t);
    TornStays(me, torn, filling, t);
    steps := handing + tearing + filling;
  }

  lemma {:induction false} TornStays(me: Identity, s: State, steps: seq<(string, Action)>, t: State)
    requires Runs(me, s, steps, t) && s.tornForget
    ensures t.tornForget
    decreases |steps|
  {
    if steps != [] {
      TornStays(me, Do(me, s, steps[0].0, steps[0].1), steps[1..], t);
    }
  }

  /** A manifest that is not there, or another archive's, offers nothing. */
  lemma ForeignOffersNothing(d: Disk, me: Identity, name: string)
    requires d.manifest == None || d.manifest.value.owner != Some(me)
    ensures Published(d, me, name) == None
  {}

  /** **Coming and going**: entering and leaving change nothing on disk, and the lock is one
      Runner's from its taking to its leaving. */
  lemma ComingAndGoing(me: Identity, s: State, i: string)
    ensures Can(me, s, i, Attach) ==> PhaseOf(Do(me, s, i, Attach), i).Holding? && Do(me, s, i, Attach).disk == s.disk
    ensures Can(me, s, i, Detach) ==> PhaseOf(Do(me, s, i, Detach), i).Away? && Do(me, s, i, Detach).disk == s.disk
    ensures Can(me, s, i, Lock) <==> PhaseOf(s, i).Holding? && s.lock == None
    ensures Can(me, s, i, Lock) ==>
              var t := Do(me, s, i, Lock); PhaseOf(t, i).Idle? && t.lock == Some(i) && t.disk == s.disk
    ensures Can(me, s, i, Unlock) ==>
              var t := Do(me, s, i, Unlock); PhaseOf(t, i).Holding? && t.lock == None && t.disk == s.disk
  {}

  /** A filling that is given up leaves the entry as it was but for its own partial, and one
      that is evicted leaves nothing at all. */
  lemma NothingIsLeft(me: Identity, s: State, i: string)
    ensures Can(me, s, i, GiveUp) ==>
              var t, p := Do(me, s, i, GiveUp), Partial(PhaseOf(s, i).name, i);
              && p !in t.disk.partials && t.disk == s.disk.(partials := t.disk.partials)
              && (forall q | q != p :: q in t.disk.partials <==> q in s.disk.partials)
              && PhaseOf(t, i).Idle? && t.handed == s.handed
    ensures Can(me, s, i, Evict) ==>
              var d := Do(me, s, i, Evict).disk;
              d.manifest == None && d.dirs == map[] && d.partials == map[] && d.drafts == map[]
    ensures Can(me, s, i, Evict) <==> forall j | j in s.phases :: s.phases[j].Away?
  {}

  /** A crash leaves everything on disk and frees the lock; a start then takes away this
      Runner's own unfinished work, and only where nobody is in the entry. */
  lemma CrashThenSweep(me: Identity, s: State, i: string, q: Partial)
    requires Inv(me, s)
    ensures Can(me, s, i, Crash) ==>
              var t := Do(me, s, i, Crash);
              t.disk == s.disk && PhaseOf(t, i).Away? && (Locked(PhaseOf(s, i)) ==> t.lock == None)
    ensures Can(me, s, i, Sweep) <==> forall j | j in s.phases :: s.phases[j].Away?
    ensures Can(me, s, i, Sweep) ==>
              var d := Do(me, s, i, Sweep).disk;
              && d.dirs == s.disk.dirs && d.manifest == s.disk.manifest
              && (q in d.partials <==> q in s.disk.partials && q.instance != i)
              && (forall j :: j in d.drafts <==> j in s.disk.drafts && j != i)
  {}

  /** What a Runner is in the middle of, if that is filling or forgetting `n`. */
  predicate IsOn(p: Phase, n: string) {
    match p
    case Filling(m, _) => m == n
    case Cleared(m, _) => m == n
    case Renamed(m, _) => m == n
    case Drafted(m, _) => m == n
    case Forgetting(m) => m == n
    case Forgotten(m) => m == n
    case Aside(m) => m == n
    case _ => false
  }

  /** The whole of a forget: the name is free, and what it named lies aside under the same
      number; nothing else has moved. */
  lemma ForgettingRun(me: Identity, s: State, i: string, name: string)
    returns (steps: seq<(string, Action)>, t: State)
    requires PhaseOf(s, i).Idle? && name in Read(s.disk).products && name in s.disk.dirs
    ensures Runs(me, s, steps, t) && PhaseOf(t, i).Idle?
    ensures name !in Read(t.disk).products && t.disk.dirs == s.disk.dirs - {name}
    ensures var p := Partial(name, i);
            p in t.disk.partials && t.disk.partials[p] == s.disk.dirs[name]
            && t.disk.partials - {p} == s.disk.partials - {p}
    ensures Undisturbed(s, t, i)
    ensures t.handed == s.handed
  {
    steps, t := UnrecordingRun(me, s, i, name);
    RunsSnoc(me, s, steps, t, i, ClearAside);
    steps, t := steps + [(i, ClearAside)], Do(me, t, i, ClearAside);
    RunsSnoc(me, s, steps, t, i, MoveAside);
    steps, t := steps + [(i, MoveAside)], Do(me, t, i, MoveAside);
  }

  /** This step is neither `j` leaving nor `i` taking up `n` again. */
  predicate Leaves(step: (string, Action), i: string, n: string, j: string) {
    && (step.0 == j ==> !step.1.Crash? && !step.1.Detach?)
    && (step.0 == i ==> step.1 != Fill(n) && step.1 != Forget(n))
  }

  /** **What was set aside stays for as long as anybody holds the entry**, whatever is
      prepared, swept, evicted or crashes meanwhile, unless the Runner that set it aside
      takes up the same name again. */
  lemma {:induction false} AsideStays(
      me: Identity, s: State, steps: seq<(string, Action)>, t: State, i: string, n: string,
      j: string)
    requires Runs(me, s, steps, t) && forall k | 0 <= k < |steps| :: Leaves(steps[k], i, n, j)
    requires !PhaseOf(s, j).Away? && !IsOn(PhaseOf(s, i), n) && Partial(n, i) in s.disk.partials
    ensures Partial(n, i) in t.disk.partials && t.disk.partials[Partial(n, i)] == s.disk.partials[Partial(n, i)]
    decreases |steps|
  {
    if steps != [] {
      var next := Do(me, s, steps[0].0, steps[0].1);
      assert Leaves(steps[0], i, n, j);
      AsideStep(me, s, steps[0].0, steps[0].1, i, n, j);
      AsideStays(me, next, steps[1..], t, i, n, j);
    }
  }

  /** **And the exception is real**: from every start there is a run in which one Runner is
      given a product, another sets it aside, and the directory is deleted under the first,
      which still holds the entry, as soon as the second fills the same name. */
  lemma RefillLosesAside(me: Identity, s: State, i: string, j: string, n: string)
    returns (steps: seq<(string, Action)>, t: State)
    requires Boot(s) && i != j
    ensures Runs(me, s, steps, t) && PhaseOf(t, j).Holding?
    ensures Partial(n, i) in t.disk.partials && t.disk.partials[Partial(n, i)].id in t.handed
    ensures Can(me, t, i, Fill(n))
    ensures PhaseOf(Do(me, t, i, Fill(n)), j).Holding? && Partial(n, i) !in Do(me, t, i, Fill(n)).disk.partials
  {
    var handing, given := HandedRun(me, s, j, n);
    InvHolds(me, s, handing, given);
    assert Locked(given.phases[j]);
    var inside := [(j, Unlock), (i, Attach), (i, Lock)];
    var entered := HandOver(me, given, i, j);
    RunsConcat(me, s, handing, given, inside, entered);
    var forgetting;
    forgetting, t := ForgettingRun(me, entered, i, n);
    RunsConcat(me, s, handing + inside, entered, forgetting, t);
    steps := handing + inside + forgetting;
    assert PhaseOf(t, j) == PhaseOf(entered, j);
  }

  /** One Runner gives up the lock and another enters and takes it. */
  lemma HandOver(me: Identity, s: State, i: string, j: string) returns (t: State)
    requires i != j && PhaseOf(s, j).Idle? && PhaseOf(s, i).Away?
    ensures Runs(me, s, [(j, Unlock), (i, Attach), (i, Lock)], t)
    ensures t.disk == s.disk && t.handed == s.handed && PhaseOf(t, i).Idle? && PhaseOf(t, j).Holding?
  {
    t := Do(me, s, j, Unlock);
    RunsSnoc(me, s, [], s, j, Unlock);
    assert [] + [(j, Unlock)] == [(j, Unlock)];
    RunsSnoc(me, s, [(j, Unlock)], t, i, Attach);
    t := Do(me, t, i, Attach);
    assert [(j, Unlock)] + [(i, Attach)] == [(j, Unlock), (i, Attach)];
    RunsSnoc(me, s, [(j, Unlock), (i, Attach)], t, i, Lock);
    t := Do(me, t, i, Lock);
    assert [(j, Unlock), (i, Attach)] + [(i, Lock)] == [(j, Unlock), (i, Attach), (i, Lock)];
  }

  lemma AsideStep(me: Identity, s: State, who: string, a: Action, i: string, n: string, j: string)
    requires Can(me, s, who, a) && Leaves((who, a), i, n, j)
    requires !PhaseOf(s, j).Away? && !IsOn(PhaseOf(s, i), n) && Partial(n, i) in s.disk.partials
    ensures var t, p := Do(me, s, who, a), Partial(n, i);
            && !PhaseOf(t, j).Away? && !IsOn(PhaseOf(t, i), n)
            && p in t.disk.partials && t.disk.partials[p] == s.disk.partials[p]
  {
    assert j in s.phases && !NobodyHolds(s);
  }

  /** Two Runners are never preparing at once. */
  lemma OnePrepares(me: Identity, s: State, steps: seq<(string, Action)>, t: State, i: string, j: string)
    requires Boot(s) && Runs(me, s, steps, t)
    requires Locked(PhaseOf(t, i)) && Locked(PhaseOf(t, j))
    ensures i == j
  {
    InvHolds(me, s, steps, t);
  }

  // ---- the calls, each the sequence of its steps

  const BUILDS := "_build"

  /** Another build of the same source in the same language. */
  predicate Superseded(
      products: map<string, Record>, key: string, source: string, language: string, name: string)
  {
    && name in products && name != key
    && |BUILDS| <= |name| && name[..|BUILDS|] == BUILDS
    && products[name] == Record(Some(source), Some(language))
  }

  /** **What a new judge supersedes**: another product of `_build`, recorded as built from
      the same source in the same language; never the unpacked package. */
  lemma SupersededAre(products: map<string, Record>, key: string, source: string, language: string, name: string)
    ensures Superseded(products, key, source, language, name) <==>
              && name in products && name != key && "_build" <= name
              && products[name].source == Some(source) && products[name].language == Some(language)
    ensures !Superseded(products, key, source, language, "_extracted")
    ensures !Superseded(products, key, source, language, key)
  {
    assert "_extracted"[1] == 'e' && "_build"[1] == 'b';
  }

  class Directory {
    const me: Identity
    const instance: string
    var disk: Disk

    constructor (me: Identity, instance: string, disk: Disk)
      ensures this.me == me && this.instance == instance && this.disk == disk
    {
      this.me, this.instance, this.disk := me, instance, disk;
    }

    method Find(name: string) returns (at: Option<Dir>)
      ensures at == Published(disk, me, name)
      ensures at.Some? <==>
                && disk.manifest.Some? && disk.manifest.value.owner == Some(me)
                && name in disk.manifest.value.products && name in disk.dirs
      ensures at.Some? ==> at.value == disk.dirs[name]
    {
      var m := Read(disk);
      if m.owner != Some(me) || name !in m.products {
        return None;
      }
      return if name in disk.dirs then Some(disk.dirs[name]) else None;
    }

    /** The one place a manifest is written: a draft of this Runner's, then a rename. */
    method Write(products: map<string, Record>)
      modifies this
      ensures disk.manifest == Some(Manifest(Some(me), products))
      ensures disk.dirs == old(disk).dirs && disk.partials == old(disk).partials
    {
      disk := DraftOf(disk, me, instance, products);
      disk := SignDraft(disk, instance);
    }

    /** A filling becomes what everybody is given under its name, and under this entry's
        own manifest nothing else is found differently. */
    method Publish(name: string, record: Record)
      requires Partial(name, instance) in disk.partials
      modifies this
      ensures Published(disk, me, name) == Some(old(disk).partials[Partial(name, instance)])
      ensures OwnManifest(me, old(disk)) ==>
                forall other | other != name :: Published(disk, me, other) == Published(old(disk), me, other)
      ensures disk.partials == old(disk).partials - {Partial(name, instance)}
      ensures OwnManifest(me, disk) && Read(disk).products == Read(old(disk)).products[name := record]
    {
      if name in disk.dirs {
        disk := RemoveDir(disk, name);
      }
      disk := RenameIn(disk, Partial(name, instance));
      Write(Read(disk).products[name := record]);
    }

    /** Nobody is given the product any more, and its directory is kept under a name of this
        Runner's. */
    method Forget(name: string)
      modifies this
      ensures Published(disk, me, name) == None
      ensures OwnManifest(me, old(disk)) ==>
                forall other | other != name :: Published(disk, me, other) == Published(old(disk), me, other)
      ensures name in old(disk).dirs ==>
                && Partial(name, instance) in disk.partials
                && disk.partials[Partial(name, instance)] == old(disk).dirs[name]
      ensures OwnManifest(me, disk)
      ensures Read(disk).products == Read(old(disk)).products - {name}
    {
      Write(Read(disk).products - {name});
      if name in disk.dirs {
        disk := RemovePartial(disk, Partial(name, instance));
        disk := MoveOut(disk, Partial(name, instance));
      }
    }

    /** Finds a product, or fills and publishes it.  Where the filling fails (`made` says
        whether it came to anything) it is removed and nothing is found differently. */
    method Prepare(name: string, record: Record, id: nat, made: bool) returns (at: Option<Dir>)
      modifies this
      ensures Published(disk, me, name) == at
      ensures at == if Published(old(disk), me, name).Some? then Published(old(disk), me, name)
                    else if made then Some(Dir(id, true, me)) else None
      ensures Published(old(disk), me, name).Some? ==> disk == old(disk)
      ensures at == None ==> disk == RemovePartial(old(disk), Partial(name, instance))
      ensures OwnManifest(me, old(disk)) ==>
                forall other | other != name :: Published(disk, me, other) == Published(old(disk), me, other)
      ensures Published(old(disk), me, name) == None && made ==>
                OwnManifest(me, disk) && Read(disk).products == Read(old(disk)).products[name := record]
    {
      at := Find(name);
      if at.Some? {
        return;
      }
      var p := Partial(name, instance);
      disk := RemovePartial(disk, p);
      disk := disk.(partials := disk.partials[p := Dir(id, false, me)]);
      if !made {
        disk := RemovePartial(disk, p);
        return None;
      }
      disk := disk.(partials := disk.partials[p := disk.partials[p].(complete := true)]);
      Publish(name, record);
      at := Some(Dir(id, true, me));
    }

    /** The judge of a package: found, or built and published, and then no build of the same
        source in the same language is found under another key, while everything else is
        found as before. */
    method BuildJudge(key: string, source: string, language: string, id: nat, made: bool)
      returns (at: Option<Dir>)
      modifies this
      ensures Published(disk, me, key) == at
      ensures at == if Published(old(disk), me, key).Some? then Published(old(disk), me, key)
                    else if made then Some(Dir(id, true, me)) else None
      ensures Published(old(disk), me, key).Some? ==> disk == old(disk)
      ensures Published(old(disk), me, key) == None && made ==>
                key in Read(disk).products && Read(disk).products[key] == Record(Some(source), Some(language))
      ensures Published(old(disk), me, key) == None && made ==>
                forall n | Superseded(Read(old(disk)).products, key, source, language, n) ::
                  Published(disk, me, n) == None
      ensures OwnManifest(me, old(disk)) ==>
                forall n | n != key && !Superseded(Read(old(disk)).products, key, source, language, n) ::
                  Published(disk, me, n) == Published(old(disk), me, n)
    {
      at := Find(key);
      if at.Some? {
        return;
      }
      at := Prepare(key, Record(Some(source), Some(language)), id, made);
      if at.Some? {
        ForgetSuperseded(key, source, language);
      }
    }

    /** Exactly the superseded products stop being found. */
    method ForgetSuperseded(key: string, source: string, language: string)
      requires OwnManifest(me, disk)
      modifies this
      ensures OwnManifest(me, disk)
      ensures forall n :: n in Read(disk).products <==>
                n in Read(old(disk)).products && !Superseded(Read(old(disk)).products, key, source, language, n)
      ensures forall n | n in Read(disk).products :: Read(disk).products[n] == Read(old(disk)).products[n]
      ensures forall n :: Published(disk, me, n) ==
                if Superseded(Read(old(disk)).products, key, source, language, n) then None
                else Published(old(disk), me, n)
    {
      var products := Read(disk).products;
      var names := products.Keys;
      while names != {}
        invariant names <= products.Keys && OwnManifest(me, disk)
        invariant forall n :: n in Read(disk).products <==>
                    n in products && (n in names || !Superseded(products, key, source, language, n))
        invariant forall n | n in Read(disk).products :: Read(disk).products[n] == products[n]
        invariant forall n :: Published(disk, me, n) ==
                    if n !in names && Superseded(products, key, source, language, n) then None
                    else Published(old(disk), me, n)
      {
        var name :| name in names;
        names := names - {name};
        if Superseded(products, key, source, language, name) {
          Forget(name);
        }
      }
    }
  }
}
