/** The census of a package's tests (aj-package/testset.rs). */
module TestSet {
  import opened Sequences
  import opened Text
  import opened Decimal
  import opened Limits
  import opened Sorting

  datatype Test = Test(name: string, group: nat, letter: string, input: bool, expected: bool)

  /** A file of `tests/`: its stem and its extension. */
  datatype File = File(stem: string, extension: string)

  datatype Refusal =
    | NoDirectory
    | NotATestName(name: string)
    | UndeclaredGroup(name: string)
    | OutsideTheCount(name: string)
    | NoInput(name: string)
    | NoExpected(name: string)
    | NoTestsAtAll
    | EmptyGroup(group: nat)

  datatype Census = Tests(tests: seq<Test>) | Rejected(why: Refusal)

  // ---- names

  datatype Split = Parts(group: nat, letter: string) | NoName

  predicate IsLower(s: string) {
    forall i | 0 <= i < |s| :: 'a' <= s[i] <= 'z'
  }

  function DigitsAtFront(s: string): (n: nat)
    ensures n <= |s| && AllDigits(s[..n])
    ensures n < |s| ==> !IsDigit(s[n])
  {
    if s == "" || !IsDigit(s[0]) then 0
    else
      var n := 1 + DigitsAtFront(s[1..]);
      assert s[..n] == [s[0]] + s[1..][..n - 1];
      n
  }

  /** `2a` is `(2, "a")`. */
  function SplitName(name: string): Split {
    var n := DigitsAtFront(name);
    var digits, letter := name[..n], name[n..];
    if digits == "" || letter == "" || !IsLower(letter) then NoName
    else match Parse(digits, U32)
      case None => NoName
      case Some(group) => Parts(group, letter)
  }

  function Letter(index: nat): string
    requires index < MOST_TESTS_IN_A_GROUP
  {
    [('a' as int + index) as char]
  }

  function TestName(group: nat, index: nat): string
    requires index < MOST_TESTS_IN_A_GROUP
  {
    Digits(group) + Letter(index)
  }

  lemma {:induction false} FrontOf(digits: string, rest: string)
    requires AllDigits(digits) && (rest == "" || !IsDigit(rest[0]))
    ensures DigitsAtFront(digits + rest) == |digits|
  {
    if digits == "" {
      assert digits + rest == rest;
    } else {
      assert (digits + rest)[1..] == digits[1..] + rest;
      FrontOf(digits[1..], rest);
    }
  }

  /** Splitting a name undoes making it. */
  lemma SplitOfName(group: nat, index: nat)
    requires group < U32 && index < MOST_TESTS_IN_A_GROUP
    ensures SplitName(TestName(group, index)) == Parts(group, Letter(index))
  {
    var name := TestName(group, index);
    FrontOf(Digits(group), Letter(index));
    assert name[..|Digits(group)|] == Digits(group) && name[|Digits(group)|..] == Letter(index);
    ParseDigits(group, U32);
  }

  lemma NamesAreDistinct(g: nat, i: nat, h: nat, j: nat)
    requires g < U32 && h < U32 && i < MOST_TESTS_IN_A_GROUP && j < MOST_TESTS_IN_A_GROUP
    requires TestName(g, i) == TestName(h, j)
    ensures g == h && i == j
  {
    SplitOfName(g, i);
    SplitOfName(h, j);
    assert Letter(i)[0] == Letter(j)[0];
  }

  lemma PartsOf(name: string)
    requires SplitName(name).Parts?
    ensures var n := DigitsAtFront(name);
            && 0 < n <= |name| && AllDigits(name[..n]) && name == name[..n] + name[n..]
            && Value(name[..n]) == SplitName(name).group && name[n..] == SplitName(name).letter
            && SplitName(name).group < 0x1_0000_0000
            && (forall i | n <= i < |name| :: 'a' <= name[i] <= 'z')
            && name[n..] != "" && !IsDigit(name[n..][0])
  {
    var n := DigitsAtFront(name);
    TakeThenDrop(name, n);
    ParseUnsigned(name[..n], U32);
    assert n < |name| && name[n..][0] == name[n];
  }

  /** **What a test may be called**: a number that 32 bits hold, and lower-case letters. */
  lemma SplitIs(digits: string, letters: string)
    requires digits != "" && forall i | 0 <= i < |digits| :: '0' <= digits[i] <= '9'
    requires letters != "" && forall i | 0 <= i < |letters| :: 'a' <= letters[i] <= 'z'
    ensures SplitName(digits + letters) ==
              if Value(digits) < 0x1_0000_0000 then Parts(Value(digits), letters) else NoName
  {
    FrontOf(digits, letters);
    ParseUnsigned(digits, U32);
    assert (digits + letters)[..|digits|] == digits && (digits + letters)[|digits|..] == letters;
  }

  /** The tests of a counted group are lettered from `a` on. */
  lemma TestNameSpelled(group: nat, i: nat)
    requires i < 26
    ensures TestName(group, i) == Digits(group) + [(97 + i) as char]
  {}

  /** **What a group and a letter leave open**: two names have one group and one letter
      exactly where the longer is the shorter with zeros put before it. */
  lemma SamePartsMeansZeros(a: string, b: string)
    requires SplitName(a).Parts? && |a| <= |b|
    ensures SplitName(b) == SplitName(a) <==> b == Zeros(|b| - |a|) + a
  {
    if SplitName(b) == SplitName(a) {
      SamePartsGiveZeros(a, b, |b| - |a|);
    }
    if b == Zeros(|b| - |a|) + a {
      ZerosGiveSameParts(a, |b| - |a|);
    }
  }

  lemma SamePartsGiveZeros(a: string, b: string, k: nat)
    requires SplitName(a).Parts? && SplitName(b) == SplitName(a) && |b| == |a| + k
    ensures b == Zeros(k) + a
  {
    var n := DigitsAtFront(a);
    PartsOf(a);
    PartsOf(b);
    ValueOfZeros(k, a[..n]);
    ValueInjective(Zeros(k) + a[..n], b[..DigitsAtFront(b)]);
    Assoc(Zeros(k), a[..n], a[n..]);
  }

  lemma ZerosGiveSameParts(a: string, k: nat)
    requires SplitName(a).Parts?
    ensures SplitName(Zeros(k) + a) == SplitName(a)
  {
    var n := DigitsAtFront(a);
    var digits, letters := a[..n], a[n..];
    PartsOf(a);
    ValueOfZeros(k, digits);
    SplitIs(digits, letters);
    assert forall i | 0 <= i < |letters| :: letters[i] == a[n + i];
    SplitIs(Zeros(k) + digits, letters);
    Assoc(Zeros(k), digits, letters);
  }

  /** **When a group and a letter do name one test**: exactly where the names that have
      them are as long as each other. */
  lemma SamePartsSameLength(a: string, b: string)
    requires SplitName(a).Parts? && SplitName(a) == SplitName(b)
    ensures a == b <==> |a| == |b|
  {
    if |a| == |b| {
      SamePartsMeansZeros(a, b);
      assert Zeros(0) + a == a;
    }
  }

  /** Leading zeros do happen: these two names have one group and one letter. */
  lemma TwoNamesOneTest()
    ensures SplitName("01a") == SplitName("1a") == Parts(1, "a")
  {
    FrontOf("01", "a");
    FrontOf("1", "a");
    assert "01" + "a" == "01a" && "1" + "a" == "1a";
    assert "01a"[..2] == "01" && "01a"[2..] == "a" && "1a"[..1] == "1" && "1a"[1..] == "a";
    assert "01"[..1] == "0" && "0"[..0] == "" && "1"[..0] == "";
    assert Value("0") == 0;
    assert Value("01") == 1;
    assert Value("1") == 1;
  }

  // ---- what the configuration and the directory name

  function Count(g: Group): nat {
    match g.tests case None => 0 case Some(n) => n
  }

  ghost predicate Judged(c: Config) {
    Sound(c) && forall g | g in c.groups :: g.group < U32
  }

  lemma CountsAreFair(c: Config, g: Group)
    requires Judged(c) && g in c.groups
    ensures Count(g) <= MOST_TESTS_IN_A_GROUP
  {
    assert CountIsFair(c, g);
  }

  ghost predicate IsNamed(c: Config, name: string) {
    exists g, i :: g in c.groups && 0 <= i < Count(g) && i < MOST_TESTS_IN_A_GROUP && name == TestName(g.group, i)
  }

  predicate IsTestFile(f: File) {
    f.extension == "in" || f.extension == "out"
  }

  ghost predicate IsFound(files: seq<File>, name: string) {
    exists f :: f in files && IsTestFile(f) && f.stem == name
  }

  ghost predicate IsTest(c: Config, files: seq<File>, name: string) {
    IsNamed(c, name) || IsFound(files, name)
  }

  predicate Declares(c: Config, group: nat) {
    exists g :: g in c.groups && g.group == group
  }

  /** What one file must be: a test's, of a declared group, and within its count if it has one. */
  ghost predicate FileBelongs(c: Config, f: File) {
    && SplitName(f.stem).Parts?
    && Declares(c, SplitName(f.stem).group)
    && ((exists g :: g in c.groups && g.group == SplitName(f.stem).group && g.tests.Some?) ==> IsNamed(c, f.stem))
  }

  ghost predicate FilesBelong(c: Config, files: seq<File>) {
    forall f | f in files && IsTestFile(f) :: FileBelongs(c, f)
  }

  /** The files a test needs, by what judges it. */
  ghost predicate HasItsFiles(c: Config, files: seq<File>, name: string) {
    && (c.interactor == None ==> File(name, "in") in files)
    && (c.interactor == None && c.checker == None ==> File(name, "out") in files)
  }

  ghost predicate GroupHasTest(c: Config, files: seq<File>, g: Group) {
    exists name :: IsTest(c, files, name) && SplitName(name).Parts? && SplitName(name).group == g.group
  }

  /** A package whose tests this Runner will judge. */
  ghost predicate Acceptable(c: Config, directory: Option<seq<File>>) {
    var files := FilesOf(directory);
    && (directory.Some? || exists name :: IsNamed(c, name))
    && FilesBelong(c, files)
    && Complete(c, files)
  }

  function FilesOf(directory: Option<seq<File>>): seq<File> {
    match directory case None => [] case Some(files) => files
  }

  /** **Which files a test needs**: its input unless an interactor makes it up, and its
      expected output where nothing else judges. */
  lemma FilesNeeded(c: Config, files: seq<File>, name: string)
    ensures c.interactor.Some? ==> HasItsFiles(c, files, name)
    ensures c.interactor == None && c.checker.Some? ==>
              (HasItsFiles(c, files, name) <==> File(name, "in") in files)
    ensures c.interactor == None && c.checker == None ==>
              (HasItsFiles(c, files, name) <==> File(name, "in") in files && File(name, "out") in files)
  {}

  /** Of a declared group, and within the count of it where there is one. */
  ghost predicate InItsPlace(c: Config, f: File) {
    && SplitName(f.stem).Parts?
    && (exists g :: g in c.groups && g.group == SplitName(f.stem).group)
    && (forall g | g in c.groups && g.group == SplitName(f.stem).group && g.tests.Some? :: IsNamed(c, f.stem))
  }

  ghost predicate AllInPlace(c: Config, files: seq<File>) {
    forall f | f in files && (f.extension == "in" || f.extension == "out") :: InItsPlace(c, f)
  }

  ghost predicate SomethingCounted(c: Config) {
    exists g :: g in c.groups && g.tests.Some? && g.tests.value > 0
  }

  /** There is a test, every test has its files, and every group a test. */
  ghost predicate AllTested(c: Config, files: seq<File>) {
    && (exists name :: IsTest(c, files, name))
    && (forall name | IsTest(c, files, name) :: HasItsFiles(c, files, name))
    && (forall g | g in c.groups ::
          exists name :: IsTest(c, files, name) && SplitName(name).Parts? && SplitName(name).group == g.group)
  }

  lemma BelongsIs(c: Config, f: File)
    ensures FileBelongs(c, f) <==> InItsPlace(c, f)
  {}

  lemma BelongAre(c: Config, files: seq<File>)
    ensures FilesBelong(c, files) <==> AllInPlace(c, files)
  {
    forall f ensures FileBelongs(c, f) <==> InItsPlace(c, f) {
      BelongsIs(c, f);
    }
  }

  lemma CompleteIs(c: Config, files: seq<File>)
    ensures Complete(c, files) <==> AllTested(c, files)
  {}

  lemma SomethingIsNamed(c: Config)
    requires Judged(c)
    ensures (exists name :: IsNamed(c, name)) <==> SomethingCounted(c)
  {
    if g :| g in c.groups && g.tests.Some? && g.tests.value > 0 {
      CountsAreFair(c, g);
      assert IsNamed(c, TestName(g.group, 0));
    }
  }

  /** **Which packages are accepted**, in full: there is a directory or a count; every input
      and output is in its place; and all is tested. */
  lemma AcceptedAre(c: Config, files: seq<File>)
    requires Judged(c)
    ensures Acceptable(c, Some(files)) <==> AllInPlace(c, files) && AllTested(c, files)
    ensures Acceptable(c, None) <==> SomethingCounted(c) && AllTested(c, [])
  {
    AcceptableIs(c, Some(files));
    AcceptableIs(c, None);
    BelongAre(c, []);
  }

  lemma AcceptableIs(c: Config, directory: Option<seq<File>>)
    requires Judged(c)
    ensures Acceptable(c, directory) <==>
              && (directory.Some? || SomethingCounted(c))
              && AllInPlace(c, FilesOf(directory)) && AllTested(c, FilesOf(directory))
  {
    SomethingIsNamed(c);
    BelongAre(c, FilesOf(directory));
    CompleteIs(c, FilesOf(directory));
  }

  /** **Which names are tests**: those of a count, and those of an input or an output. */
  lemma TestsAre(c: Config, files: seq<File>, name: string)
    ensures IsTest(c, files, name) <==>
              || (exists g, i :: g in c.groups && g.tests.Some? && 0 <= i < g.tests.value && i < 26
                                 && name == TestName(g.group, i))
              || File(name, "in") in files || File(name, "out") in files
  {
    if IsNamed(c, name) {
      var g, i :| g in c.groups && 0 <= i < Count(g) && i < MOST_TESTS_IN_A_GROUP && name == TestName(g.group, i);
      assert g.tests.Some?;
    }
    if g, i :| g in c.groups && g.tests.Some? && 0 <= i < g.tests.value && i < 26 && name == TestName(g.group, i) {
      assert 0 <= i < Count(g) && i < MOST_TESTS_IN_A_GROUP;
    }
    if IsFound(files, name) {
      var f :| f in files && IsTestFile(f) && f.stem == name;
      assert f == File(name, "in") || f == File(name, "out");
    }
    assert File(name, "in") in files ==> IsTestFile(File(name, "in"));
    assert File(name, "out") in files ==> IsTestFile(File(name, "out"));
  }

  // ---- the order

  predicate TestLe(a: Test, b: Test) {
    a.group < b.group || (a.group == b.group && TextLe(a.letter, b.letter))
  }

  predicate NameLe(a: Test, b: Test) {
    TextLe(a.name, b.name)
  }

  lemma TestLeIsTotal()
    ensures Total(TestLe)
  {
    TextIsTotal();
  }

  /** **The order of a census**: by group, lowest first; then by letters; then by name. */
  lemma CensusOrder(tests: seq<Test>, i: nat, j: nat)
    requires Ordered(tests, TestLe) && TiesIn(tests, TestLe, NameLe) && i < j < |tests|
    ensures tests[i].group <= tests[j].group
    ensures tests[i].group == tests[j].group ==> TextLe(tests[i].letter, tests[j].letter)
    ensures tests[i].group == tests[j].group && tests[i].letter == tests[j].letter ==>
              TextLe(tests[i].name, tests[j].name)
  {
    assert TestLe(tests[i], tests[j]);
    TextTotal(tests[i].letter, tests[i].letter);
  }

  // ---- reading

  /** The names that the declared counts reach. */
  method NamesOf(c: Config) returns (named: set<string>)
    requires Judged(c)
    ensures forall name :: name in named <==> IsNamed(c, name)
  {
    named := {};
    for k := 0 to |c.groups|
      invariant forall name | name in named :: IsNamed(c, name)
      invariant forall j, i | 0 <= j < k && 0 <= i < Count(c.groups[j]) && i < MOST_TESTS_IN_A_GROUP ::
                  TestName(c.groups[j].group, i) in named
    {
      var g := c.groups[k];
      CountsAreFair(c, g);
      for i := 0 to Count(g)
        invariant forall name | name in named :: IsNamed(c, name)
        invariant forall j, i | 0 <= j < k && 0 <= i < Count(c.groups[j]) && i < MOST_TESTS_IN_A_GROUP ::
                    TestName(c.groups[j].group, i) in named
        invariant forall j | 0 <= j < i && j < MOST_TESTS_IN_A_GROUP :: TestName(g.group, j) in named
      {
        assert IsNamed(c, TestName(g.group, i));
        named := named + {TestName(g.group, i)};
      }
    }
    forall name | IsNamed(c, name) ensures name in named {
      var g, i :| g in c.groups && 0 <= i < Count(g) && i < MOST_TESTS_IN_A_GROUP && name == TestName(g.group, i);
      var j :| 0 <= j < |c.groups| && c.groups[j] == g;
    }
  }

  lemma NamedIsDeclared(c: Config, name: string)
    requires Judged(c) && IsNamed(c, name)
    ensures SplitName(name).Parts? && Declares(c, SplitName(name).group)
  {
    var g, i :| g in c.groups && 0 <= i < Count(g) && i < MOST_TESTS_IN_A_GROUP && name == TestName(g.group, i);
    SplitOfName(g.group, i);
  }

  function FindGroup(groups: seq<Group>, group: nat): (g: Option<Group>)
    ensures g.Some? ==> g.value in groups && g.value.group == group
    ensures g == None ==> forall h | h in groups :: h.group != group
  {
    if groups == [] then None
    else if groups[0].group == group then Some(groups[0])
    else FindGroup(groups[1..], group)
  }

  lemma OneGroup(c: Config, g: Group, h: Group)
    requires Sound(c) && g in c.groups && h in c.groups && g.group == h.group
    ensures g == h
  {
    var i :| 0 <= i < |c.groups| && c.groups[i] == g;
    var j :| 0 <= j < |c.groups| && c.groups[j] == h;
    assert !(i < j) && !(j < i);
  }

  /** What a refusal says is so. */
  ghost predicate IsSo(c: Config, files: seq<File>, why: Refusal) {
    match why
    case NoDirectory => files == [] && !SomethingCounted(c)
    case NotATestName(n) => HasFile(files, n) && SplitName(n) == NoName
    case UndeclaredGroup(n) =>
      HasFile(files, n) && SplitName(n).Parts? && forall g | g in c.groups :: g.group != SplitName(n).group
    case OutsideTheCount(n) =>
      HasFile(files, n) && SplitName(n).Parts? && !IsNamed(c, n)
      && exists g :: g in c.groups && g.group == SplitName(n).group && g.tests.Some?
    case NoInput(n) => IsTest(c, files, n) && c.interactor == None && File(n, "in") !in files
    case NoExpected(n) =>
      IsTest(c, files, n) && c.interactor == None && c.checker == None && File(n, "out") !in files
    case NoTestsAtAll => forall n :: !IsTest(c, files, n)
    case EmptyGroup(n) =>
      (exists g :: g in c.groups && g.group == n)
      && forall name :: IsTest(c, files, name) && SplitName(name).Parts? ==> SplitName(name).group != n
  }

  ghost predicate HasFile(files: seq<File>, name: string) {
    File(name, "in") in files || File(name, "out") in files
  }

  /** What is on disk: which stems have an input, and which an expected output. */
  method Found(c: Config, files: seq<File>, named: set<string>)
    returns (inputs: set<string>, outputs: set<string>, why: Option<Refusal>)
    requires Judged(c) && forall name :: name in named <==> IsNamed(c, name)
    ensures why == None <==> FilesBelong(c, files)
    ensures why.Some? ==> IsSo(c, files, why.value)
    ensures why == None ==> forall name :: name in inputs <==> File(name, "in") in files
    ensures why == None ==> forall name :: name in outputs <==> File(name, "out") in files
  {
    inputs, outputs, why := {}, {}, None;
    for k := 0 to |files|
      invariant forall f | f in files[..k] && IsTestFile(f) :: FileBelongs(c, f)
      invariant forall name :: name in inputs <==> File(name, "in") in files[..k]
      invariant forall name :: name in outputs <==> File(name, "out") in files[..k]
    {
      var f := files[k];
      assert files[..k + 1] == files[..k] + [f];
      assert f in files;
      if !IsTestFile(f) {
        continue;
      }
      assert HasFile(files, f.stem) by {
        assert f == File(f.stem, f.extension);
      }
      var split := SplitName(f.stem);
      if split == NoName {
        return inputs, outputs, Some(NotATestName(f.stem));
      }
      var declared := FindGroup(c.groups, split.group);
      if declared == None {
        return inputs, outputs, Some(UndeclaredGroup(f.stem));
      }
      if declared.value.tests.Some? && f.stem !in named {
        return inputs, outputs, Some(OutsideTheCount(f.stem));
      }
      forall g | g in c.groups && g.group == split.group ensures g == declared.value {
        OneGroup(c, g, declared.value);
      }
      if f.extension == "in" {
        inputs := inputs + {f.stem};
      } else {
        outputs := outputs + {f.stem};
      }
    }
    assert files[..|files|] == files;
  }

  /** A test's record, made of its name and the files it has. */
  function Made(name: string, input: bool, expected: bool): Test
    requires SplitName(name).Parts?
  {
    Test(name, SplitName(name).group, SplitName(name).letter, input, expected)
  }

  /** The tests of a census are exactly the names, once each, each with what it has. */
  ghost predicate Records(c: Config, files: seq<File>, tests: seq<Test>) {
    && (forall t | t in tests ::
          && IsTest(c, files, t.name)
          && SplitName(t.name) == Parts(t.group, t.letter)
          && (t.input <==> File(t.name, "in") in files)
          && (t.expected <==> File(t.name, "out") in files))
    && (forall name | IsTest(c, files, name) :: exists t :: t in tests && t.name == name)
    && (forall i, j | 0 <= i < j < |tests| :: tests[i].name != tests[j].name)
  }

  /** **What is recorded of a test**: its name, which is a test's, is in no other record, and
      splits into its group and letters; and which of its two files it has. */
  lemma RecordsAre(c: Config, files: seq<File>, tests: seq<Test>, t: Test)
    requires Records(c, files, tests)
    ensures t in tests ==>
              && IsTest(c, files, t.name) && SplitName(t.name) == Parts(t.group, t.letter)
              && (t.input <==> File(t.name, "in") in files) && (t.expected <==> File(t.name, "out") in files)
    ensures IsTest(c, files, t.name) ==> exists i :: 0 <= i < |tests| && tests[i].name == t.name
    ensures forall i, j | 0 <= i < j < |tests| :: tests[i].name != tests[j].name
  {
    if IsTest(c, files, t.name) {
      var u :| u in tests && u.name == t.name;
    }
  }

  /** The names of the tests, those declared and those found, unless a file is refused. */
  method Names(c: Config, directory: Option<seq<File>>)
    returns (names: set<string>, inputs: set<string>, outputs: set<string>, why: Option<Refusal>)
    requires Judged(c)
    ensures why == None <==> FilesBelong(c, FilesOf(directory)) && (directory.Some? || SomethingCounted(c))
    ensures why.Some? ==> IsSo(c, FilesOf(directory), why.value)
    ensures why == None ==> forall name :: name in names <==> IsTest(c, FilesOf(directory), name)
    ensures why == None ==> forall name :: name in inputs <==> File(name, "in") in FilesOf(directory)
    ensures why == None ==> forall name :: name in outputs <==> File(name, "out") in FilesOf(directory)
  {
    var files := FilesOf(directory);
    var named := NamesOf(c);
    CountedIffNamed(c, named);
    if directory == None && named == {} {
      return {}, {}, {}, Some(NoDirectory);
    }
    inputs, outputs, why := Found(c, files, named);
    names := named + inputs + outputs;
    if why == None {
      forall name ensures name in names <==> IsTest(c, files, name) {
        NamesAreTests(c, files, inputs, outputs, name);
      }
    }
  }

  lemma CountedIffNamed(c: Config, named: set<string>)
    requires Judged(c) && forall name :: name in named <==> IsNamed(c, name)
    ensures SomethingCounted(c) <==> named != {}
  {
    SomethingIsNamed(c);
    if named != {} {
      var name :| name in named;
      assert IsNamed(c, name);
    }
  }

  /** Reads `tests/`: accepted exactly when the package is acceptable, and then the names
      are the declared ones and the file stems, once each, in the order of group, then
      letter, then name. */
  method Read(c: Config, directory: Option<seq<File>>) returns (census: Census)
    requires Judged(c)
    ensures census.Tests? <==> Acceptable(c, directory)
    ensures census.Rejected? ==> IsSo(c, FilesOf(directory), census.why)
    ensures census.Tests? ==> Records(c, FilesOf(directory), census.tests)
    ensures census.Tests? ==> Ordered(census.tests, TestLe) && TiesIn(census.tests, TestLe, NameLe)
  {
    SomethingIsNamed(c);
    var names, inputs, outputs, why := Names(c, directory);
    if why.Some? {
      return Rejected(why.value);
    }
    census := ReadNames(c, FilesOf(directory), names, inputs, outputs);
  }

  /** Every name has its files, there is one, and no declared group is without. */
  ghost predicate Complete(c: Config, files: seq<File>) {
    AllHaveFiles(c, files) && AnyTest(c, files) && EveryGroupTested(c, files)
  }

  ghost predicate AllHaveFiles(c: Config, files: seq<File>) {
    forall name | IsTest(c, files, name) :: HasItsFiles(c, files, name)
  }

  ghost predicate AnyTest(c: Config, files: seq<File>) {
    exists name :: IsTest(c, files, name)
  }

  ghost predicate EveryGroupTested(c: Config, files: seq<File>) {
    forall g | g in c.groups :: GroupHasTest(c, files, g)
  }

  method ReadNames(c: Config, files: seq<File>, names: set<string>, inputs: set<string>, outputs: set<string>)
    returns (census: Census)
    requires Judged(c)
    requires forall name :: name in names <==> IsTest(c, files, name)
    requires forall name :: name in inputs <==> File(name, "in") in files
    requires forall name :: name in outputs <==> File(name, "out") in files
    requires FilesBelong(c, files)
    ensures census.Tests? <==> Complete(c, files)
    ensures census.Rejected? ==> IsSo(c, files, census.why)
    ensures census.Tests? ==> Records(c, files, census.tests)
    ensures census.Tests? ==> Ordered(census.tests, TestLe) && TiesIn(census.tests, TestLe, NameLe)
  {
    var tests, why := RecordAll(c, files, names, inputs, outputs);
    if why.Some? {
      return Rejected(why.value);
    }
    if tests == [] {
      return Rejected(NoTestsAtAll);
    }
    EveryGroupHasTest(c, files, tests);
    why := NoGroupIsEmpty(c.groups, tests);
    if why.Some? {
      EmptyIsSo(c, files, tests, why.value.group);
    }
    return if why.Some? then Rejected(why.value) else Tests(tests);
  }

  lemma EmptyIsSo(c: Config, files: seq<File>, tests: seq<Test>, group: nat)
    requires Records(c, files, tests) && InGroup(tests, group) == 0
    requires exists i :: 0 <= i < |c.groups| && c.groups[i].group == group
    ensures IsSo(c, files, EmptyGroup(group))
  {
    InGroupPositive(tests, group);
    var i :| 0 <= i < |c.groups| && c.groups[i].group == group;
    assert c.groups[i] in c.groups;
    forall name | IsTest(c, files, name) && SplitName(name).Parts? ensures SplitName(name).group != group {
      var t :| t in tests && t.name == name;
    }
  }

  lemma NamesAreTests(c: Config, files: seq<File>, inputs: set<string>, outputs: set<string>, name: string)
    requires name in inputs <==> File(name, "in") in files
    requires name in outputs <==> File(name, "out") in files
    ensures IsFound(files, name) <==> name in inputs || name in outputs
  {
    if IsFound(files, name) {
      var f :| f in files && IsTestFile(f) && f.stem == name;
      assert f == File(name, "in") || f == File(name, "out");
    }
    if name in inputs {
      assert IsTestFile(File(name, "in"));
    }
    if name in outputs {
      assert IsTestFile(File(name, "out"));
    }
  }

  /** What its judge needs of a test is among what was found. */
  predicate Supplied(c: Config, inputs: set<string>, outputs: set<string>, name: string) {
    && (c.interactor == None ==> name in inputs)
    && (c.interactor == None && c.checker == None ==> name in outputs)
  }

  /** A name of the list that lacks what the refusal says. */
  predicate Lacks(c: Config, list: seq<string>, inputs: set<string>, outputs: set<string>, why: Refusal) {
    match why
    case NoInput(n) => n in list && c.interactor == None && n !in inputs
    case NoExpected(n) => n in list && c.interactor == None && c.checker == None && n !in outputs
    case _ => false
  }

  /** One record a name, in the order of the names. */
  method RecordEach(c: Config, list: seq<string>, inputs: set<string>, outputs: set<string>)
    returns (made: seq<Test>, why: Option<Refusal>)
    requires forall i | 0 <= i < |list| :: SplitName(list[i]).Parts?
    ensures why == None <==> forall i | 0 <= i < |list| :: Supplied(c, inputs, outputs, list[i])
    ensures why.Some? ==> Lacks(c, list, inputs, outputs, why.value)
    ensures why == None ==> |made| == |list|
    ensures why == None ==> forall i | 0 <= i < |list| ::
              made[i] == Made(list[i], list[i] in inputs, list[i] in outputs)
  {
    made := [];
    for k := 0 to |list|
      invariant |made| == k
      invariant forall i | 0 <= i < k :: made[i] == Made(list[i], list[i] in inputs, list[i] in outputs)
      invariant forall i | 0 <= i < k :: Supplied(c, inputs, outputs, list[i])
    {
      var name := list[k];
      if c.interactor == None && name !in inputs {
        return [], Some(NoInput(name));
      }
      if c.interactor == None && c.checker == None && name !in outputs {
        return [], Some(NoExpected(name));
      }
      made := made + [Made(name, name in inputs, name in outputs)];
    }
    return made, None;
  }

  /** Every name recorded, then sorted by group and letter. */
  method RecordAll(c: Config, files: seq<File>, names: set<string>, inputs: set<string>, outputs: set<string>)
    returns (tests: seq<Test>, why: Option<Refusal>)
    requires Judged(c)
    requires forall name :: name in names <==> IsTest(c, files, name)
    requires forall name :: name in inputs <==> File(name, "in") in files
    requires forall name :: name in outputs <==> File(name, "out") in files
    requires FilesBelong(c, files)
    ensures why == None <==> AllHaveFiles(c, files)
    ensures why.Some? ==> IsSo(c, files, why.value)
    ensures why == None ==> Records(c, files, tests)
    ensures why == None ==> Ordered(tests, TestLe) && TiesIn(tests, TestLe, NameLe)
    ensures why == None ==> (tests != [] <==> AnyTest(c, files))
  {
    var list := SortedNames(names);
    forall i | 0 <= i < |list| ensures SplitName(list[i]).Parts? {
      TestIsDeclared(c, files, list[i]);
    }
    var made;
    made, why := RecordEach(c, list, inputs, outputs);
    assert forall name :: Supplied(c, inputs, outputs, name) <==> HasItsFiles(c, files, name);
    if why.Some? {
      return [], why;
    }
    MadeAreRecords(c, files, names, list, made);
    SortedAreRecords(c, files, made);
    assert list != [] ==> list[0] in names;
    tests := Sort(made, TestLe);
  }

  /** Refuses exactly where some group counts no test. */
  method NoGroupIsEmpty(groups: seq<Group>, tests: seq<Test>) returns (why: Option<Refusal>)
    ensures why == None <==> forall i | 0 <= i < |groups| :: InGroup(tests, groups[i].group) > 0
    ensures why.Some? ==> why.value.EmptyGroup? && InGroup(tests, why.value.group) == 0
    ensures why.Some? ==> exists i :: 0 <= i < |groups| && groups[i].group == why.value.group
  {
    for k := 0 to |groups|
      invariant forall i | 0 <= i < k :: InGroup(tests, groups[i].group) > 0
    {
      if InGroup(tests, groups[k].group) == 0 {
        return Some(EmptyGroup(groups[k].group));
      }
    }
    return None;
  }

  lemma TestIsDeclared(c: Config, files: seq<File>, name: string)
    requires Judged(c) && IsTest(c, files, name)
    requires FilesBelong(c, files)
    ensures SplitName(name).Parts? && Declares(c, SplitName(name).group)
  {
    if IsNamed(c, name) {
      NamedIsDeclared(c, name);
    } else {
      var f :| f in files && IsTestFile(f) && f.stem == name;
      assert FileBelongs(c, f);
    }
  }

  lemma MadeAreRecords(c: Config, files: seq<File>, names: set<string>, list: seq<string>, tests: seq<Test>)
    requires forall name :: name in names <==> IsTest(c, files, name)
    requires forall name :: name in list <==> name in names
    requires Ordered(list, TextLe) && forall i, j | 0 <= i < j < |list| :: list[i] != list[j]
    requires |tests| == |list|
    requires forall i | 0 <= i < |list| ::
               && SplitName(list[i]).Parts?
               && tests[i] == Made(list[i], File(list[i], "in") in files, File(list[i], "out") in files)
    ensures Records(c, files, tests) && TiesIn(tests, TestLe, NameLe)
  {
    forall t | t in tests ensures t.name in names {
      var i :| 0 <= i < |tests| && tests[i] == t;
      assert list[i] in list;
    }
    forall name | IsTest(c, files, name) ensures exists t :: t in tests && t.name == name {
      var i :| 0 <= i < |list| && list[i] == name;
      assert tests[i] in tests;
    }
  }

  lemma SortedAreRecords(c: Config, files: seq<File>, tests: seq<Test>)
    requires Records(c, files, tests) && TiesIn(tests, TestLe, NameLe)
    ensures Records(c, files, Sort(tests, TestLe))
    ensures Ordered(Sort(tests, TestLe), TestLe) && TiesIn(Sort(tests, TestLe), TestLe, NameLe)
  {
    var sorted := Sort(tests, TestLe);
    TestLeIsTotal();
    SortOrders(tests, TestLe, NameLe);
    SameElements(sorted, tests);
    SortKeepsDistinct(tests, TestLe);
    forall i, j | 0 <= i < j < |sorted| ensures sorted[i].name != sorted[j].name {
      assert sorted[i] in tests && sorted[j] in tests && sorted[i] != sorted[j];
      var a :| 0 <= a < |tests| && tests[a] == sorted[i];
      var b :| 0 <= b < |tests| && tests[b] == sorted[j];
      assert a != b;
    }
  }

  // ---- the divisors

  /** The number of records of a group. */
  function InGroup(tests: seq<Test>, group: nat): (n: nat)
    ensures n <= |tests|
  {
    if tests == [] then 0 else InGroup(tests[1..], group) + (if tests[0].group == group then 1 else 0)
  }

  lemma {:induction false} InGroupPositive(tests: seq<Test>, group: nat)
    ensures InGroup(tests, group) > 0 <==> exists t :: t in tests && t.group == group
  {
    if tests != [] {
      InGroupPositive(tests[1..], group);
      if InGroup(tests[1..], group) > 0 {
        var t :| t in tests[1..] && t.group == group;
        assert t in tests;
      }
      if tests[0].group == group {
        assert tests[0] in tests;
      }
    }
  }

  lemma GroupHasTestIff(c: Config, files: seq<File>, tests: seq<Test>, g: Group)
    requires Records(c, files, tests)
    ensures InGroup(tests, g.group) > 0 <==> GroupHasTest(c, files, g)
  {
    InGroupPositive(tests, g.group);
    if InGroup(tests, g.group) > 0 {
      var t :| t in tests && t.group == g.group;
      assert IsTest(c, files, t.name);
    }
    if GroupHasTest(c, files, g) {
      var name :| IsTest(c, files, name) && SplitName(name).Parts? && SplitName(name).group == g.group;
      var t :| t in tests && t.name == name;
    }
  }

  lemma EveryGroupHasTest(c: Config, files: seq<File>, tests: seq<Test>)
    requires Records(c, files, tests)
    ensures (forall i | 0 <= i < |c.groups| :: InGroup(tests, c.groups[i].group) > 0)
       <==> EveryGroupTested(c, files)
  {
    forall i | 0 <= i < |c.groups|
      ensures InGroup(tests, c.groups[i].group) > 0 <==> GroupHasTest(c, files, c.groups[i])
    {
      GroupHasTestIff(c, files, tests, c.groups[i]);
    }
  }

  function SumOver(tests: seq<Test>, groups: seq<Group>): nat {
    if groups == [] then 0 else InGroup(tests, groups[0].group) + SumOver(tests, groups[1..])
  }

  lemma {:induction false} SumOfOne(test: Test, tests: seq<Test>, groups: seq<Group>)
    requires forall i, j | 0 <= i < j < |groups| :: groups[i].group != groups[j].group
    ensures SumOver([test] + tests, groups)
         == SumOver(tests, groups) + (if exists g :: g in groups && g.group == test.group then 1 else 0)
  {
    if groups != [] {
      SumOfOne(test, tests, groups[1..]);
      assert ([test] + tests)[1..] == tests;
      assert forall g | g in groups :: g == groups[0] || g in groups[1..];
      assert forall g | g in groups[1..] :: g in groups && g.group != groups[0].group;
    }
  }

  lemma {:induction false} SumIsAll(c: Config, tests: seq<Test>)
    requires Sound(c) && forall t | t in tests :: Declares(c, t.group)
    ensures SumOver(tests, c.groups) == |tests|
  {
    if tests == [] {
      SumOfNone(c.groups);
    } else {
      assert tests == [tests[0]] + tests[1..];
      assert forall t | t in tests[1..] :: t in tests;
      SumIsAll(c, tests[1..]);
      SumOfOne(tests[0], tests[1..], c.groups);
    }
  }

  lemma {:induction false} SumOfNone(groups: seq<Group>)
    ensures SumOver([], groups) == 0
  {
    if groups != [] {
      SumOfNone(groups[1..]);
    }
  }

  /** **Every test is divided for exactly once**: the counts of the declared groups sum
      to the number of tests. */
  lemma GroupsCoverTests(c: Config, directory: Option<seq<File>>, tests: seq<Test>)
    requires Judged(c) && Acceptable(c, directory) && Records(c, FilesOf(directory), tests)
    ensures SumOver(tests, c.groups) == |tests|
    ensures forall g | g in c.groups :: InGroup(tests, g.group) > 0
  {
    forall t | t in tests ensures Declares(c, t.group) {
      TestIsDeclared(c, FilesOf(directory), t.name);
    }
    SumIsAll(c, tests);
    forall g | g in c.groups ensures InGroup(tests, g.group) > 0 {
      GroupHasTestIff(c, FilesOf(directory), tests, g);
    }
  }

  /** The names of the tests in a group. */
  ghost function NamesIn(tests: seq<Test>, group: nat): set<string> {
    set t | t in tests && t.group == group :: t.name
  }

  lemma {:induction false} InGroupCountsNames(tests: seq<Test>, group: nat)
    requires forall i, j | 0 <= i < j < |tests| :: tests[i].name != tests[j].name
    ensures InGroup(tests, group) == |NamesIn(tests, group)|
  {
    if tests == [] {
      assert NamesIn(tests, group) == {};
    } else {
      var first, rest := tests[0], tests[1..];
      assert tests == [first] + rest;
      assert forall j | 0 <= j < |rest| :: rest[j] == tests[j + 1];
      InGroupCountsNames(rest, group);
      NamesGrow(first, rest, group);
    }
  }

  lemma NamesGrow(first: Test, rest: seq<Test>, group: nat)
    requires forall t | t in rest :: t.name != first.name
    ensures |NamesIn([first] + rest, group)| ==
              |NamesIn(rest, group)| + if first.group == group then 1 else 0
  {
    var all, later := NamesIn([first] + rest, group), NamesIn(rest, group);
    if first.group == group {
      assert all == later + {first.name};
      assert first.name !in later;
    } else {
      assert all == later;
    }
  }

  ghost function FirstNames(group: nat, n: nat): set<string>
    requires n <= MOST_TESTS_IN_A_GROUP
  {
    set i: nat | i < n :: TestName(group, i)
  }

  lemma LastNameIsNew(group: nat, n: nat)
    requires group < U32 && n < MOST_TESTS_IN_A_GROUP
    ensures TestName(group, n) !in FirstNames(group, n)
  {
    if TestName(group, n) in FirstNames(group, n) {
      var i: nat :| i < n && TestName(group, n) == TestName(group, i);
      NamesAreDistinct(group, i, group, n);
    }
  }

  lemma FirstNamesGrow(group: nat, n: nat)
    requires n < MOST_TESTS_IN_A_GROUP
    ensures FirstNames(group, n + 1) == FirstNames(group, n) + {TestName(group, n)}
  {}

  lemma {:induction false} FirstNamesCount(group: nat, n: nat)
    requires group < U32 && n <= MOST_TESTS_IN_A_GROUP
    ensures |FirstNames(group, n)| == n
  {
    if n == 0 {
      assert FirstNames(group, 0) == {};
    } else {
      FirstNamesCount(group, n - 1);
      LastNameIsNew(group, n - 1);
      FirstNamesGrow(group, n - 1);
    }
  }

  /** **A declared count is the group's size exactly**: no file adds to it, and none is
      needed to reach it. */
  lemma CountedGroupsAreExact(c: Config, directory: Option<seq<File>>, tests: seq<Test>, g: Group)
    requires Judged(c) && Acceptable(c, directory) && Records(c, FilesOf(directory), tests)
    requires g in c.groups && g.tests.Some?
    ensures InGroup(tests, g.group) == g.tests.value
  {
    var files, n := FilesOf(directory), g.tests.value;
    CountsAreFair(c, g);
    forall name | name in NamesIn(tests, g.group) ensures name in FirstNames(g.group, n) {
      CountedIsNamed(c, directory, name, g);
      NamedInGroup(c, name, g);
    }
    forall i: nat | i < n ensures TestName(g.group, i) in NamesIn(tests, g.group) {
      FirstNameIsIn(c, files, tests, g, i);
    }
    assert NamesIn(tests, g.group) == FirstNames(g.group, n);
    InGroupCountsNames(tests, g.group);
    FirstNamesCount(g.group, n);
  }

  lemma FirstNameIsIn(c: Config, files: seq<File>, tests: seq<Test>, g: Group, i: nat)
    requires Judged(c) && Records(c, files, tests)
    requires g in c.groups && i < Count(g)
    ensures i < MOST_TESTS_IN_A_GROUP && TestName(g.group, i) in NamesIn(tests, g.group)
  {
    CountsAreFair(c, g);
    SplitOfName(g.group, i);
    assert IsNamed(c, TestName(g.group, i));
    assert IsTest(c, files, TestName(g.group, i));
    var t :| t in tests && t.name == TestName(g.group, i);
  }

  lemma CountedIsNamed(c: Config, directory: Option<seq<File>>, name: string, g: Group)
    requires Acceptable(c, directory) && IsTest(c, FilesOf(directory), name)
    requires SplitName(name).Parts? && SplitName(name).group == g.group && g in c.groups && g.tests.Some?
    ensures IsNamed(c, name)
  {
    if IsFound(FilesOf(directory), name) {
      var f :| f in FilesOf(directory) && IsTestFile(f) && f.stem == name;
      assert FileBelongs(c, f);
    }
  }

  lemma NamedInGroup(c: Config, name: string, g: Group)
    requires Judged(c) && g in c.groups && g.tests.Some? && IsNamed(c, name)
    requires SplitName(name).Parts? && SplitName(name).group == g.group
    ensures g.tests.value <= MOST_TESTS_IN_A_GROUP && name in FirstNames(g.group, g.tests.value)
  {
    CountsAreFair(c, g);
    var h, i :| h in c.groups && 0 <= i < Count(h) && i < MOST_TESTS_IN_A_GROUP && name == TestName(h.group, i);
    SplitOfName(h.group, i);
    OneGroup(c, g, h);
  }
}
