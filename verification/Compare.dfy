/** The comparison of a program's output with the expected one, whole and as it
    streams in (compare.rs). */
module Compare {
  import opened Sequences
  import opened Text

  datatype Comparison =
    | Equal
    | Different(token: nat, expected: string, actual: string)

  /** The words a program has said, whatever bytes it said them in. */
  function Said(bytes: seq<byte>): seq<string> {
    Words(Decode(bytes))
  }

  function Nth(words: seq<string>, i: nat): Option<string> {
    if i < |words| then Some(words[i]) else None
  }

  function OrNothing(word: Option<string>): string {
    match word case Some(w) => w case None => ""
  }

  function CommonPrefix(a: seq<string>, b: seq<string>): (n: nat)
    ensures n <= |a| && n <= |b|
    ensures a[..n] == b[..n]
    ensures n < |a| && n < |b| ==> a[n] != b[n]
  {
    if a == [] || b == [] || a[0] != b[0] then 0 else 1 + CommonPrefix(a[1..], b[1..])
  }

  /** The reference: two word sequences are equal, or differ first at one index. */
  function Verdict(ours: seq<string>, theirs: seq<string>): Comparison {
    if ours == theirs then Equal
    else
      var n := CommonPrefix(ours, theirs);
      Different(n + 1, OrNothing(Nth(ours, n)), OrNothing(Nth(theirs, n)))
  }

  /** `Verdict` is the only answer naming the first index at which the sides differ. */
  lemma VerdictIsFirstDifference(ours: seq<string>, theirs: seq<string>, k: nat)
    requires k <= |ours| && k <= |theirs| && ours[..k] == theirs[..k]
    requires Nth(ours, k) != Nth(theirs, k)
    ensures Verdict(ours, theirs) == Different(k + 1, OrNothing(Nth(ours, k)), OrNothing(Nth(theirs, k)))
    ensures Verdict(ours, theirs) ==
              Different(k + 1, if k < |ours| then ours[k] else "", if k < |theirs| then theirs[k] else "")
  {
    var n := CommonPrefix(ours, theirs);
    assert forall i | 0 <= i < n :: ours[..n][i] == theirs[..n][i];
    assert forall i | 0 <= i < k :: ours[..k][i] == theirs[..k][i];
  }

  /** **Equal means the same words**, and nothing else does. */
  lemma EqualIffSameWords(ours: seq<string>, theirs: seq<string>)
    ensures Verdict(ours, theirs) == Equal <==> ours == theirs
  {}

  /** **White space never counts and everything else always does**: of printable text, equal
      is the same text, and what stands between two words may differ only in which
      separator it is. */
  lemma OnlySeparatorsMayDiffer(x: string, y: string, c: char)
    requires x != "" && forall i | 0 <= i < |x| :: '!' <= x[i] <= '~'
    requires y != "" && forall i | 0 <= i < |y| :: '!' <= y[i] <= '~'
    ensures Verdict(Words(x), Words(y)) == Equal <==> x == y
    ensures Verdict(Words(x + [' '] + y), Words(x + [c] + y)) == Equal <==>
              c as int in {0x09, 0x0A, 0x0B, 0x0C, 0x0D, 0x20, 0x85, 0xA0, 0x1680, 0x2000, 0x2001, 0x2002, 0x2003,
                           0x2004, 0x2005, 0x2006, 0x2007, 0x2008, 0x2009, 0x200A, 0x2028, 0x2029, 0x202F, 0x205F,
                           0x3000}
  {
    OneWord(x);
    OneWord(y);
    SeparatorsAre(x, ' ', y);
    SeparatorsAre(x, c, y);
  }

  /** One past the last ASCII space, or zero where there is none. */
  function CutAt(bytes: seq<byte>): (n: nat)
    ensures n <= |bytes|
  {
    if bytes == [] then 0
    else if IsAsciiSpace(bytes[|bytes| - 1]) then |bytes|
    else CutAt(bytes[..|bytes| - 1])
  }

  predicate IsCut(bytes: seq<byte>, n: nat) {
    && n <= |bytes| && (n > 0 ==> IsAsciiSpace(bytes[n - 1]))
    && forall i | n <= i < |bytes| :: !IsAsciiSpace(bytes[i])
  }

  lemma {:induction false} CutAtIsCut(bytes: seq<byte>)
    ensures IsCut(bytes, CutAt(bytes))
  {
    if bytes != [] && !IsAsciiSpace(bytes[|bytes| - 1]) {
      CutAtIsCut(bytes[..|bytes| - 1]);
    }
  }

  /** **Where whole words end**: just after the last space, tab, line feed, form feed or
      carriage return, and at the beginning where there is none. */
  lemma CutIsLastSpace(bytes: seq<byte>)
    ensures CutAt(bytes) > 0 ==> bytes[CutAt(bytes) - 1] in {0x20, 0x09, 0x0A, 0x0C, 0x0D}
    ensures forall i | CutAt(bytes) <= i < |bytes| :: bytes[i] !in {0x20, 0x09, 0x0A, 0x0C, 0x0D}
  {
    CutAtIsCut(bytes);
  }

  /** The bytes whose words are known to be whole. */
  function Committed(bytes: seq<byte>): seq<byte> {
    bytes[..CutAt(bytes)]
  }

  /** Nothing said so far is known to be wrong. */
  ghost predicate Open(ours: seq<string>, fed: seq<byte>) {
    Said(Committed(fed)) <= ours
  }

  /** That is: the words up to the last space are the first of the expected ones. */
  lemma OpenMeans(ours: seq<string>, fed: seq<byte>)
    ensures Open(ours, fed) <==> Words(Decode(fed[..CutAt(fed)])) <= ours
  {}

  /** Words distribute over a cut just after an ASCII space. */
  lemma SaidCut(a: seq<byte>, rest: seq<byte>)
    requires a == [] || IsAsciiSpace(a[|a| - 1])
    ensures Said(a + rest) == Said(a) + Said(rest)
  {
    if a == [] {
      assert a + rest == rest;
    } else {
      var front, w := a[..|a| - 1], a[|a| - 1];
      assert a == front + [w];
      SaidAfter(front, w, rest);
      SaidAfter(front, w, []);
      assert a + [] == a;
    }
  }

  lemma SaidAfter(front: seq<byte>, w: byte, rest: seq<byte>)
    requires IsAsciiSpace(w)
    ensures Said(front + [w] + rest) == Said(front) + Said(rest)
  {
    DecodeCut(front, w, rest);
    WordsCut(Decode(front), w as char, Decode(rest));
  }

  lemma CutIsUnique(bytes: seq<byte>, m: nat)
    requires IsCut(bytes, m)
    ensures CutAt(bytes) == m
  {
    CutAtIsCut(bytes);
    var n := CutAt(bytes);
    assert n > 0 ==> !(m <= n - 1);
    assert m > 0 ==> !(n <= m - 1);
  }

  /** Only the arriving bytes need searching: what was held had no space in it. */
  lemma CutOfSum(fed: seq<byte>, more: seq<byte>)
    ensures CutAt(fed + more) == if CutAt(more) > 0 then |fed| + CutAt(more) else CutAt(fed)
  {
    CutAtIsCut(fed);
    CutAtIsCut(more);
    if CutAt(more) > 0 {
      assert (fed + more)[|fed| + CutAt(more) - 1] == more[CutAt(more) - 1];
      CutIsUnique(fed + more, |fed| + CutAt(more));
    } else {
      CutIsUnique(fed + more, CutAt(fed));
    }
  }

  /** What has been committed stays committed, and the newly whole words follow it. */
  lemma CommittedGrows(fed: seq<byte>, more: seq<byte>)
    ensures CutAt(fed) <= CutAt(fed + more)
    ensures Said(Committed(fed + more)) == Said(Committed(fed)) + Said((fed + more)[CutAt(fed)..CutAt(fed + more)])
  {
    CutOfSum(fed, more);
    var all, n, m := fed + more, CutAt(fed), CutAt(fed + more);
    CutAtIsCut(fed);
    assert Committed(all) == Committed(fed) + all[n..m];
    SaidCut(Committed(fed), all[n..m]);
  }

  lemma SaidIsCommittedThenRest(fed: seq<byte>)
    ensures Said(fed) == Said(Committed(fed)) + Said(fed[CutAt(fed)..])
  {
    CutAtIsCut(fed);
    assert fed == Committed(fed) + fed[CutAt(fed)..];
    SaidCut(Committed(fed), fed[CutAt(fed)..]);
  }

  lemma VerdictOfExtension(ours: seq<string>, some: seq<string>, all: seq<string>)
    requires some <= all && !(some <= ours)
    ensures Verdict(ours, all) == Verdict(ours, some)
    ensures Verdict(ours, some).Different?
  {
    var n := CommonPrefix(ours, some);
    assert n < |some|;
    VerdictIsFirstDifference(ours, some, n);
    VerdictIsFirstDifference(ours, all, n);
  }

  /** Once the committed words are not a prefix of the expected ones the answer is
      settled: whatever arrives later, the whole compares to the same difference. */
  lemma SettledIsSettled(ours: seq<string>, fed: seq<byte>, more: seq<byte>)
    requires !Open(ours, fed)
    ensures !Open(ours, fed + more)
    ensures Verdict(ours, Said(Committed(fed + more))) == Verdict(ours, Said(Committed(fed)))
    ensures Verdict(ours, Said(fed + more)) == Verdict(ours, Said(Committed(fed)))
    ensures Verdict(ours, Said(fed + more)).Different?
  {
    CommittedGrows(fed, more);
    SaidIsCommittedThenRest(fed + more);
    VerdictOfExtension(ours, Said(Committed(fed)), Said(Committed(fed + more)));
    VerdictOfExtension(ours, Said(Committed(fed)), Said(fed + more));
  }

  lemma SettledNow(ours: seq<string>, fed: seq<byte>)
    requires !Open(ours, fed)
    ensures Verdict(ours, Said(fed)) == Verdict(ours, Said(Committed(fed)))
  {
    SettledIsSettled(ours, fed, []);
    assert fed + [] == fed;
  }

  function Spaced(words: seq<string>): string {
    if words == [] then "" else words[0] + [' '] + Spaced(words[1..])
  }

  lemma {:induction false} WordsOfSpaced(words: seq<string>)
    requires forall w | w in words :: IsWord(w)
    ensures Words(Spaced(words)) == words
  {
    if words == [] {
    } else {
      WordsCut(words[0], ' ', Spaced(words[1..]));
      OneWord(words[0]);
      WordsOfSpaced(words[1..]);
    }
  }

  /** Until then it is open: as long as every whole word was right and what is held begins
      the next one, something can follow that makes the output equal.  Too little is
      never a difference before the end. */
  lemma UnsettledMayStillMatch(expected: string, fed: seq<byte>) returns (more: seq<byte>)
    requires Open(Words(expected), fed)
    requires var missing, held := Words(expected)[|Said(Committed(fed))|..], fed[CutAt(fed)..];
             held == [] || (missing != [] && held <= Encode(missing[0]))
    ensures Verdict(Words(expected), Said(fed + more)) == Equal
  {
    var ours, said, held := Words(expected), Said(Committed(fed)), fed[CutAt(fed)..];
    var missing := ours[|said|..];
    WordsAreWords(expected);
    HeldBegins(missing, held);
    more := Encode(Spaced(missing))[|held|..];
    assert held + more == Encode(Spaced(missing));
    CompletedBy(fed, more, missing);
    assert said + missing == ours;
  }

  lemma HeldBegins(missing: seq<string>, held: seq<byte>)
    requires held == [] || (missing != [] && held <= Encode(missing[0]))
    ensures held <= Encode(Spaced(missing))
  {
    if held != [] {
      assert Spaced(missing) == missing[0] + ([' '] + Spaced(missing[1..]));
      EncodeConcat(missing[0], [' '] + Spaced(missing[1..]));
    }
  }

  lemma CompletedBy(fed: seq<byte>, more: seq<byte>, missing: seq<string>)
    requires fed[CutAt(fed)..] + more == Encode(Spaced(missing)) && forall w | w in missing :: IsWord(w)
    ensures Said(fed + more) == Said(Committed(fed)) + missing
  {
    CutAtIsCut(fed);
    TakeThenDrop(fed, CutAt(fed));
    Assoc(Committed(fed), fed[CutAt(fed)..], more);
    SaidCut(Committed(fed), Encode(Spaced(missing)));
    SaidSpaced(missing);
  }

  lemma SaidSpaced(words: seq<string>)
    requires forall w | w in words :: IsWord(w)
    ensures Said(Encode(Spaced(words))) == words
  {
    DecodeEncode(Spaced(words));
    WordsOfSpaced(words);
  }

  /** What one chunk makes whole: the held bytes up to its last space; the rest is held. */
  lemma ChunkMakesWhole(was: seq<byte>, bytes: seq<byte>, held: seq<byte>)
    requires held == was[CutAt(was)..] && CutAt(bytes) > 0
    ensures CutAt(was) <= CutAt(was + bytes)
    ensures var n := |held| + CutAt(bytes);
            && (held + bytes)[..n] == (was + bytes)[CutAt(was)..CutAt(was + bytes)]
            && (held + bytes)[n..] == (was + bytes)[CutAt(was + bytes)..]
  {
    CutOfSum(was, bytes);
    SliceAcross(was, bytes, CutAt(was), CutAt(bytes));
  }

  /** A chunk with no space makes nothing whole: all of it is held. */
  lemma ChunkIsHeld(was: seq<byte>, bytes: seq<byte>)
    requires CutAt(bytes) == 0
    ensures Committed(was + bytes) == Committed(was)
    ensures was[CutAt(was)..] + bytes == (was + bytes)[CutAt(was + bytes)..]
  {
    CutOfSum(was, bytes);
    TakeOfFront(was, bytes, CutAt(was));
    DropOfFront(was, bytes, CutAt(was));
  }

  /** One word further the words are still a prefix of the expected ones, or the verdict on
      all of them is that one. */
  lemma OneMoreWord(ours: seq<string>, before: seq<string>, words: seq<string>, i: nat)
    requires i < |words| && before + words[..i] <= ours
    ensures var at, got := |before| + i, Some(words[i]);
            if Nth(ours, at) == got then before + words[..i + 1] <= ours
            else
              && !(before + words <= ours)
              && Verdict(ours, before + words) == Different(at + 1, OrNothing(Nth(ours, at)), OrNothing(got))
  {
    var at, all := |before| + i, before + words;
    assert all[..at] == before + words[..i] && all[at] == words[i];
    assert all[..at + 1] == before + words[..i + 1];
    if Nth(ours, at) != Some(words[i]) {
      VerdictIsFirstDifference(ours, all, at);
    } else {
      assert ours[..at + 1] == ours[..at] + [words[i]];
    }
  }

  /** The state of a comparison between two chunks of output. */
  class Comparing {
    /** The expected words not yet met. */
    var ours: seq<string>
    /** The bytes after the last ASCII space so far. */
    var holding: seq<byte>
    var index: nat
    var decided: Option<Comparison>

    ghost const expected: seq<string>
    /** Everything ever fed. */
    ghost var fed: seq<byte>

    ghost predicate Valid()
      reads this
    {
      && (decided == None <==> Open(expected, fed))
      && (decided.Some? ==> decided.value == Verdict(expected, Said(Committed(fed))))
      && (decided == None ==>
            && holding == fed[CutAt(fed)..]
            && index == |Said(Committed(fed))|
            && ours == expected[index..])
    }

    constructor Against(text: string)
      ensures Valid() && expected == Words(text) && fed == []
    {
      ours, holding, index, decided := Words(text), [], 0, None;
      expected, fed := Words(text), [];
    }

    /** Takes the next word of each side, and answers only where they are not the same. */
    method Settle(got: Option<string>) returns (found: Option<Comparison>)
      modifies this`ours, this`index
      ensures ours == if old(ours) == [] then [] else old(ours)[1..]
      ensures index == if got == None && old(ours) == [] then old(index) else old(index) + 1
      ensures found == None <==> Nth(old(ours), 0) == got
      ensures found.Some? ==>
                found.value == Different(index, OrNothing(Nth(old(ours), 0)), OrNothing(got))
    {
      var want := Nth(ours, 0);
      ours := if ours == [] then [] else ours[1..];
      if want == None && got == None {
        return None;
      }
      index := index + 1;
      if want == got {
        return None;
      }
      return Some(Different(index, OrNothing(want), OrNothing(got)));
    }

    /** Runs `words` through `Settle` until one of them ends it. */
    method SettleAll(words: seq<string>, ghost before: seq<string>) returns (found: Option<Comparison>)
      requires before <= expected && index == |before| && ours == expected[index..]
      modifies this`ours, this`index
      ensures found == None <==> before + words <= expected
      ensures found == None ==> index == |before + words| && ours == expected[index..]
      ensures found.Some? ==> found.value == Verdict(expected, before + words)
    {
      var i := 0;
      while i < |words|
        invariant 0 <= i <= |words|
        invariant before + words[..i] <= expected
        invariant index == |before| + i && ours == expected[index..]
      {
        OneMoreWord(expected, before, words, i);
        assert Nth(ours, 0) == Nth(expected, index);
        found := Settle(Some(words[i]));
        if found.Some? {
          return;
        }
        i := i + 1;
      }
      assert words[..i] == words;
      return None;
    }

    /** One more chunk: settled exactly when the committed words stop being a prefix of
        the expected ones, and for good. */
    method Feed(bytes: seq<byte>) returns (answer: Option<Comparison>)
      requires Valid()
      modifies this
      ensures Valid() && fed == old(fed) + bytes
      ensures answer == decided
      ensures answer == None <==> Open(expected, fed)
      ensures answer.Some? ==> answer.value == Verdict(expected, Said(fed))
      ensures old(decided).Some? ==> decided == old(decided)
    {
      ghost var was := fed;
      fed := fed + bytes;
      if decided.Some? {
        SettledIsSettled(expected, was, bytes);
        return decided;
      }
      var held := |holding|;
      var n := CutAt(bytes);
      if n == 0 {
        ChunkIsHeld(was, bytes);
        holding := holding + bytes;
        return None;
      }
      ChunkMakesWhole(was, bytes, holding);
      holding := holding + bytes;
      var whole := holding[..held + n];
      holding := holding[held + n..];
      CommittedGrows(was, bytes);
      decided := SettleAll(Words(Decode(whole)), Said(Committed(was)));
      if decided.Some? {
        SettledNow(expected, fed);
      }
      return decided;
    }

    /** The end of the output: the verdict on everything fed. */
    method Finish() returns (found: Comparison)
      requires Valid()
      modifies this`ours, this`index, this`holding
      ensures found == Verdict(expected, Said(fed))
    {
      if decided.Some? {
        SettledNow(expected, fed);
        return decided.value;
      }
      SaidIsCommittedThenRest(fed);
      var last := holding;
      holding := [];
      var early := SettleAll(Words(Decode(last)), Said(Committed(fed)));
      if early.Some? {
        return early.value;
      }
      var at := index;
      var ended := Settle(None);
      if ended.Some? {
        VerdictIsFirstDifference(expected, Said(fed), at);
        return ended.value;
      }
      return Equal;
    }
  }

  /** Both texts in one piece. */
  method CompareWhole(expected: seq<byte>, actual: seq<byte>) returns (found: Comparison)
    ensures found == Verdict(Said(expected), Said(actual))
  {
    var comparing := new Comparing.Against(Decode(expected));
    var _ := comparing.Feed(actual);
    assert comparing.fed == actual;
    found := comparing.Finish();
  }

  /** The first `k` chunks in one piece. */
  function Joined(chunks: seq<seq<byte>>, k: nat): seq<byte>
    requires k <= |chunks|
  {
    if k == 0 then [] else Joined(chunks, k - 1) + chunks[k - 1]
  }

  lemma {:induction false} JoinedGrows(chunks: seq<seq<byte>>, j: nat, k: nat)
    requires j <= k <= |chunks|
    ensures |Joined(chunks, j)| <= |Joined(chunks, k)|
  {
    if j < k {
      JoinedGrows(chunks, j, k - 1);
    }
  }

  lemma JoinedOneMore(chunks: seq<seq<byte>>, k: nat)
    requires k < |chunks|
    ensures Joined(chunks, k + 1) == Joined(chunks, k) + chunks[k]
  {}

  /** `stopped` is the chunk, among the first `n`, that completes the first wrong word. */
  ghost predicate StopsAt(ours: seq<string>, chunks: seq<seq<byte>>, n: nat, stopped: Option<nat>)
    requires n <= |chunks|
  {
    match stopped
    case None => Open(ours, Joined(chunks, n))
    case Some(k) => k < n && Open(ours, Joined(chunks, k)) && !Open(ours, Joined(chunks, k + 1))
  }

  /** The first `n` chunks are compared and no more: the next would pass the cap, if it has
      been `capped` within the first `i`. */
  ghost predicate CapsAt(chunks: seq<seq<byte>>, cap: nat, i: nat, n: nat, capped: bool)
    requires i <= |chunks|
  {
    && n <= i && |Joined(chunks, n)| <= cap
    && if capped then n < i && |Joined(chunks, n + 1)| > cap else n == i
  }

  /** Where the stream stands once chunk `n` has been compared as well. */
  lemma StopsNext(ours: seq<string>, chunks: seq<seq<byte>>, n: nat, stopped: Option<nat>, open: bool)
    requires n < |chunks| && StopsAt(ours, chunks, n, stopped)
    requires open <==> Open(ours, Joined(chunks, n + 1))
    ensures StopsAt(ours, chunks, n + 1, if stopped == None && !open then Some(n) else stopped)
  {}

  /** One more chunk for the comparison, and whether it is the one to stop the run at. */
  method FeedNext(
      comparing: Comparing, ghost chunks: seq<seq<byte>>, n: nat, chunk: seq<byte>,
      was: Option<nat>)
    returns (stopped: Option<nat>)
    requires comparing.Valid() && n < |chunks| && chunk == chunks[n] && comparing.fed == Joined(chunks, n)
    requires (was == None <==> comparing.decided == None) && StopsAt(comparing.expected, chunks, n, was)
    modifies comparing
    ensures comparing.Valid() && comparing.fed == Joined(chunks, n + 1)
    ensures (stopped == None <==> comparing.decided == None) && StopsAt(comparing.expected, chunks, n + 1, stopped)
  {
    JoinedOneMore(chunks, n);
    var answer := comparing.Feed(chunk);
    StopsNext(comparing.expected, chunks, n, was, answer == None);
    stopped := if was == None && answer.Some? then Some(n) else was;
  }

  lemma CapsNext(chunks: seq<seq<byte>>, cap: nat, i: nat, n: nat, capped: bool)
    requires i < |chunks| && CapsAt(chunks, cap, i, n, capped)
    ensures var over := capped || |Joined(chunks, i + 1)| > cap;
            CapsAt(chunks, cap, i + 1, if over then n else i + 1, over)
  {}

  /** Every chunk is counted, and compared only while the cap has not been passed. */
  method Relay(comparing: Comparing, chunks: seq<seq<byte>>, cap: nat)
    returns (stopped: Option<nat>, capped: bool, ghost fed: nat)
    requires comparing.Valid() && comparing.fed == [] && Open(comparing.expected, [])
    modifies comparing
    ensures comparing.Valid() && CapsAt(chunks, cap, |chunks|, fed, capped)
    ensures comparing.fed == Joined(chunks, fed) && StopsAt(comparing.expected, chunks, fed, stopped)
  {
    stopped, capped, fed := None, false, 0;
    var i, total := 0, 0;
    while i < |chunks|
      invariant 0 <= i <= |chunks| && total == |Joined(chunks, i)| && CapsAt(chunks, cap, i, fed, capped)
      invariant comparing.Valid() && comparing.fed == Joined(chunks, fed)
      invariant (stopped == None <==> comparing.decided == None) && StopsAt(comparing.expected, chunks, fed, stopped)
    {
      JoinedOneMore(chunks, i);
      CapsNext(chunks, cap, i, fed, capped);
      total := total + |chunks[i]|;
      if !capped && total > cap {
        capped := true;
      }
      if !capped {
        stopped := FeedNext(comparing, chunks, i, chunks[i], stopped);
        fed := i + 1;
      }
      i := i + 1;
    }
  }

  /** However the output is cut into chunks the verdict is that of the whole, the run is
      stopped at exactly the chunk that completes the first wrong word, and from the chunk
      that passes `cap` on (chunk `fed`) nothing more is compared. */
  method CompareStream(expected: string, chunks: seq<seq<byte>>, cap: nat)
    returns (found: Comparison, stopped: Option<nat>, capped: bool, ghost fed: nat)
    ensures capped <==> |Joined(chunks, |chunks|)| > cap
    ensures fed <= |chunks| && |Joined(chunks, fed)| <= cap
    ensures if capped then fed < |chunks| && |Joined(chunks, fed + 1)| > cap else fed == |chunks|
    ensures found == Verdict(Words(expected), Words(Decode(Joined(chunks, fed))))
    ensures stopped == None ==> Open(Words(expected), Joined(chunks, fed))
    ensures stopped.Some? ==>
              && stopped.value < fed
              && Open(Words(expected), Joined(chunks, stopped.value))
              && !Open(Words(expected), Joined(chunks, stopped.value + 1))
  {
    var comparing := new Comparing.Against(expected);
    stopped, capped, fed := Relay(comparing, chunks, cap);
    if capped {
      JoinedGrows(chunks, fed + 1, |chunks|);
    }
    found := comparing.Finish();
  }
}
