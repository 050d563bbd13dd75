/** The shim's report on the one process it watched: the line `aj-shim.c` prints
    and `take_report` (docker.rs), which takes it back out of standard error. */
module Report {
  import opened Sequences
  import opened Text
  import opened Decimal

  /** Text of ASCII characters only, as bytes. */
  predicate IsAscii(s: string) {
    forall i | 0 <= i < |s| :: s[i] as int < 0x80
  }

  function Ascii(s: string): (b: seq<byte>)
    requires IsAscii(s)
    ensures |b| == |s| && forall i | 0 <= i < |s| :: b[i] == s[i] as int
  {
    seq(|s|, i requires 0 <= i < |s| => s[i] as int)
  }

  lemma {:induction false} DecodeAscii(s: string)
    requires IsAscii(s)
    ensures Decode(Ascii(s)) == s
  {
    if s == "" {
    } else {
      assert Ascii(s)[1..] == Ascii(s[1..]);
      DecodeAscii(s[1..]);
    }
  }

  const NEWLINE: byte := 10

  /** What `docker.rs` makes one of: thirty-two lower-case hex digits. */
  predicate IsNonce(nonce: string) {
    |nonce| == 32 && forall i | 0 <= i < 32 :: IsDigit(nonce[i]) || 'a' <= nonce[i] <= 'f'
  }

  function MarkerText(nonce: string): string {
    nonce + " aj-shim1 "
  }

  function Marker(nonce: string): (m: seq<byte>)
    requires IsNonce(nonce)
    ensures |m| == 42
  {
    Ascii(MarkerText(nonce))
  }

  // ---- the printer

  datatype Ended = Ended(code: nat, signal: nat, cpu: nat, peak: nat, wall: int, user: nat, system: nat)

  const LINE := 512
  const LL := 0x8000_0000_0000_0000

  /** The values the shim's C types can hold.  The wall clock is a difference of
      two readings of a clock somebody may set, so it alone may be negative. */
  predicate Representable(e: Ended) {
    && e.code < 256 && e.signal < 128
    && e.cpu == e.user + e.system && e.cpu < LL && e.peak < LL
    && -LL <= e.wall < LL
  }

  function Fields(e: Ended): seq<string> {
    [Digits(e.code), Digits(e.signal), Digits(e.cpu), Digits(e.peak), SignedDigits(e.wall),
     Digits(e.user), Digits(e.system)]
  }

  function Spread(words: seq<string>): string {
    if words == [] then "" else words[0] + (if |words| == 1 then "" else " ") + Spread(words[1..])
  }

  /** The line, before `snprintf` cuts it to its buffer. */
  function LineText(nonce: string, e: Ended): string {
    MarkerText(nonce) + "ok " + Spread(Fields(e)) + "\n"
  }

  function Printed(text: string): string {
    if |text| < LINE then text else text[..LINE - 1]
  }

  /** ASCII with no line break in it. */
  predicate Plain(s: string) {
    forall i | 0 <= i < |s| :: s[i] as int < 0x80 && s[i] != '\n'
  }

  predicate IsField(w: string) {
    w != "" && forall i | 0 <= i < |w| :: IsDigit(w[i]) || w[i] == '-'
  }

  lemma FieldsAreFields(e: Ended)
    ensures forall w | w in Fields(e) :: IsField(w)
  {}

  lemma {:induction false} SpreadIsPlain(words: seq<string>)
    requires forall w | w in words :: IsField(w)
    ensures Plain(Spread(words))
  {
    if words == [] {
    } else {
      assert IsField(words[0]);
      SpreadIsPlain(words[1..]);
    }
  }

  lemma LineIsPlain(nonce: string, e: Ended)
    requires IsNonce(nonce)
    ensures var text := LineText(nonce, e); IsAscii(text) && Plain(text[..|text| - 1])
  {
    FieldsAreFields(e);
    SpreadIsPlain(Fields(e));
    var text, spread := LineText(nonce, e), Spread(Fields(e));
    var head := MarkerText(nonce) + "ok ";
    assert Plain(MarkerText(nonce));
    assert Plain(head);
    assert Plain(head + spread);
    assert text == head + spread + "\n";
    assert text[..|text| - 1] == head + spread;
  }

  /** The buffer of 512 bytes is never what cuts the report short. */
  lemma LineFits(nonce: string, e: Ended)
    requires IsNonce(nonce) && Representable(e)
    ensures Printed(LineText(nonce, e)) == LineText(nonce, e)
  {
    TwentyDigits(e.code);
    TwentyDigits(e.signal);
    TwentyDigits(e.cpu);
    TwentyDigits(e.peak);
    TwentyDigits(if e.wall < 0 then -e.wall else e.wall);
    TwentyDigits(e.user);
    TwentyDigits(e.system);
    SpreadLength(Fields(e));
  }

  lemma {:induction false} SpreadLength(words: seq<string>)
    requires forall i | 0 <= i < |words| :: |words[i]| <= 21
    ensures |Spread(words)| <= 22 * |words|
  {
    if words == [] {
    } else {
      SpreadLength(words[1..]);
    }
  }

  function Line(nonce: string, e: Ended): seq<byte>
    requires IsNonce(nonce) && Representable(e)
  {
    LineFits(nonce, e);
    LineIsPlain(nonce, e);
    Ascii(Printed(LineText(nonce, e)))
  }

  // ---- the parser

  datatype Reported = Reported(cpu: nat, peak: nat, user: nat, system: nat)

  function Field(words: seq<string>, i: nat): Option<nat> {
    if i < |words| then Parse(words[i], U64) else None
  }

  /** The fields of one marker line: two are skipped, then the wall clock is. */
  function ReadFields(said: string): Option<Reported> {
    if !("ok " <= said) then None
    else
      var words := Words(said[3..]);
      match (Field(words, 2), Field(words, 3), Field(words, 5), Field(words, 6))
      case (Some(cpu), Some(peak), Some(user), Some(system)) => Some(Reported(cpu, peak, user, system))
      case _ => None
  }

  datatype Span = Span(from: nat, to: nat)

  predicate StartsAt(b: seq<byte>, m: seq<byte>, at: nat) {
    at + |m| <= |b| && b[at..at + |m|] == m
  }

  function NewlineFrom(b: seq<byte>, at: nat): (n: Option<nat>)
    ensures n.Some? ==> at <= n.value < |b|
    decreases |b| - at
  {
    if at >= |b| then None else if b[at] == NEWLINE then Some(at) else NewlineFrom(b, at + 1)
  }

  /** It is the first newline at or after `at`. */
  lemma {:induction false} NewlineFromIsFirst(b: seq<byte>, at: nat)
    ensures var n := NewlineFrom(b, at);
            && (n.Some? ==> b[n.value] == NEWLINE && forall i | at <= i < n.value :: b[i] != NEWLINE)
            && (n == None ==> forall i | at <= i < |b| :: b[i] != NEWLINE)
    decreases |b| - at
  {
    if at < |b| && b[at] != NEWLINE {
      NewlineFromIsFirst(b, at + 1);
    }
  }

  /** What a scan finds from some place on: its marker lines, and the bytes they do not cover. */
  datatype Found = Found(spans: seq<Span>, left: seq<byte>)

  function Kept(c: byte, rest: Found): Found {
    Found(rest.spans, [c] + rest.left)
  }

  function Taken(s: Span, rest: Found): Found {
    Found([s] + rest.spans, rest.left)
  }

  /** The scan from `at` on, which an unended marker line stops. */
  function From(b: seq<byte>, m: seq<byte>, at: nat): Found
    requires m != [] && at <= |b|
    decreases |b| - at
  {
    if at == |b| then Found([], [])
    else if !StartsAt(b, m, at) then Kept(b[at], From(b, m, at + 1))
    else match NewlineFrom(b, at)
      case None => Found([], b[at..])
      case Some(n) => Taken(Span(at, n + 1), From(b, m, n + 1))
  }

  function Spans(b: seq<byte>, m: seq<byte>): seq<Span>
    requires m != []
  {
    From(b, m, 0).spans
  }

  /** What is left of the text when every scanned marker line is taken out. */
  function Left(b: seq<byte>, m: seq<byte>): seq<byte>
    requires m != []
  {
    From(b, m, 0).left
  }

  /** What follows the marker on the last marker line. */
  function LastLine(b: seq<byte>, m: seq<byte>): Option<seq<byte>>
    requires m != []
  {
    var spans := Spans(b, m);
    if spans == [] then None else Some(Body(b, m, spans[|spans| - 1]))
  }

  function Body(b: seq<byte>, m: seq<byte>, s: Span): seq<byte> {
    if s.from + |m| <= s.to <= |b| then b[s.from + |m|..s.to] else []
  }

  /** What the whole buffer reports: its last marker line, read. */
  function Reading(b: seq<byte>, m: seq<byte>): Option<Reported>
    requires m != []
  {
    ReadLine(LastLine(b, m))
  }

  function ReadLine(line: Option<seq<byte>>): Option<Reported> {
    match line case None => None case Some(bytes) => ReadFields(TrimEnd(Decode(bytes)))
  }

  // ---- one step of the scan

  lemma NewlineIsFirst(b: seq<byte>, at: nat, n: nat)
    requires at <= n < |b| && b[n] == NEWLINE && forall i | at <= i < n :: b[i] != NEWLINE
    ensures NewlineFrom(b, at) == Some(n)
  {
    NewlineFromIsFirst(b, at);
    var found := NewlineFrom(b, at);
    assert found.Some? && !(found.value < n);
  }

  lemma NoNewline(b: seq<byte>, at: nat)
    requires forall i | at <= i < |b| :: b[i] != NEWLINE
    ensures NewlineFrom(b, at) == None
  {
    NewlineFromIsFirst(b, at);
  }

  lemma LineStep(b: seq<byte>, m: seq<byte>, at: nat, n: nat)
    requires m != [] && StartsAt(b, m, at) && NewlineFrom(b, at) == Some(n)
    ensures From(b, m, at) == Taken(Span(at, n + 1), From(b, m, n + 1))
  {}

  lemma ByteStep(b: seq<byte>, m: seq<byte>, at: nat)
    requires m != [] && at < |b| && !StartsAt(b, m, at)
    ensures From(b, m, at) == Kept(b[at], From(b, m, at + 1))
  {}

  lemma LastStep(b: seq<byte>, m: seq<byte>, at: nat)
    requires m != [] && at <= |b| && (at == |b| || (StartsAt(b, m, at) && NewlineFrom(b, at) == None))
    ensures From(b, m, at) == Found([], b[at..])
  {}

  lemma {:induction false} TooShort(b: seq<byte>, m: seq<byte>, at: nat)
    requires m != [] && at <= |b| < at + |m|
    ensures From(b, m, at) == Found([], b[at..])
    decreases |b| - at
  {
    if at == |b| {
      LastStep(b, m, at);
    } else {
      ByteStep(b, m, at);
      TooShort(b, m, at + 1);
      DropLess(b, at, at + 1);
    }
  }

  /** One step of the scan, told over the spans it has found so far. */
  lemma ScanStep(b: seq<byte>, m: seq<byte>, at: nat, found: seq<Span>)
    requires m != [] && at < |b|
    ensures !StartsAt(b, m, at) ==> found + From(b, m, at).spans == found + From(b, m, at + 1).spans
    ensures StartsAt(b, m, at) && NewlineFrom(b, at) == None ==> found + From(b, m, at).spans == found
    ensures StartsAt(b, m, at) && NewlineFrom(b, at).Some? ==>
              var n := NewlineFrom(b, at).value;
              found + From(b, m, at).spans == found + [Span(at, n + 1)] + From(b, m, n + 1).spans
  {
    if !StartsAt(b, m, at) {
      ByteStep(b, m, at);
    } else if NewlineFrom(b, at) == None {
      LastStep(b, m, at);
    } else {
      var n := NewlineFrom(b, at).value;
      LineStep(b, m, at, n);
      Assoc(found, [Span(at, n + 1)], From(b, m, n + 1).spans);
    }
  }

  /** Where the first span of a scan lies, and what is kept before and after it. */
  lemma {:induction false} FirstSpan(b: seq<byte>, m: seq<byte>, at: nat)
    requires m != [] && at <= |b| && From(b, m, at).spans != []
    ensures var s := From(b, m, at).spans[0];
            && at <= s.from < s.to <= |b|
            && From(b, m, at) == Found([s] + From(b, m, s.to).spans, b[at..s.from] + From(b, m, s.to).left)
    decreases |b| - at
  {
    if at == |b| {
      LastStep(b, m, at);
    } else if !StartsAt(b, m, at) {
      ByteStep(b, m, at);
      FirstSpan(b, m, at + 1);
      var s := From(b, m, at).spans[0];
      Assoc([b[at]], b[at + 1..s.from], From(b, m, s.to).left);
      assert b[at..s.from] == [b[at]] + b[at + 1..s.from];
    } else {
      var line := NewlineFrom(b, at);
      if line == None {
        LastStep(b, m, at);
      } else {
        LineStep(b, m, at, line.value);
        assert b[at..at] == [];
        assert [] + From(b, m, line.value + 1).left == From(b, m, line.value + 1).left;
      }
    }
  }

  lemma {:induction false} NoSpans(b: seq<byte>, m: seq<byte>, at: nat)
    requires m != [] && at <= |b| && From(b, m, at).spans == []
    ensures From(b, m, at).left == b[at..]
    decreases |b| - at
  {
    if at < |b| && !StartsAt(b, m, at) {
      ByteStep(b, m, at);
      NoSpans(b, m, at + 1);
      DropLess(b, at, at + 1);
    }
  }

  // ---- the loops

  /** A growable buffer of bytes, which is all `Vec<u8>` is here. */
  class Buffer {
    var bytes: seq<byte>

    constructor (bytes: seq<byte>)
      ensures this.bytes == bytes
    {
      this.bytes := bytes;
    }

    method Drain(from: nat, to: nat)
      requires from <= to <= |bytes|
      modifies this
      ensures bytes == old(bytes)[..from] + old(bytes)[to..]
    {
      bytes := bytes[..from] + bytes[to..];
    }
  }

  /** Scans for the marker by index. */
  method Scan(b: seq<byte>, m: seq<byte>) returns (found: seq<Span>)
    requires m != []
    ensures found == Spans(b, m)
  {
    found := [];
    var at := 0;
    while at + |m| <= |b|
      invariant at <= |b|
      invariant Spans(b, m) == found + From(b, m, at).spans
      decreases |b| - at
    {
      ScanStep(b, m, at, found);
      if StartsAt(b, m, at) {
        var line := NewlineFrom(b, at);
        if line == None {
          return;
        }
        found := found + [Span(at, line.value + 1)];
        at := line.value + 1;
      } else {
        at := at + 1;
      }
    }
    TooShort(b, m, at);
  }

  /** Where the scan stands after `j` of its spans. */
  function After(spans: seq<Span>, j: nat): nat
    requires j <= |spans|
  {
    if j == 0 then 0 else spans[j - 1].to
  }

  /** After `j` spans the scan still has the others to find. */
  lemma {:induction false} SpansFrom(b: seq<byte>, m: seq<byte>, j: nat)
    requires m != [] && j <= |Spans(b, m)|
    ensures After(Spans(b, m), j) <= |b|
    ensures From(b, m, After(Spans(b, m), j)).spans == Spans(b, m)[j..]
  {
    if j > 0 {
      SpansFrom(b, m, j - 1);
      FirstSpan(b, m, After(Spans(b, m), j - 1));
      assert Spans(b, m)[j - 1..][1..] == Spans(b, m)[j..];
    }
  }

  /** Drains every span the scan found, backwards so that earlier offsets stay valid. */
  method DrainAll(stderr: Buffer, m: seq<byte>, found: seq<Span>)
    requires m != [] && found == Spans(stderr.bytes, m)
    modifies stderr
    ensures stderr.bytes == Left(old(stderr.bytes), m)
  {
    ghost var b := stderr.bytes;
    var j := |found|;
    SpansFrom(b, m, j);
    NoSpans(b, m, After(found, j));
    while j > 0
      invariant 0 <= j <= |found| && After(found, j) <= |b|
      invariant stderr.bytes == b[..After(found, j)] + From(b, m, After(found, j)).left
    {
      j := j - 1;
      DrainStep(b, m, found, j);
      stderr.Drain(found[j].from, found[j].to);
    }
    assert b[..0] == [];
  }

  lemma DrainStep(b: seq<byte>, m: seq<byte>, found: seq<Span>, j: nat)
    requires m != [] && found == Spans(b, m) && j < |found|
    ensures var at, s := After(found, j), found[j];
            && at <= s.from < s.to <= |b| && After(found, j + 1) == s.to
            && var whole := b[..s.to] + From(b, m, s.to).left;
               whole[..s.from] + whole[s.to..] == b[..at] + From(b, m, at).left
  {
    var at, s := After(found, j), found[j];
    SpansFrom(b, m, j);
    FirstSpan(b, m, at);
    var rest := From(b, m, s.to).left;
    TakeOfFront(b[..s.to], rest, s.from);
    assert b[..s.to][..s.from] == b[..s.from];
    SliceOfRest(b[..s.to], rest, 0);
    assert rest[0..] == rest;
    TakeMore(b, at, s.from - at);
    Assoc(b[..at], b[at..s.from], rest);
  }

  lemma NothingFound(b: seq<byte>, m: seq<byte>)
    requires m != [] && Spans(b, m) == []
    ensures Left(b, m) == b && Reading(b, m) == None
  {
    NoSpans(b, m, 0);
    assert b[0..] == b;
  }

  method TakeMarked(stderr: Buffer, marker: seq<byte>) returns (report: Option<Reported>)
    requires marker != []
    modifies stderr
    ensures report == Reading(old(stderr.bytes), marker)
    ensures stderr.bytes == Left(old(stderr.bytes), marker)
  {
    var b := stderr.bytes;
    var found := Scan(b, marker);
    if found == [] {
      NothingFound(b, marker);
      return None;
    }
    var line := Some(Body(b, marker, found[|found| - 1]));
    assert line == LastLine(b, marker);
    DrainAll(stderr, marker, found);
    return ReadLine(line);
  }

  /** Leaves the buffer without its marker lines, and answers what the last of them reported. */
  method TakeReport(stderr: Buffer, nonce: string) returns (report: Option<Reported>)
    requires IsNonce(nonce)
    modifies stderr
    ensures report == Reading(old(stderr.bytes), Marker(nonce))
    ensures stderr.bytes == Left(old(stderr.bytes), Marker(nonce))
  {
    var marker := Marker(nonce);
    report := TakeMarked(stderr, marker);
  }

  // ---- the line, spelled out

  /** **The marker** is the nonce, the shim's name and its version. */
  lemma MarkerSpelled(nonce: string)
    requires IsNonce(nonce)
    ensures IsAscii(nonce + " aj-shim1 ") && Marker(nonce) == Ascii(nonce + " aj-shim1 ")
  {
    assert MarkerText(nonce) == nonce + " aj-shim1 ";
  }

  /** Seven fields with a space between each two. */
  function Seven(a: string, b: string, c: string, d: string, e: string, f: string, g: string): string {
    a + " " + (b + " " + (c + " " + (d + " " + (e + " " + (f + " " + g)))))
  }

  /** **The shape of the line**: the marker, the word that all went well, seven fields in this
      order, and a line feed. */
  lemma LineSpelled(nonce: string, e: Ended, fields: string)
    requires IsNonce(nonce) && Representable(e)
    requires fields == Seven(Digits(e.code), Digits(e.signal), Digits(e.cpu), Digits(e.peak), SignedDigits(e.wall),
                             Digits(e.user), Digits(e.system))
    ensures Decode(Line(nonce, e)) == nonce + " aj-shim1 " + "ok " + fields + "\n"
  {
    LineFits(nonce, e);
    LineIsPlain(nonce, e);
    DecodeAscii(LineText(nonce, e));
    SpreadSeven(Digits(e.code), Digits(e.signal), Digits(e.cpu), Digits(e.peak), SignedDigits(e.wall),
                Digits(e.user), Digits(e.system));
  }

  lemma SpreadSeven(a: string, b: string, c: string, d: string, e: string, f: string, g: string)
    ensures Spread([a, b, c, d, e, f, g]) == Seven(a, b, c, d, e, f, g)
  {
    assert Spread([g]) == g;
    assert Spread([f, g]) == f + " " + g;
    assert Spread([e, f, g]) == e + " " + Spread([f, g]);
    assert Spread([d, e, f, g]) == d + " " + Spread([e, f, g]);
    assert Spread([c, d, e, f, g]) == c + " " + Spread([d, e, f, g]);
    assert Spread([b, c, d, e, f, g]) == b + " " + Spread([c, d, e, f, g]);
    assert Spread([a, b, c, d, e, f, g]) == a + " " + Spread([b, c, d, e, f, g]);
  }

  /** **What the parser asks of any line**, whoever wrote it: that it begins with `ok`, and
      that the third, fourth, sixth and seventh words are numbers a machine word holds. */
  lemma FieldsNeeded(said: string)
    ensures ReadFields(said).Some? <==>
              && |said| >= 3 && said[0] == 'o' && said[1] == 'k' && said[2] == ' '
              && |Words(said[3..])| >= 7
              && forall i | i in {2, 3, 5, 6} :: Parse(Words(said[3..])[i], 0x1_0000_0000_0000_0000).Some?
  {
    assert "ok " <= said <==> |said| >= 3 && said[0] == 'o' && said[1] == 'k' && said[2] == ' ';
  }

  // ---- the round trip

  /** Every marker the scan of `b` from `at` meets has its newline inside `b`. */
  predicate Closed(b: seq<byte>, m: seq<byte>, at: nat)
    requires m != [] && at <= |b|
    decreases |b| - at
  {
    if at == |b| then true
    else if !StartsAt(b, m, at) then Closed(b, m, at + 1)
    else match NewlineFrom(b, at)
      case None => false
      case Some(n) => Closed(b, m, n + 1)
  }

  /** Shifted by `k`, `m` agrees with itself. */
  predicate Overlaps(m: seq<byte>, k: nat)
    requires k <= |m|
  {
    m[k..] == m[..|m| - k]
  }

  /** No proper prefix of `m` is also a suffix of it. */
  predicate Borderless(m: seq<byte>) {
    forall k | 0 < k < |m| :: !Overlaps(m, k)
  }

  /** The spaces around the shim's name keep the marker from overlapping itself. */
  lemma MarkerIsBorderless(nonce: string)
    requires IsNonce(nonce)
    ensures Borderless(Marker(nonce))
  {
    var m := Marker(nonce);
    assert |m| == 42 && m[32] == 32 && m[41] == 32;
    assert forall i | 0 <= i < 32 :: m[i] != 32;
    assert forall i | 33 <= i < 41 :: m[i] != 32;
    forall k | 0 < k < |m| ensures !Overlaps(m, k) {
      if k == 9 {
        assert m[k..][23] == m[32] && m[..|m| - k][23] == m[23];
      } else {
        assert m[k..][41 - k] == m[41] && m[..|m| - k][41 - k] == m[41 - k];
      }
    }
  }

  /** As far as it goes, `t` is the marker. */
  predicate Begins(t: seq<byte>, m: seq<byte>) {
    forall i | 0 <= i < |t| && i < |m| :: t[i] == m[i]
  }

  /** So a marker cannot begin before one and end inside it. */
  lemma NoStraddle(p: seq<byte>, tail: seq<byte>, m: seq<byte>, at: nat)
    requires Borderless(m) && at < |p| < at + |m| && Begins(tail, m)
    ensures !StartsAt(p + tail, m, at)
  {
    var k, b := |p| - at, p + tail;
    if at + |m| <= |b| {
      assert b[at..at + |m|][k..] == m[..|m| - k];
      assert !Overlaps(m, k);
    }
  }

  function Join(a: Found, b: Found): Found {
    Found(a.spans + b.spans, a.left + b.left)
  }

  lemma JoinSteps(c: byte, s: Span, a: Found, b: Found)
    ensures Join(Kept(c, a), b) == Kept(c, Join(a, b))
    ensures Join(Taken(s, a), b) == Taken(s, Join(a, b))
    ensures Join(Found([], []), b) == b
  {
    Assoc([c], a.left, b.left);
    Assoc([s], a.spans, b.spans);
    assert [] + b.spans == b.spans && [] + b.left == b.left;
  }

  /** A scan of a closed prefix is unmoved by what follows it, up to where that starts. */
  lemma {:induction false} ScanOverPrefix(p: seq<byte>, tail: seq<byte>, m: seq<byte>, at: nat)
    requires m != [] && Borderless(m) && at <= |p| && Closed(p, m, at) && Begins(tail, m)
    ensures From(p + tail, m, at) == Join(From(p, m, at), From(p + tail, m, |p|))
    decreases |p| - at
  {
    var b := p + tail;
    var after := From(b, m, |p|);
    if at == |p| {
      LastStep(p, m, at);
      JoinSteps(0, Span(0, 0), after, after);
    } else if StartsAt(p, m, at) {
      SliceOfFront(p, tail, at, at + |m|);
      var n := NewlineFrom(p, at).value;
      NewlineFromIsFirst(p, at);
      NewlineIsFirst(b, at, n);
      LineStep(b, m, at, n);
      LineStep(p, m, at, n);
      ScanOverPrefix(p, tail, m, n + 1);
      JoinSteps(0, Span(at, n + 1), From(p, m, n + 1), after);
    } else {
      if at + |m| <= |p| {
        SliceOfFront(p, tail, at, at + |m|);
      } else {
        NoStraddle(p, tail, m, at);
      }
      ByteStep(b, m, at);
      ByteStep(p, m, at);
      ScanOverPrefix(p, tail, m, at + 1);
      JoinSteps(p[at], Span(0, 0), From(p, m, at + 1), after);
    }
  }

  lemma LastLineIs(b: seq<byte>, m: seq<byte>, front: seq<Span>, last: Span)
    requires m != [] && Spans(b, m) == front + [last]
    ensures LastLine(b, m) == Some(Body(b, m, last))
  {}

  lemma StartsInTail(p: seq<byte>, t: seq<byte>, m: seq<byte>)
    requires |m| <= |t| && Begins(t, m)
    ensures StartsAt(p + t, m, |p|)
  {
    SliceOfTail(p, t, 0, |m|);
    assert t[0..|m|] == m;
  }

  /** One newline, at the very end. */
  predicate IsLine(line: seq<byte>) {
    line != [] && line[|line| - 1] == NEWLINE && forall i | 0 <= i < |line| - 1 :: line[i] != NEWLINE
  }

  lemma WholeLineIsFound(p: seq<byte>, line: seq<byte>, m: seq<byte>)
    requires m != [] && |m| <= |line| && Begins(line, m) && IsLine(line)
    ensures From(p + line, m, |p|) == Found([Span(|p|, |p + line|)], [])
  {
    var b, at := p + line, |p|;
    StartsInTail(p, line, m);
    NewlineIsFirst(b, at, |b| - 1);
    LineStep(b, m, at, |b| - 1);
    LastStep(b, m, |b|);
  }

  /** A whole line after a closed prefix is the last one found, and the only one removed. */
  lemma WholeLineWins(p: seq<byte>, line: seq<byte>, m: seq<byte>)
    requires m != [] && Borderless(m) && Closed(p, m, 0)
    requires |m| < |line| && Begins(line, m) && IsLine(line)
    ensures LastLine(p + line, m) == Some(line[|m|..])
    ensures Left(p + line, m) == Left(p, m)
  {
    ScanOverPrefix(p, line, m, 0);
    WholeLineIsFound(p, line, m);
    LastLineIs(p + line, m, Spans(p, m), Span(|p|, |p + line|));
    BodyAtEnd(p, line, m);
    assert Left(p, m) + [] == Left(p, m);
  }

  lemma BodyAtEnd(p: seq<byte>, line: seq<byte>, m: seq<byte>)
    requires |m| <= |line|
    ensures Body(p + line, m, Span(|p|, |p + line|)) == line[|m|..]
  {
    SliceOfRest(p, line, |m|);
  }

  lemma CutLineIsNotFound(p: seq<byte>, cut: seq<byte>, m: seq<byte>)
    requires m != [] && Begins(cut, m) && forall i | 0 <= i < |cut| :: cut[i] != NEWLINE
    ensures From(p + cut, m, |p|) == Found([], cut)
  {
    var b := p + cut;
    SliceOfRest(p, cut, 0);
    assert cut[0..] == cut;
    if |cut| < |m| {
      TooShort(b, m, |p|);
    } else {
      StartsInTail(p, cut, m);
      NoNewline(b, |p|);
      LastStep(b, m, |p|);
    }
  }

  /** The spans of a scan lie inside what was scanned. */
  lemma {:induction false} SpansInside(b: seq<byte>, m: seq<byte>, at: nat)
    requires m != [] && at <= |b|
    ensures forall k | 0 <= k < |From(b, m, at).spans| :: From(b, m, at).spans[k].to <= |b|
    decreases |b| - at
  {
    if From(b, m, at).spans != [] {
      FirstSpan(b, m, at);
      SpansInside(b, m, From(b, m, at).spans[0].to);
    }
  }

  /** After a closed prefix an unended line is text like any other. */
  lemma CutLineLoses(p: seq<byte>, cut: seq<byte>, m: seq<byte>)
    requires m != [] && Borderless(m) && Closed(p, m, 0)
    requires Begins(cut, m) && forall i | 0 <= i < |cut| :: cut[i] != NEWLINE
    ensures LastLine(p + cut, m) == LastLine(p, m)
    ensures Left(p + cut, m) == Left(p, m) + cut
  {
    ScanOverPrefix(p, cut, m, 0);
    CutLineIsNotFound(p, cut, m);
    LastLineOfPrefix(p, cut, m);
  }

  lemma LastLineOfPrefix(p: seq<byte>, cut: seq<byte>, m: seq<byte>)
    requires m != [] && Spans(p + cut, m) == Spans(p, m)
    ensures LastLine(p + cut, m) == LastLine(p, m)
  {
    var spans := Spans(p, m);
    if spans != [] {
      SpansInside(p, m, 0);
      SameBody(p, cut, m, spans[|spans| - 1]);
    }
  }

  lemma SameBody(p: seq<byte>, cut: seq<byte>, m: seq<byte>, s: Span)
    requires s.to <= |p|
    ensures Body(p + cut, m, s) == Body(p, m, s)
  {
    if s.from + |m| <= s.to {
      SliceOfFront(p, cut, s.from + |m|, s.to);
    }
  }

  lemma FieldsAreRead(e: Ended)
    requires Representable(e)
    ensures ReadFields("ok " + Spread(Fields(e))) == Some(Reported(e.cpu, e.peak, e.user, e.system))
  {
    var said := "ok " + Spread(Fields(e));
    assert said[3..] == Spread(Fields(e));
    WordsOfSpread(Fields(e));
    ParseDigits(e.cpu, U64);
    ParseDigits(e.peak, U64);
    ParseDigits(e.user, U64);
    ParseDigits(e.system, U64);
  }

  lemma {:induction false} WordsOfSpread(words: seq<string>)
    requires forall w | w in words :: IsField(w)
    ensures Words(Spread(words)) == words
  {
    if words == [] {
    } else {
      var w := words[0];
      assert IsField(w);
      DigitsAreNotSpace(w);
      assert WordLength(w) == |w| && w[..|w|] == w && w[|w|..] == "";
      assert Words(w) == [w];
      WordsOfSpread(words[1..]);
      if |words| > 1 {
        WordsCut(w, ' ', Spread(words[1..]));
        assert w + [' '] + Spread(words[1..]) == Spread(words);
      } else {
        assert Spread(words[1..]) == "";
        assert Spread(words) == w;
      }
    }
  }

  lemma TrimOneNewline(s: string)
    requires s != "" && !IsWhitespace(s[|s| - 1])
    ensures TrimEnd(s + "\n") == s
  {
    assert (s + "\n")[..|s|] == s;
  }

  /** What the line itself says when it is read back. */
  lemma LineReadsBack(nonce: string, e: Ended)
    requires IsNonce(nonce) && Representable(e)
    ensures |Marker(nonce)| <= |Line(nonce, e)|
    ensures ReadFields(TrimEnd(Decode(Line(nonce, e)[|Marker(nonce)|..])))
         == Some(Reported(e.cpu, e.peak, e.user, e.system))
  {
    LineFits(nonce, e);
    LineIsPlain(nonce, e);
    var body := "ok " + Spread(Fields(e));
    var text := LineText(nonce, e);
    assert text == MarkerText(nonce) + (body + "\n");
    AsciiTail(MarkerText(nonce), body + "\n");
    DecodeAscii(body + "\n");
    FieldsAreFields(e);
    LastOfSpread(Fields(e));
    TrimBody(body, Spread(Fields(e)));
    FieldsAreRead(e);
  }

  lemma AsciiTail(head: string, tail: string)
    requires IsAscii(head + tail)
    ensures IsAscii(tail) && Ascii(head + tail)[|head|..] == Ascii(tail)
  {
    assert forall i | 0 <= i < |tail| :: tail[i] == (head + tail)[|head| + i];
  }

  lemma TrimBody(body: string, spread: string)
    requires body == "ok " + spread && spread != "" && !IsWhitespace(spread[|spread| - 1])
    ensures TrimEnd(body + "\n") == body
  {
    assert body[|body| - 1] == spread[|spread| - 1];
    TrimOneNewline(body);
  }

  lemma {:induction false} LastOfSpread(words: seq<string>)
    requires words != [] && forall w | w in words :: IsField(w)
    ensures Spread(words) != "" && !IsWhitespace(Spread(words)[|Spread(words)| - 1])
  {
    assert IsField(words[0]);
    if |words| == 1 {
      assert Spread(words[1..]) == "";
      assert Spread(words) == words[0];
    } else {
      LastOfSpread(words[1..]);
    }
  }

  lemma LineShape(nonce: string, e: Ended)
    requires IsNonce(nonce) && Representable(e)
    ensures var line, m := Line(nonce, e), Marker(nonce); m != [] && |m| < |line| && Begins(line, m) && IsLine(line)
  {
    LineFits(nonce, e);
    LineIsPlain(nonce, e);
    var text := LineText(nonce, e);
    assert text[..|MarkerText(nonce)|] == MarkerText(nonce);
    assert forall i | 0 <= i < |text| - 1 :: text[i] == text[..|text| - 1][i];
  }

  /** **Round trip.**  Whatever the submission wrote first, as long as its own marker
      lines (if any) were ended, the shim's line is the one that is read, it is read
      exactly, and the rest is left byte for byte. */
  lemma ReportRoundTrip(prefix: seq<byte>, nonce: string, e: Ended)
    requires IsNonce(nonce) && Representable(e) && Closed(prefix, Marker(nonce), 0)
    ensures Reading(prefix + Line(nonce, e), Marker(nonce)) == Some(Reported(e.cpu, e.peak, e.user, e.system))
    ensures Left(prefix + Line(nonce, e), Marker(nonce)) == Left(prefix, Marker(nonce))
  {
    MarkerIsBorderless(nonce);
    LineShape(nonce, e);
    WholeLineWins(prefix, Line(nonce, e), Marker(nonce));
    LineReadsBack(nonce, e);
  }

  /** **Half a report is no report.**  Cut anywhere before its newline, the line adds
      nothing to what the prefix alone would have been read as, and stays in the text. */
  lemma TruncatedLineIsText(prefix: seq<byte>, nonce: string, e: Ended, k: nat)
    requires IsNonce(nonce) && Representable(e) && k < |Line(nonce, e)| && Closed(prefix, Marker(nonce), 0)
    ensures var cut := Line(nonce, e)[..k];
            && Reading(prefix + cut, Marker(nonce)) == Reading(prefix, Marker(nonce))
            && Left(prefix + cut, Marker(nonce)) == Left(prefix, Marker(nonce)) + cut
  {
    MarkerIsBorderless(nonce);
    LineShape(nonce, e);
    CutLineLoses(prefix, Line(nonce, e)[..k], Marker(nonce));
  }

  lemma {:induction false} MarkerFree(b: seq<byte>, m: seq<byte>, at: nat)
    requires m != [] && at <= |b| && forall i: nat :: !StartsAt(b, m, i)
    ensures From(b, m, at) == Found([], b[at..]) && Closed(b, m, at)
    decreases |b| - at
  {
    if at < |b| {
      MarkerFree(b, m, at + 1);
      DropLess(b, at, at + 1);
    }
  }

  /** With no marker before it a truncated line yields no report at all and the
      buffer is untouched. */
  lemma TruncatedLineAlone(prefix: seq<byte>, nonce: string, e: Ended, k: nat)
    requires IsNonce(nonce) && Representable(e) && k < |Line(nonce, e)|
    requires forall i: nat :: !StartsAt(prefix, Marker(nonce), i)
    ensures var cut := Line(nonce, e)[..k];
            Reading(prefix + cut, Marker(nonce)) == None && Left(prefix + cut, Marker(nonce)) == prefix + cut
  {
    MarkerFree(prefix, Marker(nonce), 0);
    assert prefix[0..] == prefix;
    TruncatedLineIsText(prefix, nonce, e, k);
  }
}
