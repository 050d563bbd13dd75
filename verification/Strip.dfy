/** Blanking comments and literals out of a submission's source, and finding the
    line a match was on (aj-standard-io/policy.rs). */
module Strip {
  import opened Sequences
  import opened Text

  datatype Rules = Rules(python: bool, comments: bool, literals: bool)

  // ---- the reference: a lexer that reads one character at a time

  datatype State =
    | Code
    | Line
    | Block
    | Literal(quote: char, triple: bool)
    | Escaped(quote: char, triple: bool)
    | Fill(more: nat, then_: State)

  predicate At(s: string, i: nat, c: char) {
    i < |s| && s[i] == c
  }

  predicate LineOpens(r: Rules, s: string, i: nat) {
    r.comments && if r.python then At(s, i, '#') else At(s, i, '/') && At(s, i + 1, '/')
  }

  predicate BlockOpens(r: Rules, s: string, i: nat) {
    r.comments && !r.python && At(s, i, '/') && At(s, i + 1, '*')
  }

  predicate LiteralOpens(r: Rules, s: string, i: nat) {
    r.literals && (At(s, i, '"') || At(s, i, '\''))
  }

  predicate Three(s: string, i: nat, quote: char) {
    At(s, i, quote) && At(s, i + 1, quote) && At(s, i + 2, quote)
  }

  /** Whether character `i` is blanked when it is met in state `st`. */
  predicate Blanks(r: Rules, st: State, s: string, i: nat)
    requires i < |s|
  {
    match st
    case Code => LineOpens(r, s, i) || BlockOpens(r, s, i) || LiteralOpens(r, s, i)
    case Line => s[i] != '\n'
    case _ => true
  }

  function Next(r: Rules, st: State, s: string, i: nat): State
    requires i < |s|
  {
    match st
    case Code =>
      if LineOpens(r, s, i) then Line
      else if BlockOpens(r, s, i) then Block
      else if LiteralOpens(r, s, i) then
        (if r.python && Three(s, i, s[i]) then Fill(2, Literal(s[i], true)) else Literal(s[i], false))
      else Code
    case Line => if s[i] == '\n' then Code else Line
    case Block => if At(s, i, '*') && At(s, i + 1, '/') then Fill(1, Code) else Block
    case Literal(q, triple) =>
      if s[i] == '\\' then Escaped(q, triple)
      else if triple then (if Three(s, i, q) then Fill(2, Code) else st)
      else if s[i] == q then Code
      else st
    case Escaped(q, triple) => Literal(q, triple)
    case Fill(more, then_) => if more <= 1 then then_ else Fill(more - 1, then_)
  }

  function Blanked(c: char): char {
    if c == '\n' then '\n' else ' '
  }

  function Shown(r: Rules, st: State, s: string, i: nat): char
    requires i < |s|
  {
    if Blanks(r, st, s, i) then Blanked(s[i]) else s[i]
  }

  /** The lexer's state before character `i`. */
  function StateAt(r: Rules, s: string, i: nat): State
    requires i <= |s|
  {
    if i == 0 then Code else Next(r, StateAt(r, s, i - 1), s, i - 1)
  }

  function ShownAt(r: Rules, s: string, i: nat): char
    requires i < |s|
  {
    Shown(r, StateAt(r, s, i), s, i)
  }

  function Stripped(r: Rules, s: string): string {
    seq(|s|, i requires 0 <= i < |s| => ShownAt(r, s, i))
  }

  // ---- the nested loops

  /** `out` is what the lexer shows of the first `i` characters. */
  ghost predicate Shows(r: Rules, s: string, out: string, i: nat) {
    i <= |s| && out == Stripped(r, s)[..i]
  }

  lemma ShowsOneMore(r: Rules, s: string, out: string, i: nat, c: char)
    requires i < |s| && Shows(r, s, out, i) && c == ShownAt(r, s, i)
    ensures Shows(r, s, out + [c], i + 1)
  {
    assert Stripped(r, s)[..i + 1] == Stripped(r, s)[..i] + [c];
  }

  /** Between tokens: in code, or at the newline that ends a line comment. */
  ghost predicate Between(r: Rules, s: string, i: nat)
    requires i <= |s|
  {
    i == |s| || StateAt(r, s, i) == Code || (StateAt(r, s, i) == Line && s[i] == '\n')
  }

  method Strip(r: Rules, s: string) returns (out: string)
    ensures out == Stripped(r, s)
  {
    out := "";
    var i := 0;
    while i < |s|
      invariant Shows(r, s, out, i) && Between(r, s, i)
    {
      var lineComment := if r.python then At(s, i, '#') else At(s, i, '/') && At(s, i + 1, '/');
      if r.comments && lineComment {
        ghost var from := i;
        while i < |s| && s[i] != '\n'
          invariant from <= i && Shows(r, s, out, i)
          invariant i == from || StateAt(r, s, i) == Line
        {
          ShowsOneMore(r, s, out, i, ' ');
          out := out + [' '];
          i := i + 1;
        }
        continue;
      }
      if r.comments && !r.python && At(s, i, '/') && At(s, i + 1, '*') {
        ghost var from := i;
        while i < |s|
          invariant from <= i && Shows(r, s, out, i)
          invariant i == from || StateAt(r, s, i) == Block
        {
          var end := At(s, i, '*') && At(s, i + 1, '/');
          ShowsOneMore(r, s, out, i, Blanked(s[i]));
          out := out + [Blanked(s[i])];
          i := i + 1;
          if end {
            if i < |s| {
              ShowsOneMore(r, s, out, i, ' ');
              out := out + [' '];
              i := i + 1;
            }
            break;
          }
        }
        continue;
      }
      if r.literals && (s[i] == '"' || s[i] == '\'') {
        out, i := StripLiteral(r, s, out, i);
        continue;
      }
      ShowsOneMore(r, s, out, i, s[i]);
      out := out + [s[i]];
      i := i + 1;
    }
  }

  /** One literal, from its opening quote on. */
  method StripLiteral(r: Rules, s: string, before: string, at: nat) returns (out: string, i: nat)
    requires at < |s| && LiteralOpens(r, s, at)
    requires Shows(r, s, before, at) && StateAt(r, s, at) == Code
    ensures at < i && Shows(r, s, out, i) && Between(r, s, i)
  {
    out, i := before, at;
    var quote := s[i];
    // In Python a quote that is the first of three opens a triple literal.
    var triple := r.python && |s| > i + 2 && s[i + 1] == quote && s[i + 2] == quote;
    ShowsOneMore(r, s, out, i, ' ');
    out := out + [' '];
    i := i + 1;
    if triple {
      FillTwo(r, s, out, i, Literal(quote, true));
      out := out + [' '] + [' '];
      i := i + 2;
    }
    out, i := StripInside(r, s, out, i, quote, triple);
  }

  /** The rest of a literal that is open, to the end of its closing quote. */
  method StripInside(r: Rules, s: string, before: string, at: nat, quote: char, triple: bool)
    returns (out: string, i: nat)
    requires Shows(r, s, before, at) && StateAt(r, s, at) == Literal(quote, triple)
    requires quote != '\n'
    ensures at <= i && Shows(r, s, out, i) && Between(r, s, i)
  {
    out, i := before, at;
    while i < |s|
      invariant at <= i && Shows(r, s, out, i)
      invariant StateAt(r, s, i) == Literal(quote, triple) || i == |s|
    {
      InLiteral(r, s, i, quote, triple);
      if s[i] == '\\' {
        ShowsOneMore(r, s, out, i, ' ');
        out := out + [' '];
        i := i + 1;
        if i < |s| {
          ShowsOneMore(r, s, out, i, Blanked(s[i]));
          out := out + [Blanked(s[i])];
          i := i + 1;
        }
        continue;
      }
      var closing := if triple then |s| > i + 2 && s[i] == quote && s[i + 1] == quote && s[i + 2] == quote
                     else s[i] == quote;
      ShowsOneMore(r, s, out, i, Blanked(s[i]));
      out := out + [Blanked(s[i])];
      i := i + 1;
      if closing {
        if triple {
          FillTwo(r, s, out, i, Code);
          out := out + [' '] + [' '];
          i := i + 2;
        }
        break;
      }
    }
  }

  /** What the lexer makes of a character inside a literal, and of the one an escape takes
      with it. */
  lemma InLiteral(r: Rules, s: string, i: nat, quote: char, triple: bool)
    requires i < |s| && StateAt(r, s, i) == Literal(quote, triple)
    ensures ShownAt(r, s, i) == Blanked(s[i])
    ensures s[i] == '\\' && i + 1 < |s| ==>
              ShownAt(r, s, i + 1) == Blanked(s[i + 1]) && StateAt(r, s, i + 2) == Literal(quote, triple)
    ensures s[i] != '\\' ==>
              StateAt(r, s, i + 1) ==
                if triple then (if Three(s, i, quote) then Fill(2, Code) else Literal(quote, true))
                else if s[i] == quote then Code
                else Literal(quote, false)
  {
    if s[i] == '\\' {
      assert StateAt(r, s, i + 1) == Escaped(quote, triple);
    }
  }

  lemma FillTwo(r: Rules, s: string, out: string, i: nat, then_: State)
    requires i + 2 <= |s| && s[i] != '\n' && s[i + 1] != '\n'
    requires Shows(r, s, out, i) && StateAt(r, s, i) == Fill(2, then_)
    ensures Shows(r, s, out + [' '] + [' '], i + 2) && StateAt(r, s, i + 2) == then_
  {
    assert StateAt(r, s, i + 1) == Fill(1, then_);
    ShowsOneMore(r, s, out, i, ' ');
    ShowsOneMore(r, s, out + [' '], i + 1, ' ');
  }

  // ---- what is blanked, and what is not

  /** As much space as `t` takes, with its line breaks. */
  function Space(t: string): (b: string)
    ensures |b| == |t|
    ensures forall i | 0 <= i < |t| :: b[i] == if t[i] == '\n' then '\n' else ' '
  {
    seq(|t|, i requires 0 <= i < |t| => Blanked(t[i]))
  }

  /** The lexer reads on from code as it reads a text of its own. */
  lemma {:induction false} StateFromCode(r: Rules, s: string, n: nat, k: nat)
    requires n <= k <= |s| && StateAt(r, s, n) == Code
    ensures StateAt(r, s, k) == StateAt(r, s[n..], k - n)
  {
    if n < k {
      StateFromCode(r, s, n, k - 1);
      SameNext(r, s, n, k - 1, StateAt(r, s, k - 1));
    }
  }

  lemma SameNext(r: Rules, s: string, n: nat, k: nat, st: State)
    requires n <= k < |s|
    ensures Next(r, st, s, k) == Next(r, st, s[n..], k - n) && Shown(r, st, s, k) == Shown(r, st, s[n..], k - n)
  {
    assert At(s, k, s[k]);
    SameAt(s, n, k);
    SameAt(s, n, k + 1);
    SameAt(s, n, k + 2);
  }

  lemma SameAt(s: string, n: nat, k: nat)
    requires n <= k && n <= |s|
    ensures forall c :: At(s, k, c) <==> At(s[n..], k - n, c)
  {}

  /** Once a front is shown as `shown` and ends in code, the rest is stripped on its own. */
  lemma RestOnItsOwn(r: Rules, s: string, n: nat, shown: string)
    requires n <= |s| && StateAt(r, s, n) == Code
    requires |shown| == n && forall i | 0 <= i < n :: ShownAt(r, s, i) == shown[i]
    ensures Stripped(r, s) == shown + Stripped(r, s[n..])
  {
    forall k | n <= k < |s| ensures ShownAt(r, s, k) == ShownAt(r, s[n..], k - n) {
      StateFromCode(r, s, n, k);
      SameNext(r, s, n, k, StateAt(r, s, k));
    }
  }

  /** **What opens nothing stays**: whatever is not the first character of a comment or a
      literal of the family, under the flags given. */
  lemma PlainStays(r: Rules, s: string, n: nat)
    requires n <= |s|
    requires r.comments ==> forall i | 0 <= i < n :: s[i] != (if r.python then '#' else '/')
    requires r.literals ==> forall i | 0 <= i < n :: s[i] != '"' && s[i] != '\''
    ensures Stripped(r, s) == s[..n] + Stripped(r, s[n..])
  {
    PlainIsCode(r, s, n);
    forall i | 0 <= i < n ensures ShownAt(r, s, i) == s[i] {
      PlainIsCode(r, s, i);
    }
    RestOnItsOwn(r, s, n, s[..n]);
  }

  lemma {:induction false} PlainIsCode(r: Rules, s: string, n: nat)
    requires n <= |s|
    requires r.comments ==> forall i | 0 <= i < n :: s[i] != (if r.python then '#' else '/')
    requires r.literals ==> forall i | 0 <= i < n :: s[i] != '"' && s[i] != '\''
    ensures StateAt(r, s, n) == Code
  {
    if n > 0 {
      PlainIsCode(r, s, n - 1);
    }
  }

  /** A slash that no slash and no star follows is code. */
  lemma SlashStays(r: Rules, s: string)
    requires s != "" && s[0] == '/' && (|s| > 1 ==> s[1] != '/' && s[1] != '*')
    ensures Stripped(r, s) == "/" + Stripped(r, s[1..])
  {
    assert StateAt(r, s, 0) == Code && StateAt(r, s, 1) == Code;
    RestOnItsOwn(r, s, 1, "/");
  }

  /** **A line comment goes, up to the end of its line.** */
  lemma LineCommentGoes(r: Rules, s: string, n: nat)
    requires r.comments && n <= |s|
    requires if r.python then n >= 1 && s[0] == '#' else n >= 2 && s[0] == '/' && s[1] == '/'
    requires forall i | 0 <= i < n :: s[i] != '\n'
    requires n < |s| ==> s[n] == '\n'
    ensures Stripped(r, s) == Space(s[..n]) + Stripped(r, s[n..])
  {
    forall i | 0 < i <= n ensures StateAt(r, s, i) == Line {
      LineGoesOn(r, s, i);
    }
    if n < |s| {
      assert StateAt(r, s, n + 1) == Code;
      RestOnItsOwn(r, s, n + 1, Space(s[..n]) + "\n");
      PlainStays(r, s[n..], 1);
      assert s[n..][1..] == s[n + 1..] && s[n..][..1] == "\n";
      Assoc(Space(s[..n]), "\n", Stripped(r, s[n + 1..]));
    } else {
      assert Stripped(r, s[n..]) == "";
      assert Stripped(r, s) == Space(s[..n]);
    }
  }

  lemma {:induction false} LineGoesOn(r: Rules, s: string, n: nat)
    requires r.comments && 0 < n <= |s|
    requires if r.python then s[0] == '#' else |s| > 1 && s[0] == '/' && s[1] == '/'
    requires forall i | 0 <= i < n :: s[i] != '\n'
    ensures StateAt(r, s, n) == Line
  {
    if n > 1 {
      LineGoesOn(r, s, n - 1);
    } else {
      assert StateAt(r, s, 0) == Code;
    }
  }

  predicate StarSlash(s: string, k: nat) {
    k + 1 < |s| && s[k] == '*' && s[k + 1] == '/'
  }

  /** **A block comment goes, and no more than it**: up to the first star and slash after its
      opening slash, which the opening star may begin; to the end where there is none. */
  lemma BlockCommentGoes(r: Rules, s: string, e: nat)
    requires r.comments && !r.python && |s| > 1 && s[0] == '/' && s[1] == '*'
    requires 1 <= e <= |s| && (forall k | 1 <= k < e :: !StarSlash(s, k)) && (e < |s| ==> StarSlash(s, e))
    ensures e < |s| ==> Stripped(r, s) == Space(s[..e + 2]) + Stripped(r, s[e + 2..])
    ensures e == |s| ==> Stripped(r, s) == Space(s)
  {
    forall k | 1 <= k <= e ensures StateAt(r, s, k) == Block {
      BlockGoesOn(r, s, e, k);
    }
    assert StateAt(r, s, 0) == Code;
    if e < |s| {
      assert StateAt(r, s, e + 1) == Fill(1, Code) && StateAt(r, s, e + 2) == Code;
      RestOnItsOwn(r, s, e + 2, Space(s[..e + 2]));
    } else {
      assert Stripped(r, s) == Space(s);
    }
  }

  lemma {:induction false} BlockGoesOn(r: Rules, s: string, e: nat, n: nat)
    requires r.comments && !r.python && |s| > 1 && s[0] == '/' && s[1] == '*'
    requires 1 <= n <= e <= |s| && forall k | 1 <= k < e :: !StarSlash(s, k)
    ensures StateAt(r, s, n) == Block
  {
    if n > 1 {
      BlockGoesOn(r, s, e, n - 1);
      assert !StarSlash(s, n - 1);
    } else {
      assert StateAt(r, s, 0) == Code;
    }
  }

  /** From `i` on, the text up to `e` runs inside a literal of these quotes: escapes take a
      character with them, and nothing else closes it. */
  predicate RunsInside(s: string, i: nat, e: nat, quotes: string)
    requires i <= e <= |s|
    decreases e - i
  {
    if i == e then true
    else if s[i] == '\\' then i + 1 == |s| || (i + 2 <= e && RunsInside(s, i + 2, e, quotes))
    else !(quotes <= s[i..]) && RunsInside(s, i + 1, e, quotes)
  }

  lemma {:induction false} LiteralGoesOn(r: Rules, s: string, i: nat, e: nat, q: char, triple: bool)
    requires i <= e <= |s| && StateAt(r, s, i) == Literal(q, triple)
    requires RunsInside(s, i, e, if triple then [q, q, q] else [q])
    ensures e < |s| ==> StateAt(r, s, e) == Literal(q, triple)
    ensures forall k | i <= k < e :: ShownAt(r, s, k) == Blanked(s[k])
    decreases e - i
  {
    if i < e {
      InLiteral(r, s, i, q, triple);
      if s[i] == '\\' {
        if i + 1 < |s| {
          LiteralGoesOn(r, s, i + 2, e, q, triple);
        }
      } else {
        assert triple ==> (Three(s, i, q) <==> [q, q, q] <= s[i..]);
        assert !triple ==> (s[i] == q <==> [q] <= s[i..]);
        LiteralGoesOn(r, s, i + 1, e, q, triple);
      }
    }
  }

  /** **A literal goes, and no more than it**: up to its first closing quote that no
      backslash takes, and to the end where there is none. */
  lemma LiteralGoes(r: Rules, s: string, e: nat)
    requires r.literals && s != "" && (s[0] == '"' || s[0] == '\'')
    requires !(r.python && |s| > 2 && s[1] == s[0] && s[2] == s[0])
    requires 1 <= e <= |s| && RunsInside(s, 1, e, [s[0]]) && (e < |s| ==> s[e] == s[0])
    ensures e < |s| ==> Stripped(r, s) == Space(s[..e + 1]) + Stripped(r, s[e + 1..])
    ensures e == |s| ==> Stripped(r, s) == Space(s)
  {
    assert StateAt(r, s, 0) == Code && StateAt(r, s, 1) == Literal(s[0], false);
    LiteralGoesOn(r, s, 1, e, s[0], false);
    if e < |s| {
      assert StateAt(r, s, e + 1) == Code;
      RestOnItsOwn(r, s, e + 1, Space(s[..e + 1]));
    } else {
      assert Stripped(r, s) == Space(s);
    }
  }

  /** **So does one of three quotes**, which only three close. */
  lemma TripleLiteralGoes(r: Rules, s: string, e: nat)
    requires r.literals && r.python && |s| > 2 && (s[0] == '"' || s[0] == '\'') && s[1] == s[0] && s[2] == s[0]
    requires 3 <= e <= |s| && RunsInside(s, 3, e, [s[0], s[0], s[0]])
    requires e < |s| ==> e + 3 <= |s| && s[e] == s[e + 1] == s[e + 2] == s[0]
    ensures e < |s| ==> Stripped(r, s) == Space(s[..e + 3]) + Stripped(r, s[e + 3..])
    ensures e == |s| ==> Stripped(r, s) == Space(s)
  {
    var q := s[0];
    assert StateAt(r, s, 0) == Code && StateAt(r, s, 1) == Fill(2, Literal(q, true));
    assert StateAt(r, s, 2) == Fill(1, Literal(q, true)) && StateAt(r, s, 3) == Literal(q, true);
    LiteralGoesOn(r, s, 3, e, q, true);
    if e < |s| {
      assert StateAt(r, s, e + 1) == Fill(2, Code) && StateAt(r, s, e + 2) == Fill(1, Code);
      assert StateAt(r, s, e + 3) == Code;
      RestOnItsOwn(r, s, e + 3, Space(s[..e + 3]));
    } else {
      assert Stripped(r, s) == Space(s);
    }
  }

  // ---- what stripping keeps

  /** **Positions are kept**: each character is itself or a space, and line breaks stay
      exactly where they were. */
  lemma StripKeepsPositions(r: Rules, s: string)
    ensures |Stripped(r, s)| == |s|
    ensures forall i | 0 <= i < |s| :: Stripped(r, s)[i] == s[i] || Stripped(r, s)[i] == ' '
    ensures forall i | 0 <= i < |s| :: Stripped(r, s)[i] == '\n' <==> s[i] == '\n'
  {}

  /** Nothing in `t` opens a comment or a literal. */
  ghost predicate Bare(r: Rules, t: string) {
    forall i | 0 <= i < |t| :: !LineOpens(r, t, i) && !BlockOpens(r, t, i) && !LiteralOpens(r, t, i)
  }

  lemma {:induction false} BareIsCode(r: Rules, t: string, i: nat)
    requires Bare(r, t) && i <= |t|
    ensures StateAt(r, t, i) == Code
  {
    if i > 0 {
      BareIsCode(r, t, i - 1);
    }
  }

  /** A character that survived stripping stands where it stood, and is code. */
  lemma SurvivorIsCode(r: Rules, s: string, i: nat)
    requires i < |s| && Stripped(r, s)[i] != ' ' && Stripped(r, s)[i] != '\n'
    ensures Stripped(r, s)[i] == s[i] && StateAt(r, s, i) == Code
    ensures !LineOpens(r, s, i) && !BlockOpens(r, s, i) && !LiteralOpens(r, s, i)
  {}

  lemma StrippedIsBare(r: Rules, s: string)
    ensures Bare(r, Stripped(r, s))
  {
    var t := Stripped(r, s);
    forall i | 0 <= i < |t|
      ensures !LineOpens(r, t, i) && !BlockOpens(r, t, i) && !LiteralOpens(r, t, i)
    {
      if t[i] != ' ' && t[i] != '\n' {
        SurvivorIsCode(r, s, i);
      }
    }
  }

  /** **Stripping twice is stripping once**: blanking never brings two characters together. */
  lemma StripTwice(r: Rules, s: string)
    ensures Stripped(r, Stripped(r, s)) == Stripped(r, s)
  {
    var t := Stripped(r, s);
    StrippedIsBare(r, s);
    forall i | 0 <= i < |t| ensures ShownAt(r, t, i) == t[i] {
      BareIsCode(r, t, i);
    }
  }

  predicate Slashes(s: string, j: nat) {
    At(s, j, '/') && At(s, j + 1, '/')
  }

  /** Two slashes stand at or before `i` on its own line. */
  ghost predicate Commented(s: string, i: nat)
    requires i < |s|
  {
    exists j :: 0 <= j <= i && Slashes(s, j) && forall k | j <= k <= i :: s[k] != '\n'
  }

  /** In C with no quote and no block comment, exactly the text from `//` to the end of
      its line is blanked. */
  lemma {:induction false} OnlyLineComments(r: Rules, s: string, i: nat)
    requires !r.python && r.comments && i < |s|
    requires forall k | 0 <= k < |s| :: s[k] != '"' && s[k] != '\'' && !BlockOpens(r, s, k)
    ensures Blanks(r, StateAt(r, s, i), s, i) <==> Commented(s, i)
    ensures StateAt(r, s, i) == Code || StateAt(r, s, i) == Line
    ensures StateAt(r, s, i) == Line <==> i > 0 && Commented(s, i - 1)
  {
    if i > 0 {
      OnlyLineComments(r, s, i - 1);
    }
    if LineOpens(r, s, i) {
      assert Slashes(s, i) && forall k | i <= k <= i :: s[k] != '\n';
      assert Commented(s, i);
    }
    if i > 0 && Commented(s, i - 1) && s[i] != '\n' {
      var j :| 0 <= j <= i - 1 && Slashes(s, j) && forall k | j <= k <= i - 1 :: s[k] != '\n';
      assert forall k | j <= k <= i :: s[k] != '\n';
      assert Commented(s, i);
    }
    if Commented(s, i) {
      var j :| 0 <= j <= i && Slashes(s, j) && forall k | j <= k <= i :: s[k] != '\n';
      if j < i {
        assert Commented(s, i - 1);
      }
    }
  }

  // ---- line numbers

  /** Byte `k` of a text is where the encoding of its first `k` characters ends. */
  lemma {:induction false} OffsetIsLength(text: string, k: nat)
    requires k <= |text|
    ensures Offset(text, k) == |Encode(text[..k])|
  {
    if k > 0 {
      OffsetIsLength(text, k - 1);
      assert text[..k] == text[..k - 1] + [text[k - 1]];
      EncodeConcat(text[..k - 1], [text[k - 1]]);
      assert Encode([text[k - 1]]) == EncodeOne(text[k - 1]) + [];
    }
  }

  /** The line breaks before `k` are the line feeds there. */
  lemma {:induction false} NewlinesAre(text: string, k: nat)
    requires k <= |text|
    ensures NewlinesBefore(text, k) == |set i | 0 <= i < |text| && text[i] == '\n' && i < k|
  {
    var now := set i | 0 <= i < |text| && text[i] == '\n' && i < k;
    if k == 0 {
      assert now == {};
    } else {
      NewlinesAre(text, k - 1);
      var was := set i | 0 <= i < |text| && text[i] == '\n' && i < k - 1;
      assert now == was + (if text[k - 1] == '\n' then {k - 1} else {});
    }
  }

  /** How many bytes a character takes. */
  function Width(c: char): nat {
    |EncodeOne(c)|
  }

  /** The byte at which character `k` of `text` begins. */
  function Offset(text: string, k: nat): nat
    requires k <= |text|
  {
    if k == 0 then 0 else Offset(text, k - 1) + Width(text[k - 1])
  }

  function NewlinesBefore(text: string, k: nat): (n: nat)
    requires k <= |text|
    ensures n <= k
  {
    if k == 0 then 0 else NewlinesBefore(text, k - 1) + (if text[k - 1] == '\n' then 1 else 0)
  }

  /** The byte offsets of the line breaks among the first `k` characters. */
  function Breaks(text: string, k: nat): (at: seq<nat>)
    requires k <= |text|
    ensures |at| == NewlinesBefore(text, k)
    ensures forall i | 0 <= i < |at| :: at[i] < Offset(text, k)
    ensures forall i, j | 0 <= i < j < |at| :: at[i] < at[j]
  {
    if k == 0 then []
    else if text[k - 1] == '\n' then Breaks(text, k - 1) + [Offset(text, k - 1)]
    else Breaks(text, k - 1)
  }

  datatype Scanned = Scanned(text: string, newlines: seq<nat>)

  ghost predicate Valid(scanned: Scanned) {
    scanned.newlines == Breaks(scanned.text, |scanned.text|)
  }

  method Scan(text: string) returns (scanned: Scanned)
    ensures Valid(scanned) && scanned.text == text
  {
    var newlines, at := [], 0;
    for k := 0 to |text|
      invariant newlines == Breaks(text, k) && at == Offset(text, k)
    {
      if text[k] == '\n' {
        newlines := newlines + [at];
      }
      at := at + Width(text[k]);
    }
    return Scanned(text, newlines);
  }

  /** `partition_point`: how many of an ascending list lie below `offset`. */
  method PartitionPoint(at: seq<nat>, offset: nat) returns (n: nat)
    requires forall i, j | 0 <= i < j < |at| :: at[i] < at[j]
    ensures n <= |at|
    ensures forall i | 0 <= i < n :: at[i] < offset
    ensures forall i | n <= i < |at| :: at[i] >= offset
  {
    var lo, hi := 0, |at|;
    while lo < hi
      invariant 0 <= lo <= hi <= |at|
      invariant forall i | 0 <= i < lo :: at[i] < offset
      invariant forall i | hi <= i < |at| :: at[i] >= offset
    {
      var mid := lo + (hi - lo) / 2;
      if at[mid] < offset {
        lo := mid + 1;
      } else {
        hi := mid;
      }
    }
    return lo;
  }

  lemma PartitionIsUnique(at: seq<nat>, offset: nat, n: nat, m: nat)
    requires n <= |at| && m <= |at|
    requires forall i | 0 <= i < |at| :: at[i] < offset <==> i < n
    requires forall i | 0 <= i < |at| :: at[i] < offset <==> i < m
    ensures n == m
  {
    if n < |at| {
      assert at[n] >= offset;
    }
    if m < |at| {
      assert at[m] >= offset;
    }
  }

  lemma {:induction false} BreaksSplit(text: string, k: nat, n: nat)
    requires k <= n <= |text|
    ensures Offset(text, k) <= Offset(text, n)
    ensures NewlinesBefore(text, k) <= NewlinesBefore(text, n)
    ensures Breaks(text, n)[..NewlinesBefore(text, k)] == Breaks(text, k)
    ensures forall i | NewlinesBefore(text, k) <= i < NewlinesBefore(text, n) :: Breaks(text, n)[i] >= Offset(text, k)
  {
    if k < n {
      BreaksSplit(text, k, n - 1);
    }
  }

  lemma {:induction false} SameNewlines(a: string, b: string, k: nat)
    requires |a| == |b| && k <= |a| && forall i | 0 <= i < |a| :: a[i] == '\n' <==> b[i] == '\n'
    ensures NewlinesBefore(a, k) == NewlinesBefore(b, k)
  {
    if k > 0 {
      SameNewlines(a, b, k - 1);
    }
  }

  /** The line of a byte offset in a scanned text, and, where that text is a stripped
      source, **the line in that source**. */
  method LineOf(scanned: Scanned, offset: nat, ghost k: nat, ghost r: Rules, ghost source: string)
    returns (line: nat)
    requires Valid(scanned) && k <= |scanned.text| && offset == Offset(scanned.text, k)
    ensures line == NewlinesBefore(scanned.text, k) + 1
    ensures scanned.text == Stripped(r, source) ==> line == NewlinesBefore(source, k) + 1
  {
    BreaksSplit(scanned.text, k, |scanned.text|);
    var n := PartitionPoint(scanned.newlines, offset);
    ghost var m := NewlinesBefore(scanned.text, k);
    assert forall i | 0 <= i < m :: scanned.newlines[i] == Breaks(scanned.text, k)[i];
    PartitionIsUnique(scanned.newlines, offset, n, m);
    if scanned.text == Stripped(r, source) {
      SameNewlines(source, scanned.text, k);
    }
    return n + 1;
  }

  /** A character of more than one byte that stripping turns into a space. */
  predicate WideBlank(r: Rules, s: string, i: nat)
    requires i < |s|
  {
    Blanks(r, StateAt(r, s, i), s, i) && s[i] as int >= 0x80
  }

  lemma OffsetStep(text: string, k: nat, c: char)
    requires k < |text| && text[k] == c
    ensures Offset(text, k + 1) == Offset(text, k) + Width(c)
  {}

  lemma ShownWidth(r: Rules, s: string, i: nat)
    requires i < |s|
    ensures Width(ShownAt(r, s, i)) <= Width(s[i])
    ensures Width(ShownAt(r, s, i)) == Width(s[i]) <==> !WideBlank(r, s, i)
  {}

  lemma {:induction false} OffsetsOfShown(r: Rules, s: string, t: string, n: nat)
    requires |t| == |s| && n <= |s| && forall i | 0 <= i < |s| :: t[i] == ShownAt(r, s, i)
    ensures Offset(t, n) <= Offset(s, n)
    ensures Offset(t, n) == Offset(s, n) <==> forall i | 0 <= i < n :: !WideBlank(r, s, i)
  {
    if n > 0 {
      OffsetsOfShown(r, s, t, n - 1);
      ShownWidth(r, s, n - 1);
      OffsetStep(t, n - 1, ShownAt(r, s, n - 1));
      OffsetStep(s, n - 1, s[n - 1]);
    }
  }

  /** Characters keep their places; **bytes do so exactly up to the first blanked
      character of more than one byte**. */
  lemma BytePositionsKept(r: Rules, s: string, n: nat)
    requires n <= |s|
    ensures Offset(Stripped(r, s), n) <= Offset(s, n)
    ensures Offset(Stripped(r, s), n) == Offset(s, n) <==> forall i | 0 <= i < n :: !WideBlank(r, s, i)
  {
    OffsetsOfShown(r, s, Stripped(r, s), n);
  }

  /** So a comment written in Polish moves the bytes after it. */
  lemma BytePositionsMove()
    ensures var r, s := Rules(false, true, true), ['/', '/', 0x119 as char, '\n', 'x'];
            && Offset(s, 4) == 5
            && Offset(Stripped(r, s), 4) == 4
  {
    var r, s := Rules(false, true, true), ['/', '/', 0x119 as char, '\n', 'x'];
    assert StateAt(r, s, 1) == Line;
    assert StateAt(r, s, 2) == Line;
    assert StateAt(r, s, 3) == Line;
    BytePositionsKept(r, s, 2);
    assert Offset(s, 1) == 1;
    assert Offset(s, 2) == 2;
    assert Offset(s, 3) == 4;
    var t := Stripped(r, s);
    assert t[2] == ' ' && t[3] == '\n';
    assert Offset(t, 3) == 3;
  }
}
