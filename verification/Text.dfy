/** Bytes and the text a Runner reads out of them.

    `Decode` is Rust's `String::from_utf8_lossy`: every maximal ill-formed piece
    of the input becomes one replacement character.  `Words` is
    `str::split_whitespace`.  Both are shared by the comparator and by the reader
    of the shim's report. */
module Text {
  import opened Sequences

  datatype Option<+T> = None | Some(value: T)

  type byte = b: int | 0 <= b < 256

  const REPLACEMENT: char := 0xFFFD as char

  /** `char::is_whitespace`: the Unicode property White_Space. */
  predicate IsWhitespace(c: char) {
    var n := c as int;
    || 0x09 <= n <= 0x0D || n == 0x20 || n == 0x85 || n == 0xA0 || n == 0x1680
    || 0x2000 <= n <= 0x200A || n == 0x2028 || n == 0x2029 || n == 0x202F
    || n == 0x205F || n == 0x3000
  }

  /** An ASCII letter or digit. */
  predicate IsAlphanumeric(c: char) {
    '0' <= c <= '9' || 'a' <= c <= 'z' || 'A' <= c <= 'Z'
  }

  /** `u8::is_ascii_whitespace`, which unlike the above leaves out 0x0B. */
  predicate IsAsciiSpace(b: byte) {
    b == 0x20 || b == 0x09 || b == 0x0A || b == 0x0C || b == 0x0D
  }

  predicate Continues(b: byte) {
    0x80 <= b < 0xC0
  }

  /** The byte at `i`, or zero past the end, as the decoder reads it. */
  function ByteAt(s: seq<byte>, i: nat): byte {
    if i < |s| then s[i] else 0
  }

  /** Whether `second` may follow `first` in a character of three or four bytes. */
  predicate MayFollow(first: byte, second: byte) {
    || (first == 0xE0 && 0xA0 <= second < 0xC0)
    || (0xE1 <= first <= 0xEC && 0x80 <= second < 0xC0)
    || (first == 0xED && 0x80 <= second < 0xA0)
    || (0xEE <= first <= 0xEF && 0x80 <= second < 0xC0)
    || (first == 0xF0 && 0x90 <= second < 0xC0)
    || (0xF1 <= first <= 0xF3 && 0x80 <= second < 0xC0)
    || (first == 0xF4 && 0x80 <= second < 0x90)
  }

  datatype Piece = Piece(width: nat, letter: char)

  /** The first character of `s` and how many bytes it took. */
  function FirstPiece(s: seq<byte>): (p: Piece)
    requires s != []
    ensures 1 <= p.width <= |s|
  {
    var a, b, c, d := s[0], ByteAt(s, 1), ByteAt(s, 2), ByteAt(s, 3);
    if a < 0x80 then
      Piece(1, a as char)
    else if 0xC2 <= a < 0xE0 then
      if Continues(b) then Piece(2, (64 * (a - 0xC0) + (b - 0x80)) as char)
      else Piece(1, REPLACEMENT)
    else if 0xE0 <= a < 0xF0 then
      if !MayFollow(a, b) then Piece(1, REPLACEMENT)
      else if !Continues(c) then Piece(2, REPLACEMENT)
      else Piece(3, (4096 * (a - 0xE0) + 64 * (b - 0x80) + (c - 0x80)) as char)
    else if 0xF0 <= a < 0xF5 then
      if !MayFollow(a, b) then Piece(1, REPLACEMENT)
      else if !Continues(c) then Piece(2, REPLACEMENT)
      else if !Continues(d) then Piece(3, REPLACEMENT)
      else Piece(4, (262144 * (a - 0xF0) + 4096 * (b - 0x80) + 64 * (c - 0x80) + (d - 0x80)) as char)
    else
      Piece(1, REPLACEMENT)
  }

  function Decode(s: seq<byte>): string {
    if s == [] then "" else var p := FirstPiece(s); [p.letter] + Decode(s[p.width..])
  }

  /** An ASCII byte ends whatever character stands before it. */
  lemma FirstPieceStopsAtAscii(a: seq<byte>, w: byte, rest: seq<byte>)
    requires a != [] && w < 0x80
    ensures FirstPiece(a + [w] + rest) == FirstPiece(a)
  {
    var s := a + [w] + rest;
    assert forall i: nat | i < |a| :: ByteAt(s, i) == ByteAt(a, i);
    assert ByteAt(s, |a|) == w && ByteAt(a, |a|) == 0;
  }

  /** Decoding distributes over any cut beside an ASCII byte. */
  lemma {:induction false} DecodeCut(a: seq<byte>, w: byte, rest: seq<byte>)
    requires w < 0x80
    ensures Decode(a + [w] + rest) == Decode(a) + [w as char] + Decode(rest)
  {
    var s := a + [w] + rest;
    if a == [] {
      assert s[1..] == rest;
    } else {
      FirstPieceStopsAtAscii(a, w, rest);
      var n := FirstPiece(a).width;
      assert s[n..] == a[n..] + [w] + rest;
      DecodeCut(a[n..], w, rest);
    }
  }

  /** UTF-8, section 3 of RFC 3629. */
  function EncodeOne(c: char): (s: seq<byte>)
    ensures 1 <= |s| <= 4
  {
    var n := c as int;
    if n < 0x80 then [n]
    else if n < 0x800 then [0xC0 + n / 64, 0x80 + n % 64]
    else if n < 0x10000 then [0xE0 + n / 4096, 0x80 + n / 64 % 64, 0x80 + n % 64]
    else [0xF0 + n / 262144, 0x80 + n / 4096 % 64, 0x80 + n / 64 % 64, 0x80 + n % 64]
  }

  function Encode(s: string): seq<byte> {
    if s == "" then [] else EncodeOne(s[0]) + Encode(s[1..])
  }

  lemma {:induction false} EncodeConcat(a: string, b: string)
    ensures Encode(a + b) == Encode(a) + Encode(b)
  {
    if a == "" {
      assert a + b == b;
    } else {
      EncodeConcat(a[1..], b);
      DropOfFront(a, b, 1);
      Assoc(EncodeOne(a[0]), Encode(a[1..]), Encode(b));
    }
  }

  lemma FirstPieceOfEncoded(c: char, rest: seq<byte>)
    ensures FirstPiece(EncodeOne(c) + rest) == Piece(|EncodeOne(c)|, c)
  {
    var n := c as int;
    var e := EncodeOne(c);
    var s := e + rest;
    assert forall i: nat | i < |e| :: ByteAt(s, i) == e[i];
    if n < 0x80 {
    } else if n < 0x800 {
      assert s[0] == 0xC0 + n / 64;
    } else if n < 0x10000 {
      assert n / 64 / 64 == n / 4096;
      assert n == 4096 * (n / 4096) + 64 * (n / 64 % 64) + n % 64;
    } else {
      assert n / 64 / 64 == n / 4096 && n / 4096 / 64 == n / 262144;
      assert n == 262144 * (n / 262144) + 4096 * (n / 4096 % 64) + 64 * (n / 64 % 64) + n % 64;
    }
  }

  /** The bytes of a character after the first carry it on. */
  lemma EncodedShape(c: char)
    ensures var e := EncodeOne(c);
            && (|e| == 1 <==> e[0] < 0x80)
            && (|e| == 2 <==> 0xC2 <= e[0] < 0xE0)
            && (|e| == 3 <==> 0xE0 <= e[0] < 0xF0)
            && (|e| == 4 <==> 0xF0 <= e[0] < 0xF5)
            && (|e| >= 3 ==> MayFollow(e[0], e[1]))
            && forall i | 0 < i < |e| :: Continues(e[i])
  {
    var n := c as int;
    if n >= 0x10000 {
      assert n / 4096 / 64 == n / 262144;
    } else if n >= 0x800 {
      assert n / 64 / 64 == n / 4096;
    }
  }

  /** The character of three bytes that begins with these two. */
  lemma BeginsThree(a: byte, b: byte) returns (c: char)
    requires 0xE0 <= a < 0xF0 && MayFollow(a, b)
    ensures EncodeOne(c) == [a, b, 0x80]
  {
    var n := 4096 * (a - 0xE0) + 64 * (b - 0x80);
    c := n as char;
    assert n / 4096 == a - 0xE0;
    assert n / 64 == 64 * (a - 0xE0) + (b - 0x80);
    assert n / 64 % 64 == b - 0x80 && n % 64 == 0;
  }

  /** And one of four that begins with these three. */
  lemma BeginsFour(a: byte, b: byte, d: byte) returns (c: char)
    requires 0xF0 <= a < 0xF5 && MayFollow(a, b) && Continues(d)
    ensures EncodeOne(c) == [a, b, d, 0x80]
  {
    var n := 262144 * (a - 0xF0) + 4096 * (b - 0x80) + 64 * (d - 0x80);
    c := n as char;
    assert n / 262144 == a - 0xF0;
    assert n / 4096 == 64 * (a - 0xF0) + (b - 0x80);
    assert n / 64 == 64 * (n / 4096) + (d - 0x80);
    assert n / 4096 % 64 == b - 0x80 && n / 64 % 64 == d - 0x80 && n % 64 == 0;
  }

  ghost predicate BeginsSome(s: seq<byte>) {
    exists c :: s <= EncodeOne(c)
  }

  /** A stretch that begins some character is all taken. */
  lemma PieceCovers(s: seq<byte>, k: nat, c: char)
    requires 0 < k <= |s| && s[..k] <= EncodeOne(c)
    ensures FirstPiece(s).width >= k
  {
    EncodedShape(c);
    var e := EncodeOne(c);
    assert forall i | 0 <= i < k :: s[..k][i] == e[i] && s[i] == e[i];
  }

  lemma WholeOne(s: seq<byte>)
    requires s != []
    ensures s[0] < 0x80 ==> EncodeOne(FirstPiece(s).letter) == s[..1]
  {}

  lemma WholeTwo(s: seq<byte>)
    requires s != [] && s[0] < 0xE0 && FirstPiece(s).width == 2
    ensures EncodeOne(FirstPiece(s).letter) == s[..2]
  {
    var n, a: int := FirstPiece(s).letter as int, s[0];
    assert n / 64 == a - 0xC0;
  }

  lemma WholeThree(s: seq<byte>)
    requires s != [] && s[0] < 0xF0 && FirstPiece(s).width == 3
    ensures EncodeOne(FirstPiece(s).letter) == s[..3]
  {
    var n, a: int, b: int, d: int := FirstPiece(s).letter as int, s[0] - 0xE0, s[1] - 0x80, s[2] - 0x80;
    assert n == 4096 * a + 64 * b + d && n / 64 == 64 * a + b && n / 4096 == a;
  }

  lemma WholeFour(s: seq<byte>)
    requires s != [] && FirstPiece(s).width == 4
    ensures EncodeOne(FirstPiece(s).letter) == s[..4]
  {
    var n, a: int, b: int := FirstPiece(s).letter as int, s[0] - 0xF0, s[1] - 0x80;
    var d: int, g: int := s[2] - 0x80, s[3] - 0x80;
    assert n == 262144 * a + 4096 * b + 64 * d + g;
    assert n / 64 == 4096 * a + 64 * b + d;
    assert n / 4096 == 64 * a + b && n / 262144 == a;
  }

  /** Where no character stands at the front, the piece is replaced, and begins one unless it
      is a single byte. */
  lemma PieceBegins(s: seq<byte>)
    requires s != [] && forall c :: !(EncodeOne(c) <= s)
    ensures FirstPiece(s).letter == REPLACEMENT
    ensures FirstPiece(s).width > 1 ==> BeginsSome(s[..FirstPiece(s).width])
  {
    var w, c := FirstPiece(s).width, FirstPiece(s).letter;
    assert !(EncodeOne(c) <= s) && s[..w] <= s;
    if w == 2 && s[0] < 0xE0 {
      WholeTwo(s);
    } else if w == 3 && s[0] < 0xF0 {
      WholeThree(s);
    } else if w == 4 {
      WholeFour(s);
    } else if w == 2 && s[0] < 0xF0 {
      var d := BeginsThree(s[0], s[1]);
      assert s[..w] <= EncodeOne(d);
    } else if w == 2 {
      var d := BeginsFour(s[0], s[1], 0x80);
      assert s[..w] <= EncodeOne(d);
    } else if w == 3 {
      var d := BeginsFour(s[0], s[1], s[2]);
      assert s[..w] <= EncodeOne(d);
    } else {
      WholeOne(s);
    }
  }

  /** **What a lossy decoder takes first**: the character that the bytes begin with, if there
      is one; and otherwise one replacement for the longest stretch that begins some
      character, or for the one byte that begins none. */
  lemma FirstPieceIs(s: seq<byte>)
    requires s != []
    ensures forall c | EncodeOne(c) <= s :: FirstPiece(s) == Piece(|EncodeOne(c)|, c)
    ensures (forall c :: !(EncodeOne(c) <= s)) ==>
              var p := FirstPiece(s);
              && p.letter as int == 0xFFFD
              && (p.width == 1 || BeginsSome(s[..p.width]))
              && (p.width < |s| ==> !BeginsSome(s[..p.width + 1]))
  {
    forall c | EncodeOne(c) <= s ensures FirstPiece(s) == Piece(|EncodeOne(c)|, c) {
      var e := EncodeOne(c);
      assert s == e + s[|e|..];
      FirstPieceOfEncoded(c, s[|e|..]);
    }
    if forall c :: !(EncodeOne(c) <= s) {
      PieceBegins(s);
      var w := FirstPiece(s).width;
      forall c ensures w < |s| && s[..w + 1] <= EncodeOne(c) ==> FirstPiece(s).width >= w + 1 {
        if w < |s| && s[..w + 1] <= EncodeOne(c) {
          PieceCovers(s, w + 1, c);
        }
      }
    }
  }

  /** The lengths and the bits of RFC 3629, at the two ends of every range. */
  lemma EncodedEnds()
    ensures EncodeOne(0 as char) == [0x00] && EncodeOne(0x7F as char) == [0x7F]
    ensures EncodeOne(0x80 as char) == [0xC2, 0x80] && EncodeOne(0x7FF as char) == [0xDF, 0xBF]
    ensures EncodeOne(0x800 as char) == [0xE0, 0xA0, 0x80] && EncodeOne(0xFFFF as char) == [0xEF, 0xBF, 0xBF]
    ensures EncodeOne(0x10000 as char) == [0xF0, 0x90, 0x80, 0x80]
    ensures EncodeOne(0x10FFFF as char) == [0xF4, 0x8F, 0xBF, 0xBF]
  {}

  /** What was written as UTF-8 is read back exactly: nothing well formed is replaced. */
  lemma {:induction false} DecodeEncode(s: string)
    ensures Decode(Encode(s)) == s
  {
    if s == "" {
    } else {
      var e, rest := EncodeOne(s[0]), Encode(s[1..]);
      FirstPieceOfEncoded(s[0], rest);
      assert (e + rest)[|e|..] == rest;
      DecodeEncode(s[1..]);
    }
  }

  /** How many characters stand before the first whitespace of `s`. */
  function WordLength(s: string): (n: nat)
    ensures n <= |s|
    ensures forall i | 0 <= i < n :: !IsWhitespace(s[i])
    ensures n < |s| ==> IsWhitespace(s[n])
  {
    if s == "" || IsWhitespace(s[0]) then 0 else 1 + WordLength(s[1..])
  }

  /** The maximal runs of characters that are not whitespace, in order. */
  function Words(s: string): (words: seq<string>)
    decreases |s|
  {
    if s == "" then []
    else if IsWhitespace(s[0]) then Words(s[1..])
    else [s[..WordLength(s)]] + Words(s[WordLength(s)..])
  }

  lemma {:induction false} WordLengthCut(x: string, w: char, y: string)
    requires IsWhitespace(w)
    ensures WordLength(x + [w] + y) == WordLength(x)
  {
    if x == "" || IsWhitespace(x[0]) {
    } else {
      assert (x + [w] + y)[1..] == x[1..] + [w] + y;
      WordLengthCut(x[1..], w, y);
    }
  }

  /** No word crosses a whitespace character. */
  lemma {:induction false} WordsCut(x: string, w: char, y: string)
    requires IsWhitespace(w)
    ensures Words(x + [w] + y) == Words(x) + Words(y)
    decreases |x|
  {
    var s := x + [w] + y;
    if x == "" {
      assert s[1..] == y;
    } else if IsWhitespace(x[0]) {
      assert s[1..] == x[1..] + [w] + y;
      WordsCut(x[1..], w, y);
    } else {
      WordLengthCut(x, w, y);
      var n := WordLength(x);
      Assoc(x, [w], y);
      TakeOfFront(x, [w] + y, n);
      DropOfFront(x, [w] + y, n);
      Assoc(x[n..], [w], y);
      WordsCut(x[n..], w, y);
      Assoc([x[..n]], Words(x[n..]), Words(y));
    }
  }

  predicate IsWord(w: string) {
    w != "" && forall i | 0 <= i < |w| :: !IsWhitespace(w[i])
  }

  /** Every piece of a split at white space is non-empty and free of it. */
  lemma {:induction false} WordsAreWords(s: string)
    ensures forall t | t in Words(s) :: IsWord(t)
    decreases |s|
  {
    if s == "" {
    } else if IsWhitespace(s[0]) {
      WordsAreWords(s[1..]);
    } else {
      WordsAreWords(s[WordLength(s)..]);
    }
  }

  /** **Which characters separate words**: those that Unicode calls White_Space, and no other. */
  lemma SeparatorsAre(x: string, c: char, y: string)
    requires x != "" && forall i | 0 <= i < |x| :: '!' <= x[i] <= '~'
    requires y != "" && forall i | 0 <= i < |y| :: '!' <= y[i] <= '~'
    ensures Words(x + [c] + y) ==
              if c as int in {0x09, 0x0A, 0x0B, 0x0C, 0x0D, 0x20, 0x85, 0xA0, 0x1680, 0x2000, 0x2001, 0x2002, 0x2003,
                              0x2004, 0x2005, 0x2006, 0x2007, 0x2008, 0x2009, 0x200A, 0x2028, 0x2029, 0x202F, 0x205F,
                              0x3000}
              then [x, y] else [x + [c] + y]
  {
    if IsWhitespace(c) {
      WordsCut(x, c, y);
      OneWord(x);
      OneWord(y);
    } else {
      OneWord(x + [c] + y);
    }
  }

  lemma OneWord(w: string)
    requires IsWord(w)
    ensures Words(w) == [w]
  {
    assert WordLength(w) == |w|;
    assert w[..|w|] == w && w[|w|..] == "";
  }

  /** White space says nothing, however much of it there is. */
  lemma {:induction false} SpacesSayNothing(s: string)
    requires forall i | 0 <= i < |s| :: s[i] == ' ' || s[i] == '\n' || s[i] == '\t' || s[i] == '\r'
    ensures Words(s) == []
  {
    if s != "" {
      SpacesSayNothing(s[1..]);
    }
  }

  /** `str::split` on one character: one part more than there are separators. */
  function Split(s: string, sep: char): (parts: seq<string>)
    ensures parts != []
    ensures forall p | p in parts :: sep !in p
  {
    if s == "" then [""]
    else if s[0] == sep then [""] + Split(s[1..], sep)
    else var rest := Split(s[1..], sep); [[s[0]] + rest[0]] + rest[1..]
  }

  lemma {:induction false} SplitOne(s: string, sep: char)
    requires sep !in s
    ensures Split(s, sep) == [s]
  {
    if s != "" {
      SplitOne(s[1..], sep);
      assert s == [s[0]] + s[1..];
    }
  }

  lemma {:induction false} SplitCons(a: string, rest: string, sep: char)
    requires sep !in a
    ensures Split(a + [sep] + rest, sep) == [a] + Split(rest, sep)
  {
    var s := a + [sep] + rest;
    if a == "" {
      assert s[1..] == rest;
    } else {
      assert s[1..] == a[1..] + [sep] + rest;
      SplitCons(a[1..], rest, sep);
      assert a == [a[0]] + a[1..];
    }
  }

  lemma SplitTwo(a: string, b: string, sep: char)
    requires sep !in a && sep !in b
    ensures Split(a + [sep] + b, sep) == [a, b]
  {
    SplitCons(a, b, sep);
    SplitOne(b, sep);
  }

  function TrimStart(s: string): (r: string)
    ensures r == "" || !IsWhitespace(r[0])
  {
    if s != "" && IsWhitespace(s[0]) then TrimStart(s[1..]) else s
  }

  function TrimEnd(s: string): (r: string)
    ensures r == "" || !IsWhitespace(r[|r| - 1])
  {
    if s != "" && IsWhitespace(s[|s| - 1]) then TrimEnd(s[..|s| - 1]) else s
  }

  function Trim(s: string): string {
    TrimEnd(TrimStart(s))
  }

  /** Trimming takes the white space at both ends and nothing else. */
  lemma TrimIs(a: string, core: string, b: string)
    requires forall i | 0 <= i < |a| :: IsWhitespace(a[i])
    requires forall i | 0 <= i < |b| :: IsWhitespace(b[i])
    requires core != "" && !IsWhitespace(core[0]) && !IsWhitespace(core[|core| - 1])
    ensures Trim(a + core + b) == core && TrimEnd(core + b) == core
  {
    TrimFront(a, core + b);
    TrimBack(core, b);
    assert a + core + b == a + (core + b);
  }

  lemma {:induction false} TrimFront(a: string, rest: string)
    requires forall i | 0 <= i < |a| :: IsWhitespace(a[i])
    requires rest != "" && !IsWhitespace(rest[0])
    ensures TrimStart(a + rest) == rest
  {
    if a == "" {
      assert a + rest == rest;
    } else {
      TrimFront(a[1..], rest);
      assert (a + rest)[1..] == a[1..] + rest;
    }
  }

  lemma {:induction false} TrimBack(core: string, b: string)
    requires forall i | 0 <= i < |b| :: IsWhitespace(b[i])
    requires core != "" && !IsWhitespace(core[|core| - 1])
    ensures TrimEnd(core + b) == core
  {
    if b == "" {
      assert core + b == core;
    } else {
      TrimBack(core, b[..|b| - 1]);
      assert (core + b)[..|core + b| - 1] == core + b[..|b| - 1];
    }
  }
}
