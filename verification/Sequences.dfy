/** Where slices of a concatenation lie. */
module Sequences {

  lemma Assoc<T>(a: seq<T>, b: seq<T>, c: seq<T>)
    ensures a + (b + c) == (a + b) + c
  {}

  lemma TakeOfFront<T>(p: seq<T>, t: seq<T>, n: nat)
    requires n <= |p|
    ensures (p + t)[..n] == p[..n]
  {}

  lemma DropOfFront<T>(p: seq<T>, t: seq<T>, n: nat)
    requires n <= |p|
    ensures (p + t)[n..] == p[n..] + t
  {}

  lemma SliceOfFront<T>(p: seq<T>, t: seq<T>, i: nat, j: nat)
    requires i <= j <= |p|
    ensures (p + t)[i..j] == p[i..j]
  {}

  lemma SliceOfTail<T>(p: seq<T>, t: seq<T>, i: nat, j: nat)
    requires i <= j <= |t|
    ensures (p + t)[|p| + i..|p| + j] == t[i..j]
  {}

  lemma SliceOfRest<T>(p: seq<T>, t: seq<T>, i: nat)
    requires i <= |t|
    ensures (p + t)[|p| + i..|p + t|] == t[i..]
    ensures (p + t)[|p| + i..] == t[i..]
  {}

  lemma TakeThenDrop<T>(s: seq<T>, n: nat)
    requires n <= |s|
    ensures s[..n] + s[n..] == s
  {}

  lemma TakeMore<T>(s: seq<T>, at: nat, width: nat)
    requires at + width <= |s|
    ensures s[..at] + s[at..at + width] == s[..at + width]
  {}

  lemma DropLess<T>(s: seq<T>, at: nat, to: nat)
    requires at <= to <= |s|
    ensures s[at..] == s[at..to] + s[to..]
  {}

  lemma SliceOfDrop<T>(s: seq<T>, at: nat, n: nat)
    requires at + n <= |s|
    ensures s[at..][..n] == s[at..at + n]
    ensures s[at..][n..] == s[at + n..]
  {}

  /** Dropping `c` of `a` and then going `n` into `b` is the stretch from `c` to `|a| + n`. */
  lemma SliceAcross<T>(a: seq<T>, b: seq<T>, c: nat, n: nat)
    requires c <= |a| && n <= |b|
    ensures (a[c..] + b)[..|a| - c + n] == (a + b)[c..|a| + n]
    ensures (a[c..] + b)[|a| - c + n..] == (a + b)[|a| + n..]
  {
    DropOfFront(a, b, c);
    SliceOfDrop(a + b, c, |a| - c + n);
  }
}
