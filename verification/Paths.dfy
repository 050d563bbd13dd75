/** Which names may stand for a file of a package, and where such a name leads
    (aj-package/archive.rs). */
module Paths {
  import opened Sequences
  import opened Text

  datatype Refusal = NoName | TooLong | NullByte | BadCharacter(c: char) | Absolute | Climbs | NamesNothing

  datatype Result = Within(parts: seq<string>) | Outside(why: Refusal)

  predicate Allowed(c: char) {
    IsAlphanumeric(c) || c == '.' || c == '-' || c == '_' || c == '/'
  }

  /** A part of a path that names something, rather than the place it stands in. */
  predicate Names(part: string) {
    part != "" && part != "."
  }

  function Named(parts: seq<string>): (named: seq<string>)
    ensures forall p | p in named :: p in parts && Names(p)
    ensures named == [] <==> forall p | p in parts :: !Names(p)
  {
    if parts == [] then []
    else
      assert parts == [parts[0]] + parts[1..];
      if Names(parts[0]) then [parts[0]] + Named(parts[1..]) else Named(parts[1..])
  }

  predicate StartsAtRoot(name: string) {
    name != "" && name[0] == '/'
  }

  /** A name a package may have: short, of few characters, relative, never going up, and
      naming something. */
  predicate Safe(name: string, most: nat) {
    && name != "" && |name| <= most
    && (forall i | 0 <= i < |name| :: Allowed(name[i]))
    && !StartsAtRoot(name)
    && ".." !in Split(name, '/')
    && Named(Split(name, '/')) != []
  }

  /** The reason given is true of the name. */
  predicate Has(name: string, most: nat, why: Refusal) {
    match why
    case NoName => name == ""
    case TooLong => |Encode(name)| > most
    case NullByte => 0 as char in name
    case BadCharacter(c) => c in name && !Allowed(c)
    case Absolute => StartsAtRoot(name)
    case Climbs => ".." in Split(name, '/')
    case NamesNothing => forall p | p in Split(name, '/') :: !Names(p)
  }

  /** Some true reason against a name that is not safe. */
  function ReasonAgainst(name: string, most: nat): (why: Refusal)
    ensures !Safe(name, most) ==> Has(name, most, why)
  {
    if name == "" then NoName
    else if |Encode(name)| > most then TooLong
    else if exists i :: 0 <= i < |name| && !Allowed(name[i]) then
      BadCharacter(FirstBad(name))
    else if StartsAtRoot(name) then Absolute
    else if ".." in Split(name, '/') then Climbs
    else AllowedLength(name); NamesNothing
  }

  function FirstBad(name: string): (c: char)
    ensures (exists i :: 0 <= i < |name| && !Allowed(name[i])) ==> c in name && !Allowed(c)
  {
    if name == "" then 'a'
    else if !Allowed(name[0]) then name[0]
    else
      assert name == [name[0]] + name[1..];
      FirstBad(name[1..])
  }

  /** Characters that are allowed take one byte each. */
  lemma {:induction false} AllowedLength(name: string)
    requires forall i | 0 <= i < |name| :: Allowed(name[i])
    ensures |Encode(name)| == |name|
  {
    if name != "" {
      AllowedLength(name[1..]);
    }
  }

  /** Accepts exactly the safe names, as the parts that name something, and refuses any
      other for a reason it has. */
  method SafePath(name: string, most: nat) returns (r: Result)
    ensures r.Within? <==> Safe(name, most)
    ensures r.Within? ==> r.parts == Named(Split(name, '/'))
    ensures r.Outside? ==> Has(name, most, r.why)
  {
    if name == "" {
      return Outside(NoName);
    }
    if |Encode(name)| > most {
      if forall i | 0 <= i < |name| :: Allowed(name[i]) {
        AllowedLength(name);
      }
      return Outside(TooLong);
    }
    if 0 as char in name {
      return Outside(NullByte);
    }
    for i := 0 to |name|
      invariant forall j | 0 <= j < i :: Allowed(name[j])
    {
      if !Allowed(name[i]) {
        return Outside(BadCharacter(name[i]));
      }
    }
    AllowedLength(name);
    if name[0] == '/' {
      return Outside(Absolute);
    }
    r := WithinParts(Split(name, '/'));
  }

  /** Keeps the parts that name something, unless one of them goes up. */
  method WithinParts(parts: seq<string>) returns (r: Result)
    ensures r.Within? <==> ".." !in parts && Named(parts) != []
    ensures r.Within? ==> r.parts == Named(parts)
    ensures r.Outside? ==> r.why == if ".." in parts then Climbs else NamesNothing
  {
    var safe: seq<string> := [];
    for i := 0 to |parts|
      invariant ".." !in parts[..i] && safe == Named(parts[..i])
    {
      NamedMore(parts[..i], parts[i]);
      assert parts[..i + 1] == parts[..i] + [parts[i]];
      if parts[i] == ".." {
        return Outside(Climbs);
      }
      if Names(parts[i]) {
        safe := safe + [parts[i]];
      }
    }
    assert parts[..|parts|] == parts;
    return if safe == [] then Outside(NamesNothing) else Within(safe);
  }

  /** What a path names: its parts in order, but for the empty ones and the dots. */
  lemma {:induction false} NamedMore(parts: seq<string>, part: string)
    ensures Named([]) == []
    ensures Named(parts + [part]) == if |part| == 0 || part == "." then Named(parts) else Named(parts) + [part]
  {
    if parts != [] {
      NamedMore(parts[1..], part);
      assert (parts + [part])[1..] == parts[1..] + [part];
    }
  }

  /** **What each reason says of a name.** */
  lemma ReasonsAre(name: string, most: nat, parts: seq<string>)
    requires parts == Split(name, '/')
    ensures Has(name, most, NoName) <==> |name| == 0
    ensures Has(name, most, TooLong) <==> |Encode(name)| > most
    ensures Has(name, most, Absolute) <==> |name| > 0 && name[0] == '/'
    ensures Has(name, most, Climbs) <==> ".." in parts
    ensures Has(name, most, NamesNothing) <==> forall p | p in parts :: |p| == 0 || p == "."
  {}

  lemma CharactersAgainst(name: string, most: nat, c: char)
    ensures Has(name, most, NullByte) <==> exists i :: 0 <= i < |name| && name[i] as int == 0
    ensures Has(name, most, BadCharacter(c)) ==>
              c in name && !('a' <= c <= 'z') && !('A' <= c <= 'Z') && !('0' <= c <= '9') && c !in {'.', '-', '_', '/'}
  {}

  // ---- which names are safe

  /** **Which characters a name may have.** */
  lemma SafeCharacters(name: string, most: nat, i: nat)
    requires Safe(name, most) && i < |name|
    ensures 1 <= |name| <= most && name[0] != '/'
    ensures 'a' <= name[i] <= 'z' || 'A' <= name[i] <= 'Z' || '0' <= name[i] <= '9' || name[i] in {'.', '-', '_', '/'}
  {}

  /** The parts of a path, with a slash between each two. */
  function Slashed(parts: seq<string>): string {
    if parts == [] then "" else if |parts| == 1 then parts[0] else parts[0] + "/" + Slashed(parts[1..])
  }

  /** What a file or a directory may be called. */
  predicate IsName(part: string) {
    && part != "" && part != "." && part != ".."
    && forall i | 0 <= i < |part| ::
         'a' <= part[i] <= 'z' || 'A' <= part[i] <= 'Z' || '0' <= part[i] <= '9' || part[i] in {'.', '-', '_'}
  }

  lemma {:induction false} PartsOfSlashed(parts: seq<string>)
    requires parts != [] && forall p | p in parts :: IsName(p)
    ensures Split(Slashed(parts), '/') == parts
  {
    assert IsName(parts[0]) && '/' !in parts[0];
    if |parts| == 1 {
      SplitOne(parts[0], '/');
      assert parts == [parts[0]];
    } else {
      assert forall p | p in parts[1..] :: p in parts;
      PartsOfSlashed(parts[1..]);
      SplitCons(parts[0], Slashed(parts[1..]), '/');
      assert parts == [parts[0]] + parts[1..];
    }
  }

  lemma {:induction false} AllNamed(parts: seq<string>)
    requires forall p | p in parts :: Names(p)
    ensures Named(parts) == parts
  {
    if parts != [] {
      assert parts == [parts[0]] + parts[1..];
      AllNamed(parts[1..]);
    }
  }

  lemma {:induction false} SlashedIsAllowed(parts: seq<string>)
    requires parts != [] && forall p | p in parts :: IsName(p)
    ensures forall i | 0 <= i < |Slashed(parts)| :: Allowed(Slashed(parts)[i])
    ensures Slashed(parts) != "" && Slashed(parts)[0] != '/'
  {
    assert IsName(parts[0]);
    if |parts| > 1 {
      assert forall p | p in parts[1..] :: p in parts;
      SlashedIsAllowed(parts[1..]);
    }
  }

  /** **Every list of names is a safe path**, if it is short enough, and is read back as it is. */
  lemma NamesMakeAPath(parts: seq<string>, most: nat)
    requires parts != [] && (forall p | p in parts :: IsName(p)) && |Slashed(parts)| <= most
    ensures Safe(Slashed(parts), most) && Named(Split(Slashed(parts), '/')) == parts
  {
    PartsOfSlashed(parts);
    SlashedIsAllowed(parts);
    AllNamed(parts);
    assert ".." !in parts;
  }

  // ---- why the rule is enough

  /** Where a path leads, walked from the root: a part goes down, two dots go up. */
  function Walk(at: seq<string>, parts: seq<string>): seq<string>
    decreases |parts|
  {
    if parts == [] then at
    else if !Names(parts[0]) then Walk(at, parts[1..])
    else if parts[0] == ".." then Walk(if at == [] then [] else at[..|at| - 1], parts[1..])
    else Walk(at + [parts[0]], parts[1..])
  }

  /** A name joined onto a directory: an absolute one takes its place. */
  function Joined(directory: seq<string>, name: string): seq<string> {
    Walk(if StartsAtRoot(name) then [] else directory, Split(name, '/'))
  }

  lemma {:induction false} WalkDown(at: seq<string>, parts: seq<string>)
    requires ".." !in parts
    ensures Walk(at, parts) == at + Named(parts)
    decreases |parts|
  {
    if parts == [] {
      assert at + [] == at;
    } else if Names(parts[0]) {
      WalkDown(at + [parts[0]], parts[1..]);
      Assoc(at, [parts[0]], Named(parts[1..]));
    } else {
      WalkDown(at, parts[1..]);
    }
  }

  /** **A safe name stays inside**: joined onto any directory it leads strictly below it. */
  lemma SafeStaysInside(directory: seq<string>, name: string, most: nat)
    requires Safe(name, most)
    ensures directory < Joined(directory, name)
    ensures Joined(directory, name) == directory + Named(Split(name, '/'))
  {
    WalkDown(directory, Split(name, '/'));
  }

  /** An absolute name leads to one place from everywhere, so it is not inside both of two
      directories that lie apart. */
  lemma AbsoluteLeadsAway(a: seq<string>, b: seq<string>, name: string)
    requires StartsAtRoot(name) && !(a <= b) && !(b <= a)
    ensures !(a <= Joined(a, name)) || !(b <= Joined(b, name))
  {
    var to := Joined(a, name);
    if a <= to && b <= to {
      OneIsAbove(a, b, to);
    }
  }

  lemma OneIsAbove(a: seq<string>, b: seq<string>, to: seq<string>)
    requires a <= to && b <= to
    ensures a <= b || b <= a
  {
    if |a| <= |b| {
      assert b[..|a|] == to[..|a|];
    } else {
      assert a[..|b|] == to[..|b|];
    }
  }
}
