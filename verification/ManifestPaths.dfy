/**
 The paths and names a codemod manifest may hold: a path is read as its parts and printed
 back from them, and must stay inside the repository.
 */
module ManifestPaths {

  /** The text between slashes. */
  function Slashed(s: string): (parts: seq<string>)
    ensures parts != []
  {
    if s == "" then [""]
    else if s[0] == '/' then [""] + Slashed(s[1..])
    else
      var rest := Slashed(s[1..]);
      [[s[0]] + rest[0]] + rest[1..]
  }

  /** Without empty parts and dots, as a pure path keeps them. */
  function Kept(parts: seq<string>): (r: seq<string>)
    ensures forall x :: x in r <==> x in parts && x != "" && x != "."
  {
    if parts == [] then []
    else (if parts[0] == "" || parts[0] == "." then [] else [parts[0]]) + Kept(parts[1..])
  }

  function Parts(raw: string): seq<string> {
    Kept(Slashed(raw))
  }

  function Print(parts: seq<string>): string {
    if parts == [] then ""
    else if |parts| == 1 then parts[0]
    else parts[0] + "/" + Print(parts[1..])
  }

  predicate IsAbsolute(raw: string) { raw != "" && raw[0] == '/' }

  predicate SafePath(raw: string) {
    !IsAbsolute(raw) && ".." !in Parts(raw) && Parts(raw) != []
  }

  /** The path as the manifest stores it. */
  function Normal(raw: string): string {
    Print(Parts(raw))
  }

  lemma {:induction false} SlashedIsFree(s: string)
    ensures forall x :: x in Slashed(s) ==> '/' !in x
  {
    if s != "" { SlashedIsFree(s[1..]); }
  }

  lemma {:induction false} OnePart(a: string)
    requires '/' !in a
    ensures Slashed(a) == [a]
  {
    if a != "" {
      OnePart(a[1..]);
      assert a == [a[0]] + a[1..];
    }
  }

  lemma {:induction false} FirstPart(a: string, b: string)
    requires '/' !in a
    ensures Slashed(a + "/" + b) == [a] + Slashed(b)
  {
    if a == "" {
      assert (a + "/" + b)[1..] == b;
    } else {
      FirstPart(a[1..], b);
      assert (a + "/" + b)[1..] == a[1..] + "/" + b;
      assert a == [a[0]] + a[1..];
    }
  }

  lemma {:induction false} PrintedParts(parts: seq<string>)
    requires parts != [] && forall x :: x in parts ==> '/' !in x && x != "" && x != "."
    ensures Parts(Print(parts)) == parts && !IsAbsolute(Print(parts))
  {
    assert parts[0] in parts;
    if |parts| == 1 {
      OnePart(parts[0]);
      assert parts == [parts[0]] && Kept([parts[0]]) == [parts[0]] + Kept([parts[0]][1..]);
      assert [parts[0]] + [] == [parts[0]];
    } else {
      PrintedParts(parts[1..]);
      FirstPart(parts[0], Print(parts[1..]));
      assert ([parts[0]] + Slashed(Print(parts[1..])))[1..] == Slashed(Print(parts[1..]));
    }
  }

  /** Opening a path part by part; the root is its own parent. */
  function Walk(dir: seq<string>, parts: seq<string>): seq<string> {
    if parts == [] then dir
    else
      var before, last := Walk(dir, parts[..|parts| - 1]), parts[|parts| - 1];
      if last != ".." then before + [last] else if before == [] then [] else before[..|before| - 1]
  }

  /** Where opening a path starts, from a working directory. */
  function StartOf(dir: seq<string>, raw: string): seq<string> {
    if raw != "" && raw[0] == '/' then [] else dir
  }

  /** A path is accepted exactly when, opened from the repository, it goes down from there at every
      step, and takes one. */
  lemma SafePathIff(repository: seq<string>, raw: string)
    requires repository != []
    ensures SafePath(raw)
       <==> Parts(raw) != [] && forall k :: 0 <= k <= |Parts(raw)| ==>
              Walk(StartOf(repository, raw), Parts(raw)[..k]) == repository + Parts(raw)[..k]
  {
    hide Parts;
    var parts, start := Parts(raw), StartOf(repository, raw);
    if SafePath(raw) {
      forall k | 0 <= k <= |parts| ensures Walk(start, parts[..k]) == repository + parts[..k] {
        WalksDown(start, parts, k);
      }
    }
    if parts != [] && forall k :: 0 <= k <= |parts| ==> Walk(start, parts[..k]) == repository + parts[..k] {
      assert parts[..0] == [] && Walk(start, parts[..0]) == repository + parts[..0];
      forall k | 0 <= k < |parts| ensures parts[k] != ".." {
        assert Walk(start, parts[..k]) == repository + parts[..k];
        assert Walk(start, parts[..k + 1]) == repository + parts[..k + 1];
        assert parts[..k + 1][..k] == parts[..k];
      }
    }
  }

  lemma {:induction false} WalksDown(dir: seq<string>, parts: seq<string>, k: nat)
    requires k <= |parts| && ".." !in parts
    ensures Walk(dir, parts[..k]) == dir + parts[..k]
    decreases k
  {
    if k > 0 {
      WalksDown(dir, parts, k - 1);
      assert parts[..k][..k - 1] == parts[..k - 1] && parts[k - 1] in parts;
    }
  }

  /** A stored path is safe and reads back as itself. */
  lemma StoredIsSafe(raw: string)
    requires SafePath(raw)
    ensures SafePath(Normal(raw)) && Parts(Normal(raw)) == Parts(raw) && Normal(Normal(raw)) == Normal(raw)
  {
    SlashedIsFree(raw);
    PrintedParts(Parts(raw));
  }

  /** Two manifest paths collide exactly when their parts are the same. */
  lemma SamePathIff(a: string, b: string)
    requires SafePath(a) && SafePath(b)
    ensures Normal(a) == Normal(b) <==> Parts(a) == Parts(b)
  {
    StoredIsSafe(a);
    StoredIsSafe(b);
  }

  // ----- module names -----

  predicate IsLetter(c: char) { 'a' <= c <= 'z' || 'A' <= c <= 'Z' || c == '_' }

  predicate IsWordChar(c: char) { IsLetter(c) || '0' <= c <= '9' }

  lemma LetterTable(c: char)
    ensures IsLetter(c)
       <==> c in {'A', 'B', 'C', 'D', 'E', 'F', 'G', 'H', 'I', 'J', 'K', 'L', 'M',
                  'N', 'O', 'P', 'Q', 'R', 'S', 'T', 'U', 'V', 'W', 'X', 'Y', 'Z',
                  'a', 'b', 'c', 'd', 'e', 'f', 'g', 'h', 'i', 'j', 'k', 'l', 'm',
                  'n', 'o', 'p', 'q', 'r', 's', 't', 'u', 'v', 'w', 'x', 'y', 'z', '_'}
    ensures IsWordChar(c) <==> IsLetter(c) || c in {'0', '1', '2', '3', '4', '5', '6', '7', '8', '9'}
  {
  }

  predicate IsIdentifier(s: string) {
    s != "" && IsLetter(s[0]) && forall i :: 0 <= i < |s| ==> IsWordChar(s[i])
  }
}
