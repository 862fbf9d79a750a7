/**
 Reviewed replacements of exact text: counted and replaced as Python's `str.count` and
 `str.replace` do, left to right and without overlaps, each under its expected count.
 */
module Replacements {

  datatype Result<+T> = Ok(value: T) | Err

  /** A reviewed replacement of exact text, with its expected count. */
  datatype Replacement = Replacement(before: string, after: string, count: int, reason: string)

  /** Non-overlapping occurrences, left to right. */
  function Count(s: string, x: string): nat
    requires x != ""
    decreases |s|
  {
    if |s| < |x| then 0
    else if x <= s then 1 + Count(s[|x|..], x)
    else Count(s[1..], x)
  }

  function Replace(s: string, x: string, y: string): string
    requires x != ""
    decreases |s|
  {
    if |s| < |x| then s
    else if x <= s then y + Replace(s[|x|..], x, y)
    else [s[0]] + Replace(s[1..], x, y)
  }

  /** Replacements apply in order; each must be well formed and match its exact count. */
  function ApplyReplacements(s: string, rs: seq<Replacement>): Result<string>
    decreases |rs|
  {
    if rs == [] then Ok(s)
    else
      var r := rs[0];
      if r.before == "" || r.reason == "" || r.count < 1 then Err
      else if Count(s, r.before) != r.count then Err
      else ApplyReplacements(Replace(s, r.before, r.after), rs[1..])
  }

  // ----- what a replacement is -----

  /** The pieces with `x` between them. */
  ghost function Joined(pieces: seq<string>, x: string): string
    requires pieces != []
  {
    if |pieces| == 1 then pieces[0] else pieces[0] + x + Joined(pieces[1..], x)
  }

  ghost predicate OccursAt(s: string, x: string, i: nat) {
    i + |x| <= |s| && s[i..i + |x|] == x
  }

  ghost predicate Lacks(s: string, x: string) {
    forall i :: 0 <= i <= |s| ==> !OccursAt(s, x, i)
  }

  /** The `x` that follows the piece is the first one met. */
  ghost predicate EndsAtFirst(piece: string, x: string) {
    forall i :: 0 <= i < |piece| ==> !OccursAt(piece + x, x, i)
  }

  /** No piece meets `x` before the cut that ends it, and the last piece not at all. */
  ghost predicate Leftmost(pieces: seq<string>, x: string) {
    && pieces != []
    && (forall k :: 0 <= k < |pieces| - 1 ==> EndsAtFirst(pieces[k], x))
    && Lacks(pieces[|pieces| - 1], x)
  }

  /** Each occurrence of `r.before`, in as many places as the review expects, became `r.after`;
      everything between them is as it was. */
  ghost predicate Reviewed(s: string, t: string, r: Replacement) {
    && r.before != "" && r.reason != "" && r.count >= 1
    && exists pieces: seq<string> ::
         && |pieces| == r.count + 1 && Leftmost(pieces, r.before)
         && s == Joined(pieces, r.before) && t == Joined(pieces, r.after)
  }

  /** The text before and after each replacement in turn. */
  ghost predicate Edits(texts: seq<string>, rs: seq<Replacement>) {
    |texts| == |rs| + 1 && forall i :: 0 <= i < |rs| ==> Reviewed(texts[i], texts[i + 1], rs[i])
  }

  lemma {:induction false} ReplaceJoins(s: string, x: string, y: string) returns (pieces: seq<string>)
    requires x != ""
    ensures Leftmost(pieces, x) && |pieces| == Count(s, x) + 1
    ensures s == Joined(pieces, x) && Replace(s, x, y) == Joined(pieces, y)
    decreases |s|
  {
    if |s| < |x| {
      pieces := [s];
    } else if x <= s {
      var rest := ReplaceJoins(s[|x|..], x, y);
      pieces := [""] + rest;
      assert pieces[1..] == rest;
      AddPiece("", rest, x);
      assert s == "" + x + s[|x|..];
    } else {
      var rest := ReplaceJoins(s[1..], x, y);
      pieces := [[s[0]] + rest[0]] + rest[1..];
      Lengthen(s[0], rest, x, y);
      LengthenLeftmost(s, rest, x);
    }
  }

  lemma AddPiece(piece: string, rest: seq<string>, x: string)
    requires Leftmost(rest, x) && EndsAtFirst(piece, x)
    ensures Leftmost([piece] + rest, x)
  {
    hide EndsAtFirst, Lacks;
    var pieces := [piece] + rest;
    assert pieces[|pieces| - 1] == rest[|rest| - 1];
    forall k | 0 <= k < |pieces| - 1 ensures EndsAtFirst(pieces[k], x) {
      if k > 0 { assert pieces[k] == rest[k - 1]; }
    }
  }

  /** One more character at the front of the first piece. */
  lemma Lengthen(c: char, rest: seq<string>, x: string, y: string)
    requires rest != []
    ensures var pieces := [[c] + rest[0]] + rest[1..];
            Joined(pieces, x) == [c] + Joined(rest, x) && Joined(pieces, y) == [c] + Joined(rest, y)
  {
    var pieces := [[c] + rest[0]] + rest[1..];
    assert pieces[1..] == rest[1..];
    if |rest| > 1 {
      assert ([c] + rest[0]) + x + Joined(rest[1..], x) == [c] + (rest[0] + x + Joined(rest[1..], x));
      assert ([c] + rest[0]) + y + Joined(rest[1..], y) == [c] + (rest[0] + y + Joined(rest[1..], y));
    }
  }

  lemma LengthenLeftmost(s: string, rest: seq<string>, x: string)
    requires x != "" && |s| >= |x| && !(x <= s) && Leftmost(rest, x) && s[1..] == Joined(rest, x)
    ensures Leftmost([[s[0]] + rest[0]] + rest[1..], x)
  {
    hide EndsAtFirst, Lacks, Joined;
    JoinedHead(rest, x);
    if |rest| == 1 {
      LengthenOnly(s, rest, x);
    } else {
      LengthenFirst(s, rest[0], Joined(rest[1..], x), x);
      LastPieces(rest, x);
      AddPiece([s[0]] + rest[0], rest[1..], x);
    }
  }

  lemma LengthenOnly(s: string, rest: seq<string>, x: string)
    requires x != "" && |s| >= |x| && !(x <= s) && |rest| == 1 && Lacks(rest[0], x) && s[1..] == rest[0]
    ensures Leftmost([[s[0]] + rest[0]] + rest[1..], x)
  {
    hide Lacks;
    assert [s[0]] + rest[0] == s;
    assert [s] + rest[1..] == [s];
    LengthenLast(s, x);
  }

  lemma LengthenFirst(s: string, first: string, others: string, x: string)
    requires x != "" && s != "" && !(x <= s) && s[1..] == first + x + others && EndsAtFirst(first, x)
    ensures EndsAtFirst([s[0]] + first, x)
  {
    hide EndsAtFirst;
    var piece := [s[0]] + first;
    assert s == piece + x + others;
    assert (piece + x)[..|x|] == s[..|x|];
    LengthenPiece(s[0], first, x);
  }

  lemma JoinedHead(pieces: seq<string>, x: string)
    requires pieces != []
    ensures Joined(pieces, x) == if |pieces| == 1 then pieces[0] else pieces[0] + x + Joined(pieces[1..], x)
  {
  }

  lemma LastPieces(pieces: seq<string>, x: string)
    requires |pieces| > 1 && Leftmost(pieces, x)
    ensures Leftmost(pieces[1..], x)
  {
    hide EndsAtFirst, Lacks;
  }

  lemma LengthenLast(s: string, x: string)
    requires x != "" && |s| >= |x| && !(x <= s) && Lacks(s[1..], x)
    ensures Lacks(s, x)
  {
    forall i | 0 <= i <= |s| ensures !OccursAt(s, x, i) {
      if i > 0 {
        ShiftOccurrence(s[0], s[1..], x, i);
        assert [s[0]] + s[1..] == s;
      }
    }
  }

  lemma LengthenPiece(c: char, piece: string, x: string)
    requires x != "" && ([c] + piece + x)[..|x|] != x && EndsAtFirst(piece, x)
    ensures EndsAtFirst([c] + piece, x)
  {
    forall i | 0 <= i < |[c] + piece| ensures !OccursAt([c] + piece + x, x, i) {
      if i > 0 {
        ShiftOccurrence(c, piece + x, x, i);
        assert [c] + (piece + x) == [c] + piece + x;
      }
    }
  }

  lemma ShiftOccurrence(c: char, s: string, x: string, i: nat)
    requires i > 0
    ensures OccursAt([c] + s, x, i) <==> OccursAt(s, x, i - 1)
  {
    if i + |x| <= |[c] + s| { assert ([c] + s)[i..i + |x|] == s[i - 1..i - 1 + |x|]; }
  }

  /** The cuts are determined: there is one way to take a text apart at the leftmost occurrences. */
  lemma {:induction false} CutsAreUnique(a: seq<string>, b: seq<string>, x: string)
    requires x != "" && Leftmost(a, x) && Leftmost(b, x) && Joined(a, x) == Joined(b, x)
    ensures a == b
    decreases |a|
  {
    FirstPiece(a, b, x);
    FirstPiece(b, a, x);
    if |a| > 1 && |b| > 1 {
      var s := Joined(a, x);
      assert s[|a[0]| + |x|..] == Joined(a[1..], x) && s[|b[0]| + |x|..] == Joined(b[1..], x);
      CutsAreUnique(a[1..], b[1..], x);
      assert a == [a[0]] + a[1..] && b == [b[0]] + b[1..];
    } else {
      assert |a| == |b| == 1;
    }
  }

  /** No other way to cut has a longer first piece, or no first cut where there is one. */
  lemma FirstPiece(a: seq<string>, b: seq<string>, x: string)
    requires x != "" && Leftmost(a, x) && Leftmost(b, x) && Joined(a, x) == Joined(b, x)
    ensures |a| > 1 ==> |b| > 1 && |b[0]| <= |a[0]|
    ensures |a| > 1 && |b| > 1 && |b[0]| == |a[0]| ==> a[0] == b[0]
    ensures |a| == 1 && |b| == 1 ==> a == b
  {
    var s := Joined(a, x);
    if |a| > 1 {
      assert OccursAt(s, x, |a[0]|);
      if |b| > 1 && |a[0]| < |b[0]| {
        assert s == b[0] + x + Joined(b[1..], x);
        assert (b[0] + x)[|a[0]|..|a[0]| + |x|] == s[|a[0]|..|a[0]| + |x|];
        assert OccursAt(b[0] + x, x, |a[0]|);
      }
      if |b| > 1 { assert a[0] == s[..|a[0]|] && b[0] == s[..|b[0]|]; }
    }
  }

  /** A replacement is accepted, with the text it makes, exactly when it is as reviewed. */
  lemma ReplaceIff(s: string, r: Replacement, t: string)
    ensures Reviewed(s, t, r)
       <==> ApplyReplacements(s, [r]) == Ok(t)
  {
    assert [r][1..] == [];
    if r.before != "" {
      var pieces := ReplaceJoins(s, r.before, r.after);
      if Reviewed(s, t, r) {
        var other: seq<string> :| |other| == r.count + 1 && Leftmost(other, r.before)
                                  && s == Joined(other, r.before) && t == Joined(other, r.after);
        CutsAreUnique(pieces, other, r.before);
      }
    }
  }

  /** All replacements are accepted exactly when each is as reviewed in the text that those before
      it left, and the result is what the last one leaves. */
  lemma ApplyIff(s: string, rs: seq<Replacement>, t: string)
    ensures ApplyReplacements(s, rs) == Ok(t)
       <==> exists texts :: Edits(texts, rs) && texts[0] == s && texts[|rs|] == t
  {
    if ApplyReplacements(s, rs) == Ok(t) { var texts := AppliedEdits(s, rs, t); }
    if texts: seq<string> :| Edits(texts, rs) && texts[0] == s && texts[|rs|] == t { EditsApply(texts, rs); }
  }

  lemma {:induction false} AppliedEdits(s: string, rs: seq<Replacement>, t: string) returns (texts: seq<string>)
    requires ApplyReplacements(s, rs) == Ok(t)
    ensures Edits(texts, rs) && texts[0] == s && texts[|rs|] == t
    decreases |rs|
  {
    hide Reviewed, Edits, Count, Replace;
    if rs == [] {
      texts := [s];
      assert Edits(texts, rs) by { NoEdits(s); }
    } else {
      var next := OneApplied(s, rs);
      var rest := AppliedEdits(next, rs[1..], t);
      EditsCons(s, rest, rs);
      texts := [s] + rest;
    }
  }

  lemma NoEdits(s: string)
    ensures Edits([s], [])
  {
  }

  lemma OneApplied(s: string, rs: seq<Replacement>) returns (next: string)
    requires rs != [] && ApplyReplacements(s, rs).Ok?
    ensures Reviewed(s, next, rs[0]) && ApplyReplacements(s, rs) == ApplyReplacements(next, rs[1..])
  {
    hide Reviewed, Count, Replace;
    next := Replace(s, rs[0].before, rs[0].after);
    assert [rs[0]][1..] == [];
    ReplaceIff(s, rs[0], next);
  }

  lemma {:induction false} EditsApply(texts: seq<string>, rs: seq<Replacement>)
    requires Edits(texts, rs)
    ensures ApplyReplacements(texts[0], rs) == Ok(texts[|rs|])
    decreases |rs|
  {
    hide Reviewed, Count, Replace;
    if rs != [] {
      assert [rs[0]][1..] == [];
      ReplaceIff(texts[0], rs[0], texts[1]);
      EditsApply(texts[1..], rs[1..]);
    }
  }

  lemma EditsCons(s: string, rest: seq<string>, rs: seq<Replacement>)
    requires rs != [] && Edits(rest, rs[1..]) && Reviewed(s, rest[0], rs[0])
    ensures Edits([s] + rest, rs) && ([s] + rest)[|rs|] == rest[|rs| - 1]
  {
    hide Reviewed;
    var texts := [s] + rest;
    forall i | 0 <= i < |rs| ensures Reviewed(texts[i], texts[i + 1], rs[i]) {
      if i > 0 { assert rs[i] == rs[1..][i - 1]; }
    }
  }
}
