/**
 Identities of reviewed sites: what a site is, not where, with an ordinal that only tells
 identical duplicates of one scope apart.
 */
module SiteKeys {

  /** What the visitor records of a site, without its position. */
  datatype Raw = Raw(qualname: string, kind: string, ids: string, fingerprint: string)

  datatype Site = Site(file: string, raw: Raw, ordinal: int)

  /** Sites of one file in source order; each takes the next ordinal of its identity. */
  function Number(file: string, raws: seq<Raw>): seq<Site> {
    if raws == [] then []
    else
      var last := raws[|raws| - 1];
      Number(file, raws[..|raws| - 1]) + [Site(file, last, multiset(raws)[last])]
  }

  method SitesForSource(file: string, raws: seq<Raw>) returns (sites: seq<Site>)
    ensures forall s :: s in sites <==> s.file == file && 1 <= s.ordinal <= multiset(raws)[s.raw]
    ensures forall i, j :: 0 <= i < j < |sites| ==> sites[i] != sites[j]
    ensures sites == Number(file, raws)
  {
    hide *;
    var counters: map<Raw, nat> := map[];
    sites := [];
    NoneCounted(file, raws);
    for i := 0 to |raws|
      invariant sites == Number(file, raws[..i])
      invariant Counted(counters, multiset(raws[..i]))
    {
      CountOne(file, raws, i, counters);
      var n := if raws[i] in counters then counters[raws[i]] else 0;
      counters := counters[raws[i] := n + 1];
      sites := sites + [Site(file, raws[i], n + 1)];
    }
    assert raws[..|raws|] == raws;
    NumberedKeys(file, raws);
  }

  ghost predicate Counted(counters: map<Raw, nat>, seen: multiset<Raw>) {
    forall r :: (if r in counters then counters[r] else 0) == seen[r]
  }

  lemma NoneCounted(file: string, raws: seq<Raw>)
    ensures Number(file, raws[..0]) == [] && Counted(map[], multiset(raws[..0]))
  {
  }

  lemma CountOne(file: string, raws: seq<Raw>, i: nat, counters: map<Raw, nat>)
    requires i < |raws| && Counted(counters, multiset(raws[..i]))
    ensures var n := if raws[i] in counters then counters[raws[i]] else 0;
            && Counted(counters[raws[i] := n + 1], multiset(raws[..i + 1]))
            && Number(file, raws[..i + 1]) == Number(file, raws[..i]) + [Site(file, raws[i], n + 1)]
  {
    assert raws[..i + 1] == raws[..i] + [raws[i]];
    assert raws[..i + 1][..i] == raws[..i];
    assert multiset(raws[..i + 1]) == multiset(raws[..i]) + multiset{raws[i]};
  }

  /** The keys of a file are its raw sites with the ordinals one to their multiplicity, each
      once. Their order in the source has no part in them. */
  lemma {:induction false} NumberedKeys(file: string, raws: seq<Raw>)
    ensures forall s :: s in Number(file, raws) <==> s.file == file && 1 <= s.ordinal <= multiset(raws)[s.raw]
    ensures forall i, j :: 0 <= i < j < |Number(file, raws)| ==> Number(file, raws)[i] != Number(file, raws)[j]
  {
    if raws != [] {
      var front, last := raws[..|raws| - 1], raws[|raws| - 1];
      NumberedKeys(file, front);
      assert raws == front + [last];
      assert multiset(raws) == multiset(front) + multiset{last};
      var one := Site(file, last, multiset(raws)[last]);
      assert one !in Number(file, front);
      forall s: Site
        ensures s in Number(file, raws) <==> s.file == file && 1 <= s.ordinal <= multiset(raws)[s.raw]
      {
        assert s in Number(file, raws) <==> s in Number(file, front) || s == one;
      }
    }
  }

  /** Sites of every file, before they are sorted. */
  function Collect(files: seq<(string, seq<Raw>)>): seq<Site> {
    if files == [] then [] else Number(files[0].0, files[0].1) + Collect(files[1..])
  }

  /** The inventory of all files: of each raw site of each file, the ordinals one to its multiplicity. */
  lemma {:induction false} CollectedIff(files: seq<(string, seq<Raw>)>, s: Site)
    ensures s in Collect(files)
       <==> exists i :: 0 <= i < |files| && files[i].0 == s.file && 1 <= s.ordinal <= multiset(files[i].1)[s.raw]
    decreases |files|
  {
    hide Number;
    if files != [] {
      NumberedKeys(files[0].0, files[0].1);
      CollectedIff(files[1..], s);
      assert forall i :: 1 <= i < |files| ==> files[i] == files[1..][i - 1];
    }
  }

  /** The second tree has the same files, and in each at least the raw sites of the first. */
  ghost predicate Extends(a: seq<(string, seq<Raw>)>, b: seq<(string, seq<Raw>)>) {
    |a| == |b| && forall i :: 0 <= i < |a| ==> a[i].0 == b[i].0 && multiset(a[i].1) <= multiset(b[i].1)
  }

  ghost predicate Reordered(a: seq<(string, seq<Raw>)>, b: seq<(string, seq<Raw>)>) {
    Extends(a, b) && Extends(b, a)
  }

  /** Adding code to a scope loses no key, so no review. */
  lemma {:induction false} AddedSitesKeepKeys(a: seq<(string, seq<Raw>)>, b: seq<(string, seq<Raw>)>)
    requires Extends(a, b)
    ensures forall s :: s in Collect(a) ==> s in Collect(b)
  {
    if a != [] {
      NumberedKeys(a[0].0, a[0].1);
      NumberedKeys(b[0].0, b[0].1);
      AddedSitesKeepKeys(a[1..], b[1..]);
    }
  }

  /** Files with different paths give different keys. */
  lemma {:induction false} KeysAreDistinct(files: seq<(string, seq<Raw>)>)
    requires forall i, j :: 0 <= i < j < |files| ==> files[i].0 != files[j].0
    ensures forall i, j :: 0 <= i < j < |Collect(files)| ==> Collect(files)[i] != Collect(files)[j]
  {
    if files != [] {
      var head, rest := Number(files[0].0, files[0].1), files[1..];
      NumberedKeys(files[0].0, files[0].1);
      KeysAreDistinct(rest);
      forall s | s in Collect(rest) ensures s.file != files[0].0 {
        CollectedFile(rest, s);
      }
      forall i, j | 0 <= i < j < |Collect(files)| ensures Collect(files)[i] != Collect(files)[j] {
        assert j >= |head| ==> Collect(files)[j] == Collect(rest)[j - |head|] && Collect(files)[j] in Collect(rest);
        assert i < |head| ==> Collect(files)[i] == head[i] && head[i] in head;
      }
    }
  }

  lemma {:induction false} CollectedFile(files: seq<(string, seq<Raw>)>, s: Site)
    requires s in Collect(files)
    ensures exists i :: 0 <= i < |files| && files[i].0 == s.file
  {
    if s in Number(files[0].0, files[0].1) {
      NumberedKeys(files[0].0, files[0].1);
    } else {
      CollectedFile(files[1..], s);
      var i :| 0 <= i < |files[1..]| && files[1..][i].0 == s.file;
      assert files[i + 1].0 == s.file;
    }
  }

  // ----- sorting -----

  ghost predicate StrictOrder(lt: (Site, Site) -> bool) {
    (forall a :: !lt(a, a)) && forall a, b, c :: lt(a, b) && lt(b, c) ==> lt(a, c)
  }

  ghost predicate Sorted(lt: (Site, Site) -> bool, s: seq<Site>) {
    forall i, j :: 0 <= i < j < |s| ==> lt(s[i], s[j])
  }

  lemma HasElement(b: seq<Site>)
    requires b != []
    ensures exists s :: s in b
  {
    assert b[0] in b;
  }

  /** A strictly sorted sequence is determined by its elements. */
  lemma {:induction false} SortedIsUnique(lt: (Site, Site) -> bool, a: seq<Site>, b: seq<Site>)
    requires StrictOrder(lt) && Sorted(lt, a) && Sorted(lt, b)
    requires forall s :: s in a <==> s in b
    ensures a == b
  {
    if a == [] {
      if b != [] { HasElement(b); }
    } else {
      assert a[0] in a && a[0] in b;
      assert b[0] in b && b[0] in a;
      assert a[0] == b[0];
      forall s: Site ensures s in a[1..] <==> s in b[1..] {
        if s in a[1..] { assert lt(a[0], s) && s in a; assert s != b[0]; }
        if s in b[1..] { assert lt(b[0], s) && s in b; assert s != a[0]; }
      }
      SortedIsUnique(lt, a[1..], b[1..]);
    }
  }

  /** Reordering the code of every file leaves the sorted inventory as it was. */
  lemma ReorderingKeepsInventory(lt: (Site, Site) -> bool, a: seq<(string, seq<Raw>)>, b: seq<(string, seq<Raw>)>,
      sortedA: seq<Site>, sortedB: seq<Site>)
    requires Reordered(a, b) && StrictOrder(lt) && Sorted(lt, sortedA) && Sorted(lt, sortedB)
    requires multiset(sortedA) == multiset(Collect(a)) && multiset(sortedB) == multiset(Collect(b))
    ensures sortedA == sortedB
  {
    AddedSitesKeepKeys(a, b);
    AddedSitesKeepKeys(b, a);
    forall s: Site ensures s in sortedA <==> s in sortedB {
      assert s in sortedA <==> s in multiset(sortedA);
      assert s in sortedB <==> s in multiset(sortedB);
      assert s in Collect(a) <==> s in multiset(Collect(a));
      assert s in Collect(b) <==> s in multiset(Collect(b));
    }
    SortedIsUnique(lt, sortedA, sortedB);
  }
}
