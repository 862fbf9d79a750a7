/**
 The reviewed manifest of sites: its parser, its printer, and the round trip between them.
 */
module SiteManifest {
  import opened ManifestText
  import opened SiteKeys

  datatype Entry = Entry(classification: string, reason: string)

  const UNCLASSIFIED := "unclassified"

  // ----- reading -----

  datatype Parsed = Skip | Malformed | Review(site: Site, entry: Entry)

  function ParseLine(raw: string): Parsed {
    var line := Strip(raw);
    if line == [] || line[0] == '#' then Skip
    else
      var parts := Fields(line, 7);
      if |parts| < 7 || parts[5] == [] || parts[5][0] != '#' then Malformed
      else
        match ParseInt(parts[5][1..])
        case None => Malformed
        case Some(n) =>
          Review(Site(parts[0], Raw(parts[1], parts[2], parts[3], parts[4]), n),
                 Entry(parts[6], if |parts| == 8 then parts[7] else []))
  }

  datatype Reading = Ok(entries: map<Site, Entry>) | MalformedLine(line: string) | DuplicateSite(line: string)

  /** Entries of the lines, added to those read before. */
  function ReadLines(lines: seq<string>, known: map<Site, Entry>): Reading {
    if lines == [] then Ok(known)
    else
      match ParseLine(lines[0])
      case Skip => ReadLines(lines[1..], known)
      case Malformed => MalformedLine(lines[0])
      case Review(site, entry) =>
        if site in known then DuplicateSite(lines[0]) else ReadLines(lines[1..], known[site := entry])
  }

  function Read(text: string): Reading { ReadLines(Lines(text), map[]) }

  method ReadClassifications(text: string) returns (r: Reading)
    ensures r == Read(text)
    ensures r.Ok? ==> forall s :: s in r.entries ==> NeatSite(s) && Neat(r.entries[s].classification)
  {
    hide *;
    var lines, entries := Lines(text), map[];
    ReadOpened(text);
    for i := 0 to |lines|
      invariant ReadLines(lines[i..], entries) == Read(text)
    {
      ReadOne(lines[i..], entries);
      assert lines[i..][0] == lines[i] && lines[i..][1..] == lines[i + 1..];
      match ParseLine(lines[i]) {
        case Skip =>
        case Malformed => return MalformedLine(lines[i]);
        case Review(site, entry) =>
          if site in entries { return DuplicateSite(lines[i]); }
          entries := entries[site := entry];
      }
    }
    ReadNone(entries);
    assert lines[|lines|..] == [];
    return Ok(entries);
  }

  lemma ReadOpened(text: string)
    ensures ReadLines(Lines(text)[0..], map[]) == Read(text)
    ensures Read(text).Ok? ==> forall s :: s in Read(text).entries ==>
      NeatSite(s) && Neat(Read(text).entries[s].classification)
  {
    assert Lines(text)[0..] == Lines(text);
    ReadIsNeat(text);
  }

  lemma ReadNone(known: map<Site, Entry>)
    ensures ReadLines([], known) == Ok(known)
  {
  }

  lemma ReadOne(lines: seq<string>, known: map<Site, Entry>)
    requires lines != []
    ensures ReadLines(lines, known) ==
              match ParseLine(lines[0])
              case Skip => ReadLines(lines[1..], known)
              case Malformed => MalformedLine(lines[0])
              case Review(site, entry) =>
                if site in known then DuplicateSite(lines[0]) else ReadLines(lines[1..], known[site := entry])
  {
    hide ParseLine;
  }

  /** A site whose fields survive printing; its file must not look like a comment. */
  ghost predicate NeatSite(s: Site) {
    && Neat(s.file) && s.file[0] != '#'
    && Neat(s.raw.qualname) && Neat(s.raw.kind) && Neat(s.raw.ids) && Neat(s.raw.fingerprint)
  }

  ghost predicate NeatEntries(entries: map<Site, Entry>) {
    forall s :: s in entries ==> NeatSite(s) && Neat(entries[s].classification)
  }

  lemma ParsedIsNeat(raw: string)
    requires OneLine(raw) && ParseLine(raw).Review?
    ensures NeatSite(ParseLine(raw).site) && Neat(ParseLine(raw).entry.classification)
  {
    hide Neat, Fields, ParseInt, IsBreak, IsSpace;
    var line := Strip(raw);
    forall k | 0 <= k < |line| ensures !IsBreak(line[k]) {
      assert line[k] in raw;
    }
    FieldsAreNeat(line, 7);
    var file := Fields(line, 7)[0];
    NeatIsNotEmpty(file);
    assert file[..1][0] == line[..1][0];
  }

  lemma NeatIsNotEmpty(f: string)
    requires Neat(f)
    ensures f != [] && Trimmed(f) && OneLine(f)
  {
  }

  lemma {:induction false} ReadKeepsNeat(lines: seq<string>, known: map<Site, Entry>)
    requires NeatEntries(known) && forall l :: l in lines ==> OneLine(l)
    ensures ReadLines(lines, known).Ok? ==> NeatEntries(ReadLines(lines, known).entries)
  {
    hide ParseLine, OneLine, NeatSite, Neat;
    if lines != [] {
      assert lines[0] in lines;
      match ParseLine(lines[0]) {
        case Skip => ReadKeepsNeat(lines[1..], known);
        case Malformed =>
        case Review(site, entry) =>
          ParsedIsNeat(lines[0]);
          ReadKeepsNeat(lines[1..], known[site := entry]);
      }
    }
  }

  /** Whatever a manifest says, the keys and classifications read from it are neat. */
  lemma ReadIsNeat(text: string)
    ensures Read(text).Ok? ==> NeatEntries(Read(text).entries)
  {
    hide NeatSite, Neat, ReadLines;
    LinesAreOneLine(text);
    ReadKeepsNeat(Lines(text), map[]);
  }

  // ----- printing -----

  function SiteFields(s: Site, e: Entry): (fs: seq<string>)
    ensures fs != []
  {
    var reason := Normalise(e.reason);
    [s.file, s.raw.qualname, s.raw.kind, s.raw.ids, s.raw.fingerprint, "#" + Decimal(s.ordinal), e.classification]
    + if reason == [] then [] else [reason]
  }

  function Reviewed(s: Site, entries: map<Site, Entry>): Entry {
    if s in entries then entries[s] else Entry(UNCLASSIFIED, [])
  }

  function SiteLine(s: Site, entries: map<Site, Entry>): string {
    JoinFields(SiteFields(s, Reviewed(s, entries)))
  }

  function SiteLines(sites: seq<Site>, entries: map<Site, Entry>): seq<string> {
    if sites == [] then [] else [SiteLine(sites[0], entries)] + SiteLines(sites[1..], entries)
  }

  function JoinLines(ls: seq<string>): string {
    if ls == [] then [] else if |ls| == 1 then ls[0] else ls[0] + "\n" + JoinLines(ls[1..])
  }

  function Render(header: string, sites: seq<Site>, entries: map<Site, Entry>): string {
    header + JoinLines(SiteLines(sites, entries)) + if sites == [] then [] else "\n"
  }

  method RenderManifest(header: string, sites: seq<Site>, entries: map<Site, Entry>) returns (text: string)
    ensures text == Render(header, sites, entries)
  {
    hide SiteLine, JoinLines;
    var lines: seq<string> := [];
    for i := 0 to |sites|
      invariant lines + SiteLines(sites[i..], entries) == SiteLines(sites, entries)
      invariant |lines| == i
    {
      assert sites[i..][1..] == sites[i + 1..];
      lines := lines + [SiteLine(sites[i], entries)];
    }
    assert lines == SiteLines(sites, entries);
    text := header + JoinLines(lines) + if lines == [] then [] else "\n";
  }

  // ----- the round trip -----

  lemma ParseRendered(s: Site, e: Entry)
    requires NeatSite(s) && Neat(e.classification)
    ensures var line := JoinFields(SiteFields(s, e));
            OneLine(line) && ParseLine(line) == Review(s, Entry(e.classification, Normalise(e.reason)))
  {
    hide Neat, Fields, JoinFields, ParseInt, Decimal, Normalise, OneLine, Strip;
    var fs, line := SiteFields(s, e), JoinFields(SiteFields(s, e));
    DecimalRoundTrip(s.ordinal);
    NormaliseIsNeat(e.reason);
    assert forall f :: f in fs ==> Neat(f);
    FieldsRoundTrip(fs, 7);
    JoinIsTrimmed(fs);
    StripsNothing(line);
    assert fs[5][1..] == Decimal(s.ordinal);
  }

  ghost predicate NeatReview(s: Site, entries: map<Site, Entry>) {
    NeatSite(s) && Neat(Reviewed(s, entries).classification)
  }

  /** A reviewed site keeps its classification, and its reason with white space normalised; a new
      one is marked for review. */
  function KeptEntry(s: Site, entries: map<Site, Entry>): Entry {
    if s in entries then Entry(entries[s].classification, Normalise(entries[s].reason))
    else Entry("unclassified", "")
  }

  lemma KeptIsReviewed(s: Site, entries: map<Site, Entry>)
    ensures KeptEntry(s, entries)
         == Entry(Reviewed(s, entries).classification, Normalise(Reviewed(s, entries).reason))
  {
    NoWords();
  }

  lemma LineParses(s: Site, entries: map<Site, Entry>)
    requires NeatReview(s, entries)
    ensures OneLine(SiteLine(s, entries)) && ParseLine(SiteLine(s, entries)) == Review(s, KeptEntry(s, entries))
  {
    KeptIsReviewed(s, entries);
    hide Neat, NeatSite, ParseLine, OneLine, JoinFields, SiteFields, Normalise, Reviewed, KeptEntry;
    ParseRendered(s, Reviewed(s, entries));
  }

  lemma {:induction false} LinesOfJoined(ls: seq<string>)
    requires ls != [] && forall l :: l in ls ==> OneLine(l)
    ensures Lines(JoinLines(ls) + "\n") == ls + [[]]
  {
    hide OneLine, Lines;
    assert ls[0] in ls;
    SingleLine(ls[0]);
    NoLines();
    if |ls| == 1 {
      LinesAppend(ls[0], []);
      assert ls[0] + "\n" + [] == ls[0] + "\n";
    } else {
      LinesOfJoined(ls[1..]);
      LinesAppend(ls[0], JoinLines(ls[1..]) + "\n");
      assert ls[0] + "\n" + (JoinLines(ls[1..]) + "\n") == JoinLines(ls) + "\n";
    }
  }

  lemma NoLines()
    ensures Lines([]) == [[]]
  {
  }

  /** A header of comments and blank lines, ending its last line. */
  ghost predicate Comments(header: string) {
    header != [] && header[|header| - 1] == '\n'
    && forall l :: l in Lines(header[..|header| - 1]) ==> ParseLine(l) == Skip
  }

  ghost predicate Rendered(sites: seq<Site>, entries: map<Site, Entry>) {
    forall s :: s in sites ==> NeatReview(s, entries)
  }

  lemma {:induction false} SiteLinesAt(sites: seq<Site>, entries: map<Site, Entry>)
    ensures |SiteLines(sites, entries)| == |sites|
    ensures forall k :: 0 <= k < |sites| ==> SiteLines(sites, entries)[k] == SiteLine(sites[k], entries)
  {
    hide SiteLine;
    if sites != [] { SiteLinesAt(sites[1..], entries); }
  }

  lemma SiteLinesAreOneLine(sites: seq<Site>, entries: map<Site, Entry>)
    requires Rendered(sites, entries)
    ensures forall l :: l in SiteLines(sites, entries) ==> OneLine(l)
  {
    hide NeatReview, OneLine, SiteLine, SiteLines;
    SiteLinesAt(sites, entries);
    forall k | 0 <= k < |sites| ensures OneLine(SiteLines(sites, entries)[k]) {
      LineParses(sites[k], entries);
    }
  }

  lemma LinesOfRender(header: string, sites: seq<Site>, entries: map<Site, Entry>)
    requires Comments(header) && Rendered(sites, entries)
    ensures Lines(Render(header, sites, entries)) == Lines(header[..|header| - 1]) + (SiteLines(sites, entries) + [[]])
  {
    hide Lines, JoinLines, Rendered, OneLine, ParseLine, SiteLine, SiteLines;
    var h, ls := header[..|header| - 1], SiteLines(sites, entries);
    var body := JoinLines(ls) + if sites == [] then [] else "\n";
    SiteLinesAreOneLine(sites, entries);
    SiteLinesAt(sites, entries);
    assert header == h + "\n";
    assert Render(header, sites, entries) == h + "\n" + body;
    hide Render, Comments;
    LinesAppend(h, body);
    if sites == [] {
      NoLines();
      NoJoined();
      assert body == [];
    } else {
      LinesOfJoined(ls);
    }
  }

  lemma NoJoined()
    ensures JoinLines([]) == []
  {
  }

  lemma {:induction false} SkippedLines(skipped: seq<string>, lines: seq<string>, known: map<Site, Entry>)
    requires forall l :: l in skipped ==> ParseLine(l) == Skip
    ensures ReadLines(skipped + lines, known) == ReadLines(lines, known)
  {
    hide ParseLine, ReadLines;
    if skipped == [] {
      assert skipped + lines == lines;
    } else {
      assert skipped[0] in skipped;
      ReadOne(skipped + lines, known);
      assert (skipped + lines)[1..] == skipped[1..] + lines;
      SkippedLines(skipped[1..], lines, known);
    }
  }

  /** What reading back the printed sites gives: their classifications, and their reasons with
      white space normalised. */
  function Kept(sites: seq<Site>, entries: map<Site, Entry>): map<Site, Entry> {
    map s | s in sites :: KeptEntry(s, entries)
  }

  ghost predicate Distinct(sites: seq<Site>) {
    forall i, j :: 0 <= i < j < |sites| ==> sites[i] != sites[j]
  }

  lemma BlankIsSkipped()
    ensures ParseLine([]) == Skip
  {
  }

  lemma {:induction false} ReadSiteLines(sites: seq<Site>, entries: map<Site, Entry>, known: map<Site, Entry>)
    requires Rendered(sites, entries)
    ensures var r := ReadLines(SiteLines(sites, entries) + [[]], known);
            && (r.Ok? <==> Distinct(sites) && forall s :: s in sites ==> s !in known)
            && (r.Ok? ==> r.entries == known + Kept(sites, entries))
  {
    hide ParseLine, ReadLines, NeatReview, SiteLine, KeptEntry, Distinct;
    var ls := SiteLines(sites, entries) + [[]];
    ReadOne(ls, known);
    if sites == [] {
      BlankIsSkipped();
      ReadNone(known);
      assert ls[1..] == [];
      assert known + Kept(sites, entries) == known;
      NoneDistinct();
    } else {
      var s, rest := sites[0], sites[1..];
      assert s in sites && ls[0] == SiteLine(s, entries);
      LineParses(s, entries);
      assert ls[1..] == SiteLines(rest, entries) + [[]];
      var known' := known[s := KeptEntry(s, entries)];
      ReadSiteLines(rest, entries, known');
      DistinctTail(sites);
      MergeFirst(sites, entries, known);
    }
  }

  lemma NoneDistinct()
    ensures Distinct([])
  {
  }

  lemma MergeFirst(sites: seq<Site>, entries: map<Site, Entry>, known: map<Site, Entry>)
    requires sites != []
    ensures known[sites[0] := KeptEntry(sites[0], entries)] + Kept(sites[1..], entries) == known + Kept(sites, entries)
  {
    hide KeptEntry;
    assert forall s :: s in sites <==> s == sites[0] || s in sites[1..];
  }

  lemma DistinctTail(sites: seq<Site>)
    requires sites != []
    ensures Distinct(sites) <==> Distinct(sites[1..]) && sites[0] !in sites[1..]
    ensures forall s :: s in sites <==> s == sites[0] || s in sites[1..]
  {
    if Distinct(sites[1..]) && sites[0] !in sites[1..] {
      forall i, j | 0 <= i < j < |sites| ensures sites[i] != sites[j] {
        assert sites[j] == sites[1..][j - 1];
        assert i > 0 ==> sites[i] == sites[1..][i - 1];
      }
    }
    if Distinct(sites) {
      assert forall k :: 0 <= k < |sites| - 1 ==> sites[1..][k] == sites[k + 1];
    }
  }

  lemma ReadOfRender(header: string, sites: seq<Site>, entries: map<Site, Entry>)
    requires Comments(header) && Rendered(sites, entries)
    ensures var r := Read(Render(header, sites, entries));
            && (r.Ok? <==> Distinct(sites))
            && (r.Ok? ==> r.entries == Kept(sites, entries))
  {
    hide ParseLine, ReadLines, Rendered, Lines, Render, SiteLines, Kept, Distinct;
    LinesOfRender(header, sites, entries);
    SkippedLines(Lines(header[..|header| - 1]), SiteLines(sites, entries) + [[]], map[]);
    ReadSiteLines(sites, entries, map[]);
    assert map[] + Kept(sites, entries) == Kept(sites, entries);
  }

  /** Parsing the printed manifest gives back every review exactly when the sites are distinct
      and their fields and classifications are neat. */
  lemma RoundTripIff(header: string, sites: seq<Site>, entries: map<Site, Entry>)
    requires Comments(header)
    ensures Read(Render(header, sites, entries)) == Ok(Kept(sites, entries))
            <==> Distinct(sites) && Rendered(sites, entries)
  {
    hide ParseLine, ReadLines, Lines, Render, NeatSite, Neat, Reviewed, Normalise, Comments, Read, Distinct;
    var text := Render(header, sites, entries);
    if Rendered(sites, entries) {
      ReadOfRender(header, sites, entries);
    } else {
      ReadIsNeat(text);
      var s :| s in sites && !NeatReview(s, entries);
      KeptIsReviewed(s, entries);
      assert s in Kept(sites, entries);
    }
  }

  lemma UnclassifiedIsNeat()
    ensures Neat(UNCLASSIFIED)
  {
    WordIsNeat(UNCLASSIFIED);
  }

  lemma {:induction false} SameLines(sites: seq<Site>, a: map<Site, Entry>, b: map<Site, Entry>)
    requires forall s :: s in sites ==> SiteLine(s, a) == SiteLine(s, b)
    ensures SiteLines(sites, a) == SiteLines(sites, b)
  {
    hide SiteLine;
    if sites != [] { SameLines(sites[1..], a, b); }
  }

  lemma KeptPrintsAlike(s: Site, entries: map<Site, Entry>, kept: map<Site, Entry>)
    requires s in kept && kept[s] == KeptEntry(s, entries)
    ensures SiteLine(s, kept) == SiteLine(s, entries)
  {
    KeptIsReviewed(s, entries);
    NormaliseIsNeat(Reviewed(s, entries).reason);
    hide JoinFields, Normalise, KeptEntry;
  }

  /** Whatever reviews a manifest held, writing it makes it current: reading it back and
      printing again gives the same text, the listed sites and no others, each with the
      classification it had, or none. */
  lemma WriteIsStable(header: string, sites: seq<Site>, before: string)
    requires Comments(header) && Distinct(sites) && forall s :: s in sites ==> NeatSite(s)
    requires Read(before).Ok?
    ensures var written := Render(header, sites, Read(before).entries);
            && Read(written) == Ok(Kept(sites, Read(before).entries))
            && Render(header, sites, Read(written).entries) == written
  {
    hide ParseLine, ReadLines, Lines, NeatSite, Neat, Comments, Read, SiteLine, KeptEntry, Distinct;
    var entries := Read(before).entries;
    var kept := Kept(sites, entries);
    ReadIsNeat(before);
    UnclassifiedIsNeat();
    assert Rendered(sites, entries);
    ReadOfRender(header, sites, entries);
    forall s | s in sites ensures SiteLine(s, kept) == SiteLine(s, entries) {
      KeptPrintsAlike(s, entries, kept);
    }
    SameLines(sites, kept, entries);
  }

  /** A new site is marked `unclassified`, which review rejects, and no reviewed site is. */
  lemma NewSitesAreMarked(header: string, sites: seq<Site>, before: string, s: Site)
    requires Comments(header) && Distinct(sites) && (forall x :: x in sites ==> NeatSite(x))
    requires Read(before).Ok? && s in sites
    ensures var entries, written := Read(before).entries, Read(Render(header, sites, Read(before).entries));
            && written.Ok? && s in written.entries
            && (written.entries[s].classification == "unclassified"
                <==> s !in entries || entries[s].classification == "unclassified")
            && (s in entries ==> written.entries[s].classification == entries[s].classification)
  {
    hide Read, Render, Comments, NeatSite, Distinct, Normalise;
    WriteIsStable(header, sites, before);
  }

  /** A site with two spaces together in a field is printed and not read back. */
  lemma DoubleSpaceIsNotReadBack(header: string, site: Site, entries: map<Site, Entry>, k: nat)
    requires Comments(header) && GapAt(site.file, k)
    ensures Read(Render(header, [site], entries)) != Ok(Kept([site], entries))
  {
    hide ParseLine, ReadLines, Lines, Read, Render, Reviewed, Normalise, GapAt, Comments;
    RoundTripIff(header, [site], entries);
    assert site in [site];
  }

  /** Reordering code rewrites nothing: the printed manifest of the reordered tree is the same. */
  lemma ReorderingKeepsManifest(header: string, entries: map<Site, Entry>, lt: (Site, Site) -> bool,
      a: seq<(string, seq<Raw>)>, b: seq<(string, seq<Raw>)>, sortedA: seq<Site>, sortedB: seq<Site>)
    requires Reordered(a, b) && StrictOrder(lt) && Sorted(lt, sortedA) && Sorted(lt, sortedB)
    requires multiset(sortedA) == multiset(Collect(a)) && multiset(sortedB) == multiset(Collect(b))
    ensures Render(header, sortedA, entries) == Render(header, sortedB, entries)
  {
    ReorderingKeepsInventory(lt, a, b, sortedA, sortedB);
  }
}
