/**
 The text layer of the site manifests: lines, fields set apart by two or more spaces,
 words and decimal numbers, with the round trips the manifests rely on.
 */
module ManifestText {

  datatype Option<T> = None | Some(value: T)

  /** White space as Python's `str.split`, `str.strip` and `\s` know it. */
  predicate IsSpace(c: char) {
    var n := c as int;
    || 9 <= n <= 13 || 28 <= n <= 32 || n == 0x85 || n == 0xa0 || n == 0x1680
    || 0x2000 <= n <= 0x200a || n == 0x2028 || n == 0x2029 || n == 0x202f || n == 0x205f || n == 0x3000
  }

  /** Where `str.splitlines` ends a line. A pair of them leaves a blank line between. */
  predicate IsBreak(c: char)
    ensures IsBreak(c) ==> IsSpace(c)
  {
    var n := c as int;
    10 <= n <= 13 || 28 <= n <= 30 || n == 0x85 || n == 0x2028 || n == 0x2029
  }

  lemma CharacterFacts()
    ensures IsSpace(' ') && !IsBreak(' ') && IsBreak('\n')
    ensures !IsSpace('#') && !IsSpace('-') && forall c :: '0' <= c <= '9' ==> !IsSpace(c)
  {
  }

  /** Tabulators, ends of lines and pages, the file, group, record and unit separators, and the spaces
      of Unicode. */
  lemma SpaceTable(c: char)
    ensures IsSpace(c)
       <==> c in {'\t', '\n', '\U{B}', '\U{C}', '\r', '\U{1C}', '\U{1D}', '\U{1E}', '\U{1F}', ' ', '\U{85}', '\U{A0}',
                  '\U{1680}', '\U{2000}', '\U{2001}', '\U{2002}', '\U{2003}', '\U{2004}', '\U{2005}', '\U{2006}',
                  '\U{2007}', '\U{2008}', '\U{2009}', '\U{200A}', '\U{2028}', '\U{2029}', '\U{202F}', '\U{205F}',
                  '\U{3000}'}
    ensures IsBreak(c)
       <==> c in {'\n', '\U{B}', '\U{C}', '\r', '\U{1C}', '\U{1D}', '\U{1E}', '\U{85}', '\U{2028}', '\U{2029}'}
  {
  }

  // ----- lines -----

  predicate OneLine(l: string) {
    forall k :: 0 <= k < |l| ==> !IsBreak(l[k])
  }

  function Lines(s: string): (ls: seq<string>)
    ensures ls != []
  {
    if s == [] then [[]]
    else if IsBreak(s[0]) then [[]] + Lines(s[1..])
    else
      var rest := Lines(s[1..]);
      [[s[0]] + rest[0]] + rest[1..]
  }

  lemma {:induction false} LinesAreOneLine(s: string)
    ensures forall l :: l in Lines(s) ==> OneLine(l)
  {
    if s != [] {
      LinesAreOneLine(s[1..]);
      assert Lines(s[1..])[0] in Lines(s[1..]);
    }
  }

  lemma LinesCons(c: char, s: string)
    ensures Lines([c] + s) == if IsBreak(c) then [[]] + Lines(s) else [[c] + Lines(s)[0]] + Lines(s)[1..]
  {
    hide IsBreak;
    assert ([c] + s)[1..] == s;
  }

  lemma {:induction false} LinesAppend(a: string, b: string)
    ensures Lines(a + "\n" + b) == Lines(a) + Lines(b)
  {
    CharacterFacts();
    if a == [] {
      LinesCons('\n', b);
      assert a + "\n" + b == ['\n'] + b;
      assert Lines(a) == [[]];
    } else {
      hide *;
      var t := a[1..] + "\n" + b;
      LinesAppend(a[1..], b);
      LinesCons(a[0], t);
      LinesCons(a[0], a[1..]);
      Cons(a);
      Cons(a + "\n" + b);
      assert (a + "\n" + b)[1..] == t;
      FirstOfBoth(Lines(a[1..]), Lines(b));
      if !IsBreak(a[0]) { Reassociate([[a[0]] + Lines(a[1..])[0]], Lines(a[1..])[1..], Lines(b)); }
      else { Reassociate([[]], Lines(a[1..]), Lines(b)); }
    }
  }

  lemma Cons(s: string)
    requires s != []
    ensures s == [s[0]] + s[1..]
  {
  }

  lemma FirstOfBoth(x: seq<string>, y: seq<string>)
    requires x != []
    ensures (x + y)[0] == x[0] && (x + y)[1..] == x[1..] + y
  {
  }

  lemma Reassociate(x: seq<string>, y: seq<string>, z: seq<string>)
    ensures x + (y + z) == (x + y) + z
  {
  }

  lemma {:induction false} SingleLine(a: string)
    requires OneLine(a)
    ensures Lines(a) == [a]
  {
    hide IsSpace, IsBreak;
    CharacterFacts();
    if a != [] {
      SingleLine(a[1..]);
      assert [a[0]] + a[1..] == a;
    }
  }

  // ----- trimming -----

  function SkipSpaces(s: string): (t: string)
    ensures |t| <= |s| && t == s[|s| - |t|..] && (t != [] ==> !IsSpace(t[0]))
    ensures forall k :: 0 <= k < |s| - |t| ==> IsSpace(s[k])
  {
    if s != [] && IsSpace(s[0]) then SkipSpaces(s[1..]) else s
  }

  function TrimEnd(s: string): (t: string)
    ensures t <= s && (t != [] ==> !IsSpace(t[|t| - 1]))
  {
    if s != [] && IsSpace(s[|s| - 1]) then TrimEnd(s[..|s| - 1]) else s
  }

  function Strip(s: string): (t: string)
    ensures t != [] ==> Trimmed(t)
    ensures forall c :: c in t ==> c in s
  {
    TrimEnd(SkipSpaces(s))
  }

  predicate Trimmed(s: string) {
    s != [] && !IsSpace(s[0]) && !IsSpace(s[|s| - 1])
  }

  // ----- fields -----

  /** Two consecutive spaces. */
  predicate GapAt(s: string, k: nat) {
    k + 1 < |s| && IsSpace(s[k]) && IsSpace(s[k + 1])
  }

  /** Where two consecutive spaces first start, or the length. */
  function FirstGap(s: string): (i: nat)
    ensures i <= |s| && (i < |s| ==> GapAt(s, i)) && forall k: nat :: k < i ==> !GapAt(s, k)
  {
    if s == [] || GapAt(s, 0) then 0
    else
      assert forall k: nat :: GapAt(s[1..], k) == GapAt(s, k + 1);
      assert forall k: nat :: 0 < k ==> GapAt(s, k) == GapAt(s[1..], k - 1);
      1 + FirstGap(s[1..])
  }

  /** Splits at runs of two or more spaces, at most `cuts` times. */
  function Fields(s: string, cuts: nat): seq<string> {
    var i := FirstGap(s);
    if cuts == 0 || i == |s| then [s] else [s[..i]] + Fields(SkipSpaces(s[i..]), cuts - 1)
  }

  /** A field that survives printing and parsing: on one line, no space at its ends, no two
      spaces together. */
  ghost predicate Neat(f: string) {
    && Trimmed(f)
    && (forall k: nat :: !GapAt(f, k))
    && OneLine(f)
  }

  function JoinFields(fs: seq<string>): string
    requires fs != []
  {
    if |fs| == 1 then fs[0] else fs[0] + "  " + JoinFields(fs[1..])
  }

  lemma FirstGapIs(s: string, i: nat)
    requires i <= |s| && (i < |s| ==> GapAt(s, i)) && forall k: nat :: k < i ==> !GapAt(s, k)
    ensures FirstGap(s) == i
  {
    hide *;
    var g := FirstGap(s);
    assert GapAt(s, g) || g == |s|;
    assert GapAt(s, i) || i == |s|;
  }

  lemma JoinIsTrimmed(fs: seq<string>)
    requires fs != [] && forall f :: f in fs ==> Neat(f)
    ensures Trimmed(JoinFields(fs)) && JoinFields(fs)[0] == fs[0][0]
    ensures OneLine(JoinFields(fs))
  {
    hide IsSpace, IsBreak;
    CharacterFacts();
    if |fs| > 1 {
      JoinIsTrimmed(fs[1..]);
      var s, rest := JoinFields(fs), JoinFields(fs[1..]);
      assert s == fs[0] + "  " + rest && fs[0] in fs;
      assert s[|s| - 1] == rest[|rest| - 1];
    } else {
      assert fs[0] in fs;
    }
  }

  lemma {:induction false} SkipsGap(t: string)
    requires Trimmed(t)
    ensures SkipSpaces("  " + t) == t
  {
    hide IsSpace, IsBreak;
    CharacterFacts();
    var s := "  " + t;
    assert s[1..] == " " + t && s[1..][1..] == t;
    assert SkipSpaces(s[1..]) == SkipSpaces(t);
  }

  /** The first field of a joined line, and what follows the gap. */
  lemma FieldsStep(f: string, t: string, cuts: nat)
    requires Neat(f) && Trimmed(t) && cuts > 0
    ensures Fields(f + "  " + t, cuts) == [f] + Fields(t, cuts - 1)
  {
    hide IsSpace, IsBreak;
    CharacterFacts();
    var s := f + "  " + t;
    forall k: nat | k < |f| ensures !GapAt(s, k) {
      assert !GapAt(f, k);
    }
    FirstGapIs(s, |f|);
    assert s[..|f|] == f && s[|f|..] == "  " + t;
    SkipsGap(t);
  }

  lemma {:induction false} FieldsRoundTrip(fs: seq<string>, cuts: nat)
    requires 1 <= |fs| <= cuts + 1 && forall f :: f in fs ==> Neat(f)
    ensures Fields(JoinFields(fs), cuts) == fs
  {
    hide Neat, Trimmed, Fields;
    assert fs[0] in fs;
    if |fs| == 1 {
      NoGaps(fs[0], cuts);
    } else {
      JoinIsTrimmed(fs[1..]);
      FieldsStep(fs[0], JoinFields(fs[1..]), cuts);
      FieldsRoundTrip(fs[1..], cuts - 1);
    }
  }

  lemma NoGaps(f: string, cuts: nat)
    requires Neat(f)
    ensures Fields(f, cuts) == [f]
  {
    FirstGapIs(f, |f|);
  }

  lemma BeforeGap(s: string)
    requires Trimmed(s) && OneLine(s) && FirstGap(s) < |s|
    ensures Neat(s[..FirstGap(s)]) && s[..FirstGap(s)][..1] == s[..1]
  {
    hide IsSpace, IsBreak;
    var i := FirstGap(s);
    assert !IsSpace(s[0]) && IsSpace(s[i]);
    assert !GapAt(s, i - 1);
    forall k: nat ensures !GapAt(s[..i], k) {
      assert k < i ==> !GapAt(s, k);
    }
  }

  lemma AfterGap(s: string, i: nat)
    requires Trimmed(s) && OneLine(s) && i < |s|
    ensures Trimmed(SkipSpaces(s[i..])) && OneLine(SkipSpaces(s[i..]))
  {
    hide IsSpace, IsBreak, SkipSpaces;
    var u := s[i..];
    var t := SkipSpaces(u);
    assert !IsSpace(u[|u| - 1]);
    assert t == u[|u| - |t|..];
    assert |t| > 0;
    assert t[|t| - 1] == u[|u| - 1];
    forall k | 0 <= k < |t| ensures !IsBreak(t[k]) {
      assert t[k] == s[k + |s| - |t|];
    }
  }

  lemma FieldsCut(s: string, cuts: nat)
    ensures Fields(s, cuts) ==
              if cuts == 0 || FirstGap(s) == |s| then [s]
              else [s[..FirstGap(s)]] + Fields(SkipSpaces(s[FirstGap(s)..]), cuts - 1)
  {
    hide SkipSpaces, FirstGap;
  }

  /** Fields read from a trimmed line are neat, all but the one left over after the last cut. */
  lemma {:induction false} FieldsAreNeat(s: string, cuts: nat)
    requires Trimmed(s) && OneLine(s)
    ensures 1 <= |Fields(s, cuts)| <= cuts + 1
    ensures forall k :: 0 <= k < |Fields(s, cuts)| && k < cuts ==> Neat(Fields(s, cuts)[k])
    ensures Fields(s, cuts)[0][..1] == s[..1]
  {
    hide *;
    FieldsCut(s, cuts);
    var i := FirstGap(s);
    if cuts > 0 {
      if i == |s| {
        WholeIsNeat(s);
      } else {
        BeforeGap(s);
        AfterGap(s, i);
        FieldsAreNeat(SkipSpaces(s[i..]), cuts - 1);
      }
    }
  }

  lemma WholeIsNeat(s: string)
    requires Trimmed(s) && OneLine(s) && FirstGap(s) == |s|
    ensures Neat(s)
  {
  }

  // ----- words -----

  function WordLength(s: string): (n: nat)
    ensures n <= |s| && (forall k :: 0 <= k < n ==> !IsSpace(s[k])) && (n < |s| ==> IsSpace(s[n]))
  {
    if s != [] && !IsSpace(s[0]) then 1 + WordLength(s[1..]) else 0
  }

  function Words(s: string): seq<string>
    decreases |s|
  {
    var t := SkipSpaces(s);
    if t == [] then [] else var n := WordLength(t); [t[..n]] + Words(t[n..])
  }

  predicate IsWord(w: string) {
    w != [] && forall c :: c in w ==> !IsSpace(c)
  }

  function JoinWords(ws: seq<string>): string {
    if ws == [] then [] else if |ws| == 1 then ws[0] else ws[0] + " " + JoinWords(ws[1..])
  }

  function Normalise(s: string): string {
    JoinWords(Words(s))
  }

  lemma {:induction false} WordsAreWords(s: string)
    ensures forall w :: w in Words(s) ==> IsWord(w)
    decreases |s|
  {
    hide IsSpace, IsWord;
    var t := SkipSpaces(s);
    if t != [] {
      var n := WordLength(t);
      FirstWord(t);
      WordsAreWords(t[n..]);
      assert Words(s) == [t[..n]] + Words(t[n..]);
    }
  }

  lemma FirstWord(t: string)
    requires t != [] && !IsSpace(t[0])
    ensures IsWord(t[..WordLength(t)])
  {
    hide IsSpace;
  }

  lemma {:induction false} WordLengthIs(w: string, rest: string)
    requires IsWord(w) || w == []
    requires rest != [] ==> IsSpace(rest[0])
    ensures WordLength(w + rest) == |w|
  {
    hide IsSpace;
    if w == [] {
      assert w + rest == rest;
    } else {
      assert w[0] in w;
      assert (w + rest)[1..] == w[1..] + rest;
      WordLengthIs(w[1..], rest);
    }
  }

  lemma WordsStep(w: string, rest: string)
    requires IsWord(w) && (rest != [] ==> IsSpace(rest[0]))
    ensures Words(w + rest) == [w] + Words(rest)
  {
    hide IsSpace;
    assert w[0] in w;
    var s := w + rest;
    assert SkipSpaces(s) == s;
    WordLengthIs(w, rest);
    assert s[..|w|] == w && s[|w|..] == rest;
  }

  lemma NoWords()
    ensures Words([]) == []
  {
  }

  predicate AllSpace(s: string) {
    forall c :: c in s ==> IsSpace(c)
  }

  /** The gaps with the words between them. */
  ghost function Interleaved(gaps: seq<string>, ws: seq<string>): string
    requires |gaps| == |ws| + 1
  {
    if ws == [] then gaps[0] else gaps[0] + ws[0] + Interleaved(gaps[1..], ws[1..])
  }

  /** All gaps are white space, and between two words there is some. */
  ghost predicate Separates(gaps: seq<string>, ws: seq<string>) {
    && |gaps| == |ws| + 1
    && forall i :: 0 <= i < |gaps| ==> AllSpace(gaps[i]) && (0 < i < |gaps| - 1 ==> gaps[i] != [])
  }

  /** The words are what white space leaves between: in order, and nothing else. */
  lemma {:induction false} WordsBetweenSpaces(s: string) returns (gaps: seq<string>)
    ensures Separates(gaps, Words(s)) && s == Interleaved(gaps, Words(s))
    ensures gaps[0] == FirstSpaces(s)
    decreases |s|
  {
    hide Interleaved, Separates, AllSpace, SkipSpaces, Words, IsSpace, WordLength, FirstSpaces;
    var t := SkipSpaces(s);
    SpacesFirst(s);
    UnfoldWords(s);
    if t == [] {
      gaps := [s];
      NoWordsBetween(s);
    } else {
      var n := WordLength(t);
      var rest := WordsBetweenSpaces(t[n..]);
      SpacesFirst(t[n..]);
      UnfoldWords(t[n..]);
      gaps := [FirstSpaces(s)] + rest;
      OneWordBetween(FirstSpaces(s), t[..n], t[n..], rest, Words(t[n..]));
      assert t == t[..n] + t[n..];
    }
  }

  ghost function FirstSpaces(s: string): string {
    s[..|s| - |SkipSpaces(s)|]
  }

  lemma SpacesFirst(s: string)
    ensures AllSpace(FirstSpaces(s)) && s == FirstSpaces(s) + SkipSpaces(s)
    ensures SkipSpaces(s) == [] ==> FirstSpaces(s) == s
    ensures s != [] && IsSpace(s[0]) ==> FirstSpaces(s) != []
  {
    hide IsSpace;
  }

  lemma UnfoldWords(s: string)
    ensures var t := SkipSpaces(s);
            Words(s) == if t == [] then [] else [t[..WordLength(t)]] + Words(t[WordLength(t)..])
    ensures s == [] ==> Words(s) == []
  {
    hide IsSpace;
  }

  lemma NoWordsBetween(gap: string)
    requires AllSpace(gap)
    ensures Separates([gap], []) && Interleaved([gap], []) == gap
  {
  }

  lemma OneWordBetween(gap: string, w: string, s: string, gaps: seq<string>, ws: seq<string>)
    requires Separates(gaps, ws) && s == Interleaved(gaps, ws) && AllSpace(gap) && (ws != [] ==> gaps[0] != [])
    ensures Separates([gap] + gaps, [w] + ws) && Interleaved([gap] + gaps, [w] + ws) == gap + (w + s)
  {
    hide AllSpace;
    assert ([gap] + gaps)[1..] == gaps && ([w] + ws)[1..] == ws;
    assert gap + w + s == gap + (w + s);
  }

  lemma WordsSkipSpace(s: string)
    ensures Words(" " + s) == Words(s)
  {
    hide IsSpace;
    CharacterFacts();
    assert (" " + s)[1..] == s;
  }

  lemma {:induction false} WordsRoundTrip(ws: seq<string>)
    requires forall w :: w in ws ==> IsWord(w)
    ensures Words(JoinWords(ws)) == ws
  {
    hide IsSpace, IsWord, Words;
    if ws == [] {
      NoWords();
    } else {
      assert ws[0] in ws;
      WordsRoundTrip(ws[1..]);
      if |ws| == 1 {
        WordsStep(ws[0], []);
        assert ws[0] + [] == ws[0];
      } else {
        CharacterFacts();
        WordsStep(ws[0], " " + JoinWords(ws[1..]));
        WordsSkipSpace(JoinWords(ws[1..]));
        assert ws[0] + (" " + JoinWords(ws[1..])) == JoinWords(ws);
      }
    }
  }

  lemma WordIsNeat(w: string)
    requires IsWord(w)
    ensures Neat(w)
  {
    hide IsSpace, IsBreak;
    forall k | 0 <= k < |w| ensures !IsSpace(w[k]) {
      assert w[k] in w;
    }
  }

  /** A word, one space, and a neat text make a neat text. */
  lemma NeatStep(w: string, rest: string)
    requires IsWord(w) && Neat(rest)
    ensures Neat(w + " " + rest)
  {
    hide IsSpace, IsBreak;
    CharacterFacts();
    WordIsNeat(w);
    var s := w + " " + rest;
    assert s[|s| - 1] == rest[|rest| - 1];
    forall k: nat ensures !GapAt(s, k) {
      if k < |w| { assert s[k] in w; }
      else if k > |w| { assert !GapAt(rest, k - |w| - 1); }
    }
  }

  lemma {:induction false} JoinedWordsAreNeat(ws: seq<string>)
    requires ws != [] && forall w :: w in ws ==> IsWord(w)
    ensures Neat(JoinWords(ws))
  {
    hide IsWord, Neat;
    assert ws[0] in ws;
    if |ws| == 1 {
      WordIsNeat(ws[0]);
    } else {
      JoinedWordsAreNeat(ws[1..]);
      NeatStep(ws[0], JoinWords(ws[1..]));
    }
  }

  /** A normalised reason is empty or a neat field, and normalising it again changes nothing. */
  lemma NormaliseIsNeat(s: string)
    ensures Normalise(s) == [] || Neat(Normalise(s))
    ensures Normalise(Normalise(s)) == Normalise(s)
  {
    hide IsWord, Neat, Words;
    WordsAreWords(s);
    WordsRoundTrip(Words(s));
    if Words(s) != [] { JoinedWordsAreNeat(Words(s)); }
  }

  // ----- numbers -----

  predicate IsDigit(c: char) { '0' <= c <= '9' }

  function Digits(n: nat): (s: string)
    ensures s != [] && (forall c :: c in s ==> IsDigit(c)) && (|s| > 1 ==> s[0] != '0')
    ensures n > 0 ==> s[0] != '0'
  {
    var d := ('0' as int + n % 10) as char;
    if n < 10 then [d] else Digits(n / 10) + [d]
  }

  function Decimal(n: int): string {
    if n < 0 then "-" + Digits(-n) else Digits(n)
  }

  /** Decimal digits, with single underscores allowed between them. */
  function ParseDigits(s: string): Option<nat> {
    if s == [] || !IsDigit(s[|s| - 1]) then None
    else
      var d := s[|s| - 1] as int - '0' as int;
      var front := s[..|s| - 1];
      if front == [] then Some(d)
      else
        match ParseDigits(if front[|front| - 1] == '_' then front[..|front| - 1] else front)
        case None => None
        case Some(m) => Some(10 * m + d)
  }

  function Signed(sign: int, digits: Option<nat>): Option<int> {
    match digits
    case None => None
    case Some(n) => Some(sign * n)
  }

  /** Python's `int` on ASCII text. */
  function ParseInt(s: string): Option<int> {
    var t := Strip(s);
    if t != [] && t[0] == '-' then Signed(-1, ParseDigits(t[1..]))
    else if t != [] && t[0] == '+' then Signed(1, ParseDigits(t[1..]))
    else Signed(1, ParseDigits(t))
  }

  lemma {:induction false} DigitsRoundTrip(n: nat)
    ensures ParseDigits(Digits(n)) == Some(n)
  {
    var s := Digits(n);
    if n >= 10 {
      DigitsRoundTrip(n / 10);
      var front := Digits(n / 10);
      assert s[..|s| - 1] == front;
      assert front[|front| - 1] in front;
    }
  }

  /** An underscore between digits says nothing. */
  lemma {:induction false} UnderscoreIsSkipped(a: string, b: string)
    requires a != [] && IsDigit(a[|a| - 1]) && b != [] && forall c :: c in b ==> IsDigit(c)
    ensures ParseDigits(a + "_" + b) == ParseDigits(a + b)
    decreases |b|
  {
    var n := |b| - 1;
    assert b[0] in b && b[n] in b;
    assert (a + "_" + b)[..|a| + n + 1] == a + "_" + b[..n] && (a + b)[..|a| + n] == a + b[..n];
    if n == 0 {
      assert a + "_" + b[..n] == a + "_" && a + b[..n] == a;
      assert (a + "_")[..|a|] == a;
    } else {
      assert (a + "_" + b[..n])[|a| + n] == b[n - 1] && b[n - 1] in b;
      assert (a + b[..n])[|a| + n - 1] == b[n - 1];
      UnderscoreIsSkipped(a, b[..n]);
    }
  }

  /** A number may be written with a plus sign. */
  lemma PlusIsSkipped(n: nat)
    ensures ParseInt("+" + Digits(n)) == Some(n)
  {
    hide IsSpace, IsBreak, Digits, ParseDigits;
    CharacterFacts();
    var s, ds := "+" + Digits(n), Digits(n);
    assert !IsSpace('+') by { SpaceTable('+'); }
    assert s[|s| - 1] == ds[|ds| - 1] && ds[|ds| - 1] in ds;
    StripsNothing(s);
    assert s[1..] == ds;
    DigitsRoundTrip(n);
  }

  lemma {:induction false} StripsNothing(s: string)
    requires Trimmed(s)
    ensures Strip(s) == s
  {
    hide IsSpace, IsBreak;
    CharacterFacts();
  }

  /** Digits after an optional sign or hash are trimmed and free of spaces. */
  lemma DigitsAreWord(p: string, ds: string)
    requires ds != [] && (forall c :: c in ds ==> IsDigit(c)) && (forall c :: c in p ==> c == '-' || c == '#')
    ensures IsWord(p + ds)
  {
    hide IsSpace;
    CharacterFacts();
  }

  lemma WordIsTrimmed(w: string)
    requires IsWord(w)
    ensures Strip(w) == w
  {
    WordIsNeat(w);
    StripsNothing(w);
  }

  lemma DecimalRoundTrip(n: int)
    ensures ParseInt(Decimal(n)) == Some(n) && Neat("#" + Decimal(n))
  {
    hide IsWord, Neat, ParseDigits, Strip, Digits;
    var m := if n < 0 then -n else n;
    var ds, s := Digits(m), Decimal(n);
    DigitsRoundTrip(m);
    DigitsAreWord(if n < 0 then "-" else "", ds);
    DigitsAreWord(if n < 0 then "#-" else "#", ds);
    assert s == (if n < 0 then "-" else "") + ds;
    assert "#" + s == (if n < 0 then "#-" else "#") + ds;
    WordIsTrimmed(s);
    WordIsNeat("#" + s);
    assert ds[0] in ds;
    assert n < 0 ==> s[1..] == ds && s[0] == '-';
    assert n >= 0 ==> s == ds && IsDigit(s[0]);
  }
}
