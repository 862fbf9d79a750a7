/**
 Dotted module names: the string-level longest-prefix renaming of the codemod, and
 its agreement with longest-prefix renaming on sequences of components.
 */
module DottedNames {

  datatype Option<+T> = None | Some(value: T)

  /** A dotted name as its components. */
  type Name = seq<string>

  function Split(s: string): (parts: seq<string>)
    ensures parts != []
  {
    if s == "" then [""]
    else if s[0] == '.' then [""] + Split(s[1..])
    else
      var rest := Split(s[1..]);
      [[s[0]] + rest[0]] + rest[1..]
  }

  function Join(parts: seq<string>): string {
    if parts == [] then ""
    else if |parts| == 1 then parts[0]
    else parts[0] + "." + Join(parts[1..])
  }

  lemma JoinCons(c: char, parts: seq<string>)
    requires parts != []
    ensures Join([[c] + parts[0]] + parts[1..]) == [c] + Join(parts)
  {
    var more := [[c] + parts[0]] + parts[1..];
    assert more[1..] == parts[1..];
    if |parts| > 1 {
      assert [c] + (parts[0] + "." + Join(parts[1..])) == ([c] + parts[0]) + "." + Join(parts[1..]);
    }
  }

  lemma {:induction false} JoinSplit(s: string)
    ensures Join(Split(s)) == s
  {
    if s != "" {
      JoinSplit(s[1..]);
      var rest := Split(s[1..]);
      if s[0] == '.' {
        assert ([""] + rest)[1..] == rest;
        assert s == "." + s[1..];
      } else {
        var parts := [[s[0]] + rest[0]] + rest[1..];
        assert parts[1..] == rest[1..];
        assert s == [s[0]] + s[1..];
        JoinCons(s[0], rest);
      }
    }
  }

  /** Splitting one more character in front of `s`. */
  lemma SplitCons(c: char, s: string)
    ensures Split([c] + s) == if c == '.' then [""] + Split(s) else [[c] + Split(s)[0]] + Split(s)[1..]
  {
    assert ([c] + s)[1..] == s;
  }

  lemma {:induction false} SplitDot(a: string, b: string)
    ensures Split(a + "." + b) == Split(a) + Split(b)
  {
    hide Split;
    SplitNothing();
    if a == "" {
      assert a + "." + b == ['.'] + b;
      SplitCons('.', b);
    } else {
      var c, rest := a[0], a[1..];
      assert a == [c] + rest && a + "." + b == [c] + (rest + "." + b);
      SplitDot(rest, b);
      SplitCons(c, rest);
      SplitCons(c, rest + "." + b);
      FirstOfBoth(Split(rest), Split(b));
      if c == '.' {
        Associate([""], Split(rest), Split(b));
      } else {
        Associate([[c] + Split(rest)[0]], Split(rest)[1..], Split(b));
      }
    }
  }

  lemma SplitNothing()
    ensures Split("") == [""]
  {
  }

  lemma FirstOfBoth(x: seq<string>, y: seq<string>)
    requires x != []
    ensures (x + y)[0] == x[0] && (x + y)[1..] == x[1..] + y
  {
  }

  lemma Associate(x: seq<string>, y: seq<string>, z: seq<string>)
    ensures x + (y + z) == (x + y) + z
  {
  }

  lemma {:induction false} JoinAppend(a: seq<string>, b: seq<string>)
    requires a != [] && b != []
    ensures Join(a + b) == Join(a) + "." + Join(b)
    decreases |a|
  {
    if |a| == 1 {
      assert (a + b)[1..] == b;
    } else {
      assert (a + b)[1..] == a[1..] + b;
      JoinAppend(a[1..], b);
      assert a[0] + "." + (Join(a[1..]) + "." + Join(b)) == (a[0] + "." + Join(a[1..])) + "." + Join(b);
    }
  }

  lemma SplitInjective(a: string, b: string)
    requires Split(a) == Split(b)
    ensures a == b
  {
    JoinSplit(a);
    JoinSplit(b);
  }

  /** The string test: equal, or followed by a dot. */
  predicate Covers(key: string, name: string) {
    name == key || key + "." <= name
  }

  /** The string test is exactly the component-prefix test. */
  lemma CoversIffComponentPrefix(key: string, name: string)
    ensures Covers(key, name) <==> Split(key) <= Split(name)
  {
    if key + "." <= name {
      var rest := name[|key| + 1..];
      assert name == key + "." + rest;
      SplitDot(key, rest);
    }
    if Split(key) <= Split(name) {
      var rest := Split(name)[|Split(key)|..];
      assert Split(name) == Split(key) + rest;
      JoinSplit(key);
      JoinSplit(name);
      if rest == [] {
        assert Split(key) + rest == Split(key);
      } else {
        JoinAppend(Split(key), rest);
        assert name == key + "." + Join(rest);
        assert name[..|key| + 1] == key + ".";
      }
    }
  }

  lemma {:induction false} SplitLength(a: string, b: string)
    requires Covers(a, b)
    ensures |a| < |b| <==> |Split(a)| < |Split(b)|
  {
    CoversIffComponentPrefix(a, b);
    if a != b {
      var rest := b[|a| + 1..];
      assert b == a + "." + rest;
      SplitDot(a, rest);
    }
  }

  // ----- the name map -----

  /** The first prefix in the list that covers the name. */
  function Match(prefixes: seq<string>, name: string): (r: Option<string>)
    ensures r.Some? ==> r.value in prefixes && Covers(r.value, name)
  {
    if prefixes == [] then None
    else if Covers(prefixes[0], name) then Some(prefixes[0])
    else Match(prefixes[1..], name)
  }

  predicate LongestFirst(prefixes: seq<string>) {
    forall i, j :: 0 <= i < j < |prefixes| ==> |prefixes[i]| >= |prefixes[j]|
  }

  ghost predicate Lists(prefixes: seq<string>, m: map<string, string>) {
    forall k :: k in prefixes <==> k in m
  }

  function Rename(m: map<string, string>, prefixes: seq<string>, name: string): string {
    match Match(prefixes, name)
    case Some(key) => if key in m then m[key] + name[|key|..] else name
    case None => name
  }

  /** Component-wise: the longest prefix of `n`, at most `k` components, that is a key. */
  function LongestKey(m: map<Name, Name>, n: Name, k: nat): (r: Option<nat>)
    requires k <= |n|
    ensures r.Some? ==> 0 < r.value <= k && n[..r.value] in m
  {
    if k == 0 then None
    else if n[..k] in m then Some(k)
    else LongestKey(m, n, k - 1)
  }

  /** Replace the longest key that is a prefix, once. */
  function RenameName(m: map<Name, Name>, n: Name): Name {
    match LongestKey(m, n, |n|)
    case Some(k) => m[n[..k]] + n[k..]
    case None => n
  }

  function Components(m: map<string, string>): map<Name, Name> {
    map k | k in (set key | key in m :: Split(key)) && Join(k) in m :: Split(m[Join(k)])
  }

  lemma ComponentsKeys(m: map<string, string>, k: string)
    ensures Split(k) in Components(m) <==> k in m
    ensures k in m ==> Components(m)[Split(k)] == Split(m[k])
  {
    JoinSplit(k);
  }

  lemma {:induction false} MatchIsFirst(prefixes: seq<string>, name: string)
    requires LongestFirst(prefixes)
    ensures var r := Match(prefixes, name);
            && (r.None? <==> forall k :: k in prefixes ==> !Covers(k, name))
            && (r.Some? ==> r.value in prefixes && Covers(r.value, name)
                            && forall k :: k in prefixes && Covers(k, name) ==> |k| <= |r.value|)
  {
    if prefixes != [] {
      MatchIsFirst(prefixes[1..], name);
      assert forall k :: k in prefixes ==> k == prefixes[0] || k in prefixes[1..];
    }
  }

  lemma {:induction false} LongestKeyIs(m: map<Name, Name>, n: Name, k: nat)
    requires k <= |n|
    ensures var r := LongestKey(m, n, k);
            && (r.None? <==> forall i :: 0 < i <= k ==> n[..i] !in m)
            && (r.Some? ==> 0 < r.value <= k && n[..r.value] in m && forall i :: r.value < i <= k ==> n[..i] !in m)
  {
    if k > 0 { LongestKeyIs(m, n, k - 1); }
  }

  /** The string-level rename is the component-level one: it replaces the longest mapped
      prefix at a dot boundary, once, whatever order the mapping was written in. */
  lemma RenameIsComponentwise(m: map<string, string>, prefixes: seq<string>, name: string)
    requires LongestFirst(prefixes) && Lists(prefixes, m)
    ensures Split(Rename(m, prefixes, name)) == RenameName(Components(m), Split(name))
  {
    LongestKeyAgrees(m, prefixes, name);
    var matched := Match(prefixes, name);
    if matched.Some? {
      ComponentsKeys(m, matched.value);
      ReplacePrefix(matched.value, m[matched.value], name);
    }
  }

  lemma LongestKeyAgrees(m: map<string, string>, prefixes: seq<string>, name: string)
    requires LongestFirst(prefixes) && Lists(prefixes, m)
    ensures var matched, n := Match(prefixes, name), Split(name);
            LongestKey(Components(m), n, |n|) == (if matched.None? then None else Some(|Split(matched.value)|))
            && (matched.Some? ==> n[..|Split(matched.value)|] == Split(matched.value))
  {
    hide Components, Split, LongestKey, Match;
    var n, c, matched := Split(name), Components(m), Match(prefixes, name);
    MatchIsFirst(prefixes, name);
    LongestKeyIs(c, n, |n|);
    forall i | 0 < i <= |n| && n[..i] in c ensures matched.Some? && i <= |Split(matched.value)| {
      PrefixKey(m, prefixes, name, i);
      LongerPrefix(matched.value, Join(n[..i]), name);
    }
    if matched.Some? {
      CoversIffComponentPrefix(matched.value, name);
      ComponentsKeys(m, matched.value);
      var k := |Split(matched.value)|;
      assert n[..k] == Split(matched.value);
      assert n[..k] in c && 0 < k <= |n|;
    }
  }

  /** Of two covering keys, the shorter string has no more components. */
  lemma LongerPrefix(a: string, b: string, name: string)
    requires Covers(a, name) && Covers(b, name) && |b| <= |a|
    ensures |Split(b)| <= |Split(a)|
  {
    CoversIffComponentPrefix(a, name);
    CoversIffComponentPrefix(b, name);
    if |Split(a)| < |Split(b)| {
      assert Split(a) <= Split(b);
      CoversIffComponentPrefix(a, b);
      SplitLength(a, b);
    }
  }

  lemma ReplacePrefix(key: string, value: string, name: string)
    requires Covers(key, name)
    ensures |Split(key)| <= |Split(name)|
    ensures Split(value + name[|key|..]) == Split(value) + Split(name)[|Split(key)|..]
  {
    CoversIffComponentPrefix(key, name);
    if name == key {
      assert value + name[|key|..] == value;
    } else {
      var rest := name[|key| + 1..];
      assert name == key + "." + rest && value + name[|key|..] == value + "." + rest;
      SplitDot(key, rest);
      SplitDot(value, rest);
    }
  }

  /** A component prefix that is a key is a covering string key. */
  lemma PrefixKey(m: map<string, string>, prefixes: seq<string>, name: string, i: nat)
    requires Lists(prefixes, m) && i <= |Split(name)|
    ensures var p := Split(name)[..i];
            p in Components(m) ==> Join(p) in prefixes && Covers(Join(p), name) && Split(Join(p)) == p
  {
    var p := Split(name)[..i];
    if p in Components(m) {
      var key :| key in m && Split(key) == p;
      JoinSplit(key);
      CoversIffComponentPrefix(key, name);
    }
  }

  /** The order of the mapping does not matter to a rename. */
  lemma RenameIgnoresOrder(m: map<string, string>, prefixes: seq<string>, prefixes': seq<string>, name: string)
    requires LongestFirst(prefixes) && Lists(prefixes, m) && LongestFirst(prefixes') && Lists(prefixes', m)
    ensures Rename(m, prefixes, name) == Rename(m, prefixes', name)
  {
    RenameIsComponentwise(m, prefixes, name);
    RenameIsComponentwise(m, prefixes', name);
    SplitInjective(Rename(m, prefixes, name), Rename(m, prefixes', name));
  }

  /** Stable insertion, longest first. */
  function InsertKey(prefixes: seq<string>, key: string): (r: seq<string>)
    ensures forall k :: k in r <==> k == key || k in prefixes
    ensures LongestFirst(prefixes) ==> LongestFirst(r)
  {
    if prefixes == [] || |prefixes[0]| < |key| then [key] + prefixes
    else
      var rest := InsertKey(prefixes[1..], key);
      assert forall i :: 0 <= i < |rest| ==> rest[i] in rest && (rest[i] == key || rest[i] in prefixes[1..]);
      [prefixes[0]] + rest
  }

  lemma InsertHere(prefixes: seq<string>, at: nat, key: string)
    requires at <= |prefixes| && (at == |prefixes| || |prefixes[at]| < |key|)
    ensures InsertKey(prefixes[at..], key) == [key] + prefixes[at..]
  {
  }

  lemma InsertLater(prefixes: seq<string>, at: nat, key: string)
    requires at < |prefixes| && |prefixes[at]| >= |key|
    ensures prefixes[..at] + InsertKey(prefixes[at..], key) == prefixes[..at + 1] + InsertKey(prefixes[at + 1..], key)
  {
    assert prefixes[at..][1..] == prefixes[at + 1..];
    Shift(prefixes, at, InsertKey(prefixes[at + 1..], key));
  }

  lemma Shift(prefixes: seq<string>, at: nat, rest: seq<string>)
    requires at < |prefixes|
    ensures prefixes[..at] + ([prefixes[at]] + rest) == prefixes[..at + 1] + rest
  {
  }

  /** The order in which the name map tries its keys. */
  function Sorted(keys: seq<string>): (r: seq<string>)
    ensures LongestFirst(r) && forall k :: k in r <==> k in keys
  {
    if keys == [] then [] else InsertKey(Sorted(keys[..|keys| - 1]), keys[|keys| - 1])
  }

  /** The map as the codemod builds it: its keys sorted longest first. Keys of one length are
      left in insertion order here; RenameIgnoresOrder says that their order cannot matter. */
  class NameMap {
    const mapping: map<string, string>
    var prefixes: seq<string>

    ghost predicate Valid()
      reads this
    {
      LongestFirst(prefixes) && Lists(prefixes, mapping)
    }

    constructor (mapping: map<string, string>, order: seq<string>)
      requires forall k :: k in order <==> k in mapping
      ensures Valid() && this.mapping == mapping && prefixes == Sorted(order)
    {
      this.mapping := mapping;
      prefixes := [];
      new;
      for i := 0 to |order|
        invariant prefixes == Sorted(order[..i])
      {
        assert order[..i + 1][..i] == order[..i];
        Insert(order[i]);
      }
      assert order[..|order|] == order;
    }

    method Insert(key: string)
      modifies this
      ensures prefixes == InsertKey(old(prefixes), key)
    {
      hide InsertKey;
      var at := 0;
      assert prefixes[..0] == [] && prefixes[0..] == prefixes;
      assert [] + InsertKey(prefixes, key) == InsertKey(prefixes, key);
      while at < |prefixes| && |prefixes[at]| >= |key|
        invariant 0 <= at <= |prefixes| && prefixes == old(prefixes)
        invariant InsertKey(prefixes, key) == prefixes[..at] + InsertKey(prefixes[at..], key)
      {
        InsertLater(prefixes, at, key);
        at := at + 1;
      }
      InsertHere(prefixes, at, key);
      prefixes := prefixes[..at] + ([key] + prefixes[at..]);
    }

    method RenameOne(name: string) returns (renamed: string)
      requires Valid()
      ensures renamed == Rename(mapping, prefixes, name)
      ensures Split(renamed) == RenameName(Components(mapping), Split(name))
    {
      RenameIsComponentwise(mapping, prefixes, name);
      var i := 0;
      assert prefixes[0..] == prefixes;
      while i < |prefixes|
        invariant 0 <= i <= |prefixes|
        invariant Match(prefixes, name) == Match(prefixes[i..], name)
      {
        var key := prefixes[i];
        if Covers(key, name) {
          return mapping[key] + name[|key|..];
        }
        assert prefixes[i..][1..] == prefixes[i + 1..];
        i := i + 1;
      }
      return name;
    }
  }

  // ----- uses of a renamed, unaliased import -----

  /** A chain rooted at the imported name `u` is rewritten through the import's rename. */
  function ChainedUse(m: map<Name, Name>, u: Name, chain: Name): Name
    requires u <= chain
  {
    RenameName(m, u) + chain[|u|..]
  }

  /** Rewriting through the import is renaming the whole chain, unless a longer key of the
      map covers the chain and sends it elsewhere. */
  lemma ChainedUseIff(m: map<Name, Name>, u: Name, chain: Name)
    requires u <= chain
    ensures var k := LongestKey(m, chain, |chain|);
            ChainedUse(m, u, chain) == RenameName(m, chain)
            <==> k.None? || k.value <= |u| || m[chain[..k.value]] == RenameName(m, u) + chain[|u|..k.value]
  {
    hide LongestKey;
    var k := LongestKey(m, chain, |chain|);
    if k.None? || k.value <= |u| {
      ShortKey(m, u, chain);
    } else {
      var a, b, rest := RenameName(m, u), chain[|u|..k.value], chain[k.value..];
      Cut(u, chain, k.value);
      assert ChainedUse(m, u, chain) == a + (b + rest) == (a + b) + rest;
      SuffixCancels(a + b, m[chain[..k.value]], rest);
    }
  }

  lemma Cut(u: Name, chain: Name, k: nat)
    requires |u| <= k <= |chain|
    ensures chain[|u|..] == chain[|u|..k] + chain[k..]
  {
  }

  /** The unaliased imports whose name changes, in the order they are tried. */
  function Changed(m: map<string, string>, prefixes: seq<string>, imports: seq<string>): (r: seq<string>)
    ensures forall u :: u in r <==> u in imports && Rename(m, prefixes, u) != u
    ensures LongestFirst(imports) ==> LongestFirst(r)
  {
    if imports == [] then []
    else
      var rest := Changed(m, prefixes, imports[1..]);
      assert forall i :: 0 <= i < |rest| ==> rest[i] in imports[1..];
      if Rename(m, prefixes, imports[0]) != imports[0] then [imports[0]] + rest else rest
  }

  /** A use is rewritten through the first changed import that covers it. */
  function RewriteUse(m: map<string, string>, prefixes: seq<string>, imports: seq<string>, name: string): string {
    match Match(Changed(m, prefixes, imports), name)
    case Some(u) => Rename(m, prefixes, u) + name[|u|..]
    case None => name
  }

  /** The import a use goes through is the changed import with the most components that is
      a prefix of it. Going through it renames the whole chain exactly when the longest
      key below the chain is no longer than the import or agrees with it; a use no changed
      import covers is left, which is right exactly when its longest key maps to itself. */
  lemma RewriteUseIff(m: map<string, string>, prefixes: seq<string>, imports: seq<string>, name: string)
    requires LongestFirst(prefixes) && Lists(prefixes, m) && LongestFirst(imports)
    ensures var c, n := Components(m), Split(name);
            var k, u := LongestKey(c, n, |n|), Match(Changed(m, prefixes, imports), name);
            && (u.Some? ==> Split(u.value) <= n)
            && (forall v :: v in imports && RenameName(c, Split(v)) != Split(v) && Split(v) <= n
                            ==> u.Some? && |Split(v)| <= |Split(u.value)|)
            && (Split(RewriteUse(m, prefixes, imports, name)) == RenameName(c, n)
                <==> k.None? || (if u.None? then c[n[..k.value]] == n[..k.value]
                                 else k.value <= |Split(u.value)|
                                      || c[n[..k.value]] == RenameName(c, Split(u.value))
                                                            + n[|Split(u.value)|..k.value]))
  {
    hide Components, Split, LongestKey, Match, Changed, Rename, RenameName;
    var c, n, changed := Components(m), Split(name), Changed(m, prefixes, imports);
    var u := Match(changed, name);
    MatchIsFirst(changed, name);
    forall v | v in imports && RenameName(c, Split(v)) != Split(v) && Split(v) <= n
      ensures u.Some? && |Split(v)| <= |Split(u.value)|
    {
      RenameIsComponentwise(m, prefixes, v);
      CoversIffComponentPrefix(v, name);
      assert v in changed;
      LongerPrefix(u.value, v, name);
    }
    if u.Some? {
      CoversIffComponentPrefix(u.value, name);
      RenameIsComponentwise(m, prefixes, u.value);
      ReplacePrefix(u.value, Rename(m, prefixes, u.value), name);
      ChainedUseIff(c, Split(u.value), n);
    } else {
      LeftAloneIff(c, n);
    }
  }

  lemma LeftAloneIff(m: map<Name, Name>, n: Name)
    ensures var k := LongestKey(m, n, |n|);
            n == RenameName(m, n) <==> k.None? || m[n[..k.value]] == n[..k.value]
  {
    var k := LongestKey(m, n, |n|);
    if k.Some? {
      assert n == n[..k.value] + n[k.value..];
      SuffixCancels(n[..k.value], m[n[..k.value]], n[k.value..]);
    }
  }

  lemma ShortKey(m: map<Name, Name>, u: Name, chain: Name)
    requires u <= chain
    requires LongestKey(m, chain, |chain|).None? || LongestKey(m, chain, |chain|).value <= |u|
    ensures ChainedUse(m, u, chain) == RenameName(m, chain)
  {
    hide LongestKey;
    LongestKeyIs(m, chain, |chain|);
    LongestKeyIs(m, u, |u|);
    forall i | 0 <= i <= |u| ensures chain[..i] == u[..i] {}
    var k, k' := LongestKey(m, chain, |chain|), LongestKey(m, u, |u|);
    if k.None? {
      assert k'.None? && u + chain[|u|..] == chain;
    } else {
      assert k' == k;
      var tail := chain[|u|..];
      assert chain[k.value..] == u[k.value..] + tail;
      assert m[u[..k.value]] + (u[k.value..] + tail) == (m[u[..k.value]] + u[k.value..]) + tail;
    }
  }

  lemma SuffixCancels(a: Name, b: Name, c: Name)
    ensures a + c == b + c <==> a == b
  {
    if a + c == b + c {
      assert a == (a + c)[..|a|] && b == (b + c)[..|b|];
      assert |a + c| == |b + c|;
    }
  }

  // ----- relative imports -----

  /** The module a `from` clause with `level` leading dots names. */
  function Absolute(mod: Name, isPackage: bool, name: Name, level: nat): Option<Name>
    requires mod != []
  {
    if level == 0 then Some(name)
    else
      var package := if isPackage then mod else mod[..|mod| - 1];
      if level > |package| then None else Some(package[..|package| - level + 1] + name)
  }

  /** Relative resolution as the language reference puts it: one dot is the current
      package, each further dot its parent; there must be a package to start from. */
  function Resolve(package: Name, name: Name, dots: nat): Option<Name>
    requires dots > 0
    decreases dots
  {
    if package == [] then None
    else if dots == 1 then Some(package + name)
    else Resolve(package[..|package| - 1], name, dots - 1)
  }

  lemma {:induction false} AbsoluteIsResolution(mod: Name, isPackage: bool, name: Name, level: nat)
    requires mod != [] && level > 0
    ensures var package := if isPackage then mod else mod[..|mod| - 1];
            && Absolute(mod, isPackage, name, level) == Resolve(package, name, level)
            && (Absolute(mod, isPackage, name, level).None? <==> level > |package|)
  {
    ResolveClimbs(if isPackage then mod else mod[..|mod| - 1], name, level);
  }

  lemma {:induction false} ResolveClimbs(package: Name, name: Name, dots: nat)
    requires dots > 0
    ensures Resolve(package, name, dots)
         == if dots > |package| then None else Some(package[..|package| - dots + 1] + name)
    decreases dots
  {
    if package != [] {
      if dots == 1 {
        assert package[..|package|] == package;
      } else {
        ResolveClimbs(package[..|package| - 1], name, dots - 1);
        if dots <= |package| {
          assert package[..|package| - 1][..|package| - dots + 1] == package[..|package| - dots + 1];
        }
      }
    }
  }
}
