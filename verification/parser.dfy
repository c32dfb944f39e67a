/** Recipe expansion (`Parser` in src/core/parser.py): a pattern
    `arch-fs-interface-encryption`, any field of which may be `*`, is expanded into
    the Cartesian product over the parser's own axis catalogues, and the request is
    then filtered against the universe of all combinations minus the blacklist. */
module Parser {
  import opened Results
  import opened Strings
  import Product
  import C = Configuration

  const Arches: seq<string> :=
    ["amd64:amd64", "i386:i386", "arm:armv7", "arm64:aarch64", "riscv:riscv64",
     "powerpc:powerpc64", "powerpc:powerpc64le"]
  const Filesystems: seq<string> := ["zfs", "ufs"]
  const Interfaces: seq<string> := ["gpt", "mbr"]
  const Encryptions: seq<string> := ["geli", "none"]
  const BlacklistRegexes: seq<string> := ["riscv:riscv64-*-mbr-*"]

  const Wildcard: string := "*"
  const FieldSeparator: char := '-'

  /** One concrete value (or, in a pattern, value or `*`) per axis. */
  datatype Combination = Combination(arch: string, fs: string, interface: string, encryption: string)

  datatype ParseError =
    /** The pattern did not split into exactly four `-`-separated fields (Python raises
        ValueError when unpacking the split). */
    | WrongFieldCount(count: nat)

  function Fields(c: Combination): seq<string>
  {
    [c.arch, c.fs, c.interface, c.encryption]
  }

  predicate DashFree(c: Combination)
  {
    && FieldSeparator !in c.arch && FieldSeparator !in c.fs
    && FieldSeparator !in c.interface && FieldSeparator !in c.encryption
  }

  /** `generate_regex_from_combination`: the four fields joined with `-`. */
  function RegexFromCombination(c: Combination): string
  {
    Join(Fields(c), FieldSeparator)
  }

  /** The `arch, fs, interface, encryption = regex.split('-')` step. */
  function ParseRegex(regex: string): (r: Result<Combination, ParseError>)
    ensures r.Success? ==> DashFree(r.value)
    ensures r.Failure? ==> r.error.count != 4
  {
    var parts := Split(regex, FieldSeparator);
    if |parts| == 4 then Success(Combination(parts[0], parts[1], parts[2], parts[3]))
    else Failure(WrongFieldCount(|parts|))
  }

  /** A `*` field stands for the whole catalogue, any other field for itself alone. */
  function Options(field: string, catalogue: seq<string>): seq<string>
  {
    if field == Wildcard then catalogue else [field]
  }

  function Params(p: Combination): seq<seq<string>>
  {
    [Options(p.arch, Arches), Options(p.fs, Filesystems),
     Options(p.interface, Interfaces), Options(p.encryption, Encryptions)]
  }

  /** `itertools.product(*params)` as combinations. */
  function Expand(p: Combination): (r: seq<Combination>)
    ensures |r| == |Options(p.arch, Arches)| * |Options(p.fs, Filesystems)|
                   * |Options(p.interface, Interfaces)| * |Options(p.encryption, Encryptions)|
  {
    var tuples := Product.CartesianProduct(Params(p));
    Product.ProductOfFourLengths(Params(p)[0], Params(p)[1], Params(p)[2], Params(p)[3]);
    seq(|tuples|, k requires 0 <= k < |tuples| =>
      Combination(tuples[k][0], tuples[k][1], tuples[k][2], tuples[k][3]))
  }

  /** `list(map(generate_regex_from_combination, combinations))`. */
  function Render(cs: seq<Combination>): (r: seq<string>)
    ensures |r| == |cs|
  {
    seq(|cs|, k requires 0 <= k < |cs| => RegexFromCombination(cs[k]))
  }

  /** `generate_combinations_from_regex`. */
  function CombinationsFromRegex(regex: string): Result<seq<string>, ParseError>
  {
    var p :- ParseRegex(regex);
    Success(Render(Expand(p)))
  }

  /** The blacklist loop: the expansions of all patterns, concatenated in order. */
  function ExpandAll(regexes: seq<string>): Result<seq<string>, ParseError>
    decreases |regexes|
  {
    if |regexes| == 0 then Success([])
    else
      var first :- CombinationsFromRegex(regexes[0]);
      var rest :- ExpandAll(regexes[1..]);
      Success(first + rest)
  }

  /** `[x for x in s if x in allowed]`. */
  function Filter(s: seq<string>, allowed: set<string>): (r: seq<string>)
    ensures forall x :: x in r <==> x in s && x in allowed
    ensures |r| <= |s|
    decreases |s|
  {
    if |s| == 0 then []
    else if s[0] in allowed then [s[0]] + Filter(s[1..], allowed)
    else Filter(s[1..], allowed)
  }

  function Elements(s: seq<string>): set<string>
  {
    set x | x in s
  }

  const UniverseRegex: string := "*-*-*-*"

  /** `generate_valid_combinations_from_regex`. */
  function ValidCombinationsFromRegex(regex: string): Result<seq<string>, ParseError>
  {
    var universe :- CombinationsFromRegex(UniverseRegex);
    var blacklisted :- ExpandAll(BlacklistRegexes);
    var requested :- CombinationsFromRegex(regex);
    var valid := Elements(universe) - Elements(blacklisted);
    Success(Filter(requested, valid))
  }

  /** `r` keeps some of the elements of `s`, in their original relative order. */
  predicate IsSubsequence(r: seq<string>, s: seq<string>)
    decreases |s|
  {
    if |r| == 0 then true
    else if |s| == 0 then false
    else (r[0] == s[0] && IsSubsequence(r[1..], s[1..])) || IsSubsequence(r, s[1..])
  }

  // ---------------------------------------------------------------------------
  // Catalogue facts

  /** No catalogue value contains the field separator, and none is the wildcard. */
  lemma CataloguesDashFree()
    ensures forall x :: x in Arches ==> FieldSeparator !in x && x != Wildcard
    ensures forall x :: x in Filesystems ==> FieldSeparator !in x && x != Wildcard
    ensures forall x :: x in Interfaces ==> FieldSeparator !in x && x != Wildcard
    ensures forall x :: x in Encryptions ==> FieldSeparator !in x && x != Wildcard
  {
    CatalogueDashFree(Arches);
    CatalogueDashFree(Filesystems);
    CatalogueDashFree(Interfaces);
    CatalogueDashFree(Encryptions);
  }

  /** One catalogue at a time, by its entries. */
  lemma CatalogueDashFree(values: seq<string>)
    requires values in [Arches, Filesystems, Interfaces, Encryptions]
    ensures forall x :: x in values ==> FieldSeparator !in x && x != Wildcard
  {
    if values == Arches {
    } else if values == Filesystems {
    } else if values == Interfaces {
    } else {
    }
  }

  lemma CataloguesNoDuplicates()
    ensures Product.NoDuplicates(Arches)
    ensures Product.NoDuplicates(Filesystems)
    ensures Product.NoDuplicates(Interfaces)
    ensures Product.NoDuplicates(Encryptions)
  {
  }

  // ---------------------------------------------------------------------------
  // Joining and splitting a combination

  /** Round trip: a combination whose fields contain no `-` is recovered from its
      pattern string. */
  lemma RegexRoundTrip(c: Combination)
    requires DashFree(c)
    ensures ParseRegex(RegexFromCombination(c)) == Success(c)
  {
    assert forall k :: 0 <= k < 4 ==> FieldSeparator !in Fields(c)[k];
    SplitJoin(Fields(c), FieldSeparator);
  }

  /** A pattern is accepted exactly when it has three `-`, and then joining its four
      fields again gives back the pattern. */
  lemma ParseRegexSpec(regex: string)
    ensures ParseRegex(regex).Success? <==> Occurrences(regex, FieldSeparator) == 3
    ensures ParseRegex(regex).Success? ==> RegexFromCombination(ParseRegex(regex).value) == regex
  {
    SplitCount(regex, FieldSeparator);
    JoinSplit(regex, FieldSeparator);
    var parts := Split(regex, FieldSeparator);
    if |parts| == 4 {
      assert Fields(ParseRegex(regex).value) == parts;
    }
  }

  /** Distinct dash-free combinations have distinct pattern strings. */
  lemma RegexInjective(c: Combination, d: Combination)
    requires DashFree(c) && DashFree(d)
    requires RegexFromCombination(c) == RegexFromCombination(d)
    ensures c == d
  {
    RegexRoundTrip(c);
    RegexRoundTrip(d);
  }

  // ---------------------------------------------------------------------------
  // Expansion

  function ToCombination(t: seq<string>): Combination
    requires |t| == 4
  {
    Combination(t[0], t[1], t[2], t[3])
  }

  /** Position `k` of the expansion is tuple `k` of the product. */
  lemma ExpandAt(p: Combination, k: int)
    requires 0 <= k < |Expand(p)|
    ensures Fields(Expand(p)[k]) == Product.CartesianProduct(Params(p))[k]
  {
  }

  /** A combination is produced by expanding `p` exactly when each of its fields is
      one of the options `p` allows for that field. */
  lemma ExpandMembership(p: Combination, c: Combination)
    ensures c in Expand(p) <==>
              && c.arch in Options(p.arch, Arches)
              && c.fs in Options(p.fs, Filesystems)
              && c.interface in Options(p.interface, Interfaces)
              && c.encryption in Options(p.encryption, Encryptions)
  {
    var params := Params(p);
    var tuples := Product.CartesianProduct(params);
    var e := Expand(p);
    Product.ProductMembership(params, Fields(c));
    if c in e {
      var k :| 0 <= k < |e| && e[k] == c;
      ExpandAt(p, k);
    }
    if Fields(c) in tuples {
      var k :| 0 <= k < |tuples| && tuples[k] == Fields(c);
      assert e[k] == c;
    }
    assert forall i :: 0 <= i < 4 ==> (Fields(c)[i] in params[i] <==>
      (i == 0 && c.arch in params[0]) || (i == 1 && c.fs in params[1]) ||
      (i == 2 && c.interface in params[2]) || (i == 3 && c.encryption in params[3]));
  }

  /** The expansion comes out in `itertools.product` order (architecture slowest, then
      filesystem, interface, encryption), so it has no repeated combination. */
  lemma ExpandOrdered(p: Combination)
    ensures forall i, j :: 0 <= i < j < |Expand(p)| ==>
              Product.LexBefore(Params(p), Fields(Expand(p)[i]), Fields(Expand(p)[j]))
    ensures forall i, j :: 0 <= i < j < |Expand(p)| ==> Expand(p)[i] != Expand(p)[j]
  {
    var params := Params(p);
    CataloguesNoDuplicates();
    assert forall i :: 0 <= i < |params| ==> Product.NoDuplicates(params[i]);
    Product.ProductSorted(params);
    forall i, j | 0 <= i < j < |Expand(p)|
      ensures Product.LexBefore(params, Fields(Expand(p)[i]), Fields(Expand(p)[j]))
      ensures Expand(p)[i] != Expand(p)[j]
    {
      ExpandAt(p, i);
      ExpandAt(p, j);
      Product.LexIrreflexive(params, Fields(Expand(p)[i]));
    }
  }

  /** Expanding a pattern with dash-free fields yields dash-free combinations. */
  lemma ExpandDashFree(p: Combination)
    requires DashFree(p)
    ensures forall c :: c in Expand(p) ==> DashFree(c)
  {
    CataloguesDashFree();
    forall c | c in Expand(p)
      ensures DashFree(c)
    {
      ExpandMembership(p, c);
    }
  }

  /** Rendering distinct dash-free combinations yields distinct strings, and every
      rendered string is the pattern string of one of the combinations. */
  lemma RenderSpec(cs: seq<Combination>)
    requires forall c :: c in cs ==> DashFree(c)
    requires forall i, j :: 0 <= i < j < |cs| ==> cs[i] != cs[j]
    ensures Product.NoDuplicates(Render(cs))
    ensures forall c :: c in cs ==> RegexFromCombination(c) in Render(cs)
  {
    var r := Render(cs);
    forall i, j | 0 <= i < j < |r|
      ensures r[i] != r[j]
    {
      if r[i] == r[j] {
        RegexInjective(cs[i], cs[j]);
      }
    }
    forall c | c in cs
      ensures RegexFromCombination(c) in r
    {
      var k :| 0 <= k < |cs| && cs[k] == c;
      assert r[k] == RegexFromCombination(c);
    }
  }

  /** `generate_combinations_from_regex`: a pattern without exactly three `-` is an
      error; otherwise the result has one string per combination of the product,
      no string twice, and every string parses back to a combination of the product. */
  lemma CombinationsFromRegexSpec(regex: string)
    ensures CombinationsFromRegex(regex).Success? <==> Occurrences(regex, FieldSeparator) == 3
    ensures CombinationsFromRegex(regex).Success? ==>
              var p := ParseRegex(regex).value;
              var r := CombinationsFromRegex(regex).value;
              && |r| == |Options(p.arch, Arches)| * |Options(p.fs, Filesystems)|
                        * |Options(p.interface, Interfaces)| * |Options(p.encryption, Encryptions)|
              && Product.NoDuplicates(r)
              && (forall c :: c in Expand(p) ==> RegexFromCombination(c) in r)
              && (forall s :: s in r ==> ParseRegex(s).Success? && ParseRegex(s).value in Expand(p))
  {
    ParseRegexSpec(regex);
    if ParseRegex(regex).Success? {
      var p := ParseRegex(regex).value;
      var e := Expand(p);
      ExpandOrdered(p);
      ExpandDashFree(p);
      RenderSpec(e);
      forall s | s in Render(e)
        ensures ParseRegex(s).Success? && ParseRegex(s).value in e
      {
        var k :| 0 <= k < |e| && Render(e)[k] == s;
        RegexRoundTrip(e[k]);
      }
    }
  }

  // ---------------------------------------------------------------------------
  // Filtering against universe minus blacklist

  const AllWildcards: Combination := Combination(Wildcard, Wildcard, Wildcard, Wildcard)
  const BlacklistPattern: Combination := Combination("riscv:riscv64", Wildcard, "mbr", Wildcard)

  /** Every combination of the four parser catalogues, as pattern strings. */
  function Universe(): seq<string>
  {
    Render(Expand(AllWildcards))
  }

  /** The expansion of the one blacklist pattern. */
  function Blacklisted(): seq<string>
  {
    Render(Expand(BlacklistPattern))
  }

  lemma UniverseParses()
    ensures CombinationsFromRegex(UniverseRegex) == Success(Universe())
  {
    UniverseText();
    PatternExpands(UniverseRegex, AllWildcards);
  }

  lemma UniverseText()
    ensures RegexFromCombination(AllWildcards) == UniverseRegex
  {
    RegexText(Wildcard, Wildcard, Wildcard, Wildcard);
  }

  /** The pattern string of a combination, written out. */
  lemma RegexText(a: string, b: string, c: string, d: string)
    ensures RegexFromCombination(Combination(a, b, c, d)) == a + "-" + b + "-" + c + "-" + d
  {
    var sep := FieldSeparator;
    assert [c, d][1..] == [d];
    assert Join([c, d], sep) == c + [sep] + d;
    assert [b, c, d][1..] == [c, d];
    assert Join([b, c, d], sep) == b + [sep] + (c + [sep] + d);
    assert [a, b, c, d][1..] == [b, c, d];
    assert Join([a, b, c, d], sep) == a + [sep] + (b + [sep] + (c + [sep] + d));
  }

  /** The pattern string of a dash-free combination expands to that combination's
      expansion. */
  lemma PatternExpands(regex: string, p: Combination)
    requires DashFree(p) && RegexFromCombination(p) == regex
    ensures CombinationsFromRegex(regex) == Success(Render(Expand(p)))
  {
    RegexRoundTrip(p);
  }

  /** The blacklist loop over a single pattern yields that pattern's expansion. */
  lemma ExpandAllSingle(regex: string, x: seq<string>)
    requires CombinationsFromRegex(regex) == Success(x)
    ensures ExpandAll([regex]) == Success(x)
  {
    assert [regex][1..] == [];
    assert ExpandAll([]) == Success([]);
    assert x + [] == x;
  }

  lemma BlacklistParses()
    ensures ExpandAll(BlacklistRegexes) == Success(Blacklisted())
  {
    assert FieldSeparator !in "riscv:riscv64" && FieldSeparator !in "mbr";
    BlacklistText();
    PatternExpands(BlacklistRegexes[0], BlacklistPattern);
    ExpandAllSingle(BlacklistRegexes[0], Blacklisted());
    assert BlacklistRegexes == [BlacklistRegexes[0]];
  }

  lemma {:induction false} FilterSubsequence(s: seq<string>, allowed: set<string>)
    ensures IsSubsequence(Filter(s, allowed), s)
    decreases |s|
  {
    if |s| > 0 {
      FilterSubsequence(s[1..], allowed);
      var r := Filter(s, allowed);
      if s[0] in allowed {
        assert r[0] == s[0] && r[1..] == Filter(s[1..], allowed);
      }
    }
  }

  lemma {:induction false} FilterNoDuplicates(s: seq<string>, allowed: set<string>)
    requires Product.NoDuplicates(s)
    ensures Product.NoDuplicates(Filter(s, allowed))
    decreases |s|
  {
    if |s| > 0 {
      assert Product.NoDuplicates(s[1..]);
      FilterNoDuplicates(s[1..], allowed);
      if s[0] in allowed {
        var rest := Filter(s[1..], allowed);
        assert s[0] !in s[1..];
        assert s[0] !in rest;
      }
    }
  }

  /** A duplicate-free sequence has as many distinct elements as entries. */
  lemma {:induction false} ElementsCardinality(s: seq<string>)
    requires Product.NoDuplicates(s)
    ensures |Elements(s)| == |s|
    decreases |s|
  {
    if |s| > 0 {
      assert Product.NoDuplicates(s[1..]);
      ElementsCardinality(s[1..]);
      assert Elements(s) == {s[0]} + Elements(s[1..]);
      assert s[0] !in s[1..];
    }
  }

  /** Expanding a dash-free pattern renders each combination of the product once. */
  lemma RenderedExpansionDistinct(p: Combination)
    requires DashFree(p)
    ensures Product.NoDuplicates(Render(Expand(p)))
  {
    ExpandOrdered(p);
    ExpandDashFree(p);
    RenderSpec(Expand(p));
  }

  /** The universe has 7 * 2 * 2 * 2 = 56 distinct strings. */
  lemma UniverseFacts()
    ensures |Universe()| == 56 && Product.NoDuplicates(Universe())
  {
    RenderedExpansionDistinct(AllWildcards);
  }

  /** The blacklist expands to 1 * 2 * 1 * 2 = 4 distinct strings. */
  lemma BlacklistFacts()
    ensures |Blacklisted()| == 4 && Product.NoDuplicates(Blacklisted())
  {
    assert FieldSeparator !in "riscv:riscv64" && FieldSeparator !in "mbr";
    RenderedExpansionDistinct(BlacklistPattern);
  }

  /** Rendering keeps every combination. */
  lemma RenderContains(cs: seq<Combination>, c: Combination)
    requires c in cs
    ensures RegexFromCombination(c) in Render(cs)
  {
    var k :| 0 <= k < |cs| && cs[k] == c;
    assert Render(cs)[k] == RegexFromCombination(c);
  }

  /** A pattern whose options are all options of another pattern requests nothing
      beyond what the other requests. */
  lemma ExpandSubsumed(p: Combination, q: Combination)
    requires forall x :: x in Options(p.arch, Arches) ==> x in Options(q.arch, Arches)
    requires forall x :: x in Options(p.fs, Filesystems) ==> x in Options(q.fs, Filesystems)
    requires forall x :: x in Options(p.interface, Interfaces) ==> x in Options(q.interface, Interfaces)
    requires forall x :: x in Options(p.encryption, Encryptions) ==> x in Options(q.encryption, Encryptions)
    ensures Elements(Render(Expand(p))) <= Elements(Render(Expand(q)))
  {
    var e := Expand(p);
    forall x | x in Render(e)
      ensures x in Render(Expand(q))
    {
      var k :| 0 <= k < |e| && Render(e)[k] == x;
      ExpandMembership(p, e[k]);
      ExpandMembership(q, e[k]);
      RenderContains(Expand(q), e[k]);
    }
  }

  /** Every blacklisted string is also in the universe. */
  lemma BlacklistInUniverse()
    ensures Elements(Blacklisted()) <= Elements(Universe())
  {
    assert "riscv:riscv64" in Arches && "mbr" in Interfaces;
    ExpandSubsumed(BlacklistPattern, AllWildcards);
  }

  /** Universe minus blacklist has 56 - 4 = 52 strings. */
  lemma ValidSetSize()
    ensures |Elements(Universe()) - Elements(Blacklisted())| == 52
  {
    UniverseFacts();
    BlacklistFacts();
    BlacklistInUniverse();
    DifferenceSize(Universe(), Blacklisted());
  }

  /** Removing the elements of a duplicate-free list contained in another
      duplicate-free list leaves the difference of their lengths. */
  lemma DifferenceSize(u: seq<string>, b: seq<string>)
    requires Product.NoDuplicates(u) && Product.NoDuplicates(b)
    requires Elements(b) <= Elements(u)
    ensures |Elements(u) - Elements(b)| == |u| - |b|
  {
    ElementsCardinality(u);
    ElementsCardinality(b);
    var eu := Elements(u);
    var eb := Elements(b);
    assert eu == (eu - eb) + eb;
  }

  /** The filtering step alone: it keeps exactly the requested strings that are in
      `universe` and not in `blacklisted`, in their requested order. */
  lemma FilterSpec(requested: seq<string>, universe: seq<string>, blacklisted: seq<string>)
    ensures var r := Filter(requested, Elements(universe) - Elements(blacklisted));
            && (forall x :: x in r <==> x in requested && x in universe && x !in blacklisted)
            && IsSubsequence(r, requested)
            && (Product.NoDuplicates(requested) ==> Product.NoDuplicates(r))
            && (Product.NoDuplicates(requested) ==> |r| <= |Elements(universe) - Elements(blacklisted)|)
  {
    var valid := Elements(universe) - Elements(blacklisted);
    var r := Filter(requested, valid);
    FilterSubsequence(requested, valid);
    if Product.NoDuplicates(requested) {
      FilterNoDuplicates(requested, valid);
      ElementsCardinality(r);
      assert Elements(r) <= valid;
      SubsetCardinality(Elements(r), valid);
    }
  }

  lemma SubsetCardinality(a: set<string>, b: set<string>)
    requires a <= b
    ensures |a| <= |b|
  {
    assert b == a + (b - a);
    assert a * (b - a) == {};
  }

  /** With the universe and blacklist patterns parsed, the valid combinations are the
      filtered request. */
  lemma ValidUnfold(regex: string)
    ensures CombinationsFromRegex(regex).Failure? ==> ValidCombinationsFromRegex(regex).Failure?
    ensures CombinationsFromRegex(regex).Success? ==>
              ValidCombinationsFromRegex(regex)
                == Success(Filter(CombinationsFromRegex(regex).value,
                                  Elements(Universe()) - Elements(Blacklisted())))
  {
    UniverseParses();
    BlacklistParses();
  }

  /** `generate_valid_combinations_from_regex`: it fails exactly when the requested
      pattern does not have three `-`. Otherwise its result is the requested expansion
      restricted to universe minus blacklist: the same strings in the same order, each
      once, and at most 56 - 4 = 52 of them. */
  lemma ValidSpec(regex: string)
    ensures ValidCombinationsFromRegex(regex).Success? <==> CombinationsFromRegex(regex).Success?
    ensures ValidCombinationsFromRegex(regex).Success? <==> Occurrences(regex, FieldSeparator) == 3
    ensures ValidCombinationsFromRegex(regex).Success? ==>
              var requested := CombinationsFromRegex(regex).value;
              var r := ValidCombinationsFromRegex(regex).value;
              && (forall x :: x in r <==> x in requested && x in Universe() && x !in Blacklisted())
              && IsSubsequence(r, requested)
              && Product.NoDuplicates(r)
              && |r| <= 52
  {
    ValidUnfold(regex);
    CombinationsFromRegexSpec(regex);
    if CombinationsFromRegex(regex).Success? {
      FilterSpec(CombinationsFromRegex(regex).value, Universe(), Blacklisted());
      ValidSetSize();
    }
  }

  /** Filtering keeps nothing when no element is allowed. */
  lemma {:induction false} FilterNone(s: seq<string>, allowed: set<string>)
    requires forall k :: 0 <= k < |s| ==> s[k] !in allowed
    ensures Filter(s, allowed) == []
    decreases |s|
  {
    if |s| > 0 {
      FilterNone(s[1..], allowed);
    }
  }

  /** A literal field outside its catalogue: the pattern may still parse, but nothing
      it requests is in the universe. */
  predicate HasUnknownLiteral(p: Combination)
  {
    || (p.arch != Wildcard && p.arch !in Arches)
    || (p.fs != Wildcard && p.fs !in Filesystems)
    || (p.interface != Wildcard && p.interface !in Interfaces)
    || (p.encryption != Wildcard && p.encryption !in Encryptions)
  }

  /** A combination whose every field comes from its catalogue. */
  predicate InCatalogues(d: Combination)
  {
    d.arch in Arches && d.fs in Filesystems && d.interface in Interfaces && d.encryption in Encryptions
  }

  /** No combination of a pattern with an unknown literal is a combination of the
      catalogues, so their pattern strings differ too. */
  lemma UnknownLiteralOutside(p: Combination, c: Combination, d: Combination)
    requires DashFree(p) && HasUnknownLiteral(p)
    requires c in Expand(p) && InCatalogues(d)
    ensures RegexFromCombination(c) != RegexFromCombination(d)
  {
    ExpandMembership(p, c);
    CataloguesDashFree();
    ExpandDashFree(p);
    assert c != d;
    if RegexFromCombination(c) == RegexFromCombination(d) {
      RegexInjective(c, d);
      assert false;
    }
  }

  /** Filtering by universe minus blacklist keeps nothing of a request that shares no
      string with the universe. */
  lemma OutsideUniverseFiltered(requested: seq<string>, universe: seq<string>, blacklisted: seq<string>)
    requires forall k, j :: 0 <= k < |requested| && 0 <= j < |universe| ==> requested[k] != universe[j]
    ensures Filter(requested, Elements(universe) - Elements(blacklisted)) == []
  {
    FilterNone(requested, Elements(universe) - Elements(blacklisted));
  }

  lemma UnknownLiteralRequestFiltered(p: Combination, all: seq<Combination>, blacklisted: seq<string>)
    requires DashFree(p) && HasUnknownLiteral(p)
    requires forall j :: 0 <= j < |all| ==> InCatalogues(all[j])
    ensures Filter(Render(Expand(p)), Elements(Render(all)) - Elements(blacklisted)) == []
  {
    var e := Expand(p);
    var requested := Render(e);
    var universe := Render(all);
    forall k, j | 0 <= k < |requested| && 0 <= j < |universe|
      ensures requested[k] != universe[j]
    {
      UnknownLiteralOutside(p, e[k], all[j]);
    }
    OutsideUniverseFiltered(requested, universe, blacklisted);
  }

  /** Every combination of the all-wildcard pattern is a combination of the catalogues. */
  lemma UniverseInCatalogues(all: seq<Combination>)
    requires all == Expand(AllWildcards)
    ensures forall j :: 0 <= j < |all| ==> InCatalogues(all[j])
  {
    forall j | 0 <= j < |all|
      ensures InCatalogues(all[j])
    {
      ExpandMembership(AllWildcards, all[j]);
    }
  }

  /** Such a pattern is dropped silently: an empty result, not an error. */
  lemma UnknownLiteralDropped(regex: string)
    requires ParseRegex(regex).Success? && HasUnknownLiteral(ParseRegex(regex).value)
    ensures ValidCombinationsFromRegex(regex) == Success([])
  {
    var p := ParseRegex(regex).value;
    var requested := Render(Expand(p));
    assert CombinationsFromRegex(regex) == Success(requested);
    ValidUnfold(regex);
    UniverseInCatalogues(Expand(AllWildcards));
    UnknownLiteralRequestFiltered(p, Expand(AllWildcards), Blacklisted());
  }

  /** Filtering by universe minus blacklist keeps nothing of a request made only of
      blacklisted strings. */
  lemma AllBlacklistedFiltered(requested: seq<string>, universe: seq<string>, blacklisted: seq<string>)
    requires Elements(requested) <= Elements(blacklisted)
    ensures Filter(requested, Elements(universe) - Elements(blacklisted)) == []
  {
    var valid := Elements(universe) - Elements(blacklisted);
    forall k | 0 <= k < |requested|
      ensures requested[k] !in valid
    {
      assert requested[k] in Elements(requested);
    }
    FilterNone(requested, valid);
  }

  /** A pattern whose every combination is blacklisted yields nothing. */
  lemma BlacklistedPatternYieldsNothing(regex: string)
    requires ParseRegex(regex).Success?
    requires Elements(Render(Expand(ParseRegex(regex).value))) <= Elements(Blacklisted())
    ensures ValidCombinationsFromRegex(regex) == Success([])
  {
    var requested := Render(Expand(ParseRegex(regex).value));
    assert CombinationsFromRegex(regex) == Success(requested);
    ValidUnfold(regex);
    AllBlacklistedFiltered(requested, Universe(), Blacklisted());
  }

  /** The blacklist removes every riscv/mbr combination: requesting
      `riscv:riscv64-*-mbr-none` yields nothing. */
  lemma RiscvMbrYieldsNothing()
    ensures ValidCombinationsFromRegex("riscv:riscv64-*-mbr-none") == Success([])
  {
    var p := Combination("riscv:riscv64", Wildcard, "mbr", "none");
    assert FieldSeparator !in "riscv:riscv64" && FieldSeparator !in "mbr" && FieldSeparator !in "none";
    assert "none" in Encryptions;
    ExpandSubsumed(p, BlacklistPattern);
    BlacklistedCombinationYieldsNothing(p);
    RiscvMbrText();
  }

  lemma BlacklistText()
    ensures RegexFromCombination(BlacklistPattern) == BlacklistRegexes[0]
  {
    RegexText("riscv:riscv64", Wildcard, "mbr", Wildcard);
  }

  lemma RiscvMbrText()
    ensures RegexFromCombination(Combination("riscv:riscv64", Wildcard, "mbr", "none")) == "riscv:riscv64-*-mbr-none"
  {
    RegexText("riscv:riscv64", Wildcard, "mbr", "none");
  }

  /** `BlacklistedPatternYieldsNothing` for the pattern string of a dash-free
      combination. */
  lemma BlacklistedCombinationYieldsNothing(p: Combination)
    requires DashFree(p)
    requires Elements(Render(Expand(p))) <= Elements(Blacklisted())
    ensures ValidCombinationsFromRegex(RegexFromCombination(p)) == Success([])
  {
    RegexRoundTrip(p);
    BlacklistedPatternYieldsNothing(RegexFromCombination(p));
  }

  /** The fully wildcarded request yields 56 strings. */
  lemma AllWildcardsYield56()
    ensures CombinationsFromRegex(UniverseRegex) == Success(Universe())
    ensures |Universe()| == 56
  {
    UniverseParses();
    UniverseFacts();
  }

  /** The parser's catalogues against the configuration's: every filesystem,
      partition scheme and encryption the parser expands to is accepted, but three
      of its architectures (`i386:i386`, `powerpc:powerpc64`, `powerpc:powerpc64le`)
      are not, so a configuration built from such a combination is rejected with an
      invalid-architecture error. */
  lemma ExpandedAgainstConfiguration(c: Combination)
    requires c.arch in Arches && c.fs in Filesystems && c.interface in Interfaces && c.encryption in Encryptions
    ensures C.Validate(c.arch, c.fs, c.interface, c.encryption).Success?
            <==> c.arch !in ["i386:i386", "powerpc:powerpc64", "powerpc:powerpc64le"]
    ensures C.Validate(c.arch, c.fs, c.interface, c.encryption).Failure? ==>
              C.Validate(c.arch, c.fs, c.interface, c.encryption).error == C.InvalidArch(c.arch)
  {
  }
}
