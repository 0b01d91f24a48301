/**
 * MultiPartialURL: a pattern with a set of allowed values per field.  It
 * stands for every combination of one value per field; matching, URL
 * building and the primary combination are defined on it directly.
 */
module MultiPartial {
  import opened Wrappers
  import opened Strings
  import opened Collections
  import opened Net
  import opened Fields
  import opened Errors
  import opened SinglePartial

  /** Each field is absent (Java null) or an insertion-ordered set of values. */
  datatype Multi = Multi(
    schemes: Option<seq<string>>,
    hosts: Option<seq<HostAddress>>,
    ports: Option<seq<Port>>,
    contextPaths: Option<seq<Path>>,
    prefixes: Option<seq<Path>>)

  /** Null, or a non-empty set. */
  predicate IsFieldSet<T(==)>(s: Option<seq<T>>)
  {
    s.Some? ==> |s.value| > 0 && NoDuplicates(s.value)
  }

  /** What the factory passes the constructor: field sets with the schemes lower-cased. */
  predicate WellFormed(m: Multi)
  {
    && IsFieldSet(m.schemes) && IsFieldSet(m.hosts) && IsFieldSet(m.ports)
    && IsFieldSet(m.contextPaths) && IsFieldSet(m.prefixes)
    && (m.schemes.Some? ==> forall s :: s in m.schemes.value ==> IsLowerCase(s))
  }

  /** What the constructor insists on besides. */
  predicate Valid(m: Multi)
  {
    && WellFormed(m)
    && (m.contextPaths.Some? ==> forall c :: c in m.contextPaths.value ==> ValidContextPath(c))
    && (m.prefixes.Some? ==> forall p :: p in m.prefixes.value ==> ValidPrefix(p))
  }

  function Values<T>(s: Option<seq<T>>): seq<T>
  {
    if s.None? then [] else s.value
  }

  /**
   * The package-private constructor: checks every context path, then every
   * prefix, and reports the first that fails.
   */
  function New(schemes: Option<seq<string>>, hosts: Option<seq<HostAddress>>, ports: Option<seq<Port>>, contextPaths: Option<seq<Path>>, prefixes: Option<seq<Path>>)
    : (r: Result<Multi, Error>)
    requires WellFormed(Multi(schemes, hosts, ports, contextPaths, prefixes))
    ensures r.Ok? <==> Valid(Multi(schemes, hosts, ports, contextPaths, prefixes))
    ensures r.Ok? ==> r.value == Multi(schemes, hosts, ports, contextPaths, prefixes)
    ensures r.Err? ==>
      || (r.error.ContextPathEndsInSlash? && r.error.contextPath in Values(contextPaths) && !ValidContextPath(r.error.contextPath))
      || (r.error.PrefixMissingSlash? && r.error.prefix in Values(prefixes) && !ValidPrefix(r.error.prefix))
    ensures (exists c :: c in Values(contextPaths) && !ValidContextPath(c)) ==> r.Err? && r.error.ContextPathEndsInSlash?
    ensures r.Err? && r.error.ContextPathEndsInSlash? ==>
      forall j :: 0 <= j < Position<string>(Values(contextPaths), r.error.contextPath) ==> ValidContextPath(Values(contextPaths)[j])
    ensures r.Err? && r.error.PrefixMissingSlash? ==>
      && (forall c :: c in Values(contextPaths) ==> ValidContextPath(c))
      && forall j :: 0 <= j < Position<string>(Values(prefixes), r.error.prefix) ==> ValidPrefix(Values(prefixes)[j])
  {
    var contextPathFails := (c: Path) => !ValidContextPath(c);
    var badContextPath := FirstWhere(Values(contextPaths), contextPathFails);
    if badContextPath.Some? then
      FirstWhereBefore(Values(contextPaths), contextPathFails);
      Err(ContextPathEndsInSlash(badContextPath.value))
    else
      var prefixFails := (p: Path) => !ValidPrefix(p);
      var badPrefix := FirstWhere(Values(prefixes), prefixFails);
      if badPrefix.Some? then
        FirstWhereBefore(Values(prefixes), prefixFails);
        Err(PrefixMissingSlash(badPrefix.value))
      else Ok(Multi(schemes, hosts, ports, contextPaths, prefixes))
  }

  /** `set.iterator().next()` for a field that may be null. */
  function First<T>(s: Option<seq<T>>): Option<T>
    requires s.Some? ==> |s.value| > 0
  {
    if s.None? then None else Some(s.value[0])
  }

  /** The primary combination: the first value of each field. */
  function Primary(m: Multi): (r: Single)
    requires WellFormed(m)
  {
    Canonical(First(m.schemes), First(m.hosts), First(m.ports), First(m.contextPaths), First(m.prefixes))
  }

  /** The primary is what `valueOf` builds from the first value of each field. */
  lemma PrimaryIsValueOf(m: Multi)
    requires Valid(m)
    ensures ValueOf(First(m.schemes), First(m.hosts), First(m.ports), First(m.contextPaths), First(m.prefixes)) == Ok(Primary(m))
  {
    if m.contextPaths.Some? {
      assert m.contextPaths.value[0] in m.contextPaths.value;
    }
    if m.prefixes.Some? {
      assert m.prefixes.value[0] in m.prefixes.value;
    }
  }

  /** `isComplete()`. */
  predicate IsComplete(m: Multi)
  {
    m.schemes.Some? && m.hosts.Some? && m.ports.Some? && m.contextPaths.Some?
  }

  // ---------------------------------------------------------------- combinations

  const INTEGER_MAX_VALUE: nat := 0x7fff_ffff

  function Size<T>(s: Option<seq<T>>): nat
  {
    if s.None? then 1 else |s.value|
  }

  /** The product of the field sizes, a null field counting once. */
  function CombinationCount(m: Multi): nat
  {
    Size(m.hosts) * (Size(m.contextPaths) * (Size(m.prefixes) * (Size(m.ports) * Size(m.schemes))))
  }

  /** The prefixes as a `TreeSet` ordered by `prefixComparator` iterates them: deepest first. */
  function SortedPrefixes(prefixes: Option<seq<Path>>): Option<seq<Path>>
  {
    if prefixes.None? then None else Some(InsertAll([], prefixes.value, ComparePrefixPaths))
  }

  type Slot = (Option<HostAddress>, (Option<Path>, (Option<Path>, (Option<Port>, Option<string>))))

  /** `valueOf(scheme, host, port, contextPath, prefix)` for one iteration of the nested loops. */
  function Assemble(t: Slot): Single
  {
    Canonical(t.1.1.1.1, t.0, t.1.1.1.0, t.1.0, t.1.1.0)
  }

  /** The nested loops: host, then context path, then prefix (deepest first), then port, then scheme. */
  function Slots5(m: Multi): seq<Slot>
  {
    Product(Slots(m.hosts), Product(Slots(m.contextPaths), Product(Slots(SortedPrefixes(m.prefixes)),
      Product(Slots(m.ports), Slots(m.schemes)))))
  }

  /** `getCombinations()`: refused when there would be more than `Integer.MAX_VALUE` of them. */
  function Combinations(m: Multi): (r: Result<seq<Single>, Error>)
    ensures r.Err? <==> CombinationCount(m) > INTEGER_MAX_VALUE
    ensures r.Err? ==> r.error == TooManyCombinations(CombinationCount(m))
  {
    var count := CombinationCount(m);
    if count > INTEGER_MAX_VALUE then Err(TooManyCombinations(count))
    else Ok(MapSeq(Slots5(m), Assemble))
  }

  /** A field value allowed by one field of the pattern: absent for a null field, one of the set otherwise. */
  predicate Allows<T(==)>(values: Option<seq<T>>, v: Option<T>)
  {
    if values.None? then v.None? else v.Some? && v.value in values.value
  }

  /** A single pattern that takes one allowed value per field. */
  predicate IsCombination(m: Multi, s: Single)
  {
    && Allows(m.schemes, s.scheme) && Allows(m.hosts, s.host) && Allows(m.ports, s.port)
    && Allows(m.contextPaths, s.contextPath) && Allows(m.prefixes, s.prefix)
  }

  lemma SortedPrefixesFacts(m: Multi)
    requires WellFormed(m)
    ensures IsFieldSet(SortedPrefixes(m.prefixes))
    ensures SortedPrefixes(m.prefixes).Some? <==> m.prefixes.Some?
    ensures m.prefixes.Some? ==>
      && StrictlySorted(SortedPrefixes(m.prefixes).value, ComparePrefixPaths)
      && |SortedPrefixes(m.prefixes).value| == |m.prefixes.value|
      && forall p :: p in SortedPrefixes(m.prefixes).value <==> p in m.prefixes.value
  {
    if m.prefixes.Some? {
      PrefixOrder();
      InsertAllSorts([], m.prefixes.value, ComparePrefixPaths);
      SortedNoDuplicates(SortedPrefixes(m.prefixes).value, ComparePrefixPaths);
    }
  }

  lemma SlotsMembership<T>(s: Option<seq<T>>, v: Option<T>)
    ensures v in Slots(s) <==> Allows(s, v)
  {
    if s.Some? && v.Some? && v.value in s.value {
      var i :| 0 <= i < |s.value| && s.value[i] == v.value;
      assert Slots(s)[i] == v;
    }
  }

  lemma SlotsNoDuplicates<T>(s: Option<seq<T>>)
    requires IsFieldSet(s)
    ensures NoDuplicates(Slots(s))
  {
  }

  /**
   * The combinations are exactly the single patterns taking one allowed
   * value per field, each once, as many as the product of the field sizes.
   */
  lemma CombinationsAreTheProduct(m: Multi)
    requires WellFormed(m) && Combinations(m).Ok?
    ensures var cs := Combinations(m).value;
      && |cs| == CombinationCount(m)
      && NoDuplicates(cs)
      && forall s :: s in cs <==> IsCombination(m, s)
  {
    CombinationsLength(m);
    CombinationsDistinct(m);
    forall s
      ensures s in Combinations(m).value <==> IsCombination(m, s)
    {
      CombinationsMembership(m, s);
    }
  }

  lemma CombinationsLength(m: Multi)
    requires WellFormed(m)
    ensures |Slots5(m)| == CombinationCount(m)
  {
    SortedPrefixesFacts(m);
    var sp := SortedPrefixes(m.prefixes);
    var ss, ps, ps2, cps, hs := Slots(m.schemes), Slots(m.ports), Slots(sp), Slots(m.contextPaths), Slots(m.hosts);
    var a := Product(ps, ss);
    var b := Product(ps2, a);
    var c := Product(cps, b);
    ProductLength(ps, ss);
    ProductLength(ps2, a);
    ProductLength(cps, b);
    ProductLength(hs, c);
    assert |ss| == Size(m.schemes) && |ps| == Size(m.ports) && |ps2| == Size(m.prefixes);
    assert |cps| == Size(m.contextPaths) && |hs| == Size(m.hosts);
  }

  lemma CombinationsDistinct(m: Multi)
    requires WellFormed(m)
    ensures NoDuplicates(MapSeq(Slots5(m), Assemble))
  {
    SortedPrefixesFacts(m);
    var sp := SortedPrefixes(m.prefixes);
    var ss, ps, ps2, cps, hs := Slots(m.schemes), Slots(m.ports), Slots(sp), Slots(m.contextPaths), Slots(m.hosts);
    SlotsNoDuplicates(m.schemes);
    SlotsNoDuplicates(m.ports);
    SlotsNoDuplicates(sp);
    SlotsNoDuplicates(m.contextPaths);
    SlotsNoDuplicates(m.hosts);
    ProductNoDuplicates(ps, ss);
    ProductNoDuplicates(ps2, Product(ps, ss));
    ProductNoDuplicates(cps, Product(ps2, Product(ps, ss)));
    ProductNoDuplicates(hs, Product(cps, Product(ps2, Product(ps, ss))));
    var tuples := Slots5(m);
    var cs := MapSeq(tuples, Assemble);
    forall i, j | 0 <= i < j < |cs|
      ensures cs[i] != cs[j]
    {
      AssembleInjective(m, tuples[i], tuples[j]);
    }
  }

  lemma CombinationsMembership(m: Multi, s: Single)
    requires WellFormed(m)
    ensures s in MapSeq(Slots5(m), Assemble) <==> IsCombination(m, s)
  {
    var tuples := Slots5(m);
    var cs := MapSeq(tuples, Assemble);
    if s in cs {
      var i :| 0 <= i < |cs| && cs[i] == s;
      SlotMembership(m, tuples[i]);
      CombinationIsLowerCase(m, tuples[i]);
    }
    if IsCombination(m, s) {
      var t: Slot := (s.host, (s.contextPath, (s.prefix, (s.port, s.scheme))));
      SlotMembership(m, t);
      CombinationIsLowerCase(m, t);
      var i :| 0 <= i < |tuples| && tuples[i] == t;
      assert cs[i] == s;
    }
  }

  /** Which slot tuples the nested loops visit. */
  lemma SlotMembership(m: Multi, t: Slot)
    requires WellFormed(m)
    ensures t in Slots5(m) <==>
      && Allows(m.hosts, t.0) && Allows(m.contextPaths, t.1.0) && Allows(m.prefixes, t.1.1.0)
      && Allows(m.ports, t.1.1.1.0) && Allows(m.schemes, t.1.1.1.1)
  {
    SortedPrefixesFacts(m);
    var sp := SortedPrefixes(m.prefixes);
    var ss, ps, ps2, cps, hs := Slots(m.schemes), Slots(m.ports), Slots(sp), Slots(m.contextPaths), Slots(m.hosts);
    ProductMembership(hs, Product(cps, Product(ps2, Product(ps, ss))), t);
    ProductMembership(cps, Product(ps2, Product(ps, ss)), t.1);
    ProductMembership(ps2, Product(ps, ss), t.1.1);
    ProductMembership(ps, ss, t.1.1.1);
    SlotsMembership(m.hosts, t.0);
    SlotsMembership(m.contextPaths, t.1.0);
    SlotsMembership(sp, t.1.1.0);
    SlotsMembership(m.ports, t.1.1.1.0);
    SlotsMembership(m.schemes, t.1.1.1.1);
  }

  /** Lower-casing leaves the schemes of a combination as they are. */
  lemma CombinationIsLowerCase(m: Multi, t: Slot)
    requires WellFormed(m) && Allows(m.schemes, t.1.1.1.1)
    ensures Assemble(t) == Single(t.1.1.1.1, t.0, t.1.1.1.0, t.1.0, t.1.1.0)
  {
  }

  lemma AssembleInjective(m: Multi, t: Slot, u: Slot)
    requires WellFormed(m) && t in Slots5(m) && u in Slots5(m) && t != u
    ensures Assemble(t) != Assemble(u)
  {
    SlotMembership(m, t);
    SlotMembership(m, u);
    CombinationIsLowerCase(m, t);
    CombinationIsLowerCase(m, u);
  }

  /** Every combination is a pattern the constructor accepts. */
  lemma CombinationsAreValid(m: Multi, s: Single)
    requires Valid(m) && Combinations(m).Ok? && s in Combinations(m).value
    ensures SinglePartial.Valid(s)
    ensures ValueOf(s.scheme, s.host, s.port, s.contextPath, s.prefix) == Ok(s)
  {
    CombinationsAreTheProduct(m);
  }

  /** The primary is one of the combinations, and the first of them when there is at most one prefix. */
  lemma PrimaryAmongCombinations(m: Multi)
    requires WellFormed(m) && Combinations(m).Ok?
    ensures Primary(m) in Combinations(m).value
    ensures Size(m.prefixes) == 1 ==> Combinations(m).value[0] == Primary(m)
  {
    if m.schemes.Some? {
      assert m.schemes.value[0] in m.schemes.value;
    }
    assert IsCombination(m, Primary(m));
    CombinationsMembership(m, Primary(m));
    if Size(m.prefixes) == 1 {
      PrimaryFirst(m);
    }
  }

  lemma PrimaryFirst(m: Multi)
    requires WellFormed(m) && Size(m.prefixes) == 1
    ensures |Slots5(m)| > 0 && Assemble(Slots5(m)[0]) == Primary(m)
  {
    SortedPrefixesFacts(m);
    var sp := SortedPrefixes(m.prefixes);
    if m.prefixes.Some? {
      assert sp.value[0] in m.prefixes.value;
    }
    var ss, ps, ps2, cps, hs := Slots(m.schemes), Slots(m.ports), Slots(sp), Slots(m.contextPaths), Slots(m.hosts);
    ProductFirst(ps, ss);
    ProductFirst(ps2, Product(ps, ss));
    ProductFirst(cps, Product(ps2, Product(ps, ss)));
    ProductFirst(hs, Product(cps, Product(ps2, Product(ps, ss))));
  }

  // ---------------------------------------------------------------- matching

  /**
   * The do-while loop of `matches` from the slash at `lastSlash` back to the
   * first one: the first slash-ended prefix of `path` that is listed.  Every
   * longer slash-ended prefix has already been looked up and rejected.
   */
  function ScanFrom(path: Path, prefixes: seq<Path>, lastSlash: int): (r: Option<Path>)
    requires -1 <= lastSlash < |path| && (lastSlash >= 0 ==> path[lastSlash] == '/')
    requires forall q :: q in prefixes && StartsWith(path, q) && EndsWith(q, '/') ==> |q| <= lastSlash + 1
    ensures r.Some? ==> r.value in prefixes && StartsWith(path, r.value) && EndsWith(r.value, '/')
    ensures forall q :: q in prefixes && StartsWith(path, q) && EndsWith(q, '/') ==> r.Some? && |q| <= |r.value|
    decreases lastSlash + 1
  {
    if lastSlash < 0 then None
    else
      var prefix: Path := path[..lastSlash + 1];
      if prefix in prefixes then Some(prefix)
      else ScanFrom(path, prefixes, LastIndexOf(path, '/', lastSlash - 1))
  }

  /** The prefix search of `matches`: the longest listed prefix of `path` that ends in a slash. */
  function ScanPrefixes(path: Path, prefixes: seq<Path>): (r: Option<Path>)
    ensures r.Some? ==> r.value in prefixes && StartsWith(path, r.value) && EndsWith(r.value, '/')
    ensures forall q :: q in prefixes && StartsWith(path, q) && EndsWith(q, '/') ==> r.Some? && |q| <= |r.value|
  {
    ScanFrom(path, prefixes, LastIndexOf(path, '/', |path| - 1))
  }

  /** The prefix search depends only on which prefixes are listed, not on their order. */
  lemma ScanPrefixesBySet(path: Path, ps: seq<Path>, qs: seq<Path>)
    requires forall p :: p in ps <==> p in qs
    ensures ScanPrefixes(path, ps) == ScanPrefixes(path, qs)
  {
    var a, b := ScanPrefixes(path, ps), ScanPrefixes(path, qs);
    if a.Some? {
      assert |a.value| <= |b.value| && |b.value| <= |a.value|;
      assert a.value == path[..|a.value|] && b.value == path[..|b.value|];
    }
  }

  /** A field the pattern leaves null, or lists `v` in. */
  predicate Admits<T(==)>(values: Option<seq<T>>, v: T)
  {
    values.None? || v in values.value
  }

  /** The request's value for a field the pattern lists, absent for a null field. */
  function Selected<T>(values: Option<seq<T>>, v: T): Option<T>
  {
    if values.None? then None else Some(v)
  }

  /** `valueOf` on the request's values of the listed fields and the given prefix. */
  function Selection(m: Multi, src: FieldSource, prefix: Option<Path>): Single
  {
    Canonical(Selected(m.schemes, ToLower(src.scheme)), Selected(m.hosts, src.host), Selected(m.ports, src.port),
      Selected(m.contextPaths, src.contextPath), prefix)
  }

  /**
   * `matches(fieldSource)`: the scheme, host, port and context path of the
   * request must each be listed (or the field null); then the longest listed
   * prefix of the request path is searched for.  The result is the
   * combination that matches, or nothing when no combination does.
   */
  function Matches(m: Multi, src: FieldSource): (r: Option<Single>)
    requires Valid(m)
    ensures r.Some? ==> IsCombination(m, r.value) && MatchesSource(r.value, src)
    ensures r.None? ==> forall s :: IsCombination(m, s) ==> !MatchesSource(s, src)
  {
    ToLowerIdempotent(src.scheme);
    if !Admits(m.schemes, ToLower(src.scheme)) then None
    else if !Admits(m.hosts, src.host) then None
    else if !Admits(m.ports, src.port) then None
    else if !Admits(m.contextPaths, src.contextPath) then None
    else if m.prefixes.None? then Some(Selection(m, src, None))
    else if src.path.None? then None
    else
      var prefix := ScanPrefixes(src.path.value, m.prefixes.value);
      if prefix.None? then None else Some(Selection(m, src, prefix))
  }

  /** `matchesSequential(fieldSource)`: the first of the combinations that matches. */
  function MatchesSequential(m: Multi, src: FieldSource): Result<Option<Single>, Error>
  {
    var combinations :- Combinations(m);
    Ok(FirstWhere(combinations, (s: Single) => SinglePartial.Matches(s, src).Some?))
  }

  type Tail4 = (Option<Port>, Option<string>)
  type Tail3 = (Option<Path>, Tail4)
  type Tail2 = (Option<Path>, Tail3)

  /** The match test of the assembled combination, split along the nesting of the loops. */
  predicate Q4(src: FieldSource, t: Tail4)
  {
    PortMatches(t.0, src) && SchemeMatches(LowerOpt(t.1), src)
  }

  predicate Q3(src: FieldSource, t: Tail3)
  {
    PrefixMatches(t.0, src) && Q4(src, t.1)
  }

  predicate Q2(src: FieldSource, t: Tail2)
  {
    ContextPathMatches(t.0, src) && Q3(src, t.1)
  }

  predicate Q1(src: FieldSource, t: Slot)
  {
    HostMatches(t.0, src) && Q2(src, t.1)
  }

  /** The first slot of one field whose value agrees with `v`. */
  lemma FirstSlot<T>(s: Option<seq<T>>, v: T, p: Option<T> -> bool)
    requires p(None)
    requires s.Some? ==> forall x :: x in s.value ==> p(Some(x)) == (x == v)
    ensures FirstWhere(Slots(s), p) == if Admits(s, v) then Some(Selected(s, v)) else None
  {
    FirstWhereSlots(s, p, x => p(Some(x)));
    if s.Some? {
      FirstWhereSamePredicate(s.value, x => p(Some(x)), x => x == v);
      FirstWhereEquals(s.value, v, x => x == v);
    }
  }

  lemma FirstTail4(m: Multi, src: FieldSource)
    requires WellFormed(m)
    ensures FirstWhere(Product(Slots(m.ports), Slots(m.schemes)), (t: Tail4) => Q4(src, t))
         == if Admits(m.ports, src.port) && Admits(m.schemes, ToLower(src.scheme))
            then Some((Selected(m.ports, src.port), Selected(m.schemes, ToLower(src.scheme))))
            else None
  {
    var pp := (x: Option<Port>) => PortMatches(x, src);
    var sp := (x: Option<string>) => SchemeMatches(LowerOpt(x), src);
    FirstSlot(m.ports, src.port, pp);
    FirstSchemeSlot(m, src);
    var a := if Admits(m.ports, src.port) then Some(Selected(m.ports, src.port)) else None;
    var b := if Admits(m.schemes, ToLower(src.scheme)) then Some(Selected(m.schemes, ToLower(src.scheme))) else None;
    FirstOfProduct(Slots(m.ports), Slots(m.schemes), pp, sp, (t: Tail4) => Q4(src, t), a, b);
  }

  /** Schemes are listed lower-case, so the slot selected is the request's lower-cased scheme. */
  lemma FirstSchemeSlot(m: Multi, src: FieldSource)
    requires WellFormed(m)
    ensures FirstWhere(Slots(m.schemes), (x: Option<string>) => SchemeMatches(LowerOpt(x), src))
         == if Admits(m.schemes, ToLower(src.scheme)) then Some(Selected(m.schemes, ToLower(src.scheme))) else None
  {
    var sp := (x: Option<string>) => SchemeMatches(LowerOpt(x), src);
    if m.schemes.Some? {
      forall x | x in m.schemes.value
        ensures sp(Some(x)) == (x == ToLower(src.scheme))
      {
        assert IsLowerCase(x);
        assert LowerOpt(Some(x)) == Some(x);
      }
    }
    FirstSlot(m.schemes, ToLower(src.scheme), sp);
  }

  /** The prefix slot a request selects: the null slot for a null field, else the longest listed prefix of its path. */
  function PrefixSlot(m: Multi, src: FieldSource): Option<Option<Path>>
  {
    if m.prefixes.None? then Some(None)
    else if src.path.None? then None
    else
      var prefix := ScanPrefixes(src.path.value, m.prefixes.value);
      if prefix.None? then None else Some(prefix)
  }

  /**
   * In a list sorted by `prefixComparator`, the first prefix of a path is
   * the longest one: what the deepest-first order of the prefix loop is for.
   */
  lemma FirstPrefixIsLongest(path: Path, sp: seq<Path>, ps: seq<Path>)
    requires StrictlySorted(sp, ComparePrefixPaths)
    requires forall x :: x in sp <==> x in ps
    requires forall x :: x in ps ==> ValidPrefix(x)
    ensures FirstWhere(sp, (x: Path) => StartsWith(path, x)) == ScanPrefixes(path, ps)
  {
    var p := (x: Path) => StartsWith(path, x);
    var f, r := FirstWhere(sp, p), ScanPrefixes(path, ps);
    if f.Some? {
      assert r.Some? && |f.value| <= |r.value|;
      var i := FirstWhereIndex(sp, p);
      var j :| 0 <= j < |sp| && sp[j] == r.value;
      assert p(sp[j]);
      assert i <= j;
      if i < j {
        assert ComparePrefixPaths(sp[i], sp[j]) < 0;
      }
      if f.value != r.value {
        PrefixesOfOneString(path, r.value, f.value);
        DeeperPrefixFirst(r.value, f.value);
        PrefixOrder();
        assert false;
      }
    } else if r.Some? {
      assert false;
    }
  }

  lemma FirstTail3(m: Multi, src: FieldSource)
    requires Valid(m)
    ensures FirstWhere(Product(Slots(SortedPrefixes(m.prefixes)), Product(Slots(m.ports), Slots(m.schemes))), (t: Tail3) => Q3(src, t))
         == if PrefixSlot(m, src).Some? && Admits(m.ports, src.port) && Admits(m.schemes, ToLower(src.scheme))
            then Some((PrefixSlot(m, src).value, (Selected(m.ports, src.port), Selected(m.schemes, ToLower(src.scheme)))))
            else None
  {
    var sp := SortedPrefixes(m.prefixes);
    var pp := (x: Option<Path>) => PrefixMatches(x, src);
    FirstPrefixSlot(m, src);
    FirstTail4(m, src);
    var b := if Admits(m.ports, src.port) && Admits(m.schemes, ToLower(src.scheme))
             then Some((Selected(m.ports, src.port), Selected(m.schemes, ToLower(src.scheme)))) else None;
    FirstOfProduct(Slots(sp), Product(Slots(m.ports), Slots(m.schemes)), pp, (t: Tail4) => Q4(src, t), (t: Tail3) => Q3(src, t),
      PrefixSlot(m, src), b);
  }

  /** The prefix slot found first is the one the request selects. */
  lemma FirstPrefixSlot(m: Multi, src: FieldSource)
    requires Valid(m)
    ensures FirstWhere(Slots(SortedPrefixes(m.prefixes)), (x: Option<Path>) => PrefixMatches(x, src)) == PrefixSlot(m, src)
  {
    var sp := SortedPrefixes(m.prefixes);
    var pp := (x: Option<Path>) => PrefixMatches(x, src);
    SortedPrefixesFacts(m);
    var q := (x: Path) => pp(Some(x));
    FirstWhereSlots(sp, pp, q);
    if m.prefixes.Some? {
      if src.path.Some? {
        FirstWhereSamePredicate(sp.value, q, (x: Path) => StartsWith(src.path.value, x));
        FirstPrefixIsLongest(src.path.value, sp.value, m.prefixes.value);
      } else {
        FirstWhereSamePredicate(sp.value, q, (x: Path) => false);
        assert FirstWhere(sp.value, (x: Path) => false) == None;
      }
    }
  }

  lemma FirstTail2(m: Multi, src: FieldSource)
    requires Valid(m)
    ensures FirstWhere(Product(Slots(m.contextPaths), Product(Slots(SortedPrefixes(m.prefixes)), Product(Slots(m.ports), Slots(m.schemes)))), (t: Tail2) => Q2(src, t))
         == if Admits(m.contextPaths, src.contextPath) && PrefixSlot(m, src).Some? && Admits(m.ports, src.port) && Admits(m.schemes, ToLower(src.scheme))
            then Some((Selected(m.contextPaths, src.contextPath), (PrefixSlot(m, src).value, (Selected(m.ports, src.port), Selected(m.schemes, ToLower(src.scheme))))))
            else None
  {
    var cp := (x: Option<Path>) => ContextPathMatches(x, src);
    FirstTail3(m, src);
    FirstSlot(m.contextPaths, src.contextPath, cp);
    var a := if Admits(m.contextPaths, src.contextPath) then Some(Selected(m.contextPaths, src.contextPath)) else None;
    var b := if PrefixSlot(m, src).Some? && Admits(m.ports, src.port) && Admits(m.schemes, ToLower(src.scheme))
             then Some((PrefixSlot(m, src).value, (Selected(m.ports, src.port), Selected(m.schemes, ToLower(src.scheme))))) else None;
    FirstOfProduct(Slots(m.contextPaths), Product(Slots(SortedPrefixes(m.prefixes)), Product(Slots(m.ports), Slots(m.schemes))),
      cp, (t: Tail3) => Q3(src, t), (t: Tail2) => Q2(src, t), a, b);
  }

  lemma FirstSlot5(m: Multi, src: FieldSource)
    requires Valid(m)
    ensures FirstWhere(Slots5(m), (t: Slot) => Q1(src, t))
         == if Admits(m.hosts, src.host) && Admits(m.contextPaths, src.contextPath) && PrefixSlot(m, src).Some?
               && Admits(m.ports, src.port) && Admits(m.schemes, ToLower(src.scheme))
            then Some((Selected(m.hosts, src.host), (Selected(m.contextPaths, src.contextPath), (PrefixSlot(m, src).value,
              (Selected(m.ports, src.port), Selected(m.schemes, ToLower(src.scheme)))))))
            else None
  {
    var tails := Product(Slots(m.contextPaths), Product(Slots(SortedPrefixes(m.prefixes)), Product(Slots(m.ports), Slots(m.schemes))));
    var hp := (x: Option<HostAddress>) => HostMatches(x, src);
    FirstTail2(m, src);
    FirstSlot(m.hosts, src.host, hp);
    var a := if Admits(m.hosts, src.host) then Some(Selected(m.hosts, src.host)) else None;
    var b := if Admits(m.contextPaths, src.contextPath) && PrefixSlot(m, src).Some? && Admits(m.ports, src.port) && Admits(m.schemes, ToLower(src.scheme))
             then Some((Selected(m.contextPaths, src.contextPath), (PrefixSlot(m, src).value, (Selected(m.ports, src.port), Selected(m.schemes, ToLower(src.scheme))))))
             else None;
    FirstOfProduct(Slots(m.hosts), tails, hp, (t: Tail2) => Q2(src, t), (t: Slot) => Q1(src, t), a, b);
  }

  /**
   * The fused `matches` agrees with `matchesSequential`: it returns the
   * first combination, in `getCombinations()` order, that matches the
   * request, or nothing when none does.
   */
  lemma {:induction false} MatchesIsFirstCombination(m: Multi, src: FieldSource)
    requires Valid(m) && Combinations(m).Ok?
    ensures MatchesSequential(m, src) == Ok(Matches(m, src))
  {
    var p := (s: Single) => SinglePartial.Matches(s, src).Some?;
    var q := (t: Slot) => Q1(src, t);
    FirstWhereMap(Slots5(m), Assemble, p, q);
    FirstSlot5(m, src);
    ToLowerIdempotent(src.scheme);
  }

  /**
   * Of the combinations that match a request, `matches` returns the one
   * with the deepest prefix: every other matching combination agrees with
   * it on scheme, host, port and context path, and has a shorter prefix.
   */
  lemma MatchesPrefersDeepest(m: Multi, src: FieldSource, s: Single)
    requires Valid(m) && IsCombination(m, s) && MatchesSource(s, src)
    ensures Matches(m, src).Some?
    ensures var r := Matches(m, src).value;
      && r.scheme == s.scheme && r.host == s.host && r.port == s.port && r.contextPath == s.contextPath
      && (r.prefix == s.prefix || ComparePrefixes(r.prefix, s.prefix) < 0)
  {
    ToLowerIdempotent(src.scheme);
    var r := Matches(m, src).value;
    if m.prefixes.Some? {
      var q := s.prefix.value;
      assert q in m.prefixes.value;
      PrefixesOfOneString(src.path.value, r.prefix.value, q);
      if r.prefix.value != q {
        DeeperPrefixFirst(r.prefix.value, q);
      }
    }
  }

  // ---------------------------------------------------------------- URLs

  /**
   * One field of `toURL`: a null field takes the request's value; a listed
   * field takes the request's value when that is listed, else the first
   * listed value.
   */
  function Choose<T(==)>(values: Option<seq<T>>, src: Option<FieldSource>, get: FieldSource -> T): Result<T, Error>
    requires values.Some? ==> |values.value| > 0
  {
    if values.None? then Pick(None, src, get)
    else if src.Some? && get(src.value) in values.value then Ok(get(src.value))
    else Ok(values.value[0])
  }

  /**
   * `toURL(fieldSource)`: each field chosen as above (the scheme compared
   * lower-case), a default port dropped, and the file built from the chosen
   * context path and the first listed prefix.
   */
  function ToURL(m: Multi, src: Option<FieldSource>): (r: Result<URL, Error>)
    requires WellFormed(m)
    ensures r.Ok? <==> src.Some? || IsComplete(m)
    ensures r.Err? ==> r.error == MissingFieldSource
  {
    var schemeStr :-
      if m.schemes.None? then Pick(None, src, (f: FieldSource) => f.scheme)
      else Choose(m.schemes, src, (f: FieldSource) => ToLower(f.scheme));
    var port :- Choose(m.ports, src, (f: FieldSource) => f.port);
    var portNum := if IsDefaultPort(schemeStr, port.number) then -1 else port.number;
    var host :- Choose(m.hosts, src, (f: FieldSource) => f.host);
    var contextPath :- Choose(m.contextPaths, src, (f: FieldSource) => f.contextPath);
    Ok(NewURL(schemeStr, host, portNum, FileOf(contextPath, First(m.prefixes))))
  }

  /**
   * Without a request the pattern builds the URL of its primary, which is
   * possible exactly when the pattern is complete; with a request it always
   * succeeds.
   */
  lemma ToURLWithoutSource(m: Multi, src: FieldSource)
    requires WellFormed(m)
    ensures ToURL(m, None) == SinglePartial.ToURL(Primary(m), None)
    ensures ToURL(m, None).Ok? <==> IsComplete(m)
    ensures ToURL(m, Some(src)).Ok?
  {
    if m.schemes.Some? {
      assert m.schemes.value[0] in m.schemes.value;
    }
  }

  /** The single pattern whose URL `toURL` builds: the chosen value of every listed field and the first prefix. */
  function Chosen(m: Multi, src: FieldSource): Single
    requires WellFormed(m)
  {
    Single(
      if m.schemes.None? then None else Some(Choose(m.schemes, Some(src), (f: FieldSource) => ToLower(f.scheme)).value),
      if m.hosts.None? then None else Some(Choose(m.hosts, Some(src), (f: FieldSource) => f.host).value),
      if m.ports.None? then None else Some(Choose(m.ports, Some(src), (f: FieldSource) => f.port).value),
      if m.contextPaths.None? then None else Some(Choose(m.contextPaths, Some(src), (f: FieldSource) => f.contextPath).value),
      First(m.prefixes))
  }

  /** The URL built for a request is the URL of one of the combinations. */
  lemma ToURLIsACombinationURL(m: Multi, src: FieldSource)
    requires WellFormed(m)
    ensures IsCombination(m, Chosen(m, src))
    ensures ToURL(m, Some(src)) == SinglePartial.ToURL(Chosen(m, src), Some(src))
  {
    if m.schemes.Some? { assert m.schemes.value[0] in m.schemes.value; }
    if m.hosts.Some? { assert m.hosts.value[0] in m.hosts.value; }
    if m.ports.Some? { assert m.ports.value[0] in m.ports.value; }
    if m.contextPaths.Some? { assert m.contextPaths.value[0] in m.contextPaths.value; }
    if m.prefixes.Some? { assert m.prefixes.value[0] in m.prefixes.value; }
  }

  /**
   * With at most one prefix, the URL of the match is the URL the pattern
   * builds for the same request.
   */
  lemma MatchedURLConsistent(m: Multi, src: FieldSource)
    requires Valid(m) && Size(m.prefixes) == 1 && Matches(m, src).Some?
    ensures SinglePartial.ToURL(Matches(m, src).value, Some(src)) == ToURL(m, Some(src))
  {
    ToLowerIdempotent(src.scheme);
    var r := Matches(m, src).value;
    if m.prefixes.Some? {
      assert r.prefix.value in m.prefixes.value;
    }
    assert r.prefix == First(m.prefixes);
    ChooseSelected(m.ports, src, (f: FieldSource) => f.port);
    ChooseSelected(m.hosts, src, (f: FieldSource) => f.host);
    ChooseSelected(m.contextPaths, src, (f: FieldSource) => f.contextPath);
    if m.schemes.Some? {
      ChooseSelected(m.schemes, src, (f: FieldSource) => ToLower(f.scheme));
    }
  }

  /** A field that admits the request's value chooses that value, as the matched pattern does. */
  lemma ChooseSelected<T>(values: Option<seq<T>>, src: FieldSource, get: FieldSource -> T)
    requires values.Some? ==> |values.value| > 0
    requires Admits(values, get(src))
    ensures Choose(values, Some(src), get) == Pick(Selected(values, get(src)), Some(src), get)
  {
  }

  // ---------------------------------------------------------------- equality

  /** `Objects.equals` of two field sets: both null, or the same members in any order. */
  predicate SameField<T(==)>(a: Option<seq<T>>, b: Option<seq<T>>)
  {
    (a.None? && b.None?) || (a.Some? && b.Some? && Elements(a.value) == Elements(b.value))
  }

  /**
   * `equals(obj)` between two multi-valued patterns: field by field, as sets.
   * Two well-formed patterns are equal exactly when they stand for the same
   * single patterns.
   */
  predicate Equals(a: Multi, b: Multi)
    ensures WellFormed(a) && WellFormed(b) ==> (Equals(a, b) <==> forall s :: IsCombination(a, s) <==> IsCombination(b, s))
  {
    SameFieldsSameCombinations(a, b);
    && SameField(a.schemes, b.schemes) && SameField(a.hosts, b.hosts) && SameField(a.ports, b.ports)
    && SameField(a.contextPaths, b.contextPaths) && SameField(a.prefixes, b.prefixes)
  }

  lemma SameFieldMembers<T>(a: Option<seq<T>>, b: Option<seq<T>>)
    requires SameField(a, b)
    ensures a.Some? <==> b.Some?
    ensures a.Some? ==> forall x :: x in a.value <==> x in b.value
  {
    if a.Some? {
      forall x
        ensures x in a.value <==> x in b.value
      {
        assert x in a.value <==> x in Elements(a.value);
        assert x in b.value <==> x in Elements(b.value);
      }
    }
  }

  /** Fields equal as sets, and only they, give well-formed patterns the same combinations. */
  lemma SameFieldsSameCombinations(a: Multi, b: Multi)
    ensures WellFormed(a) && WellFormed(b) ==>
      ((&& SameField(a.schemes, b.schemes) && SameField(a.hosts, b.hosts) && SameField(a.ports, b.ports)
        && SameField(a.contextPaths, b.contextPaths) && SameField(a.prefixes, b.prefixes))
       <==> forall s :: IsCombination(a, s) <==> IsCombination(b, s))
  {
    if WellFormed(a) && WellFormed(b) {
      if && SameField(a.schemes, b.schemes) && SameField(a.hosts, b.hosts) && SameField(a.ports, b.ports)
         && SameField(a.contextPaths, b.contextPaths) && SameField(a.prefixes, b.prefixes)
      {
        SameFieldMembers(a.schemes, b.schemes);
        SameFieldMembers(a.hosts, b.hosts);
        SameFieldMembers(a.ports, b.ports);
        SameFieldMembers(a.contextPaths, b.contextPaths);
        SameFieldMembers(a.prefixes, b.prefixes);
      }
      if forall s :: IsCombination(a, s) <==> IsCombination(b, s) {
        SameCombinationsSameFields(a, b);
      }
    }
  }

  /** Well-formed patterns with the same combinations allow the same values in every field. */
  lemma SameCombinationsSameFields(a: Multi, b: Multi)
    requires WellFormed(a) && WellFormed(b)
    requires forall s :: IsCombination(a, s) <==> IsCombination(b, s)
    ensures SameField(a.schemes, b.schemes) && SameField(a.hosts, b.hosts) && SameField(a.ports, b.ports)
    ensures SameField(a.contextPaths, b.contextPaths) && SameField(a.prefixes, b.prefixes)
  {
    var w := Single(First(a.schemes), First(a.hosts), First(a.ports), First(a.contextPaths), First(a.prefixes));
    assert IsCombination(a, w) by {
      if a.schemes.Some? { assert a.schemes.value[0] in a.schemes.value; }
      if a.hosts.Some? { assert a.hosts.value[0] in a.hosts.value; }
      if a.ports.Some? { assert a.ports.value[0] in a.ports.value; }
      if a.contextPaths.Some? { assert a.contextPaths.value[0] in a.contextPaths.value; }
      if a.prefixes.Some? { assert a.prefixes.value[0] in a.prefixes.value; }
    }
    assert IsCombination(b, w);
    forall v ensures Allows(a.schemes, v) <==> Allows(b.schemes, v) {
      assert IsCombination(a, w.(scheme := v)) <==> IsCombination(b, w.(scheme := v));
    }
    forall v ensures Allows(a.hosts, v) <==> Allows(b.hosts, v) {
      assert IsCombination(a, w.(host := v)) <==> IsCombination(b, w.(host := v));
    }
    forall v ensures Allows(a.ports, v) <==> Allows(b.ports, v) {
      assert IsCombination(a, w.(port := v)) <==> IsCombination(b, w.(port := v));
    }
    forall v ensures Allows(a.contextPaths, v) <==> Allows(b.contextPaths, v) {
      assert IsCombination(a, w.(contextPath := v)) <==> IsCombination(b, w.(contextPath := v));
    }
    forall v ensures Allows(a.prefixes, v) <==> Allows(b.prefixes, v) {
      assert IsCombination(a, w.(prefix := v)) <==> IsCombination(b, w.(prefix := v));
    }
    SameAllowsSameField(a.schemes, b.schemes);
    SameAllowsSameField(a.hosts, b.hosts);
    SameAllowsSameField(a.ports, b.ports);
    SameAllowsSameField(a.contextPaths, b.contextPaths);
    SameAllowsSameField(a.prefixes, b.prefixes);
  }

  /** Two fields that allow the same values are equal as sets. */
  lemma SameAllowsSameField<T>(a: Option<seq<T>>, b: Option<seq<T>>)
    requires forall v :: Allows(a, v) <==> Allows(b, v)
    ensures SameField(a, b)
  {
    assert Allows(a, None) <==> Allows(b, None);
    if a.Some? {
      forall x ensures x in Elements(a.value) <==> x in Elements(b.value) {
        assert Allows(a, Some(x)) <==> Allows(b, Some(x));
      }
    }
  }

  /** Equal patterns stand for the same combinations and match every request alike. */
  lemma EqualPatternsMatchAlike(a: Multi, b: Multi, src: FieldSource)
    requires Valid(a) && Valid(b) && Equals(a, b)
    ensures forall s :: IsCombination(a, s) <==> IsCombination(b, s)
    ensures Matches(a, src) == Matches(b, src)
  {
    SameFieldMembers(a.schemes, b.schemes);
    SameFieldMembers(a.hosts, b.hosts);
    SameFieldMembers(a.ports, b.ports);
    SameFieldMembers(a.contextPaths, b.contextPaths);
    SameFieldMembers(a.prefixes, b.prefixes);
    EqualPatternsMatch(a, b, src);
  }

  lemma EqualPatternsMatch(a: Multi, b: Multi, src: FieldSource)
    requires Valid(a) && Valid(b) && Equals(a, b)
    ensures Matches(a, src) == Matches(b, src)
  {
    SameFieldSelects(a.schemes, b.schemes, ToLower(src.scheme));
    SameFieldSelects(a.hosts, b.hosts, src.host);
    SameFieldSelects(a.ports, b.ports, src.port);
    SameFieldSelects(a.contextPaths, b.contextPaths, src.contextPath);
    SameFieldMembers(a.prefixes, b.prefixes);
    assert Selection(a, src, None) == Selection(b, src, None);
    if a.prefixes.Some? && src.path.Some? {
      ScanPrefixesBySet(src.path.value, a.prefixes.value, b.prefixes.value);
      var prefix := ScanPrefixes(src.path.value, a.prefixes.value);
      assert Selection(a, src, prefix) == Selection(b, src, prefix);
    }
  }

  /** Fields equal as sets admit and select the same request values. */
  lemma SameFieldSelects<T>(a: Option<seq<T>>, b: Option<seq<T>>, v: T)
    requires SameField(a, b)
    ensures Admits(a, v) == Admits(b, v)
    ensures Selected(a, v) == Selected(b, v)
  {
    SameFieldMembers(a, b);
  }

  // ---------------------------------------------------------------- rendering

  /** The values of a field separated by commas. */
  function Join(parts: seq<string>): string
  {
    if |parts| == 0 then ""
    else if |parts| == 1 then parts[0]
    else parts[0] + "," + Join(parts[1..])
  }

  /** One value as it is, several in braces. */
  function Listed(parts: seq<string>): string
  {
    if |parts| == 1 then parts[0] else "{" + Join(parts) + "}"
  }

  /** A context path as rendered: nothing for the root. */
  function ContextPathString(c: Path): string
  {
    if c == ROOT then "" else c
  }

  function PortString(p: Port): string
  {
    NatToString(p.number)
  }

  function HostString(h: HostAddress): string
  {
    h.name
  }

  // `toString()`: like the single pattern's, each field with several values
  // rendered as a brace list; a lone port is hidden when the pattern has one
  // scheme, it is http or https, and the port is that scheme's default.
  function ToString(m: Multi): string
    requires WellFormed(m)
  {
    var schemeStr := if m.schemes.None? then "" else Listed(m.schemes.value) + ":";
    var hostStr := if m.hosts.None? then WILDCARD else Listed(MapSeq(m.hosts.value, HostString));
    var portStr :=
      if m.ports.None? then ":" + WILDCARD
      else if |m.ports.value| == 1 then
        var scheme := if m.schemes.None? || |m.schemes.value| > 1 then None else Some(m.schemes.value[0]);
        var n := m.ports.value[0].number;
        if (scheme == Some(HTTP) && n == 80) || (scheme == Some(HTTPS) && n == 443) then "" else ":" + NatToString(n)
      else ":{" + Join(MapSeq(m.ports.value, PortString)) + "}";
    var contextPathStr := if m.contextPaths.None? then NULL_CONTEXT_PATH else Listed(MapSeq(m.contextPaths.value, ContextPathString));
    var prefixStr := if m.prefixes.None? then NULL_PREFIX else Listed(m.prefixes.value);
    schemeStr + "//" + hostStr + portStr + contextPathStr + prefixStr
  }

  /** A pattern with at most one value per field renders exactly as its primary. */
  lemma ToStringOfSingletons(m: Multi)
    requires WellFormed(m)
    requires Size(m.schemes) == 1 && Size(m.hosts) == 1 && Size(m.ports) == 1
    requires Size(m.contextPaths) == 1 && Size(m.prefixes) == 1
    ensures ToString(m) == SinglePartial.ToString(Primary(m))
  {
    if m.schemes.Some? {
      assert m.schemes.value[0] in m.schemes.value;
    }
  }
}
