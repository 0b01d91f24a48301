/**
 * PartialURL: either a single pattern or a multi-valued one, the factories
 * that pick between them, and the operations every partial URL offers.
 */
module Partial {
  import opened Wrappers
  import opened Strings
  import opened Collections
  import opened Net
  import opened Fields
  import opened Errors
  import SinglePartial
  import MultiPartial

  type Single = SinglePartial.Single
  type Multi = MultiPartial.Multi

  datatype PartialURL = SingleURL(single: Single) | MultiURL(multi: Multi)

  /** What the constructors of the two kinds insist on. */
  predicate Valid(p: PartialURL)
  {
    match p
    case SingleURL(s) => SinglePartial.Valid(s)
    case MultiURL(m) => MultiPartial.Valid(m)
  }

  // ---------------------------------------------------------------- factories

  /** Every element of the argument is null. */
  predicate AllNull<T>(values: seq<Option<T>>)
  {
    forall i :: 0 <= i < |values| ==> values[i].None?
  }

  /**
   * One field of `valueOf(Iterable...)`: null elements skipped, duplicates
   * dropped in first-seen order, and an empty result turned into null.
   */
  function FieldSet<T(==,!new)>(values: Option<seq<Option<T>>>): (r: Option<seq<T>>)
    ensures MultiPartial.IsFieldSet(r)
    ensures r.None? <==> values.None? || AllNull(values.value)
    ensures r.Some? ==> forall x :: x in r.value <==> Some(x) in values.value
    ensures r.Some? ==> values.Some? && FirstSeen(r.value, values.value)
  {
    if values.None? then None
    else
      var present := Distinct(Present(values.value));
      if |present| == 0 then
        assert AllNull(values.value) by {
          forall i | 0 <= i < |values.value|
            ensures values.value[i].None?
          {
            assert values.value[i] in values.value;
          }
        }
        None
      else
        assert Some(present[0]) in values.value;
        DistinctPresentOrder(values.value);
        Some(present)
  }

  /** The values of `r` first occur in `values` in the order `r` lists them. */
  predicate FirstSeen<T(==)>(r: seq<T>, values: seq<Option<T>>)
  {
    forall i, j :: 0 <= i < j < |r| ==> Position(values, Some(r[i])) < Position(values, Some(r[j]))
  }

  lemma DistinctPresentOrder<T(!new)>(values: seq<Option<T>>)
    ensures FirstSeen(Distinct(Present(values)), values)
  {
    var d := Distinct(Present(values));
    forall i, j | 0 <= i < j < |d|
      ensures Position(values, Some(d[i])) < Position(values, Some(d[j]))
    {
      PresentOrder(values, d[i], d[j]);
    }
  }

  /** The scheme argument with every present scheme lower-cased. */
  function LowerAll(schemes: Option<seq<Option<string>>>): Option<seq<Option<string>>>
  {
    if schemes.None? then None else Some(MapSeq(schemes.value, SinglePartial.LowerOpt))
  }

  /** A lower-cased scheme is present exactly when some present scheme lower-cases to it. */
  lemma LowerAllMembers(schemes: seq<Option<string>>, x: string)
    ensures Some(x) in MapSeq(schemes, SinglePartial.LowerOpt) <==> exists y :: Some(y) in schemes && ToLower(y) == x
  {
    var lowered := MapSeq(schemes, SinglePartial.LowerOpt);
    if Some(x) in lowered {
      var i :| 0 <= i < |lowered| && lowered[i] == Some(x);
      assert Some(schemes[i].value) in schemes;
    }
    if exists y :: Some(y) in schemes && ToLower(y) == x {
      var y :| Some(y) in schemes && ToLower(y) == x;
      var i :| 0 <= i < |schemes| && schemes[i] == Some(y);
      assert lowered[i] == Some(x);
    }
  }

  /**
   * The scheme set of `valueOf(Iterable...)`: the lower-cased present
   * schemes, each once, in the order their first spelling occurs, or null
   * when no scheme is given.
   */
  function SchemeSet(schemes: Option<seq<Option<string>>>): (r: Option<seq<string>>)
    ensures MultiPartial.IsFieldSet(r)
    ensures r.None? <==> NoValue(schemes)
    ensures r.Some? ==> forall x :: x in r.value <==> exists y :: Some(y) in schemes.value && ToLower(y) == x
    ensures r.Some? ==> forall x :: x in r.value ==> IsLowerCase(x)
    ensures r.Some? ==> FirstSeen(r.value, LowerAll(schemes).value)
  {
    var r := FieldSet(LowerAll(schemes));
    if r.Some? then
      assert forall x :: x in r.value <==> exists y :: Some(y) in schemes.value && ToLower(y) == x by {
        forall x
          ensures x in r.value <==> exists y :: Some(y) in schemes.value && ToLower(y) == x
        {
          LowerAllMembers(schemes.value, x);
        }
      }
      assert forall x :: x in r.value ==> IsLowerCase(x) by {
        forall x | x in r.value
          ensures IsLowerCase(x)
        {
          var lowered := LowerAll(schemes).value;
          var i :| 0 <= i < |lowered| && lowered[i] == Some(x);
          ToLowerIdempotent(schemes.value[i].value);
        }
      }
      r
    else
      assert NoValue(schemes) by {
        if schemes.Some? {
          forall i | 0 <= i < |schemes.value|
            ensures schemes.value[i].None?
          {
            assert LowerAll(schemes).value[i].None?;
          }
        }
      }
      r
  }

  /** The first non-null element of an argument, or null when it has none. */
  function FirstSome<T>(values: Option<seq<Option<T>>>): Option<T>
  {
    if values.None? then None else FirstPresent(values.value)
  }

  function FirstPresent<T>(xs: seq<Option<T>>): Option<T>
    decreases |xs|
  {
    if |xs| == 0 then None
    else if xs[0].Some? then xs[0]
    else FirstPresent(xs[1..])
  }

  /** The first value of a field set is the argument's first non-null element. */
  lemma {:induction false} PresentStartsWithFirst<T(!new)>(xs: seq<Option<T>>)
    ensures |Present(xs)| == 0 <==> FirstPresent(xs).None?
    ensures |Present(xs)| > 0 ==> Present(xs)[0] == FirstPresent(xs).value
    decreases |xs|
  {
    if |xs| > 0 && xs[0].None? {
      PresentStartsWithFirst(xs[1..]);
      assert Present(xs) == Present(xs[1..]);
    }
  }

  lemma FieldSetFirst<T(!new)>(values: Option<seq<Option<T>>>)
    ensures MultiPartial.First(FieldSet(values)) == FirstSome(values)
  {
    if values.Some? {
      PresentStartsWithFirst(values.value);
    }
  }

  /** Lower-casing every scheme, then taking the first, is taking the first and lower-casing it. */
  lemma {:induction false} FirstPresentLowered(xs: seq<Option<string>>)
    ensures FirstPresent(MapSeq(xs, SinglePartial.LowerOpt)) == SinglePartial.LowerOpt(FirstPresent(xs))
    decreases |xs|
  {
    if |xs| > 0 {
      assert MapSeq(xs, SinglePartial.LowerOpt)[1..] == MapSeq(xs[1..], SinglePartial.LowerOpt);
      FirstPresentLowered(xs[1..]);
    }
  }

  /** At most one value per field: the factory then builds a single pattern. */
  predicate AllSingletons(schemes: Option<seq<string>>, hosts: Option<seq<HostAddress>>, ports: Option<seq<Port>>,
    contextPaths: Option<seq<Path>>, prefixes: Option<seq<Path>>)
  {
    && MultiPartial.Size(schemes) == 1 && MultiPartial.Size(hosts) == 1 && MultiPartial.Size(ports) == 1
    && MultiPartial.Size(contextPaths) == 1 && MultiPartial.Size(prefixes) == 1
  }

  /** Every present context path of the argument is accepted, and so is every present prefix. */
  predicate AcceptedArguments(contextPaths: Option<seq<Option<Path>>>, prefixes: Option<seq<Option<Path>>>)
  {
    && (contextPaths.Some? ==> forall c :: c in contextPaths.value && c.Some? ==> SinglePartial.ValidContextPath(c.value))
    && (prefixes.Some? ==> forall p :: p in prefixes.value && p.Some? ==> SinglePartial.ValidPrefix(p.value))
  }

  /**
   * `valueOf(Iterable schemes, hosts, ports, contextPaths, prefixes)`: the
   * field sets are built, then a single pattern is made when no field has
   * two values and a multi-valued one of exactly those sets otherwise.
   */
  function ValueOfSets(schemes: Option<seq<Option<string>>>, hosts: Option<seq<Option<HostAddress>>>,
    ports: Option<seq<Option<Port>>>, contextPaths: Option<seq<Option<Path>>>, prefixes: Option<seq<Option<Path>>>)
    : (r: Result<PartialURL, Error>)
    ensures r.Ok? <==> AcceptedArguments(contextPaths, prefixes)
    ensures r.Ok? ==> Valid(r.value)
    ensures r.Ok? ==> (r.value.SingleURL? <==>
      AllSingletons(SchemeSet(schemes), FieldSet(hosts), FieldSet(ports), FieldSet(contextPaths), FieldSet(prefixes)))
    ensures r.Ok? && r.value.MultiURL? ==>
      r.value.multi == MultiPartial.Multi(SchemeSet(schemes), FieldSet(hosts), FieldSet(ports), FieldSet(contextPaths), FieldSet(prefixes))
    ensures r.Ok? ==> Primary(r.value) == SinglePartial.Canonical(MultiPartial.First(SchemeSet(schemes)), MultiPartial.First(FieldSet(hosts)),
      MultiPartial.First(FieldSet(ports)), MultiPartial.First(FieldSet(contextPaths)), MultiPartial.First(FieldSet(prefixes)))
  {
    var schemeSet, hostSet, portSet := SchemeSet(schemes), FieldSet(hosts), FieldSet(ports);
    var contextPathSet, prefixSet := FieldSet(contextPaths), FieldSet(prefixes);
    if AllSingletons(schemeSet, hostSet, portSet, contextPathSet, prefixSet) then
      var single :- SinglePartial.ValueOf(MultiPartial.First(schemeSet), MultiPartial.First(hostSet),
        MultiPartial.First(portSet), MultiPartial.First(contextPathSet), MultiPartial.First(prefixSet));
      Ok(SingleURL(single))
    else
      var multi :- MultiPartial.New(schemeSet, hostSet, portSet, contextPathSet, prefixSet);
      Ok(MultiURL(multi))
  }

  /**
   * The primary of what the factory builds takes, for every field, the
   * first non-null element of the argument (the scheme lower-cased), or
   * nothing for a field given no value.
   */
  lemma ValueOfSetsPrimary(schemes: Option<seq<Option<string>>>, hosts: Option<seq<Option<HostAddress>>>,
    ports: Option<seq<Option<Port>>>, contextPaths: Option<seq<Option<Path>>>, prefixes: Option<seq<Option<Path>>>)
    requires ValueOfSets(schemes, hosts, ports, contextPaths, prefixes).Ok?
    ensures Primary(ValueOfSets(schemes, hosts, ports, contextPaths, prefixes).value)
         == SinglePartial.Single(SinglePartial.LowerOpt(FirstSome(schemes)), FirstSome(hosts), FirstSome(ports),
              FirstSome(contextPaths), FirstSome(prefixes))
  {
    FirstScheme(schemes);
    FieldSetFirst(hosts);
    FieldSetFirst(ports);
    FieldSetFirst(contextPaths);
    FieldSetFirst(prefixes);
  }

  /** The first scheme of the scheme set is the first non-null scheme, lower-cased; lower-casing it again changes nothing. */
  lemma FirstScheme(schemes: Option<seq<Option<string>>>)
    ensures MultiPartial.First(SchemeSet(schemes)) == SinglePartial.LowerOpt(FirstSome(schemes))
    ensures SinglePartial.LowerOpt(MultiPartial.First(SchemeSet(schemes))) == MultiPartial.First(SchemeSet(schemes))
  {
    FieldSetFirst(LowerAll(schemes));
    var first := FirstSome(schemes);
    if schemes.Some? {
      FirstPresentLowered(schemes.value);
    }
    if first.Some? {
      ToLowerIdempotent(first.value);
    }
  }

  /** A field given no value: a null argument, or one whose every element is null. */
  predicate NoValue<T>(values: Option<seq<Option<T>>>)
  {
    values.None? || AllNull(values.value)
  }

  /** Arguments that give no field a value yield DEFAULT itself. */
  lemma ValueOfSetsNothingIsDefault(schemes: Option<seq<Option<string>>>, hosts: Option<seq<Option<HostAddress>>>,
    ports: Option<seq<Option<Port>>>, contextPaths: Option<seq<Option<Path>>>, prefixes: Option<seq<Option<Path>>>)
    requires NoValue(schemes) && NoValue(hosts) && NoValue(ports) && NoValue(contextPaths) && NoValue(prefixes)
    ensures ValueOfSets(schemes, hosts, ports, contextPaths, prefixes) == Ok(SingleURL(SinglePartial.DEFAULT))
  {
    if schemes.Some? {
      assert AllNull(LowerAll(schemes).value);
    }
  }

  /** `valueOf(Iterable prefixes)`: a pattern within the current request, on the prefixes alone. */
  function ValueOfPrefixes(prefixes: Option<seq<Option<Path>>>): (r: Result<PartialURL, Error>)
    ensures r.Ok? <==> AcceptedArguments(None, prefixes)
    ensures r.Ok? ==> Valid(r.value)
    ensures r.Ok? && r.value.SingleURL? ==> r.value.single == SinglePartial.DEFAULT.(prefix := r.value.single.prefix)
    ensures r.Ok? && r.value.MultiURL? ==>
      r.value.multi == MultiPartial.Multi(None, None, None, None, FieldSet(prefixes))
    ensures r.Ok? ==> Primary(r.value) == SinglePartial.DEFAULT.(prefix := FirstSome(prefixes))
  {
    var r := ValueOfSets(None, None, None, None, prefixes);
    if r.Ok? then
      ValueOfSetsPrimary(None, None, None, None, prefixes);
      r
    else r
  }

  // ---------------------------------------------------------------- operations

  /** `matches(fieldSource)` of either kind. */
  function Matches(p: PartialURL, src: FieldSource): Option<Single>
    requires Valid(p)
  {
    match p
    case SingleURL(s) => SinglePartial.Matches(s, src)
    case MultiURL(m) => MultiPartial.Matches(m, src)
  }

  /** `isComplete()` of either kind. */
  predicate IsComplete(p: PartialURL)
  {
    match p
    case SingleURL(s) => SinglePartial.IsComplete(s)
    case MultiURL(m) => MultiPartial.IsComplete(m)
  }

  /** `getPrimary()`: a single pattern is its own primary. */
  function Primary(p: PartialURL): Single
    requires Valid(p)
  {
    match p
    case SingleURL(s) => s
    case MultiURL(m) => MultiPartial.Primary(m)
  }

  /** `getCombinations()`: a single pattern is its only combination. */
  function Combinations(p: PartialURL): Result<seq<Single>, Error>
  {
    match p
    case SingleURL(s) => Ok([s])
    case MultiURL(m) => MultiPartial.Combinations(m)
  }

  /** `toURL(fieldSource)` of either kind. */
  function ToURL(p: PartialURL, src: Option<FieldSource>): Result<URL, Error>
    requires Valid(p)
  {
    match p
    case SingleURL(s) => SinglePartial.ToURL(s, src)
    case MultiURL(m) => MultiPartial.ToURL(m, src)
  }

  /** `toString()` of either kind. */
  function ToString(p: PartialURL): string
    requires Valid(p)
  {
    match p
    case SingleURL(s) => SinglePartial.ToString(s)
    case MultiURL(m) => MultiPartial.ToString(m)
  }

  /**
   * `equals(obj)`: never true between the two kinds.  Two valid partial URLs
   * are equal exactly when they are of the same kind and stand for the same
   * single patterns.
   */
  predicate Equals(a: PartialURL, b: PartialURL)
    ensures Valid(a) && Valid(b) ==>
      (Equals(a, b) <==> a.SingleURL? == b.SingleURL? && forall s :: Covers(a, s) <==> Covers(b, s))
  {
    assert a.SingleURL? && b.SingleURL? && (forall s :: Covers(a, s) <==> Covers(b, s)) ==> a.single == b.single by {
      if a.SingleURL? && b.SingleURL? && (forall s :: Covers(a, s) <==> Covers(b, s)) {
        assert Covers(a, a.single);
      }
    }
    match (a, b)
    case (SingleURL(s), SingleURL(t)) => s == t
    case (MultiURL(m), MultiURL(n)) =>
      assert forall s :: Covers(a, s) == MultiPartial.IsCombination(m, s) && Covers(b, s) == MultiPartial.IsCombination(n, s);
      MultiPartial.Equals(m, n)
    case _ => false
  }

  /** The single patterns a partial URL stands for. */
  predicate Covers(p: PartialURL, s: Single)
  {
    match p
    case SingleURL(t) => s == t
    case MultiURL(m) => MultiPartial.IsCombination(m, s)
  }

  // ---------------------------------------------------------------- properties

  /** The combinations are the single patterns the partial URL stands for, and the primary is among them. */
  lemma CombinationsCover(p: PartialURL, s: Single)
    requires Valid(p) && Combinations(p).Ok?
    ensures s in Combinations(p).value <==> Covers(p, s)
    ensures Primary(p) in Combinations(p).value
  {
    if p.MultiURL? {
      MultiPartial.CombinationsAreTheProduct(p.multi);
      MultiPartial.PrimaryAmongCombinations(p.multi);
    }
  }

  /**
   * The contract of `matches`: the first combination that matches the
   * request, in `getCombinations()` order, or nothing.
   */
  lemma MatchesIsFirstCombination(p: PartialURL, src: FieldSource)
    requires Valid(p) && Combinations(p).Ok?
    ensures Matches(p, src) == FirstWhere(Combinations(p).value, (s: Single) => SinglePartial.Matches(s, src).Some?)
  {
    if p.MultiURL? {
      MultiPartial.MatchesIsFirstCombination(p.multi, src);
    }
  }

  /** A partial URL builds a URL without a request exactly when it is complete, and always with one. */
  lemma CompleteMeansNoSourceNeeded(p: PartialURL, src: FieldSource)
    requires Valid(p)
    ensures ToURL(p, None).Ok? <==> IsComplete(p)
    ensures ToURL(p, Some(src)).Ok?
  {
    match p
    case SingleURL(s) => SinglePartial.ToURLWithoutSource(s, src);
    case MultiURL(m) => MultiPartial.ToURLWithoutSource(m, src);
  }

  /** Equal partial URLs stand for the same single patterns and match every request alike. */
  lemma EqualsMatchAlike(a: PartialURL, b: PartialURL, src: FieldSource)
    requires Valid(a) && Valid(b) && Equals(a, b)
    ensures forall s :: Covers(a, s) <==> Covers(b, s)
    ensures Matches(a, src) == Matches(b, src)
  {
    if a.MultiURL? {
      MultiPartial.EqualPatternsMatchAlike(a.multi, b.multi, src);
    }
  }

  /** A field value the arguments allow: absent when no value is given, else one of the given values. */
  predicate Takes<T(==)>(values: Option<seq<Option<T>>>, v: Option<T>)
  {
    if values.None? || AllNull(values.value) then v.None? else v.Some? && Some(v.value) in values.value
  }

  lemma FieldSetAllows<T(!new)>(values: Option<seq<Option<T>>>, v: Option<T>)
    ensures MultiPartial.Allows(FieldSet(values), v) <==> Takes(values, v)
  {
  }

  /** A field with exactly one value allows only that value. */
  lemma SingletonAllows<T(!new)>(values: Option<seq<Option<T>>>, v: Option<T>)
    requires MultiPartial.Size(FieldSet(values)) == 1
    ensures MultiPartial.Allows(FieldSet(values), v) <==> v == MultiPartial.First(FieldSet(values))
  {
  }

  /**
   * The pattern the factory builds stands for exactly the single patterns
   * taking, for every field, one of the given values (schemes lower-cased),
   * or nothing for a field given no value.
   */
  lemma ValueOfSetsCovers(schemes: Option<seq<Option<string>>>, hosts: Option<seq<Option<HostAddress>>>,
    ports: Option<seq<Option<Port>>>, contextPaths: Option<seq<Option<Path>>>, prefixes: Option<seq<Option<Path>>>, s: Single)
    requires ValueOfSets(schemes, hosts, ports, contextPaths, prefixes).Ok?
    ensures Covers(ValueOfSets(schemes, hosts, ports, contextPaths, prefixes).value, s) <==>
      && Takes(LowerAll(schemes), s.scheme) && Takes(hosts, s.host) && Takes(ports, s.port)
      && Takes(contextPaths, s.contextPath) && Takes(prefixes, s.prefix)
  {
    FieldSetAllows(LowerAll(schemes), s.scheme);
    FieldSetAllows(hosts, s.host);
    FieldSetAllows(ports, s.port);
    FieldSetAllows(contextPaths, s.contextPath);
    FieldSetAllows(prefixes, s.prefix);
    var schemeSet := SchemeSet(schemes);
    if AllSingletons(schemeSet, FieldSet(hosts), FieldSet(ports), FieldSet(contextPaths), FieldSet(prefixes)) {
      SingletonAllows(LowerAll(schemes), s.scheme);
      SingletonAllows(hosts, s.host);
      SingletonAllows(ports, s.port);
      SingletonAllows(contextPaths, s.contextPath);
      SingletonAllows(prefixes, s.prefix);
      if schemeSet.Some? {
        assert schemeSet.value[0] in schemeSet.value;
      }
    }
  }
}
