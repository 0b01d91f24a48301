/**
 * SinglePartialURL: a pattern with at most one value per field, where an
 * absent field matches anything.  Also holds the constants and the scalar
 * factory of PartialURL, which every other pattern is built from.
 */
module SinglePartial {
  import opened Wrappers
  import opened Strings
  import opened Collections
  import opened Net
  import opened Fields
  import opened Errors

  const HTTP := "http"
  const HTTPS := "https"
  const WILDCARD := "*"
  /** What `toString` shows for an absent context path. */
  const NULL_CONTEXT_PATH := "/*"
  /** What `toString` shows for an absent prefix. */
  const NULL_PREFIX := "/**"

  /** Each field is absent (Java null) when the pattern does not constrain it. */
  datatype Single = Single(
    scheme: Option<string>,
    host: Option<HostAddress>,
    port: Option<Port>,
    contextPath: Option<Path>,
    prefix: Option<Path>)

  /** `PartialURL.DEFAULT`: constrains nothing. */
  const DEFAULT := Single(None, None, None, None, None)

  /** A context path is the root or does not end in a slash. */
  predicate ValidContextPath(c: Path)
  {
    c == ROOT || !EndsWith(c, '/')
  }

  /** A prefix is a directory: it ends in a slash. */
  predicate ValidPrefix(p: Path)
  {
    EndsWith(p, '/')
  }

  /** What the constructor insists on. */
  predicate Valid(s: Single)
  {
    && (s.contextPath.Some? ==> ValidContextPath(s.contextPath.value))
    && (s.prefix.Some? ==> ValidPrefix(s.prefix.value))
  }

  /** The package-private constructor: checks the context path, then the prefix. */
  function New(scheme: Option<string>, host: Option<HostAddress>, port: Option<Port>, contextPath: Option<Path>, prefix: Option<Path>)
    : (r: Result<Single, Error>)
    ensures r.Ok? <==> Valid(Single(scheme, host, port, contextPath, prefix))
    ensures r.Ok? ==> r.value == Single(scheme, host, port, contextPath, prefix)
    ensures contextPath.Some? && !ValidContextPath(contextPath.value) ==> r == Err(ContextPathEndsInSlash(contextPath.value))
    ensures (contextPath.Some? ==> ValidContextPath(contextPath.value)) && prefix.Some? && !ValidPrefix(prefix.value)
            ==> r == Err(PrefixMissingSlash(prefix.value))
  {
    if contextPath.Some? && contextPath.value != ROOT && EndsWith(contextPath.value, '/') then
      Err(ContextPathEndsInSlash(contextPath.value))
    else if prefix.Some? && !EndsWith(prefix.value, '/') then
      Err(PrefixMissingSlash(prefix.value))
    else
      Ok(Single(scheme, host, port, contextPath, prefix))
  }

  function LowerOpt(scheme: Option<string>): Option<string>
  {
    if scheme.Some? then Some(ToLower(scheme.value)) else None
  }

  /** The pattern `valueOf` builds from valid arguments: the scheme lower-cased, the rest as given. */
  function Canonical(scheme: Option<string>, host: Option<HostAddress>, port: Option<Port>, contextPath: Option<Path>, prefix: Option<Path>)
    : Single
  {
    Single(LowerOpt(scheme), host, port, contextPath, prefix)
  }

  /**
   * `PartialURL.valueOf(scheme, host, port, contextPath, prefix)`: DEFAULT
   * when every argument is null, otherwise a new single pattern with the
   * scheme lower-cased.
   */
  function ValueOf(scheme: Option<string>, host: Option<HostAddress>, port: Option<Port>, contextPath: Option<Path>, prefix: Option<Path>)
    : (r: Result<Single, Error>)
    ensures r.Ok? <==> Valid(Single(scheme, host, port, contextPath, prefix))
    ensures r.Ok? ==> r.value == Canonical(scheme, host, port, contextPath, prefix)
    ensures r.Ok? && r.value.scheme.Some? ==> IsLowerCase(r.value.scheme.value)
    ensures r.Err? ==> r == New(scheme, host, port, contextPath, prefix)
    ensures r == Ok(DEFAULT) <==> scheme.None? && host.None? && port.None? && contextPath.None? && prefix.None?
  {
    if scheme.None? && host.None? && port.None? && contextPath.None? && prefix.None? then
      Ok(DEFAULT)
    else
      New(LowerOpt(scheme), host, port, contextPath, prefix)
  }

  /** `PartialURL.valueOf(Path prefix)`: a pattern on the prefix alone. */
  function ValueOfPrefix(prefix: Option<Path>): (r: Result<Single, Error>)
    ensures r.Ok? <==> prefix.None? || ValidPrefix(prefix.value)
    ensures r.Ok? ==> r.value == DEFAULT.(prefix := prefix)
    ensures r.Err? ==> r == Err(PrefixMissingSlash(prefix.value))
  {
    ValueOf(None, None, None, None, prefix)
  }

  // ---------------------------------------------------------------- ordering

  /** `prefixComparator`: absent prefixes last, a deeper prefix before its ancestors, otherwise path order. */
  function ComparePrefixes(a: Option<Path>, b: Option<Path>): int
  {
    if a.None? then (if b.None? then 0 else 1)
    else if b.None? then -1
    else ComparePrefixStrings(a.value, b.value)
  }

  /** The two-present-prefixes branch of `prefixComparator`. */
  function ComparePrefixStrings(a: string, b: string): int
  {
    if a == b then 0
    else if StartsWith(a, b) then -1
    else if StartsWith(b, a) then 1
    else CompareStrings(a, b)
  }

  /** `prefixComparator` on two present prefixes, the order of a `TreeSet<Path>` built with it. */
  function ComparePrefixPaths(a: Path, b: Path): int
  {
    ComparePrefixes(Some(a), Some(b))
  }

  /**
   * Character order in which the end of a string sorts after every
   * character: the order `prefixComparator` amounts to.
   */
  ghost function DepthFirst(a: string, b: string): int
    decreases |a|
  {
    if |a| == 0 then (if |b| == 0 then 0 else 1)
    else if |b| == 0 then -1
    else if a[0] < b[0] then -1
    else if b[0] < a[0] then 1
    else DepthFirst(a[1..], b[1..])
  }

  lemma {:induction false} DepthFirstZero(a: string, b: string)
    ensures DepthFirst(a, b) == 0 <==> a == b
    decreases |a|
  {
    if |a| > 0 && |b| > 0 && a[0] == b[0] {
      DepthFirstZero(a[1..], b[1..]);
      assert a == [a[0]] + a[1..];
      assert b == [b[0]] + b[1..];
    }
  }

  lemma {:induction false} DepthFirstFlip(a: string, b: string)
    ensures DepthFirst(a, b) == -DepthFirst(b, a)
    decreases |a|
  {
    if |a| > 0 && |b| > 0 && a[0] == b[0] {
      DepthFirstFlip(a[1..], b[1..]);
    }
  }

  lemma {:induction false} DepthFirstTrans(a: string, b: string, c: string)
    requires DepthFirst(a, b) < 0 && DepthFirst(b, c) < 0
    ensures DepthFirst(a, c) < 0
    decreases |a|
  {
    if |a| > 0 && |b| > 0 && |c| > 0 && a[0] == b[0] && b[0] == c[0] {
      DepthFirstTrans(a[1..], b[1..], c[1..]);
    }
  }

  lemma {:induction false} StartsWithTail(a: string, b: string)
    requires |a| > 0 && |b| > 0 && a[0] == b[0]
    ensures StartsWith(a, b) <==> StartsWith(a[1..], b[1..])
  {
    if StartsWith(a[1..], b[1..]) {
      assert a[..|b|] == [a[0]] + a[1..][..|b| - 1];
      assert b == [b[0]] + b[1..];
    }
  }

  /** `prefixComparator` is the depth-first character order. */
  lemma {:induction false} ComparePrefixStringsIsDepthFirst(a: string, b: string)
    ensures ComparePrefixStrings(a, b) == DepthFirst(a, b)
    decreases |a|
  {
    DepthFirstZero(a, b);
    if a != b && |a| > 0 && |b| > 0 && a[0] == b[0] {
      StartsWithTail(a, b);
      StartsWithTail(b, a);
      assert a[1..] != b[1..] by {
        assert a == [a[0]] + a[1..];
        assert b == [b[0]] + b[1..];
      }
      ComparePrefixStringsIsDepthFirst(a[1..], b[1..]);
    }
  }

  /** The order a TreeSet of prefixes iterates in is a strict total order. */
  lemma PrefixOrder()
    ensures TotalOrder(ComparePrefixPaths)
  {
    forall x: Path, y: Path
      ensures ComparePrefixPaths(x, y) == 0 <==> x == y
      ensures ComparePrefixPaths(x, y) < 0 <==> ComparePrefixPaths(y, x) > 0
    {
      ComparePrefixStringsIsDepthFirst(x, y);
      ComparePrefixStringsIsDepthFirst(y, x);
      DepthFirstZero(x, y);
      DepthFirstFlip(x, y);
    }
    forall x: Path, y: Path, z: Path | ComparePrefixPaths(x, y) < 0 && ComparePrefixPaths(y, z) < 0
      ensures ComparePrefixPaths(x, z) < 0
    {
      ComparePrefixStringsIsDepthFirst(x, y);
      ComparePrefixStringsIsDepthFirst(y, z);
      ComparePrefixStringsIsDepthFirst(x, z);
      DepthFirstTrans(x, y, z);
    }
  }

  /** A prefix sorts before every shorter prefix of it, and an absent prefix after every present one. */
  lemma DeeperPrefixFirst(a: Path, b: Path)
    requires StartsWith(a, b) && a != b
    ensures ComparePrefixes(Some(a), Some(b)) < 0
    ensures ComparePrefixes(Some(a), None) < 0
  {
  }

  /** `compareTo`: host, then context path, then prefix, then port, then scheme; absent values last. */
  function Compare(a: Single, b: Single): (r: int)
    ensures r == 0 <==> a == b
  {
    FieldOrders();
    NullsLastOrder(a.host, b.host, b.host, CompareHosts);
    NullsLastOrder(a.contextPath, b.contextPath, b.contextPath, ComparePaths);
    NullsLastOrder(a.prefix, b.prefix, b.prefix, ComparePrefixPaths);
    NullsLastOrder(a.port, b.port, b.port, ComparePorts);
    NullsLastOrder(a.scheme, b.scheme, b.scheme, CompareStrings);
    assert ComparePrefixes(a.prefix, b.prefix) == CompareNullsLast(a.prefix, b.prefix, ComparePrefixPaths);
    var host := CompareNullsLast(a.host, b.host, CompareHosts);
    if host != 0 then host else
    var contextPath := CompareNullsLast(a.contextPath, b.contextPath, ComparePaths);
    if contextPath != 0 then contextPath else
    var prefix := ComparePrefixes(a.prefix, b.prefix);
    if prefix != 0 then prefix else
    var port := CompareNullsLast(a.port, b.port, ComparePorts);
    if port != 0 then port else
    CompareNullsLast(a.scheme, b.scheme, CompareStrings)
  }

  /** The field comparators are strict total orders. */
  lemma FieldOrders()
    ensures TotalOrder(CompareHosts) && TotalOrder(ComparePaths) && TotalOrder(ComparePrefixPaths)
    ensures TotalOrder(ComparePorts) && TotalOrder(CompareStrings)
  {
    HostOrder();
    PathOrder();
    PortOrder();
    StringOrder();
    PrefixOrder();
  }

  /** Swapping the arguments of `compareTo` flips the sign. */
  lemma CompareFlips(a: Single, b: Single)
    ensures Compare(a, b) < 0 <==> Compare(b, a) > 0
  {
    FieldOrders();
    NullsLastOrder(a.host, b.host, b.host, CompareHosts);
    NullsLastOrder(a.contextPath, b.contextPath, b.contextPath, ComparePaths);
    NullsLastOrder(a.prefix, b.prefix, b.prefix, ComparePrefixPaths);
    NullsLastOrder(a.port, b.port, b.port, ComparePorts);
    NullsLastOrder(a.scheme, b.scheme, b.scheme, CompareStrings);
    NullsLastOrder(b.host, a.host, a.host, CompareHosts);
    NullsLastOrder(b.contextPath, a.contextPath, a.contextPath, ComparePaths);
    NullsLastOrder(b.prefix, a.prefix, a.prefix, ComparePrefixPaths);
    NullsLastOrder(b.port, a.port, a.port, ComparePorts);
    assert ComparePrefixes(a.prefix, b.prefix) == CompareNullsLast(a.prefix, b.prefix, ComparePrefixPaths);
    assert ComparePrefixes(b.prefix, a.prefix) == CompareNullsLast(b.prefix, a.prefix, ComparePrefixPaths);
  }

  /** `compareTo` is transitive. */
  lemma CompareChains(a: Single, b: Single, c: Single)
    ensures Compare(a, b) < 0 && Compare(b, c) < 0 ==> Compare(a, c) < 0
  {
    FieldOrders();
    NullsLastOrder(a.host, b.host, c.host, CompareHosts);
    NullsLastOrder(b.host, c.host, a.host, CompareHosts);
    NullsLastOrder(a.contextPath, b.contextPath, c.contextPath, ComparePaths);
    NullsLastOrder(b.contextPath, c.contextPath, a.contextPath, ComparePaths);
    NullsLastOrder(a.prefix, b.prefix, c.prefix, ComparePrefixPaths);
    NullsLastOrder(b.prefix, c.prefix, a.prefix, ComparePrefixPaths);
    NullsLastOrder(a.port, b.port, c.port, ComparePorts);
    NullsLastOrder(b.port, c.port, a.port, ComparePorts);
    NullsLastOrder(a.scheme, b.scheme, c.scheme, CompareStrings);
    assert ComparePrefixes(a.prefix, b.prefix) == CompareNullsLast(a.prefix, b.prefix, ComparePrefixPaths);
    assert ComparePrefixes(b.prefix, c.prefix) == CompareNullsLast(b.prefix, c.prefix, ComparePrefixPaths);
    assert ComparePrefixes(a.prefix, c.prefix) == CompareNullsLast(a.prefix, c.prefix, ComparePrefixPaths);
  }

  /** `compareTo` is a strict total order, consistent with `equals`. */
  lemma CompareOrder()
    ensures TotalOrder(Compare)
  {
    forall a, b
      ensures Compare(a, b) < 0 <==> Compare(b, a) > 0
    {
      CompareFlips(a, b);
    }
    forall a, b, c
      ensures Compare(a, b) < 0 && Compare(b, c) < 0 ==> Compare(a, c) < 0
    {
      CompareChains(a, b, c);
    }
  }

  /** DEFAULT, constraining nothing, sorts after every other pattern. */
  lemma DefaultSortsLast(s: Single)
    ensures s != DEFAULT ==> Compare(s, DEFAULT) < 0 && Compare(DEFAULT, s) > 0
    ensures Compare(DEFAULT, DEFAULT) == 0
  {
  }

  // ---------------------------------------------------------------- matching

  /** One `field == null || field.equals(<source value>)` test; it reads the source only for a present field. */
  function FieldTest<T(==)>(field: Option<T>, src: Option<FieldSource>, get: FieldSource -> T): Result<bool, Error>
  {
    if field.None? then Ok(true)
    else if src.None? then Err(MissingFieldSource)
    else Ok(field.value == get(src.value))
  }

  /** The prefix test: an absent prefix passes; a present one needs a path that starts with it. */
  function PrefixTest(prefix: Option<Path>, src: Option<FieldSource>): Result<bool, Error>
  {
    if prefix.None? then Ok(true)
    else if src.None? then Err(MissingFieldSource)
    else Ok(src.value.path.Some? && StartsWith(src.value.path.value, prefix.value))
  }

  /**
   * `matches(fieldSource)` with a possibly null source: the five tests in
   * order, stopping at the first that fails; a null source is dereferenced
   * (and fails) only once a test reaches a present field.
   */
  function MatchesNullable(s: Single, src: Option<FieldSource>): Result<Option<Single>, Error>
  {
    var schemeOk :- FieldTest(s.scheme, src, (f: FieldSource) => ToLower(f.scheme));
    if !schemeOk then Ok(None) else
    var hostOk :- FieldTest(s.host, src, (f: FieldSource) => f.host);
    if !hostOk then Ok(None) else
    var portOk :- FieldTest(s.port, src, (f: FieldSource) => f.port);
    if !portOk then Ok(None) else
    var contextPathOk :- FieldTest(s.contextPath, src, (f: FieldSource) => f.contextPath);
    if !contextPathOk then Ok(None) else
    var prefixOk :- PrefixTest(s.prefix, src);
    Ok(if prefixOk then Some(s) else None)
  }

  predicate SchemeMatches(scheme: Option<string>, src: FieldSource)
  {
    scheme.None? || scheme.value == ToLower(src.scheme)
  }

  predicate HostMatches(host: Option<HostAddress>, src: FieldSource)
  {
    host.None? || host.value == src.host
  }

  predicate PortMatches(port: Option<Port>, src: FieldSource)
  {
    port.None? || port.value == src.port
  }

  predicate ContextPathMatches(contextPath: Option<Path>, src: FieldSource)
  {
    contextPath.None? || contextPath.value == src.contextPath
  }

  /** A present prefix needs a request path that starts with it. */
  predicate PrefixMatches(prefix: Option<Path>, src: FieldSource)
  {
    prefix.None? || (src.path.Some? && StartsWith(src.path.value, prefix.value))
  }

  /** Every present field agrees with the request. */
  predicate MatchesSource(s: Single, src: FieldSource)
  {
    && SchemeMatches(s.scheme, src)
    && HostMatches(s.host, src)
    && PortMatches(s.port, src)
    && ContextPathMatches(s.contextPath, src)
    && PrefixMatches(s.prefix, src)
  }

  /** `matches(fieldSource)`: the pattern itself when every present field agrees with the request, else nothing. */
  function Matches(s: Single, src: FieldSource): (r: Option<Single>)
    ensures r.Some? <==> MatchesSource(s, src)
    ensures r.Some? ==> r.value == s
  {
    MatchesNullable(s, Some(src)).value
  }

  /** DEFAULT matches every request, even a null one; any other pattern needs the request. */
  lemma MatchesWithoutSource(s: Single)
    ensures MatchesNullable(DEFAULT, None) == Ok(Some(DEFAULT))
    ensures s != DEFAULT ==> MatchesNullable(s, None) == Err(MissingFieldSource)
  {
  }

  /** `isComplete()`: enough fields to build a URL without a request. */
  predicate IsComplete(s: Single)
  {
    s.scheme.Some? && s.host.Some? && s.port.Some? && s.contextPath.Some?
  }

  // ---------------------------------------------------------------- URLs

  /** `(field == null ? fieldSource.getX() : field)`, failing on a null source. */
  function Pick<T>(field: Option<T>, src: Option<FieldSource>, get: FieldSource -> T): Result<T, Error>
  {
    if field.Some? then Ok(field.value)
    else if src.Some? then Ok(get(src.value))
    else Err(MissingFieldSource)
  }

  /** The URL file: the context path (nothing for the root) followed by the prefix, if any. */
  function FileOf(contextPath: Path, prefix: Option<Path>): string
  {
    if contextPath == ROOT then (if prefix.None? then "" else prefix.value)
    else if prefix.None? then contextPath
    else contextPath + prefix.value
  }

  /**
   * `toURL(fieldSource)`: each absent field is taken from the request; a
   * default port (80 for http, 443 for https) becomes -1.
   */
  function ToURL(s: Single, src: Option<FieldSource>): (r: Result<URL, Error>)
    ensures r.Ok? <==> src.Some? || IsComplete(s)
    ensures r.Err? ==> r.error == MissingFieldSource
  {
    var schemeStr :- Pick(s.scheme, src, (f: FieldSource) => f.scheme);
    var port :- Pick(s.port, src, (f: FieldSource) => f.port);
    var host :- Pick(s.host, src, (f: FieldSource) => f.host);
    var contextPath :- Pick(s.contextPath, src, (f: FieldSource) => f.contextPath);
    var portNum := if IsDefaultPort(schemeStr, port.number) then -1 else port.number;
    Ok(NewURL(schemeStr, host, portNum, FileOf(contextPath, s.prefix)))
  }

  /** A pattern builds a URL without a request exactly when it is complete, and a complete one ignores the request. */
  lemma ToURLWithoutSource(s: Single, src: FieldSource)
    ensures ToURL(s, None).Ok? <==> IsComplete(s)
    ensures ToURL(s, Some(src)).Ok?
    ensures IsComplete(s) ==> ToURL(s, Some(src)) == ToURL(s, None)
  {
  }

  /** The file a request addresses: its context path followed by its path. */
  function RequestFile(src: FieldSource): string
  {
    FileOf(src.contextPath, src.path)
  }

  /**
   * The URL of a pattern that matches a request points at the request's
   * own server (scheme, host and port) and at an ancestor of the file the
   * request addresses.
   */
  lemma MatchedURL(s: Single, src: FieldSource)
    requires Matches(s, src).Some?
    ensures ToURL(s, Some(src)).Ok?
    ensures var url := ToURL(s, Some(src)).value;
      && url.protocol == ToLower(src.scheme)
      && url.host == src.host.name
      && (url.port == -1 <==> IsDefaultPort(src.scheme, src.port.number))
      && (url.port != -1 ==> url.port == src.port.number)
      && StartsWith(RequestFile(src), url.file)
  {
    var url := ToURL(s, Some(src)).value;
    var schemeStr := if s.scheme.Some? then s.scheme.value else src.scheme;
    ToLowerIdempotent(src.scheme);
    assert ToLower(schemeStr) == ToLower(src.scheme);
    assert IsDefaultPort(schemeStr, src.port.number) == IsDefaultPort(src.scheme, src.port.number);
    var c := src.contextPath;
    if s.prefix.Some? {
      var p := s.prefix.value;
      var path := src.path.value;
      assert path[..|p|] == p;
      if c != ROOT {
        assert (c + path)[..|c + p|] == c + p;
      }
    } else if src.path.Some? && c != ROOT {
      assert (c + src.path.value)[..|c|] == c;
    } else if src.path.Some? {
      assert src.path.value[..0] == "";
    }
  }

  // ---------------------------------------------------------------- rendering

  /**
   * `toString()`: `scheme:` then `//host`, `:port` unless it is the scheme's
   * default, the context path and the prefix; WILDCARD, NULL_CONTEXT_PATH and
   * NULL_PREFIX stand for absent fields.  Its length is the one the class
   * reserves for the builder.
   */
  function ToString(s: Single): (r: string)
    ensures |r| == ToStringLength(s)
  {
    SchemePart(s) + "//" + HostPart(s) + PortPart(s) + ContextPathPart(s) + PrefixPart(s)
  }

  function SchemePart(s: Single): string
  {
    if s.scheme.Some? then s.scheme.value + ":" else ""
  }

  function HostPart(s: Single): string
  {
    if s.host.None? then WILDCARD else s.host.value.name
  }

  function PortPart(s: Single): string
  {
    if s.port.None? then ":" + WILDCARD
    else if HidesPort(s.scheme, s.port.value.number) then ""
    else ":" + NatToString(s.port.value.number)
  }

  function ContextPathPart(s: Single): string
  {
    if s.contextPath.None? then NULL_CONTEXT_PATH
    else if s.contextPath.value == ROOT then ""
    else s.contextPath.value
  }

  function PrefixPart(s: Single): string
  {
    if s.prefix.None? then NULL_PREFIX else s.prefix.value
  }

  /** The port `toString` leaves out: 80 after exactly `http`, 443 after exactly `https`. */
  predicate HidesPort(scheme: Option<string>, port: nat)
  {
    (scheme == Some(HTTP) && port == 80) || (scheme == Some(HTTPS) && port == 443)
  }

  /** The length `toString` computes before building the string, summed field by field. */
  function ToStringLength(s: Single): nat
  {
    var schemeLen := if s.scheme.None? then 0 else |s.scheme.value| + 1;
    var hostLen := if s.host.None? then 1 else |s.host.value.name|;
    var portLen :=
      if s.port.None? then 2
      else if HidesPort(s.scheme, s.port.value.number) then 0
      else 1 + |NatToString(s.port.value.number)|;
    var contextPathLen :=
      if s.contextPath.None? then 2
      else if s.contextPath.value == ROOT then 0
      else |s.contextPath.value|;
    var prefixLen := if s.prefix.None? then 3 else |s.prefix.value|;
    schemeLen + 2 + hostLen + portLen + contextPathLen + prefixLen
  }

  // The rendering field by field: an absent host shows as a star, an absent
  // port as a colon and a star, an absent context path as NULL_CONTEXT_PATH
  // and an absent prefix as NULL_PREFIX; the root context path shows as
  // nothing; a present port is shown exactly when it is not the scheme's
  // default.
  lemma ToStringLayout(s: Single)
    ensures var head := (if s.scheme.Some? then s.scheme.value + ":" else "") + "//" + (if s.host.None? then "*" else s.host.value.name);
      var tail := (if s.contextPath.None? then "/*" else if s.contextPath.value == ROOT then "" else s.contextPath.value)
        + (if s.prefix.None? then "/**" else s.prefix.value);
      var port :=
        if s.port.None? then ":*"
        else if HidesPort(s.scheme, s.port.value.number) then ""
        else ":" + NatToString(s.port.value.number);
      ToString(s) == head + port + tail
  {
    PartsLayout(s);
    Regroup(SchemePart(s), "//", HostPart(s), PortPart(s), ContextPathPart(s), PrefixPart(s));
  }

  /** Each part of the rendering, spelled out. */
  lemma PartsLayout(s: Single)
    ensures SchemePart(s) == if s.scheme.Some? then s.scheme.value + ":" else ""
    ensures HostPart(s) == if s.host.None? then "*" else s.host.value.name
    ensures PortPart(s) ==
      if s.port.None? then ":*"
      else if HidesPort(s.scheme, s.port.value.number) then ""
      else ":" + NatToString(s.port.value.number)
    ensures ContextPathPart(s) == if s.contextPath.None? then "/*" else if s.contextPath.value == ROOT then "" else s.contextPath.value
    ensures PrefixPart(s) == if s.prefix.None? then "/**" else s.prefix.value
  {
  }

  lemma Regroup(a: string, b: string, c: string, d: string, e: string, f: string)
    ensures a + b + c + d + e + f == (a + b + c) + d + (e + f)
  {
  }
}
