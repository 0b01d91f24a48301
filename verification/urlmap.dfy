/**
 * PartialURLMap: partial URLs mapped to values, with conflict detection on
 * `put` and an indexed `get` that finds the most specific match.
 *
 * The index nests five maps, one per field of a single pattern, with an
 * absent field (Java null) as a key of its own: host, then context path
 * (whose node also records the deepest prefix below it, in slashes), then
 * prefix, then port, then scheme. Beside it sits the sequential map the
 * class keeps while assertions are on: single patterns in `compareTo`
 * order, which `getSequential` scans.
 */
module URLMap {
  import opened Wrappers
  import opened Strings
  import opened Collections
  import opened Net
  import opened Fields
  import opened Errors
  import SinglePartial
  import Partial
  import MultiPartial
  import opened MatchResult

  type Single = SinglePartial.Single
  type PartialURL = Partial.PartialURL

  /** What the index stores per single pattern: the partial URL it came from, the pattern, and the value. */
  datatype Entry<V> = Entry(partial: PartialURL, single: Single, value: V)

  type SchemeIndex<V> = map<Option<string>, Entry<V>>
  type PortIndex<V> = map<Option<Port>, SchemeIndex<V>>
  type PrefixIndex<V> = map<Option<string>, PortIndex<V>>

  /** The pair kept per context path: the most slashes in any prefix below it, and the prefix index. */
  datatype ContextNode<V> = ContextNode(maxSlashCount: nat, prefixes: PrefixIndex<V>)

  type ContextIndex<V> = map<Option<Path>, ContextNode<V>>
  type Index<V> = map<Option<HostAddress>, ContextIndex<V>>

  /**
   * The map: the index, and the sequential map as its sorted keys beside
   * the entry stored under each key.
   */
  datatype PartialURLMap<V> = PartialURLMap(index: Index<V>, sequentialKeys: seq<Single>, sequential: map<Single, Entry<V>>)

  function Empty<V>(): PartialURLMap<V>
  {
    PartialURLMap(map[], [], map[])
  }

  /** The number of slashes in a prefix key; an absent prefix counts none. */
  function SlashCount(prefix: Option<string>): nat
  {
    if prefix.None? then 0 else CountChar(prefix.value, '/')
  }

  // ---------------------------------------------------------------- lookup by key

  function LookupSchemes<V>(si: SchemeIndex<V>, s: Single): Option<Entry<V>>
  {
    if s.scheme in si then Some(si[s.scheme]) else None
  }

  function LookupPorts<V>(pi: PortIndex<V>, s: Single): Option<Entry<V>>
  {
    if s.port in pi then LookupSchemes(pi[s.port], s) else None
  }

  function LookupPrefixes<V>(pre: PrefixIndex<V>, s: Single): Option<Entry<V>>
  {
    if s.prefix in pre then LookupPorts(pre[s.prefix], s) else None
  }

  function LookupContexts<V>(ci: ContextIndex<V>, s: Single): Option<Entry<V>>
  {
    if s.contextPath in ci then LookupPrefixes(ci[s.contextPath].prefixes, s) else None
  }

  /** The entry stored under exactly the fields of `s`, if any. */
  function Lookup<V>(idx: Index<V>, s: Single): Option<Entry<V>>
  {
    if s.host in idx then LookupContexts(idx[s.host], s) else None
  }

  // ---------------------------------------------------------------- well-formedness

  /** Every entry sits under its own pattern's fields, and the pattern is valid. */
  predicate WfSchemes<V>(si: SchemeIndex<V>, host: Option<HostAddress>, contextPath: Option<Path>, prefix: Option<string>, port: Option<Port>)
  {
    forall k :: k in si ==>
      && si[k].single.scheme == k
      && si[k].single.port == port
      && si[k].single.prefix == prefix
      && si[k].single.contextPath == contextPath
      && si[k].single.host == host
      && SinglePartial.Valid(si[k].single)
  }

  predicate WfPorts<V>(pi: PortIndex<V>, host: Option<HostAddress>, contextPath: Option<Path>, prefix: Option<string>)
  {
    forall k :: k in pi ==> WfSchemes(pi[k], host, contextPath, prefix, k)
  }

  /** Below a context path, no prefix key holds more slashes than the node records. */
  predicate WfPrefixes<V>(pre: PrefixIndex<V>, host: Option<HostAddress>, contextPath: Option<Path>, maxSlashCount: nat)
  {
    forall k :: k in pre ==> WfPorts(pre[k], host, contextPath, k) && SlashCount(k) <= maxSlashCount
  }

  predicate WfContexts<V>(ci: ContextIndex<V>, host: Option<HostAddress>)
  {
    forall k :: k in ci ==> WfPrefixes(ci[k].prefixes, host, k, ci[k].maxSlashCount)
  }

  predicate WfIndex<V>(idx: Index<V>)
  {
    forall k :: k in idx ==> WfContexts(idx[k], k)
  }

  /**
   * The invariant `put` keeps: a well-formed index; sorted sequential keys
   * naming exactly the sequential map's keys; and the sequential map and the
   * index holding the same entries.
   */
  ghost predicate Consistent<V>(m: PartialURLMap<V>)
  {
    && WfIndex(m.index)
    && StrictlySorted(m.sequentialKeys, SinglePartial.Compare)
    && (forall s :: s in m.sequentialKeys <==> s in m.sequential)
    && (forall s :: s in m.sequential ==> Lookup(m.index, s) == Some(m.sequential[s]))
    && (forall s :: Lookup(m.index, s).Some? ==> s in m.sequential)
  }

  // ---------------------------------------------------------------- put

  /**
   * One step of `put` per level. The intermediate maps are created (and the
   * context path's slash count raised) whether or not the entry is then
   * written, as the class does before it finds a conflict.
   */
  function PutSchemes<V>(si: SchemeIndex<V>, e: Entry<V>, write: bool): SchemeIndex<V>
  {
    if write then si[e.single.scheme := e] else si
  }

  function PutPorts<V>(pi: PortIndex<V>, e: Entry<V>, write: bool): PortIndex<V>
  {
    var port := e.single.port;
    pi[port := PutSchemes(if port in pi then pi[port] else map[], e, write)]
  }

  function PutPrefixes<V>(pre: PrefixIndex<V>, e: Entry<V>, write: bool): PrefixIndex<V>
  {
    var prefix: Option<string> := e.single.prefix;
    pre[prefix := PutPorts(if prefix in pre then pre[prefix] else map[], e, write)]
  }

  function PutContexts<V>(ci: ContextIndex<V>, e: Entry<V>, write: bool): ContextIndex<V>
  {
    var contextPath := e.single.contextPath;
    var slashCount := SlashCount(e.single.prefix);
    var node :=
      if contextPath !in ci then ContextNode(slashCount, map[])
      else if slashCount > ci[contextPath].maxSlashCount then ci[contextPath].(maxSlashCount := slashCount)
      else ci[contextPath];
    ci[contextPath := node.(prefixes := PutPrefixes(node.prefixes, e, write))]
  }

  function PutHosts<V>(idx: Index<V>, e: Entry<V>, write: bool): Index<V>
  {
    var host := e.single.host;
    idx[host := PutContexts(if host in idx then idx[host] else map[], e, write)]
  }

  /** Why `put` throws: `getCombinations()` failed, or a combination is already in the index. */
  datatype PutError =
    | CombinationsFailed(error: Error)
    | AlreadyInIndex(partialUrl: PartialURL, singleUrl: Single, existing: PartialURL)

  /** One turn of the loop in `put`: the map afterwards, and the conflict found, if any. */
  function PutOne<V>(m: PartialURLMap<V>, partial: PartialURL, single: Single, value: V): (PartialURLMap<V>, Option<PutError>)
  {
    var existing := Lookup(m.index, single);
    var e := Entry(partial, single, value);
    var index := PutHosts(m.index, e, existing.None?);
    if existing.Some? then
      (m.(index := index), Some(AlreadyInIndex(partial, single, existing.value.partial)))
    else
      (PartialURLMap(index, InsertSorted(m.sequentialKeys, single, SinglePartial.Compare), m.sequential[single := e]), None)
  }

  /**
   * The loop of `put`; it stops at the first conflict and keeps what it did
   * before it.  It never overwrites a stored pattern and stores only the
   * given ones; run to the end, every given pattern holds the value; a
   * conflict names a given pattern and the partial URL it is stored under.
   */
  function PutAll<V>(m: PartialURLMap<V>, partial: PartialURL, singles: seq<Single>, value: V): (r: (PartialURLMap<V>, Option<PutError>))
    ensures forall t ::
      || Lookup(r.0.index, t) == Lookup(m.index, t)
      || (t in singles && Lookup(m.index, t).None? && Lookup(r.0.index, t) == Some(Entry(partial, t, value)))
    ensures r.1.None? ==> forall t :: t in singles ==> Lookup(r.0.index, t) == Some(Entry(partial, t, value))
    ensures r.1.Some? ==>
      && r.1.value.AlreadyInIndex? && r.1.value.partialUrl == partial && r.1.value.singleUrl in singles
      && Lookup(r.0.index, r.1.value.singleUrl).Some?
      && Lookup(r.0.index, r.1.value.singleUrl).value.partial == r.1.value.existing
    decreases |singles|
  {
    if |singles| == 0 then (m, None)
    else
      PutOneEffect(m, partial, singles[0], value);
      var (m1, err) := PutOne(m, partial, singles[0], value);
      if err.Some? then (m1, err)
      else
        var r := PutAll(m1, partial, singles[1..], value);
        assert forall t :: t in singles <==> t == singles[0] || t in singles[1..];
        r
  }

  /**
   * `put(partialUrl, value)`: every combination of the partial URL is
   * entered in turn.  A stored pattern is never overwritten; without an
   * error every combination holds the value; a conflict names a combination
   * and the partial URL stored under it; when the combinations cannot be
   * listed the map is unchanged.
   */
  function Put<V>(m: PartialURLMap<V>, partial: PartialURL, value: V): (r: (PartialURLMap<V>, Option<PutError>))
    ensures Partial.Combinations(partial).Err? ==> r == (m, Some(CombinationsFailed(Partial.Combinations(partial).error)))
    ensures forall t :: Lookup(m.index, t).Some? ==> Lookup(r.0.index, t) == Lookup(m.index, t)
    ensures r.1.None? ==>
      && Partial.Combinations(partial).Ok?
      && forall t :: t in Partial.Combinations(partial).value ==> Lookup(r.0.index, t) == Some(Entry(partial, t, value))
    ensures r.1.Some? && r.1.value.AlreadyInIndex? ==>
      && Partial.Combinations(partial).Ok? && r.1.value.singleUrl in Partial.Combinations(partial).value
      && Lookup(r.0.index, r.1.value.singleUrl).Some?
      && Lookup(r.0.index, r.1.value.singleUrl).value.partial == r.1.value.existing
  {
    match Partial.Combinations(partial)
    case Err(e) => (m, Some(CombinationsFailed(e)))
    case Ok(singles) => PutAll(m, partial, singles, value)
  }

  /** How many leading patterns of `singles` are not yet in the index. */
  function FreeRun<V>(idx: Index<V>, singles: seq<Single>): (n: nat)
    ensures n <= |singles|
    ensures forall j :: 0 <= j < n ==> Lookup(idx, singles[j]).None?
    ensures n < |singles| ==> Lookup(idx, singles[n]).Some?
  {
    if |singles| == 0 || Lookup(idx, singles[0]).Some? then 0
    else 1 + FreeRun(idx, singles[1..])
  }

  // ---------------------------------------------------------------- indexed get

  /** The request path as a string, empty when the request has none. */
  function PathString(src: FieldSource): string
  {
    if src.path.None? then "" else src.path.value
  }

  /** The scheme search order: the request's scheme lower-cased, then the absent scheme. */
  function SearchSchemes<V>(si: SchemeIndex<V>, src: FieldSource): Option<Entry<V>>
  {
    var scheme := Some(ToLower(src.scheme));
    if scheme in si then Some(si[scheme])
    else if None in si then Some(si[None])
    else None
  }

  /** The port search order: the request's port, then the absent port. */
  function SearchPorts<V>(pi: PortIndex<V>, src: FieldSource): Option<Entry<V>>
  {
    var port := Some(src.port);
    var found := if port in pi then SearchSchemes(pi[port], src) else None;
    if found.Some? then found
    else if None in pi then SearchSchemes(pi[None], src)
    else None
  }

  /**
   * The forward scan of `getIndexed`: from the `slashCount`-th slash at
   * `lastSlashPos`, step to following slashes until `maxSlashCount` of them
   * are passed or the path has no more.
   */
  function WalkForward(s: string, maxSlashCount: nat, slashCount: nat, lastSlashPos: int): (r: (nat, int))
    requires IsOccurrence(s, '/', slashCount, lastSlashPos) && slashCount <= maxSlashCount
    ensures IsOccurrence(s, '/', r.0, r.1)
    ensures slashCount <= r.0 <= maxSlashCount
    ensures r.0 < maxSlashCount ==> CountChar(s, '/') == r.0
    decreases maxSlashCount - slashCount
  {
    if slashCount >= maxSlashCount then (slashCount, lastSlashPos)
    else
      IndexOfStepsForward(s, '/', slashCount, lastSlashPos);
      var slashPos := IndexOf(s, '/', lastSlashPos + 1);
      if slashPos == -1 then (slashCount, lastSlashPos)
      else WalkForward(s, maxSlashCount, slashCount + 1, slashPos)
  }

  /** The prefix key at a depth: absent at depth 0, else the path up to and including that slash. */
  function DepthKey(s: string, slashCount: nat, lastSlashPos: int): Option<string>
    requires IsOccurrence(s, '/', slashCount, lastSlashPos)
  {
    if slashCount == 0 then None else Some(s[..lastSlashPos + 1])
  }

  /** The backward scan of `getIndexed`: the deepest prefix first, working up one slash at a time. */
  function SearchDepths<V>(pre: PrefixIndex<V>, s: string, slashCount: nat, lastSlashPos: int, src: FieldSource): Option<Entry<V>>
    requires IsOccurrence(s, '/', slashCount, lastSlashPos)
    decreases slashCount
  {
    var prefix := DepthKey(s, slashCount, lastSlashPos);
    var found := if prefix in pre then SearchPorts(pre[prefix], src) else None;
    if found.Some? then found
    else if slashCount == 0 then None
    else
      LastIndexOfStepsBack(s, '/', slashCount, lastSlashPos);
      SearchDepths(pre, s, slashCount - 1, LastIndexOf(s, '/', lastSlashPos - 1), src)
  }

  function SearchContext<V>(node: ContextNode<V>, src: FieldSource): Option<Entry<V>>
  {
    var s := PathString(src);
    var (slashCount, lastSlashPos) := WalkForward(s, node.maxSlashCount, 0, -1);
    SearchDepths(node.prefixes, s, slashCount, lastSlashPos, src)
  }

  /** The context path search order: the request's context path, then the absent one. */
  function SearchContexts<V>(ci: ContextIndex<V>, src: FieldSource): Option<Entry<V>>
  {
    var contextPath := Some(src.contextPath);
    var found := if contextPath in ci then SearchContext(ci[contextPath], src) else None;
    if found.Some? then found
    else if None in ci then SearchContext(ci[None], src)
    else None
  }

  /** `getIndexed`: the host search order is the request's host, then the absent host. */
  function GetIndexedEntry<V>(idx: Index<V>, src: FieldSource): Option<Entry<V>>
  {
    var host := Some(src.host);
    var found := if host in idx then SearchContexts(idx[host], src) else None;
    if found.Some? then found
    else if None in idx then SearchContexts(idx[None], src)
    else None
  }

  /** The match returned for a stored entry: its URL is the pattern's URL completed from the request. */
  function MatchOf<V>(e: Entry<V>, src: FieldSource): (r: Match<V>)
    ensures r.partialUrl == e.partial && r.singleUrl == e.single && r.value == e.value
    ensures SinglePartial.ToURL(e.single, Some(src)) == Ok(r.url)
  {
    SinglePartial.ToURLWithoutSource(e.single, src);
    Match(e.partial, e.single, SinglePartial.ToURL(e.single, Some(src)).value, e.value)
  }

  /**
   * `getIndexed(fieldSource)`: on a well-formed index, a stored entry whose
   * pattern matches the request and sorts first among all such; nothing only
   * when no stored pattern matches.
   */
  function GetIndexed<V>(m: PartialURLMap<V>, src: FieldSource): (r: Option<Match<V>>)
    ensures WfIndex(m.index) && r.Some? ==>
      && Lookup(m.index, r.value.singleUrl) == Some(Entry(r.value.partialUrl, r.value.singleUrl, r.value.value))
      && SinglePartial.Matches(r.value.singleUrl, src) == Some(r.value.singleUrl)
    ensures WfIndex(m.index) ==>
      forall s :: Lookup(m.index, s).Some? && SinglePartial.MatchesSource(s, src) ==>
        r.Some? && SinglePartial.Compare(r.value.singleUrl, s) <= 0
    ensures r.Some? ==> SinglePartial.ToURL(r.value.singleUrl, Some(src)) == Ok(r.value.url)
  {
    var found := GetIndexedEntry(m.index, src);
    var r := if found.None? then None else Some(MatchOf(found.value, src));
    if WfIndex(m.index) then
      GetIndexedIsLeastAt(m.index, src);
      r
    else r
  }

  /** `GetIndexedIsLeast`, stated for every stored pattern. */
  lemma GetIndexedIsLeastAt<V>(idx: Index<V>, src: FieldSource)
    requires WfIndex(idx)
    ensures var r := GetIndexedEntry(idx, src);
      && (r.Some? ==> Lookup(idx, r.value.single) == r && SinglePartial.Matches(r.value.single, src) == Some(r.value.single))
      && (forall s :: Lookup(idx, s).Some? && SinglePartial.MatchesSource(s, src) ==>
            r.Some? && SinglePartial.Compare(r.value.single, s) <= 0)
  {
    GetIndexedIsLeast(idx, src);
    forall s | Lookup(idx, s).Some? && SinglePartial.MatchesSource(s, src)
      ensures GetIndexedEntry(idx, src).Some? && SinglePartial.Compare(GetIndexedEntry(idx, src).value.single, s) <= 0
    {
      LookupIsKeyed(idx, s);
      GetIndexedEntryLeast(idx, src, Lookup(idx, s).value);
    }
  }

  /** `getSequential`: the first key, in `compareTo` order, whose pattern matches the request. */
  function GetSequentialEntry<V>(m: PartialURLMap<V>, src: FieldSource): Option<Entry<V>>
  {
    var key := FirstWhere(m.sequentialKeys, (s: Single) => SinglePartial.Matches(s, src).Some?);
    if key.Some? && key.value in m.sequential then Some(m.sequential[key.value]) else None
  }

  /**
   * `getSequential(fieldSource)`: on a consistent map, the stored entry of
   * the least key, in `compareTo` order, whose pattern matches the request;
   * nothing only when no key matches.
   */
  function GetSequential<V>(m: PartialURLMap<V>, src: FieldSource): (r: Option<Match<V>>)
    ensures Consistent(m) ==>
      (r.None? <==> forall k :: k in m.sequentialKeys ==> SinglePartial.Matches(k, src).None?)
    ensures Consistent(m) && r.Some? ==>
      && r.value.singleUrl in m.sequentialKeys
      && m.sequential[r.value.singleUrl] == Entry(r.value.partialUrl, r.value.singleUrl, r.value.value)
      && SinglePartial.Matches(r.value.singleUrl, src).Some?
      && forall k :: k in m.sequentialKeys && SinglePartial.Matches(k, src).Some? ==> SinglePartial.Compare(r.value.singleUrl, k) <= 0
  {
    var found := GetSequentialEntry(m, src);
    var r := if found.None? then None else Some(MatchOf(found.value, src));
    assert Consistent(m) && r.Some? ==>
      forall k :: k in m.sequentialKeys && SinglePartial.Matches(k, src).Some? ==> SinglePartial.Compare(r.value.singleUrl, k) <= 0 by {
      if Consistent(m) && r.Some? {
        var p := (s: Single) => SinglePartial.Matches(s, src).Some?;
        var key := FirstWhere(m.sequentialKeys, p).value;
        LookupIsKeyed(m.index, key);
        SinglePartial.CompareOrder();
        forall k | k in m.sequentialKeys && SinglePartial.Matches(k, src).Some?
          ensures SinglePartial.Compare(key, k) <= 0
        {
          assert p(k);
          FirstWhereIsLeast(m.sequentialKeys, p, SinglePartial.Compare, k);
        }
      }
    }
    r
  }

  /** `get(fieldSource)`: the indexed lookup, which on a consistent map agrees with the sequential one. */
  function Get<V>(m: PartialURLMap<V>, src: FieldSource): (r: Option<Match<V>>)
    ensures Consistent(m) ==> r == GetSequential(m, src)
  {
    assert Consistent(m) ==> GetIndexedEntry(m.index, src) == GetSequentialEntry(m, src) by {
      if Consistent(m) {
        GetIndexedEntryIsSequential(m, src);
      }
    }
    GetIndexed(m, src)
  }

  // ---------------------------------------------------------------- the index and its invariant

  /** A well-formed index files every entry under its own pattern, and only valid patterns. */
  lemma LookupIsKeyed<V>(idx: Index<V>, s: Single)
    requires WfIndex(idx)
    ensures Lookup(idx, s).Some? ==> Lookup(idx, s).value.single == s && SinglePartial.Valid(s)
  {
  }

  lemma EmptyIsConsistent<V>()
    ensures Consistent(Empty<V>())
    ensures forall s :: Lookup(Empty<V>().index, s).None?
  {
  }

  // ---------------------------------------------------------------- what put does to the index

  /** Writing changes the lookup at exactly the entry's pattern; not writing changes no lookup. */
  lemma LookupPutHosts<V>(idx: Index<V>, e: Entry<V>, write: bool, t: Single)
    ensures Lookup(PutHosts(idx, e, write), t) == if write && t == e.single then Some(e) else Lookup(idx, t)
  {
  }

  lemma WfPutPorts<V>(pi: PortIndex<V>, e: Entry<V>, write: bool, host: Option<HostAddress>, contextPath: Option<Path>, prefix: Option<string>)
    requires WfPorts(pi, host, contextPath, prefix)
    requires e.single.host == host && e.single.contextPath == contextPath && e.single.prefix == prefix
    requires SinglePartial.Valid(e.single)
    ensures WfPorts(PutPorts(pi, e, write), host, contextPath, prefix)
  {
  }

  lemma WfPutPrefixes<V>(pre: PrefixIndex<V>, e: Entry<V>, write: bool, host: Option<HostAddress>, contextPath: Option<Path>, maxSlashCount: nat)
    requires WfPrefixes(pre, host, contextPath, maxSlashCount)
    requires e.single.host == host && e.single.contextPath == contextPath
    requires SinglePartial.Valid(e.single) && SlashCount(e.single.prefix) <= maxSlashCount
    ensures WfPrefixes(PutPrefixes(pre, e, write), host, contextPath, maxSlashCount)
  {
    var prefix: Option<string> := e.single.prefix;
    WfPutPorts(if prefix in pre then pre[prefix] else map[], e, write, host, contextPath, prefix);
  }

  lemma WfPutContexts<V>(ci: ContextIndex<V>, e: Entry<V>, write: bool, host: Option<HostAddress>)
    requires WfContexts(ci, host)
    requires e.single.host == host && SinglePartial.Valid(e.single)
    ensures WfContexts(PutContexts(ci, e, write), host)
  {
    var contextPath := e.single.contextPath;
    var slashCount := SlashCount(e.single.prefix);
    var node :=
      if contextPath !in ci then ContextNode(slashCount, map[])
      else if slashCount > ci[contextPath].maxSlashCount then ci[contextPath].(maxSlashCount := slashCount)
      else ci[contextPath];
    assert WfPrefixes(node.prefixes, host, contextPath, node.maxSlashCount);
    WfPutPrefixes(node.prefixes, e, write, host, contextPath, node.maxSlashCount);
  }

  /** `put` keeps every entry under its own pattern and every prefix within its context path's slash count. */
  lemma WfPutHosts<V>(idx: Index<V>, e: Entry<V>, write: bool)
    requires WfIndex(idx) && SinglePartial.Valid(e.single)
    ensures WfIndex(PutHosts(idx, e, write))
  {
    var host := e.single.host;
    WfPutContexts(if host in idx then idx[host] else map[], e, write, host);
  }

  /**
   * One turn of the loop: it fails exactly when the pattern is already in
   * the index, naming the partial URL stored there; otherwise it stores the
   * pattern; no other lookup changes.
   */
  lemma PutOneEffect<V>(m: PartialURLMap<V>, partial: PartialURL, single: Single, value: V)
    ensures var (m', err) := PutOne(m, partial, single, value);
      && (err.None? <==> Lookup(m.index, single).None?)
      && (err.Some? ==> err.value == AlreadyInIndex(partial, single, Lookup(m.index, single).value.partial))
      && (forall t :: Lookup(m'.index, t) == if err.None? && t == single then Some(Entry(partial, single, value)) else Lookup(m.index, t))
      && (err.None? ==> StoredOver(m'.index, m.index, [single], partial, value))
      && (err.Some? ==> StoredOver(m'.index, m.index, [], partial, value))
  {
    var e := Entry(partial, single, value);
    var write := Lookup(m.index, single).None?;
    forall t
      ensures Lookup(PutHosts(m.index, e, write), t) == if write && t == single then Some(e) else Lookup(m.index, t)
    {
      LookupPutHosts(m.index, e, write, t);
    }
  }

  /** Every lookup in `after` finds the value stored under the patterns of `stored`, and otherwise what `before` finds. */
  ghost predicate StoredOver<V>(after: Index<V>, before: Index<V>, stored: seq<Single>, partial: PartialURL, value: V)
  {
    forall t {:trigger Lookup(after, t)} :: Lookup(after, t) == if t in stored then Some(Entry(partial, t, value)) else Lookup(before, t)
  }

  lemma StoredOverStep<V>(c: Index<V>, b: Index<V>, a: Index<V>, first: Single, more: seq<Single>, partial: PartialURL, value: V)
    requires StoredOver(c, b, more, partial, value) && StoredOver(b, a, [first], partial, value)
    ensures StoredOver(c, a, [first] + more, partial, value)
  {
    forall t
      ensures Lookup(c, t) == if t in [first] + more then Some(Entry(partial, t, value)) else Lookup(a, t)
    {
      assert Lookup(c, t) == if t in more then Some(Entry(partial, t, value)) else Lookup(b, t);
      assert Lookup(b, t) == if t in [first] then Some(Entry(partial, t, value)) else Lookup(a, t);
    }
  }

  /** One turn of the loop keeps the map consistent, whether or not it fails. */
  lemma PutOneKeepsConsistent<V>(m: PartialURLMap<V>, partial: PartialURL, single: Single, value: V)
    requires Consistent(m) && SinglePartial.Valid(single)
    ensures Consistent(PutOne(m, partial, single, value).0)
  {
    var e := Entry(partial, single, value);
    var write := Lookup(m.index, single).None?;
    var m' := PutOne(m, partial, single, value).0;
    WfPutHosts(m.index, e, write);
    PutOneEffect(m, partial, single, value);
    if write {
      assert single !in m.sequential;
      SinglePartial.CompareOrder();
      InsertSortedKeepsOrder(m.sequentialKeys, single, SinglePartial.Compare);
      forall s | s in m'.sequential
        ensures Lookup(m'.index, s) == Some(m'.sequential[s])
      {
        if s != single {
          assert s in m.sequential;
        }
      }
    } else {
      forall s | s in m'.sequential
        ensures Lookup(m'.index, s) == Some(m'.sequential[s])
      {
        assert Lookup(m'.index, s) == Lookup(m.index, s);
      }
    }
  }

  /** `FreeRun` reads only whether each pattern is in the index. */
  lemma {:induction false} FreeRunSame<V>(a: Index<V>, b: Index<V>, singles: seq<Single>)
    requires forall s :: s in singles ==> Lookup(a, s).Some? == Lookup(b, s).Some?
    ensures FreeRun(a, singles) == FreeRun(b, singles)
    decreases |singles|
  {
    if |singles| > 0 {
      FreeRunSame(a, b, singles[1..]);
    }
  }

  /** The loop of `put` over valid patterns keeps the map consistent, wherever it stops. */
  lemma {:induction false} PutAllKeepsConsistent<V>(m: PartialURLMap<V>, partial: PartialURL, singles: seq<Single>, value: V)
    requires Consistent(m)
    requires forall s :: s in singles ==> SinglePartial.Valid(s)
    ensures Consistent(PutAll(m, partial, singles, value).0)
    decreases |singles|
  {
    if |singles| > 0 {
      PutOneKeepsConsistent(m, partial, singles[0], value);
      var (m1, err1) := PutOne(m, partial, singles[0], value);
      if err1.None? {
        assert forall s :: s in singles[1..] ==> s in singles;
        PutAllKeepsConsistent(m1, partial, singles[1..], value);
      }
    }
  }

  /**
   * What the loop of `put` over `singles` promises of its outcome `r`: the
   * patterns before the first one already in the index are stored, nothing
   * else changes, and it fails exactly when such a pattern exists, naming it
   * and its owner. The patterns stored before the failure stay: there is no
   * roll-back.
   */
  ghost predicate PutAllOutcome<V>(m: PartialURLMap<V>, partial: PartialURL, singles: seq<Single>, value: V, r: (PartialURLMap<V>, Option<PutError>))
  {
    var n := FreeRun(m.index, singles);
    && (r.1.None? <==> n == |singles|)
    && (r.1.Some? ==> n < |singles| && r.1.value == AlreadyInIndex(partial, singles[n], Lookup(m.index, singles[n]).value.partial))
    && StoredOver(r.0.index, m.index, singles[..n], partial, value)
  }

  /** Storing a pattern before the rest leaves the rest's lookups as they were. */
  lemma StoringFirstKeepsRest<V>(a: Index<V>, b: Index<V>, partial: PartialURL, singles: seq<Single>, value: V)
    requires |singles| > 0 && NoDuplicates(singles)
    requires Lookup(a, singles[0]).None? && StoredOver(b, a, [singles[0]], partial, value)
    ensures forall j :: 1 <= j < |singles| ==> Lookup(b, singles[j]) == Lookup(a, singles[j])
    ensures FreeRun(a, singles) == 1 + FreeRun(b, singles[1..])
  {
    forall j | 1 <= j < |singles|
      ensures Lookup(b, singles[j]) == Lookup(a, singles[j])
    {
      assert singles[j] != singles[0];
      assert singles[j] !in [singles[0]];
    }
    forall s | s in singles[1..]
      ensures Lookup(b, s).Some? == Lookup(a, s).Some?
    {
      var j :| 0 <= j < |singles[1..]| && singles[1..][j] == s;
      assert s == singles[j + 1];
    }
    FreeRunSame(b, a, singles[1..]);
  }

  /** The inductive step: storing the first pattern, then the rest, is storing them all. */
  lemma PutAllOutcomeStep<V>(m: PartialURLMap<V>, m1: PartialURLMap<V>, partial: PartialURL, singles: seq<Single>, value: V,
                             r: (PartialURLMap<V>, Option<PutError>))
    requires |singles| > 0 && NoDuplicates(singles)
    requires Lookup(m.index, singles[0]).None? && StoredOver(m1.index, m.index, [singles[0]], partial, value)
    requires PutAllOutcome(m1, partial, singles[1..], value, r)
    ensures PutAllOutcome(m, partial, singles, value, r)
  {
    StoringFirstKeepsRest(m.index, m1.index, partial, singles, value);
    var rest := singles[1..];
    var n := FreeRun(m.index, singles);
    var n1 := FreeRun(m1.index, rest);
    assert n == n1 + 1;
    assert StoredOver(r.0.index, m1.index, rest[..n1], partial, value);
    assert singles[..n] == [singles[0]] + rest[..n1];
    StoredOverStep(r.0.index, m1.index, m.index, singles[0], rest[..n1], partial, value);
    if r.1.Some? {
      assert rest[n1] == singles[n];
      assert Lookup(m1.index, rest[n1]) == Lookup(m.index, singles[n]);
    }
  }

  /** The loop of `put` over distinct patterns keeps the promise of `PutAllOutcome`. */
  lemma {:induction false} PutAllEffect<V>(m: PartialURLMap<V>, partial: PartialURL, singles: seq<Single>, value: V)
    requires NoDuplicates(singles)
    ensures PutAllOutcome(m, partial, singles, value, PutAll(m, partial, singles, value))
    decreases |singles|
  {
    if |singles| > 0 {
      PutOneEffect(m, partial, singles[0], value);
      var r1 := PutOne(m, partial, singles[0], value);
      if r1.1.None? {
        assert NoDuplicates(singles[1..]);
        PutAllEffect(r1.0, partial, singles[1..], value);
        PutAllOutcomeStep(m, r1.0, partial, singles, value, PutAll(r1.0, partial, singles[1..], value));
      } else {
        assert singles[..0] == [];
      }
    } else {
      assert singles[..0] == [];
    }
  }

  /**
   * `put(partialUrl, value)` keeps the map consistent. It succeeds exactly
   * when the combinations can be listed and none of them is in the index
   * yet, and then stores the value under every single pattern the partial
   * URL covers and changes nothing else; when the combinations cannot be
   * listed, nothing changes at all.
   */
  lemma PutSpec<V>(m: PartialURLMap<V>, partial: PartialURL, value: V)
    requires Consistent(m) && Partial.Valid(partial)
    ensures var (m', err) := Put(m, partial, value);
      && Consistent(m')
      && (Partial.Combinations(partial).Err? ==> m' == m && err == Some(CombinationsFailed(Partial.Combinations(partial).error)))
      && (err.None? <==> Partial.Combinations(partial).Ok? && forall s :: Partial.Covers(partial, s) ==> Lookup(m.index, s).None?)
      && (err.None? ==> forall t :: Lookup(m'.index, t) == if Partial.Covers(partial, t) then Some(Entry(partial, t, value)) else Lookup(m.index, t))
  {
    if Partial.Combinations(partial).Ok? {
      var singles := Partial.Combinations(partial).value;
      CombinationsAreDistinctAndValid(partial);
      PutAllKeepsConsistent(m, partial, singles, value);
      PutAllEffect(m, partial, singles, value);
      var n := FreeRun(m.index, singles);
      if n < |singles| {
        Partial.CombinationsCover(partial, singles[n]);
      } else {
        PutAllStoresCovered(m, partial, value);
      }
    }
  }

  /** When the loop runs to the end, exactly the covered patterns are stored, and none of them was stored before. */
  lemma PutAllStoresCovered<V>(m: PartialURLMap<V>, partial: PartialURL, value: V)
    requires Partial.Valid(partial) && Partial.Combinations(partial).Ok?
    requires var singles := Partial.Combinations(partial).value;
      && FreeRun(m.index, singles) == |singles|
      && PutAllOutcome(m, partial, singles, value, PutAll(m, partial, singles, value))
    ensures forall s :: Partial.Covers(partial, s) ==> Lookup(m.index, s).None?
    ensures var m' := PutAll(m, partial, Partial.Combinations(partial).value, value).0;
      forall t :: Lookup(m'.index, t) == if Partial.Covers(partial, t) then Some(Entry(partial, t, value)) else Lookup(m.index, t)
  {
    var singles := Partial.Combinations(partial).value;
    var m' := PutAll(m, partial, singles, value).0;
    assert singles[..|singles|] == singles;
    forall s | Partial.Covers(partial, s)
      ensures Lookup(m.index, s).None?
    {
      Partial.CombinationsCover(partial, s);
      var j :| 0 <= j < |singles| && singles[j] == s;
    }
    forall t
      ensures Lookup(m'.index, t) == if Partial.Covers(partial, t) then Some(Entry(partial, t, value)) else Lookup(m.index, t)
    {
      Partial.CombinationsCover(partial, t);
    }
  }

  lemma CombinationsAreDistinctAndValid(p: PartialURL)
    requires Partial.Valid(p) && Partial.Combinations(p).Ok?
    ensures NoDuplicates(Partial.Combinations(p).value)
    ensures forall s :: s in Partial.Combinations(p).value ==> SinglePartial.Valid(s)
  {
    if p.MultiURL? {
      MultiPartial.CombinationsAreTheProduct(p.multi);
      forall s | s in Partial.Combinations(p).value ensures SinglePartial.Valid(s) {
        MultiPartial.CombinationsAreValid(p.multi, s);
      }
    }
  }

  // ---------------------------------------------------------------- what the indexed get finds

  /** The match tests of the fields below a level of the index. */
  predicate MatchesTail4(s: Single, src: FieldSource)
  {
    SinglePartial.PortMatches(s.port, src) && SinglePartial.SchemeMatches(s.scheme, src)
  }

  predicate MatchesTail3(s: Single, src: FieldSource)
  {
    SinglePartial.PrefixMatches(s.prefix, src) && MatchesTail4(s, src)
  }

  predicate MatchesTail2(s: Single, src: FieldSource)
  {
    SinglePartial.ContextPathMatches(s.contextPath, src) && MatchesTail3(s, src)
  }

  /** `compareTo` restricted to the fields below a level of the index. */
  function CompareTail4(a: Single, b: Single): int
  {
    var port := CompareNullsLast(a.port, b.port, ComparePorts);
    if port != 0 then port else CompareNullsLast(a.scheme, b.scheme, CompareStrings)
  }

  function CompareTail3(a: Single, b: Single): int
  {
    var prefix := SinglePartial.ComparePrefixes(a.prefix, b.prefix);
    if prefix != 0 then prefix else CompareTail4(a, b)
  }

  function CompareTail2(a: Single, b: Single): int
  {
    var contextPath := CompareNullsLast(a.contextPath, b.contextPath, ComparePaths);
    if contextPath != 0 then contextPath else CompareTail3(a, b)
  }

  lemma SearchSchemesSound<V>(si: SchemeIndex<V>, host: Option<HostAddress>, contextPath: Option<Path>, prefix: Option<string>, port: Option<Port>,
                              src: FieldSource)
    requires WfSchemes(si, host, contextPath, prefix, port)
    ensures var r := SearchSchemes(si, src);
      r.Some? ==>
        && LookupSchemes(si, r.value.single) == r
        && r.value.single.host == host && r.value.single.contextPath == contextPath
        && r.value.single.prefix == prefix && r.value.single.port == port
        && SinglePartial.SchemeMatches(r.value.single.scheme, src)
  {
  }

  /** The scheme search finds an entry whenever a matching one is stored, and the request's own scheme first. */
  lemma SearchSchemesLeast<V>(si: SchemeIndex<V>, host: Option<HostAddress>, contextPath: Option<Path>, prefix: Option<string>, port: Option<Port>,
                              src: FieldSource, e: Entry<V>)
    requires WfSchemes(si, host, contextPath, prefix, port)
    requires LookupSchemes(si, e.single) == Some(e) && SinglePartial.SchemeMatches(e.single.scheme, src)
    ensures SearchSchemes(si, src).Some?
    ensures CompareNullsLast(SearchSchemes(si, src).value.single.scheme, e.single.scheme, CompareStrings) <= 0
  {
    StringOrder();
  }

  lemma SearchPortsSound<V>(pi: PortIndex<V>, host: Option<HostAddress>, contextPath: Option<Path>, prefix: Option<string>, src: FieldSource)
    requires WfPorts(pi, host, contextPath, prefix)
    ensures var r := SearchPorts(pi, src);
      r.Some? ==>
        && LookupPorts(pi, r.value.single) == r
        && r.value.single.host == host && r.value.single.contextPath == contextPath && r.value.single.prefix == prefix
        && MatchesTail4(r.value.single, src)
  {
    var port := Some(src.port);
    if port in pi {
      SearchSchemesSound(pi[port], host, contextPath, prefix, port, src);
    }
    if None in pi {
      SearchSchemesSound(pi[None], host, contextPath, prefix, None, src);
    }
  }

  lemma SearchPortsLeast<V>(pi: PortIndex<V>, host: Option<HostAddress>, contextPath: Option<Path>, prefix: Option<string>,
                            src: FieldSource, e: Entry<V>)
    requires WfPorts(pi, host, contextPath, prefix)
    requires LookupPorts(pi, e.single) == Some(e) && MatchesTail4(e.single, src)
    ensures SearchPorts(pi, src).Some?
    ensures CompareTail4(SearchPorts(pi, src).value.single, e.single) <= 0
  {
    PortOrder();
    var port := Some(src.port);
    SearchPortsSound(pi, host, contextPath, prefix, src);
    if e.single.port == port {
      SearchSchemesLeast(pi[port], host, contextPath, prefix, port, src, e);
    } else if !(port in pi && SearchSchemes(pi[port], src).Some?) {
      SearchSchemesLeast(pi[None], host, contextPath, prefix, None, src, e);
    }
  }

  /** A slash-ended string holds at least one slash. */
  lemma SlashEndedCounts(p: string)
    requires EndsWith(p, '/')
    ensures CountChar(p, '/') >= 1
  {
  }

  /** The key at a depth is a slash-ended prefix of the request path holding that many slashes. */
  lemma DepthKeyIsPrefix(s: string, k: nat, pos: int, src: FieldSource)
    requires s == PathString(src) && IsOccurrence(s, '/', k, pos)
    ensures var key := DepthKey(s, k, pos);
      && (key.None? <==> k == 0)
      && (key.Some? ==> src.path.Some? && StartsWith(src.path.value, key.value) && EndsWith(key.value, '/') && CountChar(key.value, '/') == k)
  {
    if k > 0 {
      assert s[..0] == [];
      assert |s[..pos + 1]| == pos + 1;
    }
  }

  /** A stored prefix that matches the request and holds `k` slashes is the key at depth `k`. */
  lemma SameDepthSameKey(s: string, k: nat, pos: int, src: FieldSource, p: Option<Path>)
    requires s == PathString(src) && IsOccurrence(s, '/', k, pos)
    requires SinglePartial.PrefixMatches(p, src) && (p.Some? ==> EndsWith(p.value, '/'))
    requires SlashCount(p) == k
    ensures p == DepthKey(s, k, pos)
  {
    if p.Some? {
      SlashEndedCounts(p.value);
      DepthKeyIsPrefix(s, k, pos, src);
      CountCharDeterminesPrefix(s, '/', p.value, DepthKey(s, k, pos).value);
    }
  }

  /** The key at depth `k` sorts before every matching prefix with fewer slashes. */
  lemma DeeperKeyFirst(s: string, k: nat, pos: int, src: FieldSource, q: Option<Path>, p: Option<Path>)
    requires s == PathString(src) && IsOccurrence(s, '/', k, pos) && k > 0
    requires q == DepthKey(s, k, pos)
    requires SinglePartial.PrefixMatches(p, src) && (p.Some? ==> EndsWith(p.value, '/'))
    requires SlashCount(p) < k
    ensures SinglePartial.ComparePrefixes(q, p) < 0
  {
    DepthKeyIsPrefix(s, k, pos, src);
    if p.Some? {
      CountCharOrdersPrefixes(s, '/', p.value, q.value);
      PrefixesOfOneString(s, q.value, p.value);
      SinglePartial.DeeperPrefixFirst(q.value, p.value);
    }
  }

  lemma {:induction false} SearchDepthsSound<V>(pre: PrefixIndex<V>, host: Option<HostAddress>, contextPath: Option<Path>, maxSlashCount: nat,
                                                s: string, k: nat, pos: int, src: FieldSource)
    requires WfPrefixes(pre, host, contextPath, maxSlashCount)
    requires s == PathString(src) && IsOccurrence(s, '/', k, pos)
    ensures var r := SearchDepths(pre, s, k, pos, src);
      r.Some? ==>
        && LookupPrefixes(pre, r.value.single) == r
        && r.value.single.host == host && r.value.single.contextPath == contextPath
        && MatchesTail3(r.value.single, src)
    decreases k
  {
    var key := DepthKey(s, k, pos);
    DepthKeyIsPrefix(s, k, pos, src);
    if key in pre {
      SearchPortsSound(pre[key], host, contextPath, key, src);
    }
    if k > 0 {
      LastIndexOfStepsBack(s, '/', k, pos);
      SearchDepthsSound(pre, host, contextPath, maxSlashCount, s, k - 1, LastIndexOf(s, '/', pos - 1), src);
    }
  }

  /**
   * The backward scan from depth `k` finds an entry whenever a matching
   * one with at most `k` slashes in its prefix is stored, and none that
   * sorts after it.
   */
  lemma {:induction false} SearchDepthsLeast<V>(pre: PrefixIndex<V>, host: Option<HostAddress>, contextPath: Option<Path>, maxSlashCount: nat,
                                                s: string, k: nat, pos: int, src: FieldSource, e: Entry<V>)
    requires WfPrefixes(pre, host, contextPath, maxSlashCount)
    requires s == PathString(src) && IsOccurrence(s, '/', k, pos)
    requires LookupPrefixes(pre, e.single) == Some(e) && MatchesTail3(e.single, src)
    requires SlashCount(e.single.prefix) <= k
    ensures SearchDepths(pre, s, k, pos, src).Some?
    ensures CompareTail3(SearchDepths(pre, s, k, pos, src).value.single, e.single) <= 0
    decreases k
  {
    var key := DepthKey(s, k, pos);
    assert SinglePartial.Valid(e.single);
    if SlashCount(e.single.prefix) == k {
      SearchDepthsLeastAtDepth(pre, host, contextPath, maxSlashCount, s, k, pos, src, e);
    } else if key in pre && SearchPorts(pre[key], src).Some? {
      SearchDepthsLeastAbove(pre, host, contextPath, maxSlashCount, s, k, pos, src, e);
    } else {
      SearchDepthsStepsBack(pre, s, k, pos, src);
      SearchDepthsLeast(pre, host, contextPath, maxSlashCount, s, k - 1, LastIndexOf(s, '/', pos - 1), src, e);
    }
  }

  /** Nothing found at this depth: the search goes on one slash up. */
  lemma SearchDepthsStepsBack<V>(pre: PrefixIndex<V>, s: string, k: nat, pos: int, src: FieldSource)
    requires IsOccurrence(s, '/', k, pos) && k > 0
    requires !(DepthKey(s, k, pos) in pre && SearchPorts(pre[DepthKey(s, k, pos)], src).Some?)
    ensures IsOccurrence(s, '/', k - 1, LastIndexOf(s, '/', pos - 1))
    ensures SearchDepths(pre, s, k, pos, src) == SearchDepths(pre, s, k - 1, LastIndexOf(s, '/', pos - 1), src)
  {
    LastIndexOfStepsBack(s, '/', k, pos);
  }

  /** The stored entry sits at the depth the search starts from, so the search finds it or one before it. */
  lemma SearchDepthsLeastAtDepth<V>(pre: PrefixIndex<V>, host: Option<HostAddress>, contextPath: Option<Path>, maxSlashCount: nat,
                                    s: string, k: nat, pos: int, src: FieldSource, e: Entry<V>)
    requires WfPrefixes(pre, host, contextPath, maxSlashCount)
    requires s == PathString(src) && IsOccurrence(s, '/', k, pos)
    requires LookupPrefixes(pre, e.single) == Some(e) && MatchesTail3(e.single, src)
    requires SlashCount(e.single.prefix) == k
    ensures SearchDepths(pre, s, k, pos, src).Some?
    ensures CompareTail3(SearchDepths(pre, s, k, pos, src).value.single, e.single) <= 0
  {
    var key := DepthKey(s, k, pos);
    assert SinglePartial.Valid(e.single);
    SameDepthSameKey(s, k, pos, src, e.single.prefix);
    SearchPortsLeast(pre[key], host, contextPath, key, src, e);
    SearchPortsSound(pre[key], host, contextPath, key, src);
    var r := SearchPorts(pre[key], src).value;
    assert SearchDepths(pre, s, k, pos, src) == Some(r);
    SamePrefixTail(r.single, e.single);
  }

  /** The search stops at a deeper key than the stored entry's prefix, which sorts before it. */
  lemma SearchDepthsLeastAbove<V>(pre: PrefixIndex<V>, host: Option<HostAddress>, contextPath: Option<Path>, maxSlashCount: nat,
                                  s: string, k: nat, pos: int, src: FieldSource, e: Entry<V>)
    requires WfPrefixes(pre, host, contextPath, maxSlashCount)
    requires s == PathString(src) && IsOccurrence(s, '/', k, pos)
    requires LookupPrefixes(pre, e.single) == Some(e) && MatchesTail3(e.single, src)
    requires SlashCount(e.single.prefix) < k
    requires DepthKey(s, k, pos) in pre && SearchPorts(pre[DepthKey(s, k, pos)], src).Some?
    ensures SearchDepths(pre, s, k, pos, src).Some?
    ensures CompareTail3(SearchDepths(pre, s, k, pos, src).value.single, e.single) <= 0
  {
    var key := DepthKey(s, k, pos);
    assert SinglePartial.Valid(e.single);
    var r := SearchPorts(pre[key], src).value;
    assert SearchDepths(pre, s, k, pos, src) == Some(r);
    SearchPortsSound(pre[key], host, contextPath, key, src);
    DeeperKeyFirst(s, k, pos, src, r.single.prefix, e.single.prefix);
  }

  /** Patterns with the same prefix compare below the prefix level. */
  lemma SamePrefixTail(a: Single, b: Single)
    requires a.prefix == b.prefix
    ensures CompareTail3(a, b) == CompareTail4(a, b)
  {
    SinglePartial.PrefixOrder();
    NullsLastOrder(a.prefix, a.prefix, a.prefix, SinglePartial.ComparePrefixPaths);
  }

  lemma SearchContextSound<V>(node: ContextNode<V>, host: Option<HostAddress>, contextPath: Option<Path>, src: FieldSource)
    requires WfPrefixes(node.prefixes, host, contextPath, node.maxSlashCount)
    ensures var r := SearchContext(node, src);
      r.Some? ==>
        && LookupPrefixes(node.prefixes, r.value.single) == r
        && r.value.single.host == host && r.value.single.contextPath == contextPath
        && MatchesTail3(r.value.single, src)
  {
    var s := PathString(src);
    assert s[..0] == [];
    var w := WalkForward(s, node.maxSlashCount, 0, -1);
    SearchDepthsSound(node.prefixes, host, contextPath, node.maxSlashCount, s, w.0, w.1, src);
  }

  /**
   * Below one context path the forward scan goes deep enough: every stored
   * prefix that matches the request holds no more slashes than where the
   * scan stops, so the backward scan reaches it.
   */
  lemma SearchContextLeast<V>(node: ContextNode<V>, host: Option<HostAddress>, contextPath: Option<Path>, src: FieldSource, e: Entry<V>)
    requires WfPrefixes(node.prefixes, host, contextPath, node.maxSlashCount)
    requires LookupPrefixes(node.prefixes, e.single) == Some(e) && MatchesTail3(e.single, src)
    ensures SearchContext(node, src).Some?
    ensures CompareTail3(SearchContext(node, src).value.single, e.single) <= 0
  {
    var s := PathString(src);
    assert s[..0] == [];
    var w := WalkForward(s, node.maxSlashCount, 0, -1);
    var prefix: Option<string> := e.single.prefix;
    assert SlashCount(prefix) <= node.maxSlashCount;
    if prefix.Some? {
      CountCharMonotone(s, '/', |prefix.value|, |s|);
      assert s[..|s|] == s;
    }
    SearchDepthsLeast(node.prefixes, host, contextPath, node.maxSlashCount, s, w.0, w.1, src, e);
  }

  lemma SearchContextsSound<V>(ci: ContextIndex<V>, host: Option<HostAddress>, src: FieldSource)
    requires WfContexts(ci, host)
    ensures var r := SearchContexts(ci, src);
      r.Some? ==> LookupContexts(ci, r.value.single) == r && r.value.single.host == host && MatchesTail2(r.value.single, src)
  {
    var contextPath := Some(src.contextPath);
    if contextPath in ci {
      SearchContextSound(ci[contextPath], host, contextPath, src);
    }
    if None in ci {
      SearchContextSound(ci[None], host, None, src);
    }
  }

  lemma SearchContextsLeast<V>(ci: ContextIndex<V>, host: Option<HostAddress>, src: FieldSource, e: Entry<V>)
    requires WfContexts(ci, host)
    requires LookupContexts(ci, e.single) == Some(e) && MatchesTail2(e.single, src)
    ensures SearchContexts(ci, src).Some?
    ensures CompareTail2(SearchContexts(ci, src).value.single, e.single) <= 0
  {
    PathOrder();
    var contextPath := Some(src.contextPath);
    SearchContextsSound(ci, host, src);
    if contextPath in ci {
      SearchContextSound(ci[contextPath], host, contextPath, src);
    }
    if e.single.contextPath == contextPath {
      NullsLastOrder(contextPath, contextPath, contextPath, ComparePaths);
      SearchContextLeast(ci[contextPath], host, contextPath, src, e);
    } else if !(contextPath in ci && SearchContext(ci[contextPath], src).Some?) {
      SearchContextLeast(ci[None], host, None, src, e);
    }
  }

  /** `getIndexed` only returns stored entries whose pattern matches the request. */
  lemma GetIndexedEntrySound<V>(idx: Index<V>, src: FieldSource)
    requires WfIndex(idx)
    ensures var r := GetIndexedEntry(idx, src);
      r.Some? ==> Lookup(idx, r.value.single) == r && SinglePartial.MatchesSource(r.value.single, src)
  {
    var host := Some(src.host);
    if host in idx {
      SearchContextsSound(idx[host], host, src);
    }
    if None in idx {
      SearchContextsSound(idx[None], None, src);
    }
  }

  lemma GetIndexedEntryLeast<V>(idx: Index<V>, src: FieldSource, e: Entry<V>)
    requires WfIndex(idx)
    requires Lookup(idx, e.single) == Some(e) && SinglePartial.MatchesSource(e.single, src)
    ensures GetIndexedEntry(idx, src).Some?
    ensures SinglePartial.Compare(GetIndexedEntry(idx, src).value.single, e.single) <= 0
  {
    HostOrder();
    var host := Some(src.host);
    GetIndexedEntrySound(idx, src);
    if host in idx {
      SearchContextsSound(idx[host], host, src);
    }
    if e.single.host == host {
      NullsLastOrder(host, host, host, CompareHosts);
      SearchContextsLeast(idx[host], host, src, e);
    } else if !(host in idx && SearchContexts(idx[host], src).Some?) {
      SearchContextsLeast(idx[None], None, src, e);
    }
  }

  /**
   * `getIndexed` returns the most specific match: a stored entry whose
   * pattern matches the request and sorts first, by `compareTo`, among all
   * such entries; nothing only when no stored pattern matches.
   */
  lemma GetIndexedIsLeast<V>(idx: Index<V>, src: FieldSource)
    requires WfIndex(idx)
    ensures var r := GetIndexedEntry(idx, src);
      && (r.Some? ==> Lookup(idx, r.value.single) == r && SinglePartial.Matches(r.value.single, src) == Some(r.value.single))
      && (forall e: Entry<V> :: Lookup(idx, e.single) == Some(e) && SinglePartial.MatchesSource(e.single, src) ==>
            r.Some? && SinglePartial.Compare(r.value.single, e.single) <= 0)
  {
    GetIndexedEntrySound(idx, src);
    forall e: Entry<V> | Lookup(idx, e.single) == Some(e) && SinglePartial.MatchesSource(e.single, src)
      ensures GetIndexedEntry(idx, src).Some? && SinglePartial.Compare(GetIndexedEntry(idx, src).value.single, e.single) <= 0
    {
      GetIndexedEntryLeast(idx, src, e);
    }
  }

  /**
   * The indexed lookup agrees with the sequential scan of the keys in
   * `compareTo` order: the check `get` makes when assertions are on never
   * fails on a consistent map.
   */
  lemma GetIsSequential<V>(m: PartialURLMap<V>, src: FieldSource)
    requires Consistent(m)
    ensures GetIndexedEntry(m.index, src) == GetSequentialEntry(m, src)
    ensures Get(m, src) == GetSequential(m, src)
  {
    GetIndexedEntryIsSequential(m, src);
  }

  lemma GetIndexedEntryIsSequential<V>(m: PartialURLMap<V>, src: FieldSource)
    requires Consistent(m)
    ensures GetIndexedEntry(m.index, src) == GetSequentialEntry(m, src)
  {
    var p := (s: Single) => SinglePartial.Matches(s, src).Some?;
    var q := FirstWhere(m.sequentialKeys, p);
    if q.Some? {
      var k := q.value;
      assert k in m.sequential && p(k);
      assert Lookup(m.index, k) == Some(m.sequential[k]);
      LookupIsKeyed(m.index, k);
      SequentialFirstIsIndexed(m, src, m.sequential[k]);
    } else {
      GetIndexedEntrySound(m.index, src);
    }
  }

  /** The first stored key that matches in `compareTo` order is what the indexed walk finds. */
  lemma SequentialFirstIsIndexed<V>(m: PartialURLMap<V>, src: FieldSource, e2: Entry<V>)
    requires Consistent(m)
    requires var q := FirstWhere(m.sequentialKeys, (s: Single) => SinglePartial.Matches(s, src).Some?);
      q.Some? && Lookup(m.index, q.value) == Some(e2) && e2.single == q.value
    ensures GetIndexedEntry(m.index, src) == Some(e2)
  {
    var p := (s: Single) => SinglePartial.Matches(s, src).Some?;
    var k := FirstWhere(m.sequentialKeys, p).value;
    assert p(k);
    GetIndexedEntryLeast(m.index, src, e2);
    GetIndexedEntrySound(m.index, src);
    var e := GetIndexedEntry(m.index, src).value;
    assert e.single in m.sequential && e.single in m.sequentialKeys;
    assert p(e.single);
    SinglePartial.CompareOrder();
    FirstWhereIsLeast(m.sequentialKeys, p, SinglePartial.Compare, e.single);
    assert k == e.single;
  }

  // ---------------------------------------------------------------- agreement with the partial URLs' own matching

  /**
   * Every stored pattern belongs to a valid partial URL that covers it, all
   * of whose patterns are stored: what a map built by successful puts keeps.
   */
  ghost predicate Complete<V>(m: PartialURLMap<V>)
  {
    forall s :: Lookup(m.index, s).Some? ==>
      && Partial.Valid(Lookup(m.index, s).value.partial)
      && Partial.Covers(Lookup(m.index, s).value.partial, s)
      && forall c :: Partial.Covers(Lookup(m.index, s).value.partial, c) ==> Lookup(m.index, c).Some?
  }

  lemma EmptyIsComplete<V>()
    ensures Complete(Empty<V>())
  {
  }

  /** A `put` that succeeds keeps the map complete. */
  lemma PutKeepsComplete<V>(m: PartialURLMap<V>, partial: PartialURL, value: V)
    requires Consistent(m) && Complete(m) && Partial.Valid(partial)
    requires Put(m, partial, value).1.None?
    ensures Complete(Put(m, partial, value).0)
  {
    PutSpec(m, partial, value);
    var m' := Put(m, partial, value).0;
    forall s | Lookup(m'.index, s).Some?
      ensures Partial.Valid(Lookup(m'.index, s).value.partial)
      ensures Partial.Covers(Lookup(m'.index, s).value.partial, s)
      ensures forall c :: Partial.Covers(Lookup(m'.index, s).value.partial, c) ==> Lookup(m'.index, c).Some?
    {
      StoredKeepsComplete(m.index, m'.index, partial, value, s);
    }
  }

  /** What one stored pattern needs for completeness survives storing a whole partial URL over an index. */
  lemma StoredKeepsComplete<V>(before: Index<V>, after: Index<V>, partial: PartialURL, value: V, s: Single)
    requires Partial.Valid(partial)
    requires forall t :: Lookup(after, t) == if Partial.Covers(partial, t) then Some(Entry(partial, t, value)) else Lookup(before, t)
    requires Lookup(before, s).Some? ==>
      && Partial.Valid(Lookup(before, s).value.partial)
      && Partial.Covers(Lookup(before, s).value.partial, s)
      && forall c :: Partial.Covers(Lookup(before, s).value.partial, c) ==> Lookup(before, c).Some?
    requires Lookup(after, s).Some?
    ensures Partial.Valid(Lookup(after, s).value.partial)
    ensures Partial.Covers(Lookup(after, s).value.partial, s)
    ensures forall c :: Partial.Covers(Lookup(after, s).value.partial, c) ==> Lookup(after, c).Some?
  {
    if Partial.Covers(partial, s) {
      assert Lookup(after, s).value.partial == partial;
      forall c | Partial.Covers(partial, c)
        ensures Lookup(after, c).Some?
      {
        assert Lookup(after, c) == Some(Entry(partial, c, value));
      }
    } else {
      var p := Lookup(before, s).value.partial;
      assert Lookup(after, s) == Lookup(before, s);
      forall c | Partial.Covers(p, c)
        ensures Lookup(after, c).Some?
      {
        assert Lookup(before, c).Some?;
        assert Lookup(after, c) == if Partial.Covers(partial, c) then Some(Entry(partial, c, value)) else Lookup(before, c);
      }
    }
  }

  /** Two patterns that differ at most in the prefix sort by the prefix. */
  lemma PrefixDecidesOrder(a: Single, b: Single)
    requires a.scheme == b.scheme && a.host == b.host && a.port == b.port && a.contextPath == b.contextPath
    requires a.prefix == b.prefix || SinglePartial.ComparePrefixes(a.prefix, b.prefix) < 0
    ensures a == b || SinglePartial.Compare(a, b) < 0
  {
    HostOrder();
    PathOrder();
    NullsLastOrder(a.host, a.host, a.host, CompareHosts);
    NullsLastOrder(a.contextPath, a.contextPath, a.contextPath, ComparePaths);
  }

  /**
   * Of two stored patterns that differ only in the prefix, the deeper one
   * wins whenever it matches: a request under `/prefix/sub/` never gets the
   * pattern for `/prefix/`.
   */
  lemma DeepestPrefixWins<V>(m: PartialURLMap<V>, a: Single, b: Single, src: FieldSource)
    requires WfIndex(m.index)
    requires Lookup(m.index, a).Some? && Lookup(m.index, b).Some?
    requires a.scheme == b.scheme && a.host == b.host && a.port == b.port && a.contextPath == b.contextPath
    requires a.prefix.Some? && b.prefix.Some? && StartsWith(b.prefix.value, a.prefix.value) && a.prefix != b.prefix
    requires SinglePartial.MatchesSource(b, src)
    ensures Get(m, src).Some? && Get(m, src).value.singleUrl != a
  {
    GetIndexedIsLeast(m.index, src);
    LookupIsKeyed(m.index, b);
    SinglePartial.DeeperPrefixFirst(b.prefix.value, a.prefix.value);
    PrefixDecidesOrder(b, a);
    SinglePartial.CompareOrder();
    var e := Lookup(m.index, b).value;
    assert SinglePartial.Compare(GetIndexedEntry(m.index, src).value.single, e.single) <= 0;
  }

  /**
   * The combinations of `p` that the loop of `put` enters before `s`
   * (`getCombinations()` order) are all stored: what a stored pattern can
   * rely on whether or not the `put` that stored it went on to fail.
   */
  ghost predicate EarlierStored<V>(idx: Index<V>, p: PartialURL, s: Single)
  {
    && Partial.Valid(p) && Partial.Combinations(p).Ok?
    && s in Partial.Combinations(p).value
    && forall i :: 0 <= i < Position(Partial.Combinations(p).value, s) ==> Lookup(idx, Partial.Combinations(p).value[i]).Some?
  }

  /** Every stored pattern comes with the combinations of its partial URL entered before it. */
  ghost predicate StoredInLoopOrder<V>(m: PartialURLMap<V>)
  {
    forall s :: Lookup(m.index, s).Some? ==> EarlierStored(m.index, Lookup(m.index, s).value.partial, s)
  }

  lemma EmptyStoredInLoopOrder<V>()
    ensures StoredInLoopOrder(Empty<V>())
  {
  }

  /** Storing more patterns keeps what `EarlierStored` asks. */
  lemma EarlierStoredGrows<V>(before: Index<V>, after: Index<V>, p: PartialURL, s: Single)
    requires EarlierStored(before, p, s)
    requires forall t :: Lookup(before, t).Some? ==> Lookup(after, t).Some?
    ensures EarlierStored(after, p, s)
  {
    var cs := Partial.Combinations(p).value;
    forall i | 0 <= i < Position(cs, s)
      ensures Lookup(after, cs[i]).Some?
    {
      assert Lookup(before, cs[i]).Some?;
    }
  }

  /**
   * Every `put` of a valid partial URL, successful or not, keeps
   * `StoredInLoopOrder`: the patterns it enters are its combinations in
   * loop order, so each one comes after the ones entered before it.
   */
  lemma PutKeepsLoopOrder<V>(m: PartialURLMap<V>, partial: PartialURL, value: V)
    requires StoredInLoopOrder(m) && Partial.Valid(partial)
    ensures StoredInLoopOrder(Put(m, partial, value).0)
  {
    if Partial.Combinations(partial).Ok? {
      var singles := Partial.Combinations(partial).value;
      CombinationsAreDistinctAndValid(partial);
      PutAllEffect(m, partial, singles, value);
      var after := Put(m, partial, value).0.index;
      var n := FreeRun(m.index, singles);
      assert StoredOver(after, m.index, singles[..n], partial, value);
      forall t | Lookup(m.index, t).Some?
        ensures Lookup(after, t).Some?
      {
        assert Lookup(after, t) == if t in singles[..n] then Some(Entry(partial, t, value)) else Lookup(m.index, t);
      }
      forall s | Lookup(after, s).Some?
        ensures EarlierStored(after, Lookup(after, s).value.partial, s)
      {
        assert Lookup(after, s) == if s in singles[..n] then Some(Entry(partial, s, value)) else Lookup(m.index, s);
        if s in singles[..n] {
          EnteredEarlierStored(m.index, after, partial, value, singles, n, s);
        } else {
          EarlierStoredGrows(m.index, after, Lookup(m.index, s).value.partial, s);
        }
      }
    }
  }

  /** A pattern the loop entered finds the ones entered before it stored. */
  lemma EnteredEarlierStored<V>(before: Index<V>, after: Index<V>, partial: PartialURL, value: V, singles: seq<Single>, n: nat, s: Single)
    requires Partial.Valid(partial) && Partial.Combinations(partial) == Ok(singles)
    requires NoDuplicates(singles) && n <= |singles|
    requires StoredOver(after, before, singles[..n], partial, value)
    requires s in singles[..n]
    ensures Lookup(after, s) == Some(Entry(partial, s, value))
    ensures EarlierStored(after, partial, s)
  {
    var k :| 0 <= k < n && singles[..n][k] == s;
    assert singles[k] == s;
    PositionIs(singles, s, k);
    forall i | 0 <= i < k
      ensures Lookup(after, singles[i]).Some?
    {
      assert singles[i] == singles[..n][i];
      assert Lookup(after, singles[i]) == Some(Entry(partial, singles[i], value));
    }
  }

  /**
   * On a map built by `put`s, the entry `getIndexed` returns is what its
   * own partial URL's `matches` returns for the request: the two
   * assertions `getIndexed` makes before it builds the match.
   */
  lemma GetAgreesWithPartialMatches<V>(m: PartialURLMap<V>, src: FieldSource)
    requires Consistent(m) && StoredInLoopOrder(m)
    ensures var r := GetIndexedEntry(m.index, src);
      r.Some? ==>
        && Partial.Valid(r.value.partial)
        && Partial.Matches(r.value.partial, src) == Some(r.value.single)
        && SinglePartial.Matches(r.value.single, src) == Some(r.value.single)
    ensures var g := Get(m, src);
      g.Some? ==>
        && Partial.Valid(g.value.partialUrl)
        && Partial.Covers(g.value.partialUrl, g.value.singleUrl)
        && Partial.Matches(g.value.partialUrl, src) == Some(g.value.singleUrl)
  {
    var r := GetIndexedEntry(m.index, src);
    GetIndexedIsLeast(m.index, src);
    if r.Some? {
      var e := r.value;
      assert EarlierStored(m.index, e.partial, e.single);
      Partial.CombinationsCover(e.partial, e.single);
      if e.partial.MultiURL? {
        FirstMatchIsStored(m, src, e);
      }
    }
  }

  /**
   * The combination a stored multi-valued partial URL matches first is the
   * pattern `getIndexed` found: it comes no later in loop order, so it is
   * stored, and it differs at most in a deeper prefix, so it does not sort
   * after the pattern found.
   */
  lemma FirstMatchIsStored<V>(m: PartialURLMap<V>, src: FieldSource, e: Entry<V>)
    requires WfIndex(m.index)
    requires SinglePartial.Matches(e.single, src) == Some(e.single)
    requires EarlierStored(m.index, e.partial, e.single) && e.partial.MultiURL?
    requires forall e': Entry<V> :: Lookup(m.index, e'.single) == Some(e') && SinglePartial.MatchesSource(e'.single, src) ==>
      SinglePartial.Compare(e.single, e'.single) <= 0
    ensures Partial.Matches(e.partial, src) == Some(e.single)
  {
    FirstMatchComesFirst(e.partial, src, e.single);
    Partial.CombinationsCover(e.partial, e.single);
    var c := Partial.Matches(e.partial, src).value;
    assert c == MultiPartial.Matches(e.partial.multi, src).value;
    FirstMatchSortsFirst(e.partial.multi, src, e.single);
    if c != e.single {
      StoredBefore(m.index, e.partial, e.single, c);
      StoredMatchSortsAfter(m.index, src, e.single, c);
      assert false;
    }
  }

  /** What a multi-valued pattern matches first sorts no later than any of its combinations that matches. */
  lemma FirstMatchSortsFirst(mm: MultiPartial.Multi, src: FieldSource, s: Single)
    requires MultiPartial.Valid(mm) && MultiPartial.IsCombination(mm, s) && SinglePartial.MatchesSource(s, src)
    ensures MultiPartial.Matches(mm, src).Some?
    ensures var c := MultiPartial.Matches(mm, src).value;
      c == s || SinglePartial.Compare(s, c) > 0
  {
    MultiPartial.MatchesPrefersDeepest(mm, src, s);
    var c := MultiPartial.Matches(mm, src).value;
    PrefixDecidesOrder(c, s);
    SinglePartial.CompareFlips(c, s);
  }

  /** A stored pattern that matches sorts no earlier than one sorting first among all such. */
  lemma StoredMatchSortsAfter<V>(idx: Index<V>, src: FieldSource, s: Single, c: Single)
    requires WfIndex(idx) && Lookup(idx, c).Some? && SinglePartial.MatchesSource(c, src)
    requires forall e': Entry<V> :: Lookup(idx, e'.single) == Some(e') && SinglePartial.MatchesSource(e'.single, src) ==>
      SinglePartial.Compare(s, e'.single) <= 0
    ensures SinglePartial.Compare(s, c) <= 0
  {
    LookupIsKeyed(idx, c);
    var e' := Lookup(idx, c).value;
    assert Lookup(idx, e'.single) == Some(e');
  }

  /** A combination entered before a stored one is stored. */
  lemma StoredBefore<V>(idx: Index<V>, p: PartialURL, s: Single, c: Single)
    requires EarlierStored(idx, p, s)
    requires c in Partial.Combinations(p).value
    requires Position(Partial.Combinations(p).value, c) < Position(Partial.Combinations(p).value, s)
    ensures Lookup(idx, c).Some?
  {
    var cs := Partial.Combinations(p).value;
    assert cs[Position(cs, c)] == c;
  }

  /**
   * The combination a partial URL matches first is a given matching
   * combination or comes before it in loop order.
   */
  lemma FirstMatchComesFirst(p: PartialURL, src: FieldSource, s: Single)
    requires Partial.Valid(p) && Partial.Combinations(p).Ok?
    requires s in Partial.Combinations(p).value && SinglePartial.Matches(s, src).Some?
    ensures Partial.Matches(p, src).Some?
    ensures var cs, c := Partial.Combinations(p).value, Partial.Matches(p, src).value;
      && c in cs && SinglePartial.Matches(c, src) == Some(c)
      && (c == s || Position(cs, c) < Position(cs, s))
  {
    var cs := Partial.Combinations(p).value;
    var matching := (t: Single) => SinglePartial.Matches(t, src).Some?;
    Partial.MatchesIsFirstCombination(p, src);
    assert matching(cs[Position(cs, s)]);
    FirstWhereBefore(cs, matching);
    var c := Partial.Matches(p, src).value;
    if Position(cs, c) == Position(cs, s) {
      assert c == cs[Position(cs, s)];
    }
  }

  // ---------------------------------------------------------------- depth bound

  /** Entering one pattern keeps every context node and never lowers its slash count. */
  lemma PutHostsRaisesDepth<V>(idx: Index<V>, e: Entry<V>, write: bool, host: Option<HostAddress>, contextPath: Option<Path>)
    requires host in idx && contextPath in idx[host]
    ensures var after := PutHosts(idx, e, write);
      && host in after && contextPath in after[host]
      && after[host][contextPath].maxSlashCount >= idx[host][contextPath].maxSlashCount
  {
  }

  /** The node of the pattern just entered can hold its prefix's slashes. */
  lemma PutHostsCoversDepth<V>(idx: Index<V>, e: Entry<V>, write: bool)
    ensures var after := PutHosts(idx, e, write);
      && e.single.host in after && e.single.contextPath in after[e.single.host]
      && after[e.single.host][e.single.contextPath].maxSlashCount >= SlashCount(e.single.prefix)
  {
  }

  /**
   * `put`, successful or not, keeps every context node of the index and
   * never lowers the deepest prefix recorded for it, so a search that
   * starts from that depth still reaches every prefix stored below it.
   */
  lemma {:induction false} PutAllRaisesDepth<V>(m: PartialURLMap<V>, partial: PartialURL, singles: seq<Single>, value: V,
                                                 host: Option<HostAddress>, contextPath: Option<Path>)
    requires host in m.index && contextPath in m.index[host]
    ensures var after := PutAll(m, partial, singles, value).0.index;
      && host in after && contextPath in after[host]
      && after[host][contextPath].maxSlashCount >= m.index[host][contextPath].maxSlashCount
    decreases |singles|
  {
    if |singles| > 0 {
      var e := Entry(partial, singles[0], value);
      var (m1, err) := PutOne(m, partial, singles[0], value);
      PutHostsRaisesDepth(m.index, e, Lookup(m.index, singles[0]).None?, host, contextPath);
      if err.None? {
        PutAllRaisesDepth(m1, partial, singles[1..], value, host, contextPath);
      }
    }
  }

  lemma PutRaisesDepth<V>(m: PartialURLMap<V>, partial: PartialURL, value: V, host: Option<HostAddress>, contextPath: Option<Path>)
    requires host in m.index && contextPath in m.index[host]
    ensures var after := Put(m, partial, value).0.index;
      && host in after && contextPath in after[host]
      && after[host][contextPath].maxSlashCount >= m.index[host][contextPath].maxSlashCount
  {
    if Partial.Combinations(partial).Ok? {
      PutAllRaisesDepth(m, partial, Partial.Combinations(partial).value, value, host, contextPath);
    }
  }
}
