/**
 * Worked examples of the documented behaviour on concrete patterns, each
 * derived from the general properties of the model.
 */
module Scenarios {
  import opened Wrappers
  import opened Strings
  import opened Net
  import opened Fields
  import Collections
  import SinglePartial
  import MultiPartial
  import Partial
  import URLMap

  type Single = SinglePartial.Single

  const PREFIX: Path := "/prefix/"
  const PREFIX_SUB: Path := "/prefix/sub/"

  /** `PartialURL.valueOf(Path.valueOf("/prefix/"))` and its deeper sibling. */
  const PREFIX_ONLY: Single := SinglePartial.DEFAULT.(prefix := Some(PREFIX))
  const PREFIX_SUB_ONLY: Single := SinglePartial.DEFAULT.(prefix := Some(PREFIX_SUB))

  /** A pattern on the two prefixes alone. */
  const PREFIXES_ONLY: Partial.PartialURL := Partial.MultiURL(MultiPartial.Multi(None, None, None, None, Some([PREFIX, PREFIX_SUB])))

  /** The map holding the two-prefix pattern, and what the `put` that builds it reports. */
  function PrefixesMap(): (URLMap.PartialURLMap<int>, Option<URLMap.PutError>)
  {
    URLMap.Put(URLMap.Empty<int>(), PREFIXES_ONLY, 5)
  }

  /** The map holds the two single patterns of the two-prefix pattern and nothing else. */
  lemma PrefixesMapContents()
    ensures PrefixesMap().1.None?
    ensures URLMap.Consistent(PrefixesMap().0)
    ensures forall t :: URLMap.Lookup(PrefixesMap().0.index, t) ==
                          (if t == PREFIX_ONLY || t == PREFIX_SUB_ONLY then Some(URLMap.Entry(PREFIXES_ONLY, t, 5)) else None)
  {
    URLMap.EmptyIsConsistent<int>();
    PrefixesOnlyCovers();
    URLMap.PutSpec(URLMap.Empty<int>(), PREFIXES_ONLY, 5);
  }

  /** The two-prefix pattern is valid and stands for exactly its two single patterns. */
  lemma PrefixesOnlyCovers()
    ensures Partial.Valid(PREFIXES_ONLY)
    ensures forall t :: Partial.Covers(PREFIXES_ONLY, t) <==> t == PREFIX_ONLY || t == PREFIX_SUB_ONLY
  {
    assert PREFIX != PREFIX_SUB by { assert |PREFIX| != |PREFIX_SUB|; }
  }

  /** In an index holding just two entries, the one that sorts first wins whenever it matches. */
  lemma PickOfTwo<V>(idx: URLMap.Index<V>, src: FieldSource, a: URLMap.Entry<V>, b: URLMap.Entry<V>)
    requires URLMap.WfIndex(idx)
    requires forall t :: URLMap.Lookup(idx, t) == (if t == a.single then Some(a) else if t == b.single then Some(b) else None)
    requires SinglePartial.Compare(a.single, b.single) < 0
    ensures var r := URLMap.GetIndexedEntry(idx, src);
      && (SinglePartial.MatchesSource(a.single, src) ==> r == Some(a))
      && ((!SinglePartial.MatchesSource(a.single, src) && SinglePartial.MatchesSource(b.single, src)) ==> r == Some(b))
      && ((!SinglePartial.MatchesSource(a.single, src) && !SinglePartial.MatchesSource(b.single, src)) ==> r.None?)
  {
    URLMap.GetIndexedIsLeast(idx, src);
    SinglePartial.CompareOrder();
    assert URLMap.Lookup(idx, a.single) == Some(a);
    assert URLMap.Lookup(idx, b.single) == Some(b);
  }

  /** In the two-prefix map the deeper pattern wins whenever it matches, else the shallower one. */
  lemma PrefixesMapPicks(src: FieldSource)
    ensures var r := URLMap.GetIndexedEntry(PrefixesMap().0.index, src);
      && (SinglePartial.MatchesSource(PREFIX_SUB_ONLY, src) ==> r == Some(URLMap.Entry(PREFIXES_ONLY, PREFIX_SUB_ONLY, 5)))
      && ((!SinglePartial.MatchesSource(PREFIX_SUB_ONLY, src) && SinglePartial.MatchesSource(PREFIX_ONLY, src))
            ==> r == Some(URLMap.Entry(PREFIXES_ONLY, PREFIX_ONLY, 5)))
      && ((!SinglePartial.MatchesSource(PREFIX_SUB_ONLY, src) && !SinglePartial.MatchesSource(PREFIX_ONLY, src)) ==> r.None?)
  {
    PrefixesMapContents();
    SinglePartial.DeeperPrefixFirst(PREFIX_SUB, PREFIX);
    URLMap.PrefixDecidesOrder(PREFIX_SUB_ONLY, PREFIX_ONLY);
    assert PREFIX_SUB_ONLY != PREFIX_ONLY;
    PickOfTwo(PrefixesMap().0.index, src, URLMap.Entry(PREFIXES_ONLY, PREFIX_SUB_ONLY, 5), URLMap.Entry(PREFIXES_ONLY, PREFIX_ONLY, 5));
  }

  /**
   * The deepest registered prefix the request path starts with wins, and a
   * prefix never matches part of a path segment: `/prefix/sub/suffix` finds
   * `/prefix/sub/`, `/prefix/sub` finds `/prefix/`, `/prefix` finds nothing.
   */
  lemma DeepestPrefixScenario(src: FieldSource)
    ensures src.path == Some("/prefix/sub/suffix") ==>
      URLMap.Get(PrefixesMap().0, src).Some?
      && URLMap.Get(PrefixesMap().0, src).value.singleUrl == PREFIX_SUB_ONLY
      && URLMap.Get(PrefixesMap().0, src).value.partialUrl == PREFIXES_ONLY
      && URLMap.Get(PrefixesMap().0, src).value.value == 5
    ensures src.path == Some("/prefix/sub") ==>
      URLMap.Get(PrefixesMap().0, src).Some?
      && URLMap.Get(PrefixesMap().0, src).value.singleUrl == PREFIX_ONLY
      && URLMap.Get(PrefixesMap().0, src).value.partialUrl == PREFIXES_ONLY
    ensures src.path == Some("/prefix") ==> URLMap.Get(PrefixesMap().0, src).None?
  {
    PrefixesMapPicks(src);
    if src.path == Some("/prefix/sub/suffix") {
      assert SinglePartial.MatchesSource(PREFIX_SUB_ONLY, src);
    } else if src.path == Some("/prefix/sub") {
      assert SinglePartial.MatchesSource(PREFIX_ONLY, src);
      assert !SinglePartial.MatchesSource(PREFIX_SUB_ONLY, src);
    } else if src.path == Some("/prefix") {
      assert !SinglePartial.MatchesSource(PREFIX_ONLY, src);
      assert !SinglePartial.MatchesSource(PREFIX_SUB_ONLY, src);
    }
  }

  // ---------------------------------------------------------------- primary and combinations

  const OLD_PREFIX: Path := "/old-prefix/"

  /** A pattern on the prefixes `/` (inserted first) and `/old-prefix/`. */
  const ROOT_AND_OLD: MultiPartial.Multi := MultiPartial.Multi(None, None, None, None, Some([ROOT, OLD_PREFIX]))

  /**
   * The primary takes the first-inserted prefix, but the combinations list
   * the deeper prefix first, so the primary comes second.
   */
  lemma PrimarySecondWithDeeperPrefix()
    ensures MultiPartial.Valid(ROOT_AND_OLD)
    ensures MultiPartial.Primary(ROOT_AND_OLD) == SinglePartial.DEFAULT.(prefix := Some(ROOT))
    ensures MultiPartial.Combinations(ROOT_AND_OLD) ==
            Ok([SinglePartial.DEFAULT.(prefix := Some(OLD_PREFIX)), MultiPartial.Primary(ROOT_AND_OLD)])
  {
    var m := ROOT_AND_OLD;
    assert ROOT != OLD_PREFIX by { assert |ROOT| != |OLD_PREFIX|; }
    assert MultiPartial.Valid(m);
    var slots := RootAndOldSlots();
    assert MultiPartial.CombinationCount(m) == 2;
    assert MultiPartial.Assemble(slots[0]) == SinglePartial.DEFAULT.(prefix := Some(OLD_PREFIX));
    assert MultiPartial.Assemble(slots[1]) == SinglePartial.DEFAULT.(prefix := Some(ROOT));
    assert Collections.MapSeq(slots, MultiPartial.Assemble) == [MultiPartial.Assemble(slots[0]), MultiPartial.Assemble(slots[1])];
  }

  /** The prefix loop visits `/old-prefix/` before `/`. */
  lemma RootAndOldSorted()
    ensures MultiPartial.SortedPrefixes(ROOT_AND_OLD.prefixes) == Some([OLD_PREFIX, ROOT])
  {
    SinglePartial.DeeperPrefixFirst(OLD_PREFIX, ROOT);
    var cmp := SinglePartial.ComparePrefixPaths;
    assert Collections.InsertSorted([], ROOT, cmp) == [ROOT];
    assert Collections.InsertSorted([ROOT], OLD_PREFIX, cmp) == [OLD_PREFIX, ROOT];
    assert Collections.InsertAll([ROOT], [OLD_PREFIX], cmp) == [OLD_PREFIX, ROOT];
  }

  /** The nested loops run once per prefix, every other field being null. */
  lemma RootAndOldSlots() returns (slots: seq<MultiPartial.Slot>)
    ensures MultiPartial.Slots5(ROOT_AND_OLD) == slots
    ensures slots == [(None, (None, (Some(OLD_PREFIX), (None, None)))), (None, (None, (Some(ROOT), (None, None))))]
  {
    var m := ROOT_AND_OLD;
    RootAndOldSorted();
    var tail: seq<(Option<Port>, Option<string>)> := [(None, None)];
    assert Collections.Product(Collections.Slots(m.ports), Collections.Slots(m.schemes)) == tail;
    var byPrefix := [(Some(OLD_PREFIX), (None, None)), (Some(ROOT), (None, None))];
    assert Collections.Slots(Some([OLD_PREFIX, ROOT])) == [Some(OLD_PREFIX), Some(ROOT)];
    assert Collections.Product([Some(OLD_PREFIX), Some(ROOT)], tail) == byPrefix by {
      assert Collections.Product([Some(ROOT)], tail) == [(Some(ROOT), (None, None))];
    }
    var byContext := [(None, byPrefix[0]), (None, byPrefix[1])];
    assert Collections.Product([None], byPrefix) == byContext;
    slots := [(None, byContext[0]), (None, byContext[1])];
    assert Collections.Product([None], byContext) == slots;
  }

  // ---------------------------------------------------------------- rendering

  const AO := HostAddress("aoindustries.com")

  /** The decimal digits of port 443. */
  lemma Digits443()
    ensures NatToString(443) == "443"
  {
    assert NatToString(4) == "4";
    assert NatToString(44) == NatToString(4) + ['4'];
    assert NatToString(443) == NatToString(44) + ['3'];
  }

  /** `DEFAULT` renders every field as its wildcard. */
  lemma ToStringOfDefault()
    ensures SinglePartial.ToString(SinglePartial.DEFAULT) == "//*:*/*/**"
  {
  }

  /** A port alone renders between the wildcards. */
  lemma ToStringOfPortOnly()
    ensures SinglePartial.ToString(SinglePartial.DEFAULT.(port := Some(Port(443, TCP)))) == "//*:443/*/**"
  {
    var s := SinglePartial.DEFAULT.(port := Some(Port(443, TCP)));
    Digits443();
    assert SinglePartial.PortPart(s) == ":443";
    assert SinglePartial.ToString(s) == "" + "//" + "*" + ":443" + "/*" + "/**";
  }

  /** A root context path renders as nothing. */
  lemma ToStringOfRootContextOnly()
    ensures SinglePartial.ToString(SinglePartial.DEFAULT.(contextPath := Some(ROOT))) == "//*:*/**"
  {
  }

  /** A root prefix renders as `/` after the context wildcard. */
  lemma ToStringOfRootPrefixOnly()
    ensures SinglePartial.ToString(SinglePartial.DEFAULT.(prefix := Some(ROOT))) == "//*:*/*/"
  {
  }

  /** The factory lower-cases the scheme before the pattern is rendered. */
  lemma ToStringOfLowerCasedScheme()
    ensures var r := SinglePartial.ValueOf(Some("hTtPS"), None, None, None, None);
      r.Ok? && SinglePartial.ToString(r.value) == "https://*:*/*/**"
  {
    assert ToLower("hTtPS") == "https";
  }

  /** A complete pattern on `aoindustries.com` at the root, with a lower-case `scheme`. */
  function AtRoot(scheme: string, port: PortNumber): Single
  {
    SinglePartial.Single(Some(scheme), Some(AO), Some(Port(port, TCP)), Some(ROOT), Some(ROOT))
  }

  /** The factory builds that pattern from any spelling of the scheme. */
  lemma AtRootIsValueOf(scheme: string, port: PortNumber)
    ensures SinglePartial.ValueOf(Some(scheme), Some(AO), Some(Port(port, TCP)), Some(ROOT), Some(ROOT))
            == Ok(AtRoot(ToLower(scheme), port))
  {
  }

  /** How a complete pattern at the root renders: the port is left out when it is the scheme's default. */
  lemma RenderAtRoot(scheme: string, port: PortNumber)
    ensures SinglePartial.ToString(AtRoot(scheme, port))
            == scheme + "://" + AO.name
               + (if (scheme == SinglePartial.HTTP && port == 80) || (scheme == SinglePartial.HTTPS && port == 443) then ""
                  else ":" + NatToString(port))
               + "/"
  {
  }

  lemma ToStringOfDefaultHttpPort()
    ensures SinglePartial.ToString(AtRoot("http", 80)) == "http://aoindustries.com/"
  {
    RenderAtRoot("http", 80);
  }

  lemma ToStringOfDefaultHttpsPort()
    ensures SinglePartial.ToString(AtRoot("https", 443)) == "https://aoindustries.com/"
  {
    RenderAtRoot("https", 443);
  }

  /** Any other port is kept, even the other scheme's default. */
  lemma ToStringOfOtherPort()
    ensures SinglePartial.ToString(AtRoot("http", 443)) == "http://aoindustries.com:443/"
  {
    RenderAtRoot("http", 443);
    Http443KeepsPort();
    Digits443();
    Http443Spelling();
  }

  /** `http` on port 443 is not a scheme on its default port. */
  lemma Http443KeepsPort()
    ensures !(("http" == SinglePartial.HTTP && 443 == 80) || ("http" == SinglePartial.HTTPS && 443 == 443))
  {
    assert "http" != SinglePartial.HTTPS by { assert |"http"| != |SinglePartial.HTTPS|; }
  }

  /** The pieces of the `http` on port 443 rendering, spelled out. */
  lemma Http443Spelling()
    ensures "http" + "://" + AO.name + (":" + "443") + "/" == "http://aoindustries.com:443/"
  {
  }
}
