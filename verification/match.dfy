/**
 * PartialURLMatch: what a lookup in a PartialURLMap returns.
 */
module MatchResult {
  import opened Strings
  import opened Fields
  import SinglePartial
  import Partial

  const ARROW := " \U{2192} "

  /**
   * The partial URL that matched, the single pattern among its combinations
   * that matched, the URL completed from the request, and the stored value.
   */
  datatype Match<V> = Match(partialUrl: Partial.PartialURL, singleUrl: SinglePartial.Single, url: URL, value: V)

  /**
   * `toString()`: the partial URL is left out when it is the single pattern
   * itself; the URL always comes last.
   */
  function ToString<V>(m: Match<V>): (r: string)
    requires Partial.Valid(m.partialUrl)
    ensures m.partialUrl == Partial.SingleURL(m.singleUrl) ==>
      r == SinglePartial.ToString(m.singleUrl) + ARROW + URLToString(m.url)
    ensures m.partialUrl != Partial.SingleURL(m.singleUrl) ==>
      r == Partial.ToString(m.partialUrl) + ARROW + SinglePartial.ToString(m.singleUrl) + ARROW + URLToString(m.url)
  {
    Render(Partial.ToString(m.partialUrl), SinglePartial.ToString(m.singleUrl), URLToString(m.url),
           m.partialUrl == Partial.SingleURL(m.singleUrl))
  }

  /**
   * The rendering leads with the partial URL exactly when it is not the
   * single pattern itself, otherwise with the single pattern, and always
   * ends with the URL.
   */
  lemma ToStringShape<V>(m: Match<V>)
    requires Partial.Valid(m.partialUrl)
    ensures var r, partial, single, url := ToString(m), Partial.ToString(m.partialUrl), SinglePartial.ToString(m.singleUrl), URLToString(m.url);
      && (m.partialUrl != Partial.SingleURL(m.singleUrl) ==> StartsWith(r, partial + ARROW))
      && (m.partialUrl == Partial.SingleURL(m.singleUrl) ==> StartsWith(r, single + ARROW))
      && |url| <= |r| && r[|r| - |url|..] == url
  {
    RenderShape(Partial.ToString(m.partialUrl), SinglePartial.ToString(m.singleUrl), URLToString(m.url),
                m.partialUrl == Partial.SingleURL(m.singleUrl));
  }

  /** Where the parts sit in the rendering. */
  lemma RenderShape(partial: string, single: string, url: string, same: bool)
    ensures !same ==> StartsWith(Render(partial, single, url, same), partial + ARROW)
    ensures same ==> StartsWith(Render(partial, single, url, same), single + ARROW)
    ensures var r := Render(partial, single, url, same); |url| <= |r| && r[|r| - |url|..] == url
  {
    ConcatParts(single, ARROW, url);
    if !same {
      var tail := single + ARROW + url;
      ConcatParts(partial, ARROW, tail);
      var r := partial + ARROW + tail;
      assert r == partial + ARROW + single + ARROW + url;
      assert r[|r| - |url|..] == tail[|tail| - |url|..];
    }
  }

  /** The rendering from the parts' own renderings, joined by arrows. */
  function Render(partial: string, single: string, url: string, same: bool): (r: string)
    ensures same ==> r == single + ARROW + url
    ensures !same ==> r == partial + ARROW + single + ARROW + url
  {
    if same then single + ARROW + url
    else partial + ARROW + single + ARROW + url
  }

  /**
   * `equals(o)`: the same value, and equal partial URL, single pattern and
   * URL.  Between matches of valid partial URLs: the same value, single
   * pattern and URL, and partial URLs of the same kind standing for the same
   * single patterns.
   */
  predicate Equals<V(==)>(a: Match<V>, b: Match<V>)
    ensures Partial.Valid(a.partialUrl) && Partial.Valid(b.partialUrl) ==>
      (Equals(a, b) <==>
        && a.value == b.value && a.singleUrl == b.singleUrl && a.url == b.url
        && a.partialUrl.SingleURL? == b.partialUrl.SingleURL?
        && forall s :: Partial.Covers(a.partialUrl, s) <==> Partial.Covers(b.partialUrl, s))
  {
    && a.value == b.value
    && Partial.Equals(a.partialUrl, b.partialUrl)
    && a.singleUrl == b.singleUrl
    && a.url == b.url
  }

  /** `equals` is an equivalence. */
  lemma EqualsIsEquivalence<V>(a: Match<V>, b: Match<V>, c: Match<V>)
    ensures Equals(a, a)
    ensures Equals(a, b) ==> Equals(b, a)
    ensures Equals(a, b) && Equals(b, c) ==> Equals(a, c)
  {
  }
}
