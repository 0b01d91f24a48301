# Partial URLs and the partial-URL map, in Dafny

This project models the `com.aoapps.net.partialurl` package of ao-net-partial-url.
A *partial URL* is a pattern over five request fields: scheme, host, port, context path and path prefix.

- A `SinglePartialURL` gives each field one value or leaves it null (a wildcard).
- A `MultiPartialURL` gives a field an ordered set of values and stands for every combination of them.
- The `PartialURL.valueOf` factories build either kind from raw arguments. They lower-case schemes, drop null elements and duplicates, and fall back to `DEFAULT`.
- `matches` tests a pattern against the fields of a request (a `FieldSource`).
- `toURL` completes a URL from a pattern and a request.
- `PartialURLMap` indexes single patterns in a five-level nested map (host → context path → prefix → port → scheme). Its `get` finds the most specific stored pattern for a request.
- `PartialURLMatch` is the record `get` returns.

Modules, one per source class plus shared value types:

| file | module | models |
|---|---|---|
| `wrappers.dfy` | `Wrappers` | `Option` (Java null) and `Result` (a thrown exception) |
| `errors.dfy` | `Errors` | the exceptions the package throws |
| `strings.dfy` | `Strings` | ASCII lower-casing, character counts, `indexOf`/`lastIndexOf`, `String.compareTo` |
| `collections.dfy` | `Collections` | insertion-ordered sets, nested `for` loops as products, `TreeSet`/`TreeMap` as sorted sequences |
| `net.dfy` | `Net` | `HostAddress`, `Port`, `Path` and their orders |
| `fields.dfy` | `Fields` | `FieldSource` and `java.net.URL` as records |
| `single.dfy` | `SinglePartial` | `SinglePartialURL`, the scalar factory, `prefixComparator` |
| `multi.dfy` | `MultiPartial` | `MultiPartialURL` |
| `partial.dfy` | `Partial` | `PartialURL`: the kind-independent operations and the set factories |
| `match.dfy` | `MatchResult` | `PartialURLMatch` |
| `urlmap.dfy` | `URLMap` | `PartialURLMap` |
| `scenarios.dfy` | `Scenarios` | documented examples, derived from the general lemmas |

The map is a value.

- `Put` returns the new map and the error `put` would throw.
- After a conflict, the map keeps what `put` already stored.
- The sorted `sequential` map, which the class keeps only when assertions are enabled, is always kept here.
- The two cross-checks the class makes at run time are proved as lemmas:
  - the fused `matches` against `matchesSequential`;
  - `getIndexed` against `getSequential`.

## Model

| member | source | states |
|---|---|---|
| SinglePartial.New | src/main/java/com/aoapps/net/partialurl/SinglePartialURL.java:54-69 | The constructor accepts exactly the patterns whose context path is root or does not end in `/` and whose prefix ends in `/`. The context path is checked first, and the error names the rejected value. |
| SinglePartial.ValueOf | src/main/java/com/aoapps/net/partialurl/PartialURL.java:113-131 | The result is `DEFAULT` exactly when all five arguments are null. Otherwise it is the pattern with the scheme lower-cased, or the constructor's error. |
| SinglePartial.ValueOfPrefix | src/main/java/com/aoapps/net/partialurl/PartialURL.java:141-143 | The prefix-only factory gives `DEFAULT` with just the prefix set. |
| SinglePartial.PrefixOrder | src/main/java/com/aoapps/net/partialurl/SinglePartialURL.java:153-178 | `prefixComparator` is a strict total order that is zero only on equal prefixes. |
| SinglePartial.ComparePrefixStringsIsDepthFirst | src/main/java/com/aoapps/net/partialurl/SinglePartialURL.java:164-176 | On two present prefixes, the comparator equals the character order in which the end of a string sorts after every character. |
| SinglePartial.Compare | src/main/java/com/aoapps/net/partialurl/SinglePartialURL.java:193-212 | `compareTo` is zero exactly when the two patterns are equal field by field, as `equals` is. |
| SinglePartial.CompareOrder | src/main/java/com/aoapps/net/partialurl/SinglePartialURL.java:193-212 | `compareTo` (host, context path, prefix, port, scheme; nulls last) is a strict total order and is zero exactly on equal patterns. |
| SinglePartial.DefaultSortsLast | src/main/java/com/aoapps/net/partialurl/PartialURL.java:90-98 | `DEFAULT` sorts after every other single pattern. |
| SinglePartial.Matches | src/main/java/com/aoapps/net/partialurl/SinglePartialURL.java:219-236 | `matches` returns the pattern itself exactly when every present field agrees with the request. The scheme is compared lower-cased. A prefix needs a request path that starts with it. Otherwise the result is null. |
| SinglePartial.MatchesWithoutSource | src/main/java/com/aoapps/net/partialurl/SinglePartialURL.java:220-233 | With a null request, `DEFAULT` still matches. Every other pattern fails when it reads the request. |
| SinglePartial.ToURL | src/main/java/com/aoapps/net/partialurl/SinglePartialURL.java:271-314 | `toURL` fails exactly when a field it needs is null and no request is given, and then only with the missing-request error. This holds for a scheme `java.net.URL` has a handler for. |
| SinglePartial.ToURLWithoutSource | src/main/java/com/aoapps/net/partialurl/SinglePartialURL.java:238-314 | `toURL` needs no request exactly when the pattern is complete (scheme, host, port and context path present). With a request it always succeeds, for a scheme `java.net.URL` has a handler for. A complete pattern ignores the request. |
| SinglePartial.MatchedURL | src/main/java/com/aoapps/net/partialurl/SinglePartialURL.java:271-314 | For a pattern that matches, the URL has the request's lower-cased scheme, host and port. The port is -1 exactly for http:80 and https:443. The file is a leading part of the request's context path plus path. |
| SinglePartial.ToString | src/main/java/com/aoapps/net/partialurl/SinglePartialURL.java:71-120 | The rendering has exactly the length the class reserves for its builder, summed field by field. This is the assertion at line 120. |
| SinglePartial.ToStringLayout | src/main/java/com/aoapps/net/partialurl/SinglePartialURL.java:71-120 | The rendering is `scheme:` (when present), `//`, the host or `*`, then `:*` for a null port, nothing for port 80 after exactly `http` or 443 after exactly `https`, and `:` and the number otherwise, then `/*`, nothing or the context path, then `/**` or the prefix. |
| MultiPartial.New | src/main/java/com/aoapps/net/partialurl/MultiPartialURL.java:60-82 | The constructor accepts exactly the sets whose context paths are valid and whose prefixes end in `/`. A bad context path is reported before a bad prefix. The error names the first rejected value in insertion order: every context path before it is valid, and for a prefix error every context path and every earlier prefix is valid. |
| MultiPartial.PrimaryIsValueOf | src/main/java/com/aoapps/net/partialurl/MultiPartialURL.java:83-90 | The primary is the scalar factory applied to the first value of each set. |
| MultiPartial.Combinations | src/main/java/com/aoapps/net/partialurl/MultiPartialURL.java:348-356 | `getCombinations` throws exactly when the product of the set sizes exceeds `Integer.MAX_VALUE`, and reports that count. |
| MultiPartial.SortedPrefixesFacts | src/main/java/com/aoapps/net/partialurl/MultiPartialURL.java:367-373 | The prefix loop runs over the same prefixes, strictly sorted by `prefixComparator`, without duplicates. |
| MultiPartial.CombinationsAreTheProduct | src/main/java/com/aoapps/net/partialurl/MultiPartialURL.java:383-402 | The combinations are exactly the patterns taking one allowed value per field (null for a null field). Each occurs once, and there are as many as the product of the set sizes. |
| MultiPartial.CombinationsLength | src/main/java/com/aoapps/net/partialurl/MultiPartialURL.java:349-355 | The nested loops visit as many tuples as the product of the set sizes. |
| MultiPartial.CombinationsDistinct | src/main/java/com/aoapps/net/partialurl/MultiPartialURL.java:388-395 | No combination is produced twice, so the duplicate check never fails. |
| MultiPartial.CombinationsMembership | src/main/java/com/aoapps/net/partialurl/MultiPartialURL.java:383-400 | A pattern is produced by the loops exactly when it takes one allowed value per field. |
| MultiPartial.CombinationsAreValid | src/main/java/com/aoapps/net/partialurl/MultiPartialURL.java:388 | Every combination is a pattern the scalar factory accepts, and the factory rebuilds it unchanged. |
| MultiPartial.PrimaryAmongCombinations | src/main/java/com/aoapps/net/partialurl/MultiPartialURL.java:290-306 | The primary is one of the combinations. It is the first one when there is at most one prefix. |
| MultiPartial.ScanPrefixes | src/main/java/com/aoapps/net/partialurl/MultiPartialURL.java:252-270 | The backward slash scan finds a listed, slash-ended prefix of the path, and no listed slash-ended prefix of the path is longer. |
| MultiPartial.ScanPrefixesBySet | src/main/java/com/aoapps/net/partialurl/MultiPartialURL.java:262-269 | The scan depends only on which prefixes are listed, not on their order. |
| MultiPartial.Matches | src/main/java/com/aoapps/net/partialurl/MultiPartialURL.java:230-276 | A result is a combination that matches the request. No result means no combination matches. |
| MultiPartial.FirstPrefixIsLongest | src/main/java/com/aoapps/net/partialurl/MultiPartialURL.java:367-373 | In the deepest-first order, the first listed prefix of a path is the one the backward scan finds. |
| MultiPartial.MatchesIsFirstCombination | src/main/java/com/aoapps/net/partialurl/MultiPartialURL.java:210-277 | The fused `matches` equals `matchesSequential`: the first combination, in `getCombinations` order, that matches. This is the assertion at line 277. |
| MultiPartial.MatchesPrefersDeepest | src/main/java/com/aoapps/net/partialurl/MultiPartialURL.java:252-270 | Every other matching combination agrees with the result on scheme, host, port and context path, and has a shallower prefix. |
| MultiPartial.ToURL | src/main/java/com/aoapps/net/partialurl/MultiPartialURL.java:412-506 | `toURL` fails exactly when a null field needs the request and none is given, and then only with the missing-request error. This holds for a scheme `java.net.URL` has a handler for. |
| MultiPartial.ToURLWithoutSource | src/main/java/com/aoapps/net/partialurl/MultiPartialURL.java:412-506 | Without a request, `toURL` builds the primary's URL, and succeeds exactly when the pattern is complete. With a request it always succeeds, for a scheme `java.net.URL` has a handler for. |
| MultiPartial.ToURLIsACombinationURL | src/main/java/com/aoapps/net/partialurl/MultiPartialURL.java:414-506 | The URL built for a request is that of a combination. Each set field gives the request's value if listed, else its first value. The prefix is always the first-inserted one. |
| MultiPartial.MatchedURLConsistent | src/main/java/com/aoapps/net/partialurl/MultiPartialURL.java:412-506 | With at most one prefix, `toURL(src)` equals the URL of `matches(src)`. |
| MultiPartial.Equals | src/main/java/com/aoapps/net/partialurl/MultiPartialURL.java:187-197 | Two well-formed patterns are equal field by field as sets exactly when they stand for the same single patterns. |
| MultiPartial.SameFieldsSameCombinations | src/main/java/com/aoapps/net/partialurl/MultiPartialURL.java:187-197 | Both directions: equal field sets give the same combinations, and the same combinations force equal field sets. |
| MultiPartial.EqualPatternsMatchAlike | src/main/java/com/aoapps/net/partialurl/MultiPartialURL.java:187-197 | Patterns equal as sets stand for the same combinations and match every request alike. |
| MultiPartial.ToStringOfSingletons | src/main/java/com/aoapps/net/partialurl/MultiPartialURL.java:93-185 | A pattern with at most one value per field renders exactly as its primary single pattern. |
| Partial.FieldSet | src/main/java/com/aoapps/net/partialurl/PartialURL.java:188-211 | A field set skips null elements and holds each value once, in the order of first occurrence. It is null exactly when the argument is null or has only null elements. |
| Partial.SchemeSet | src/main/java/com/aoapps/net/partialurl/PartialURL.java:169-178 | The set holds exactly the lower-cased non-null schemes, each once, in the order of their first occurrence after lower-casing. It is null exactly when no scheme is given. |
| Partial.ValueOfSets | src/main/java/com/aoapps/net/partialurl/PartialURL.java:162-229 | The set factory succeeds exactly when every present context path and prefix is accepted. The result is valid. It is a single pattern exactly when no field has two values. A multi pattern holds the field sets themselves, and the primary takes the first value of each. |
| Partial.ValueOfSetsPrimary | src/main/java/com/aoapps/net/partialurl/PartialURL.java:162-229 | The primary takes, for every field, the first non-null argument element (the scheme lower-cased), or null for a field given none. |
| Partial.ValueOfSetsNothingIsDefault | src/main/java/com/aoapps/net/partialurl/PartialURL.java:212-225 | Arguments that give no field a value yield `DEFAULT`. |
| Partial.ValueOfSetsCovers | src/main/java/com/aoapps/net/partialurl/PartialURL.java:162-229 | The built pattern stands for exactly the single patterns that take one given value per field (schemes lower-cased), or null for a field given none. |
| Partial.ValueOfPrefixes | src/main/java/com/aoapps/net/partialurl/PartialURL.java:272-286 | The prefixes-only factory is the set factory with only prefixes. It gives a prefix-only single pattern or a multi pattern on the prefix set, and its primary has the first non-null prefix. |
| Partial.CombinationsCover | src/main/java/com/aoapps/net/partialurl/PartialURL.java:339-364 | The combinations are exactly the patterns the partial URL stands for, and the primary is among them. |
| Partial.MatchesIsFirstCombination | src/main/java/com/aoapps/net/partialurl/PartialURL.java:302-325 | `matches` is the first combination that matches the request, for either kind. |
| Partial.CompleteMeansNoSourceNeeded | src/main/java/com/aoapps/net/partialurl/PartialURL.java:327-377 | `toURL` needs no request exactly when the partial URL is complete, and always succeeds with one, for a scheme `java.net.URL` has a handler for. |
| Partial.Equals | src/main/java/com/aoapps/net/partialurl/PartialURL.java:296 | Two valid partial URLs are equal exactly when they are of the same kind and stand for the same single patterns. |
| Partial.EqualsMatchAlike | src/main/java/com/aoapps/net/partialurl/PartialURL.java:296 | Equal partial URLs stand for the same single patterns and match alike. |
| MatchResult.ToString | src/main/java/com/aoapps/net/partialurl/PartialURLMatch.java:51-58 | The rendering is the single pattern, an arrow and the URL when the partial URL is the single pattern itself, and otherwise the partial URL, an arrow, the single pattern, an arrow and the URL. |
| MatchResult.ToStringShape | src/main/java/com/aoapps/net/partialurl/PartialURLMatch.java:51-58 | The rendering starts with the partial URL and an arrow exactly when the partial URL is not the single pattern itself, otherwise with the single pattern and an arrow, and it always ends with the URL. |
| MatchResult.Equals | src/main/java/com/aoapps/net/partialurl/PartialURLMatch.java:60-75 | For valid partial URLs, two matches are equal exactly when they have the same value, single pattern and URL, and partial URLs of the same kind that stand for the same single patterns. |
| MatchResult.EqualsIsEquivalence | src/main/java/com/aoapps/net/partialurl/PartialURLMatch.java:60-75 | `equals` is reflexive, symmetric and transitive. |
| URLMap.PutAll | src/main/java/com/aoapps/net/partialurl/PartialURLMap.java:108-164 | The loop never overwrites a stored pattern and stores only the given ones. Run to the end, every given pattern holds the value. A conflict names a given pattern and the partial URL stored under it. |
| URLMap.Put | src/main/java/com/aoapps/net/partialurl/PartialURLMap.java:105-168 | `put` never overwrites a stored pattern. Without an error every combination holds the value. A conflict names a combination and the partial URL already stored under it. When the combinations cannot be listed, the map is unchanged. |
| URLMap.FreeRun | src/main/java/com/aoapps/net/partialurl/PartialURLMap.java:108-154 | Counts how many leading combinations are free. The combination after them, if any, is the one `put` fails on. |
| URLMap.WalkForward | src/main/java/com/aoapps/net/partialurl/PartialURLMap.java:199-209 | The forward scan stops at a real slash of the path, never past the context's maximum depth. It stops early only when the path has no more slashes. |
| URLMap.MatchOf | src/main/java/com/aoapps/net/partialurl/PartialURLMap.java:231-236 | The match carries the stored partial URL, single pattern and value. Its URL is the single pattern's `toURL` for the request. |
| URLMap.LookupIsKeyed | src/main/java/com/aoapps/net/partialurl/PartialURLMap.java:64-86 | The index files every entry under the five fields of its own single pattern. |
| URLMap.EmptyIsConsistent | src/main/java/com/aoapps/net/partialurl/PartialURLMap.java:86-93 | The new map is consistent and holds nothing. |
| URLMap.LookupPutHosts | src/main/java/com/aoapps/net/partialurl/PartialURLMap.java:113-158 | Walking the index for a pattern changes the lookup only at that pattern, and only when the entry is written. |
| URLMap.WfPutHosts | src/main/java/com/aoapps/net/partialurl/PartialURLMap.java:109-158 | `put` keeps entries under their own keys, and every prefix within its context node's slash count. |
| URLMap.PutOneEffect | src/main/java/com/aoapps/net/partialurl/PartialURLMap.java:108-163 | One turn of the loop fails exactly when the slot is taken, naming the partial URL already there. Otherwise it stores the entry, and no other lookup changes. |
| URLMap.PutOneKeepsConsistent | src/main/java/com/aoapps/net/partialurl/PartialURLMap.java:108-163 | One turn keeps the index, the sorted keys and the sequential map in step, whether or not it fails. |
| URLMap.PutAllKeepsConsistent | src/main/java/com/aoapps/net/partialurl/PartialURLMap.java:108-164 | The whole loop keeps the map consistent, even when it stops at a conflict. |
| URLMap.PutAllEffect | src/main/java/com/aoapps/net/partialurl/PartialURLMap.java:96-164 | The loop stops at the first taken slot and reports it. The combinations before it stay stored, with no rollback. |
| URLMap.PutSpec | src/main/java/com/aoapps/net/partialurl/PartialURLMap.java:96-168 | `put` keeps the map consistent. It succeeds exactly when the combinations can be listed and none is stored. It then stores the value under every covered pattern and changes nothing else. If listing fails, nothing changes. |
| URLMap.CombinationsAreDistinctAndValid | src/main/java/com/aoapps/net/partialurl/PartialURLMap.java:108 | The patterns `put` iterates are distinct and valid. |
| URLMap.SearchSchemesSound | src/main/java/com/aoapps/net/partialurl/PartialURLMap.java:226-238 | The scheme probe (lower-cased request scheme, then null) finds a stored entry whose scheme matches. |
| URLMap.SearchSchemesLeast | src/main/java/com/aoapps/net/partialurl/PartialURLMap.java:186 | If a stored scheme matches, the probe finds one, and the one it finds sorts first. |
| URLMap.SearchPortsSound | src/main/java/com/aoapps/net/partialurl/PartialURLMap.java:223-240 | The port probe (request port, then null) finds an entry whose port and scheme match. |
| URLMap.SearchPortsLeast | src/main/java/com/aoapps/net/partialurl/PartialURLMap.java:185 | If an entry matches on port and scheme, the probe finds the first by (port, scheme). |
| URLMap.DeeperKeyFirst | src/main/java/com/aoapps/net/partialurl/PartialURLMap.java:210-244 | A deeper prefix key of the path sorts before every shallower prefix that matches. |
| URLMap.SearchDepthsSound | src/main/java/com/aoapps/net/partialurl/PartialURLMap.java:210-245 | Working up the path one slash at a time finds an entry whose prefix, port and scheme match. |
| URLMap.SearchDepthsLeast | src/main/java/com/aoapps/net/partialurl/PartialURLMap.java:210-245 | It finds the first such entry in (prefix, port, scheme) order among the prefixes at or above the start depth. |
| URLMap.SearchContextSound | src/main/java/com/aoapps/net/partialurl/PartialURLMap.java:193-245 | The search below one context node finds a stored entry that matches below the context level. |
| URLMap.SearchContextLeast | src/main/java/com/aoapps/net/partialurl/PartialURLMap.java:193-245 | Because the node's maximum depth bounds every stored prefix, that search misses no matching entry and finds the first. |
| URLMap.SearchContextsSound | src/main/java/com/aoapps/net/partialurl/PartialURLMap.java:190-247 | The context probe (request context path, then null) finds a matching stored entry. |
| URLMap.SearchContextsLeast | src/main/java/com/aoapps/net/partialurl/PartialURLMap.java:182 | The context probe finds the first matching entry below the host. |
| URLMap.GetIndexedEntrySound | src/main/java/com/aoapps/net/partialurl/PartialURLMap.java:176-250 | `getIndexed` returns only stored entries whose pattern matches the request. |
| URLMap.GetIndexedEntryLeast | src/main/java/com/aoapps/net/partialurl/PartialURLMap.java:181-250 | If any stored pattern matches, `getIndexed` returns one that sorts no later than it. |
| URLMap.GetIndexedIsLeast | src/main/java/com/aoapps/net/partialurl/PartialURLMap.java:176-251 | `getIndexed` returns the least stored matching pattern in `compareTo` order, and null exactly when none matches. |
| URLMap.GetIndexed | src/main/java/com/aoapps/net/partialurl/PartialURLMap.java:176-251 | On a well-formed index, the match is a stored entry whose pattern matches, and it sorts no later than any stored pattern that matches. Its URL is the pattern's `toURL` for the request. |
| URLMap.GetIndexedIsLeastAt | src/main/java/com/aoapps/net/partialurl/PartialURLMap.java:176-251 | `getIndexed` sorts no later than every stored pattern that matches the request. |
| URLMap.GetSequential | src/main/java/com/aoapps/net/partialurl/PartialURLMap.java:261-284 | On a consistent map, `getSequential` returns the stored entry of the least key that matches, and nothing exactly when no key matches. |
| URLMap.Get | src/main/java/com/aoapps/net/partialurl/PartialURLMap.java:298-311 | On a consistent map, `get` returns what `getSequential` returns, so the assertion in `get` never fails. |
| URLMap.GetIsSequential | src/main/java/com/aoapps/net/partialurl/PartialURLMap.java:261-311 | On a consistent map, `getIndexed` equals `getSequential`, so the check in `get` never fails. |
| URLMap.EmptyIsComplete | src/main/java/com/aoapps/net/partialurl/PartialURLMap.java:86 | The new map stores no pattern without its whole partial URL. |
| URLMap.PutKeepsComplete | src/main/java/com/aoapps/net/partialurl/PartialURLMap.java:105-168 | A successful `put` leaves every stored pattern with a valid partial URL that covers it and whose combinations are all stored. |
| URLMap.PrefixDecidesOrder | src/main/java/com/aoapps/net/partialurl/SinglePartialURL.java:194-206 | Patterns that differ only in the prefix are ordered by `prefixComparator`. |
| URLMap.DeepestPrefixWins | src/main/java/com/aoapps/net/partialurl/PartialURLMap.java:210-245 | Of two stored patterns that differ only in a nested prefix, `get` never returns the shallower one when the deeper one matches. |
| URLMap.EmptyStoredInLoopOrder | src/main/java/com/aoapps/net/partialurl/PartialURLMap.java:86 | In the new map, every stored combination has all the combinations before it stored too. |
| URLMap.PutKeepsLoopOrder | src/main/java/com/aoapps/net/partialurl/PartialURLMap.java:105-168 | Every `put`, failed or not, keeps each stored combination preceded, in its partial URL's combination order, only by stored combinations. The loop stores combinations in that order and stops at the first conflict. |
| URLMap.GetAgreesWithPartialMatches | src/main/java/com/aoapps/net/partialurl/PartialURLMap.java:228-236 | On any consistent map whose stored combinations are in loop order, which the empty map is and every `put` keeps, failed or not: the returned single pattern matches the request, and the stored partial URL covers it and its own `matches` returns it. These are the assertions at lines 229-230. |
| URLMap.PutHostsRaisesDepth | src/main/java/com/aoapps/net/partialurl/PartialURLMap.java:122-131 | Entering a pattern keeps every context node and never lowers its maximum depth. |
| URLMap.PutHostsCoversDepth | src/main/java/com/aoapps/net/partialurl/PartialURLMap.java:112-131 | The node of the entered pattern's context records at least the slash count of its prefix. |
| URLMap.PutAllRaisesDepth | src/main/java/com/aoapps/net/partialurl/PartialURLMap.java:108-164 | The loop, even when it fails, never lowers any recorded depth. |
| URLMap.PutRaisesDepth | src/main/java/com/aoapps/net/partialurl/PartialURLMap.java:105-168 | `put` only ever raises a context node's maximum depth. |
| Scenarios.PrefixesMapContents | src/test/java/com/aoapps/net/partialurl/PartialURLMapTest.java:472-518 | `put` of the pattern on `/prefix/` and `/prefix/sub/` into an empty map succeeds. The map then holds exactly those two single patterns. |
| Scenarios.DeepestPrefixScenario | src/test/java/com/aoapps/net/partialurl/PartialURLMapTest.java:472-518 | `/prefix/sub/suffix` gets `/prefix/sub/`, `/prefix/sub` gets `/prefix/`, and `/prefix` gets nothing. |
| Scenarios.PrimarySecondWithDeeperPrefix | src/test/java/com/aoindustries/net/partialurl/MultiPartialURLTest.java:729-742 | With prefixes `/` then `/old-prefix/`, the combinations list `/old-prefix/` first and the primary second. |
| Scenarios.ToStringOfDefault | src/test/java/com/aoapps/net/partialurl/SinglePartialURLTest.java:50-56 | `DEFAULT` renders every absent field: `//*:*/*/**`. |
| Scenarios.ToStringOfPortOnly | src/test/java/com/aoapps/net/partialurl/SinglePartialURLTest.java:98-104 | A port-only pattern renders its number in the port position: `//*:443/*/**`. |
| Scenarios.ToStringOfRootContextOnly | src/test/java/com/aoapps/net/partialurl/SinglePartialURLTest.java:114-120 | A root context path renders as nothing before the prefix: `//*:*/**`. |
| Scenarios.ToStringOfRootPrefixOnly | src/test/java/com/aoapps/net/partialurl/SinglePartialURLTest.java:130-136 | A root prefix renders as `/` after the absent context path: `//*:*/*/`. |
| Scenarios.ToStringOfLowerCasedScheme | src/test/java/com/aoapps/net/partialurl/SinglePartialURLTest.java:57-63 | The factory lower-cases `hTtPS` before rendering. |
| Scenarios.AtRootIsValueOf | src/main/java/com/aoapps/net/partialurl/PartialURL.java:113-131 | The factory, given a scheme in any case, the host, a TCP port and the root context and prefix, builds the complete root pattern with the scheme lower-cased. |
| Scenarios.RenderAtRoot | src/main/java/com/aoapps/net/partialurl/SinglePartialURL.java:71-120 | A complete root pattern renders as scheme, `://`, host, the port unless it is the scheme's default, and `/`. |
| Scenarios.ToStringOfDefaultHttpPort | src/test/java/com/aoapps/net/partialurl/SinglePartialURLTest.java:138-150 | http on port 80 renders without the port. |
| Scenarios.ToStringOfDefaultHttpsPort | src/test/java/com/aoapps/net/partialurl/SinglePartialURLTest.java:166-178 | https on port 443 renders without the port. |
| Scenarios.ToStringOfOtherPort | src/test/java/com/aoapps/net/partialurl/SinglePartialURLTest.java:152-164 | http:443 keeps the port in its rendering. |

## Left out

- Lower-casing covers ASCII letters only. `toLowerCase(Locale.ROOT)` beyond ASCII is not modelled, and strings compare by code point rather than by UTF-16 unit.
- `HostAddress` is its canonical bracketed name, ordered as a string. Parsing, IPv6 canonicalisation and the library's TLD-first order belong to ao-net-types and are not part of this model. `Port` and `Path` validation are reduced to their ranges and the leading `/`.
- `hashCode` methods are not modelled.
- MatchResult.EqualsIsEquivalence: the value is compared with value equality, where the class compares it by identity (`==`). Two distinct but equal value objects make equal matches here and unequal ones in the class. `equals` against an object of another class is not modelled, because the model is typed.
- The getter methods are not modelled. Record fields stand for them.
- The read/write lock of `PartialURLMap` is not modelled: every operation is a pure function on a map value.
- `ASSERTIONS_ENABLED` is not modelled. The sequential map is always kept, and the class's run-time cross-checks are lemmas (`MultiPartial.MatchesIsFirstCombination`, `URLMap.GetIsSequential`).
- `SafeMath.multiply` is not modelled. Integers are unbounded, so the `long` overflow it would raise on five huge set sizes is out of scope; the `Integer.MAX_VALUE` bound is modelled.
- The array overloads of `valueOf` are not modelled. They only wrap their arguments in lists, which the sequence-based factories take directly.
- `URLFieldSource` and `java.net.URL` are not modelled. A request is a plain record, and a URL is a record of protocol, host, port and file.
- The `MalformedURLException` path of `toURL` is not modelled. `new URL(protocol, host, port, file)` throws it for a protocol without a handler (a scheme such as `ws`), and `toURL` rethrows it as an `AssertionError` (SinglePartialURL.java:305-313, MultiPartialURL.java:486-503). Which protocols have handlers is a property of the Java runtime, so the model assumes every scheme has one.
- SinglePartial.ToURL: succeeds with a request even for a scheme without a URL handler, where the class throws `AssertionError`.
- MultiPartial.ToURL: succeeds with a request even for a scheme without a URL handler, where the class throws `AssertionError`.
- URLMap.Get: `get` calls `toURL` on the match (PartialURLMap.java:231-236), so for a stored scheme without a URL handler the class throws where the model returns the match; the same holds for `URLMap.GetIndexed`, `URLMap.GetSequential` and `URLMap.MatchOf`.
- `MultiPartial.Matches` takes a request, never null. The class dereferences the request for any set field, and the null case matters only for `DEFAULT`, which `SinglePartial.MatchesWithoutSource` covers.
- The host map-to-self detail is not modelled: a `LinkedHashMap` keeps the first key and the last equal value. Hosts are a plain ordered set here, which changes only the displayed host case in `toURL`.
- `URLMap.Complete` is proved to hold after successful puts only. After a failed `put`, only a leading run of the combinations is stored, so a partial URL can be stored without all its combinations. `URLMap.StoredInLoopOrder` is the weaker property that survives failed puts, and `URLMap.GetAgreesWithPartialMatches` rests on it.
- Java object identity (`DEFAULT`, `Path.ROOT`, "the same object as the primary", `partialUrl == singleUrl` in `PartialURLMatch.toString`) is modelled as value equality.
- `MultiPartial.ToString` has no separate rendering lemma beyond `MultiPartial.ToStringOfSingletons`. Brace lists are rendered as the class writes them.
