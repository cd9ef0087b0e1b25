# CommonInfo and Locatable, modelled in Dafny

This project models two small, pure components of htsjdk.

- **`CommonInfo`** (`htsjdk.variant.variantcontext`) is the annotation record shared by variant calls and genotype calls. It holds:
  - a name;
  - a log10 error score, where the value 1.0 (`NO_LOG10_PERROR`) means "no estimate";
  - a tri-state filter set: `null` means not evaluated, empty means passed, non-empty means failed;
  - an attribute map from strings to objects, with typed readers.
- **`Locatable`** (`htsjdk.samtools.util`) is the contract for a closed, 1-based interval on a named contig. It provides size, GA4GH (0-based, half-open) bounds, overlap with and without a margin, and containment.

Files and modules:

- `Wrappers.dfy`: `Option` stands for Java's nullable references, and `Result` for a call that returns or throws.
- `JavaLang.dfy`: Java's 32-bit `int` (`Int32`) and an abstract `double`. The double is a real, `PosInf`, `NegInf` or `NaN`. Java's `>` and `!=` get explicit NaN cases. The module also lists the exception kinds the code throws.
- `CommonInfo.dfy` (module `VariantContext`): the record is an immutable `CommonInfo` value.
  - Every mutator that can throw returns a `Completion`; `clearAttributes` and `removeAttribute`, which cannot, return the record. A `Completion` holds the record as the Java object is left after the call, and the exception thrown, if any. A throw from `addFilters` or `putAttributes` can leave part of the batch applied.
  - The `Storage` tag records whether the attributes are the shared `NO_ATTRIBUTES` singleton (`Shared`) or a map of the record's own (`Owned`). `Valid` states that the shared singleton is never written.
- `CommonInfoProperties.dfy`: the lemmas about the record.
  - the filter tri-state;
  - batch operations as folds that stop at the first throw;
  - the score quirk;
  - attribute round trips, and null versus absent keys;
  - invariants that hold over any sequence of calls (`Run`).
- `Locatable.dfy` (module `Locatable`): the interval `Loc(contig, start, end)` and its default methods.
- `LocatableProperties.dfy`: the lemmas about intervals.
  - size counts the covered positions;
  - the GA4GH view agrees with the 1-based view;
  - overlap means a shared position, and is symmetric and monotone in the margin;
  - containment means covering, is reflexive and transitive but not symmetric, and implies overlap.

Some library calls are parameters of the reader functions rather than part of the model:

- `Integer.valueOf`, `Double.valueOf` and `Boolean.valueOf` on strings;
- `String.valueOf` on objects;
- the missing-value token `VCFConstants.MISSING_VALUE_v4`.

The readers are correct for every choice of these parameters. A Java `Map` argument is modelled as its entry enumeration: a sequence with distinct keys (`Entries`), in whatever order the map walks it.

The plain getters are direct field reads: `GetName`, `GetFiltersMaybeNull`, `GetLog10PError`, `HasAttribute`, `GetNumAttributes`, `GetAttributes` and `GetAttribute`. Their contracts and the lemmas below state their relation to the other operations.

Behaviour of the code worth knowing, which the model follows:

- A duplicate filter throws `IllegalArgumentException` (CommonInfo.java:122).
- A duplicate attribute key throws `IllegalStateException` (CommonInfo.java:213). The doc comments at :209 and :230 say `IllegalArgumentException`.
- The constructor and `setLog10PError` never test the argument for NaN or infinity, only for being positive and not 1.0. The NaN and infinity tests look at the score already stored (CommonInfo.java:171-176). So a NaN or −∞ argument is stored, while +∞ is refused as positive.
- The typed readers fall back to the default whenever the value is `null`: for a missing key and also for a key bound to `null` (CommonInfo.java:298, 310, 322, 334). A present value of another type throws `ClassCastException` (CommonInfo.java:312, 325, 336), except in `getAttributeAsString`, which renders it with `String.valueOf` (CommonInfo.java:300).
- `overlapsWithMargin` and `contains` dereference the receiver's contig whenever the other's contig is not `null` (Locatable.java:67, 82). A receiver with a `null` contig then throws `NullPointerException`, so this case is a precondition.

## Model

| member | source | states |
|---|---|---|
| VariantContext.New | src/main/java/htsjdk/variant/variantcontext/CommonInfo.java:56-73 | The constructor throws IllegalArgument exactly for a positive score other than 1.0, +∞ included. NaN and −∞ are accepted. Name, score and filters are stored as given, `null` filters included. Null or empty attributes keep the shared empty storage, which is `Shared` exactly when there are no attributes. |
| VariantContext.GetName | src/main/java/htsjdk/variant/variantcontext/CommonInfo.java:75-77 | A present name, set again, leaves the record unchanged. |
| VariantContext.SetName | src/main/java/htsjdk/variant/variantcontext/CommonInfo.java:79-82 | A null name throws IllegalArgument and changes nothing. Otherwise the name reads back, and nothing else changes. |
| CommonInfoProperties.SetThenGetName | src/main/java/htsjdk/variant/variantcontext/CommonInfo.java:56-82 | `getName` returns the name just set by `setName`, and the name a successful constructor was given, `null` included. |
| VariantContext.AddFilter | src/main/java/htsjdk/variant/variantcontext/CommonInfo.java:119-127 | The call completes normally iff the name is non-null and not already a filter. Otherwise it throws IllegalArgument and changes nothing. On success the record is filtered, the filter set gains exactly that name, and only the filters change. |
| VariantContext.AddFilters | src/main/java/htsjdk/variant/variantcontext/CommonInfo.java:132-136 | A null collection throws IllegalArgument. Any throw is IllegalArgument. On success the filters are the old ones plus the batch's names; an empty batch leaves unevaluated filters unevaluated. Filters only grow and stay evaluated, and nothing but the filters changes. |
| CommonInfoProperties.FilterQueriesAgree | src/main/java/htsjdk/variant/variantcontext/CommonInfo.java:92-114 | `filtersWereApplied` iff the raw filters are non-null. `getFilters` is empty when they are null. `isFiltered` iff `getFilters` is non-empty, and it implies `filtersWereApplied`. `isNotFiltered` is its negation. |
| CommonInfoProperties.AddFilterTwiceThrows | src/main/java/htsjdk/variant/variantcontext/CommonInfo.java:119-127 | After a successful `addFilter(f)` the record is filtered, and a second `addFilter(f)` throws IllegalArgument and leaves the record as it was. |
| CommonInfoProperties.AddFiltersSucceedsIff | src/main/java/htsjdk/variant/variantcontext/CommonInfo.java:132-136 | `addFilters` on a non-null batch completes normally iff every entry is non-null, not already a filter, and not repeated earlier in the batch. |
| CommonInfoProperties.AddFiltersStopsAtFirstRejected | src/main/java/htsjdk/variant/variantcontext/CommonInfo.java:132-136 | When `addFilters` throws, it threw at an entry that is null, already a filter, or a repeat. Every earlier entry was acceptable and stays added, so the filters are those after the prefix. |
| VariantContext.HasLog10PError | src/main/java/htsjdk/variant/variantcontext/CommonInfo.java:144-146 | There is an estimate iff the stored score is not exactly the sentinel 1.0. A stored NaN or infinity counts as an estimate. |
| VariantContext.SetLog10PError | src/main/java/htsjdk/variant/variantcontext/CommonInfo.java:170-178 | The call throws IllegalArgument, changing nothing, iff the argument is positive and not 1.0 (+∞ included) or the stored score is NaN or infinite. Otherwise only the score changes, and it becomes the argument. |
| CommonInfoProperties.SentinelMeansNoEstimate | src/main/java/htsjdk/variant/variantcontext/CommonInfo.java:144-146 | Constructing with the sentinel 1.0 always succeeds and yields a record without an error estimate. |
| CommonInfoProperties.SetThenGetLog10PError | src/main/java/htsjdk/variant/variantcontext/CommonInfo.java:144-151 | After a successful set, `getLog10PError` returns the argument, and `hasLog10PError` holds iff the argument is not 1.0. |
| CommonInfoProperties.NaNIsStoredThenBlocksEverySet | src/main/java/htsjdk/variant/variantcontext/CommonInfo.java:170-178 | While the stored score is finite, a NaN argument is accepted. From then on every `setLog10PError` throws, whatever its argument. |
| VariantContext.ClearAttributes | src/main/java/htsjdk/variant/variantcontext/CommonInfo.java:188-190 | Afterwards there are no attributes, the storage is the record's own (never the shared singleton), and nothing else changes. |
| VariantContext.PutAttribute | src/main/java/htsjdk/variant/variantcontext/CommonInfo.java:211-219 | The call throws IllegalState, changing nothing, iff overwrites are not allowed and the key is present. Otherwise the key is bound to the value, the key set gains exactly that key, other bindings keep their values, and the storage becomes owned. |
| VariantContext.PutNewAttribute | src/main/java/htsjdk/variant/variantcontext/CommonInfo.java:204-206 | The two-argument form throws IllegalState, changing nothing, iff the key is present. Otherwise the map gains exactly that binding. |
| VariantContext.RemoveAttribute | src/main/java/htsjdk/variant/variantcontext/CommonInfo.java:222-226 | The call never throws. Afterwards the key is absent, every other binding is unchanged, and the count drops by one iff the key was present. The storage becomes owned even when nothing is removed. |
| VariantContext.PutAttributes | src/main/java/htsjdk/variant/variantcontext/CommonInfo.java:232-245 | A null map is a no-op. Any throw is IllegalState and happens only when the record already had attributes. On success the attributes are the old ones plus the map's entries. Keys are never lost, only attributes and storage change, and the storage invariant is kept. |
| VariantContext.SetAttributes | src/main/java/htsjdk/variant/variantcontext/CommonInfo.java:199-202 | The call never throws. Afterwards the attributes are exactly the given map's (empty for null), held in owned storage, and nothing else changes. |
| CommonInfoProperties.OverwriteNeedsPermission | src/main/java/htsjdk/variant/variantcontext/CommonInfo.java:204-219 | After `putAttribute(k, v1)`, `putAttribute(k, v2)` throws IllegalState and changes nothing. `putAttribute(k, v2, true)` succeeds, and `getAttribute(k)` is then `v2`. |
| CommonInfoProperties.PutNullIsPresent | src/main/java/htsjdk/variant/variantcontext/CommonInfo.java:211-249 | After putting `null` under a key, `hasAttribute` holds and `getAttribute` reads `null`; after removing it, the key is absent and still reads `null`. |
| CommonInfoProperties.RemoveUndoesPut | src/main/java/htsjdk/variant/variantcontext/CommonInfo.java:211-226 | Putting an absent key always succeeds, and removing it again restores the original attribute map. |
| CommonInfoProperties.ReadersAfterPut | src/main/java/htsjdk/variant/variantcontext/CommonInfo.java:267-337 | After a successful put, `getAttribute` with or without a default returns the value. Each typed reader returns a value of its own type unchanged: an Integer also reads as a widened Double, a List or array reads as its elements, and any other scalar reads as a one-element list. |
| CommonInfoProperties.WrongTypeReadsThrow | src/main/java/htsjdk/variant/variantcontext/CommonInfo.java:296-337 | After a successful put of a non-null, non-string value, `getAttributeAsString` renders it with `String.valueOf`; the Integer, Double and Boolean readers throw ClassCast unless it is of their type (an Integer also being accepted by the Double reader). |
| CommonInfoProperties.NullIsPresentButReadsAsDefault | src/main/java/htsjdk/variant/variantcontext/CommonInfo.java:267-337 | For a key bound to `null`, `getAttribute(key, default)` returns `null`; it returns the default once the key is removed. Every typed reader returns its default, and the list reader returns an empty list. |
| CommonInfoProperties.PutAttributesSucceedsIff | src/main/java/htsjdk/variant/variantcontext/CommonInfo.java:232-245 | On a non-null map, `putAttributes` completes normally iff none of the map's keys is already present. This holds on the unchecked path and on the strict path alike. |
| CommonInfoProperties.PutAttributesStopsAtFirstExistingKey | src/main/java/htsjdk/variant/variantcontext/CommonInfo.java:240-242 | When `putAttributes` throws, it threw at the first key, in the map's enumeration order, that was already present. Every entry enumerated before it stays put. |
| CommonInfoProperties.UncheckedCopyAgreesWithStrictPuts | src/main/java/htsjdk/variant/variantcontext/CommonInfo.java:235-242 | On a record without attributes, the unchecked bulk copy gives the same attributes as the strict per-entry puts would, and those puts would not throw. |
| CommonInfoProperties.SetAttributesLeavesExactly | src/main/java/htsjdk/variant/variantcontext/CommonInfo.java:199-202 | `setAttributes(m)` never throws. Afterwards each of `m`'s keys reads back its value, no other key is present, and the count is `m`'s size. |
| CommonInfoProperties.RunAdvances | src/main/java/htsjdk/variant/variantcontext/CommonInfo.java:66-245 | After any sequence of mutator calls, thrown or not, the following still hold. Shared storage is empty. Evaluated filters stay evaluated and only gain names. A set name stays set. A stored NaN or infinite score is never replaced. |
| VariantContext.HasAttribute | src/main/java/htsjdk/variant/variantcontext/CommonInfo.java:247-249 | A key is present whenever it reads as non-null. |
| VariantContext.GetNumAttributes | src/main/java/htsjdk/variant/variantcontext/CommonInfo.java:251-253 | The count is the size of the attribute map, and it is zero exactly when no key is present. |
| VariantContext.GetAttributes | src/main/java/htsjdk/variant/variantcontext/CommonInfo.java:258-260 | The returned map's keys are exactly the present keys, and each binding is what `getAttribute` reads for its key. |
| VariantContext.GetAttributeOrDefault | src/main/java/htsjdk/variant/variantcontext/CommonInfo.java:271-276 | For a present key, the result is the bound value, even when that value is `null`. A missing key gives the default. |
| VariantContext.GetAttributeAsList | src/main/java/htsjdk/variant/variantcontext/CommonInfo.java:284-290 | A missing key gives an empty list. An empty list comes only from a null value or an empty list or array. |
| VariantContext.GetAttributeAsString | src/main/java/htsjdk/variant/variantcontext/CommonInfo.java:296-301 | A null value gives the default, a string value is returned as it is, and any other value is rendered by `String.valueOf`. |
| VariantContext.GetAttributeAsInt | src/main/java/htsjdk/variant/variantcontext/CommonInfo.java:308-313 | A null value or the missing-value token gives the default, an Integer is returned as it is, and any other string is parsed: its value, or NumberFormat when it does not parse. Any other present value throws ClassCast. |
| VariantContext.GetAttributeAsDouble | src/main/java/htsjdk/variant/variantcontext/CommonInfo.java:320-326 | A null value gives the default, a Double is returned as it is, an Integer is widened, and a string is parsed: its value, or NumberFormat when it does not parse. Any other present value throws ClassCast. |
| VariantContext.GetAttributeAsBoolean | src/main/java/htsjdk/variant/variantcontext/CommonInfo.java:332-337 | A null value gives the default, a Boolean is returned as it is, and a string reads as `Boolean.valueOf` of it, never failing. Any other present value throws ClassCast. |
| Locatable.GA4GHStart | src/java/htsjdk/samtools/util/Locatable.java:30 | The 0-based start lies before the 1-based start, and is that start's 0-based index whenever the interval is non-empty. |
| Locatable.GA4GHEnd | src/java/htsjdk/samtools/util/Locatable.java:35 | For a non-empty interval, the exclusive 0-based end is the last covered 1-based position, and the next position is not covered. |
| Locatable.Size | src/java/htsjdk/samtools/util/Locatable.java:40-42 | The size is positive iff start ≤ end. Counting `size` positions from the start ends exactly at the end. |
| Locatable.OverlapsWithMargin | src/java/htsjdk/samtools/util/Locatable.java:62-68 | The result is false for a null other or a null other contig. When true, the contigs are equal and the intervals come within `margin` bases of each other. |
| Locatable.Overlaps | src/java/htsjdk/samtools/util/Locatable.java:50-52 | When true, both contigs are non-null and equal and the intervals share bounds (start ≤ other end, other start ≤ end). |
| Locatable.Contains | src/java/htsjdk/samtools/util/Locatable.java:77-83 | The result is false for a null other or a null other contig. When true, the contigs are equal and every position of the other interval is covered. |
| LocatableProperties.SizeCountsPositions | src/java/htsjdk/samtools/util/Locatable.java:37-42 | For an interval with start ≤ end + 1, `size()` is the number of 1-based positions it covers. |
| LocatableProperties.GA4GHSpanIsSize | src/java/htsjdk/samtools/util/Locatable.java:27-42 | `getGA4GHEnd() - getGA4GHStart()` equals `size()`. |
| LocatableProperties.GA4GHIsHalfOpen | src/java/htsjdk/samtools/util/Locatable.java:27-35 | A 1-based position `p` is covered iff its 0-based index `p - 1` lies in the half-open `[getGA4GHStart, getGA4GHEnd)`. |
| LocatableProperties.UnmappedOtherNeverMatches | src/java/htsjdk/samtools/util/Locatable.java:62-83 | A null other, or one with a null contig, is overlapped (with any margin) and contained by no receiver. |
| LocatableProperties.OverlapsIsMarginZero | src/java/htsjdk/samtools/util/Locatable.java:50-52 | `overlaps(o)` equals `overlapsWithMargin(o, 0)`. |
| LocatableProperties.OverlapMeansSharedPosition | src/java/htsjdk/samtools/util/Locatable.java:54-68 | Take two present contigs, a non-empty receiver and a non-empty widened other. Then overlap within `margin` holds iff the contigs are equal and some position is covered both by the receiver and by the other widened by `margin`. |
| LocatableProperties.OverlapsWithMarginSymmetric | src/java/htsjdk/samtools/util/Locatable.java:62-68 | With both contigs present, overlap within a margin is symmetric in the two intervals. |
| LocatableProperties.OverlapsSymmetric | src/java/htsjdk/samtools/util/Locatable.java:50-68 | With both contigs present, `overlaps` is symmetric. |
| LocatableProperties.OverlapsMonotoneInMargin | src/java/htsjdk/samtools/util/Locatable.java:62-68 | An overlap within a margin remains an overlap within any wider margin. |
| LocatableProperties.ContainsMeansCovering | src/java/htsjdk/samtools/util/Locatable.java:70-83 | For a non-empty other, `contains` holds iff the contigs are equal and every position of the other is covered by the receiver. |
| LocatableProperties.ContainsReflexive | src/java/htsjdk/samtools/util/Locatable.java:77-83 | An interval with a contig contains itself. |
| LocatableProperties.ContainsTransitive | src/java/htsjdk/samtools/util/Locatable.java:77-83 | If a contains b and b contains c, then a contains c. |
| LocatableProperties.ContainsNotSymmetric | src/java/htsjdk/samtools/util/Locatable.java:77-83 | On one contig, [100, 200] contains [120, 150], but [120, 150] does not contain [100, 200]. |
| LocatableProperties.ContainsImpliesOverlaps | src/java/htsjdk/samtools/util/Locatable.java:62-83 | Containing a non-empty interval implies overlapping it. |
| LocatableProperties.AdjacentIntervals | src/java/htsjdk/samtools/util/Locatable.java:50-83 | [100, 200] and [201, 210] on one contig do not overlap. They overlap with a margin of 1. The first does not contain the second, and the first has size 101. |

## Left out

- `getPhredScaledQual` (CommonInfo.java:162) is not modelled. Its `+ 0.0` exists only to turn −0.0 into +0.0, and the abstract `double` here has no signed zero or rounding.
- Java reference identity and aliasing are not modelled:
  - the `NO_FILTERS` singleton;
  - caller sets and maps stored by reference by the constructor (CommonInfo.java:69-71);
  - a caller-supplied immutable filter set that would make `add` throw;
  - the unmodifiable views returned by `getFilters` and `getAttributes`.
  The model returns the values themselves.
- `Integer.valueOf`, `Double.valueOf`, `Boolean.valueOf` and `String.valueOf` are parameters of the readers. They are library code, and every property holds for any choice of them.
- `VCFConstants.MISSING_VALUE_v4` is not part of this model. It is a parameter `missing`, compared by string equality. The Java code compares it by reference, so an equal but distinct string would not match there.
- The following are not modelled: `Serializable`, the exception messages built with `toString`, and hash-map and hash-set iteration order. The enumeration order of `addFilters` and `putAttributes` is left arbitrary (any sequence), and the prefix properties hold for every order.
- Null keys in the attribute map and null elements inside a filter set are not modelled. Java permits both; keys and filter names here are strings.
- Primitive arrays (for example `int[]`) stored as attributes are not modelled. `getAttributeAsList` casts them to `Object[]`, which throws. `Array` stands only for object arrays.
- A null `defaultValue` for `getAttributeAsString` is not modelled. The default is a string.
- Finite `double` values are reals: rounding, and the signed zero, are not modelled.
- Locatable.OverlapsWithMargin: requires `other.end + margin` and `other.start - margin` to stay in the `int` range (when the contigs are equal) instead of modelling Java's wrap-around.
- Locatable.Size: requires `end - start + 1` to stay in the `int` range instead of modelling the wrap-around.
- Locatable.GA4GHStart: requires `start - 1` to stay in the `int` range; Java computes it in `int` before widening to `long`.
- The receiver's own null contig is a precondition of `OverlapsWithMargin`, `Overlaps` and `Contains` whenever the other contig is non-null. Java dereferences it there and throws `NullPointerException`.
