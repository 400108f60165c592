# Currency-conversion post-aggregator, modelled in Dafny

`CurrencyPostAggregator` is a node of a Druid post-aggregation tree. It reads a numeric
value from one child node and a currency code from another. It returns the value expressed
in a fixed target currency, using a table of multipliers. It also gives the engine the
usual node services: the row fields it depends on, an ordering on its outputs, a cache key
for query-result caching, and `equals`/`hashCode`.

Each field is assigned once, in the constructor, so a node is a value. The model is the
datatype `CurrencyConversion.CurrencyPostAggregator<N>`. It is generic over the type `N` of
its children. A child is reached only through `PostAggregators.NodeOps<N>`: its dependent
fields, its value on a row, its cache-key fragment, its `equals` and its `hashCode`.
Properties that rely on the children say so explicitly. For example, hashes agree only if
equal children have equal hashes.

Files:

- `wrappers.dfy`: `Option` (Java's nullable references) and `Result` (thrown exceptions).
- `java_int.dfy`: Java `int` arithmetic with explicit two's-complement wrap-around. It proves
  that the `31 * result + h` fold equals the closed-form base-31 polynomial modulo 2^32. It
  also models `String.hashCode` over UTF-16 code units.
- `post_aggregator.dfy`: row values, rows, the child capability, and the assumptions made
  about children.
- `comparators.dfy`: natural order with nulls first.
- `cache_key.dfy`: cache keys as a type id followed by an ordered list of components, and the
  builder that appends them.
- `currency_post_aggregator.dfy`: construction, `compute`, dependent fields, `decorate`,
  `equals`, `hashCode` and `getCacheKey`, with the lemmas about them.
- `scenarios.dfy`: the unit tests' configuration, with field-access children, and the
  cache-key collision described under Findings.

Construction checks its arguments in source order and reports the first failure.
`compute` fails in these cases (the Java exception is in brackets):

- the value is null (`NullPointerException`);
- the value is not a `Number` (`ClassCastException`);
- the currency is null (`NullPointerException`);
- the currency is neither the target nor a key of the table (`NullPointerException` when the
  `null` from `conversions.get` is unboxed).

An unknown currency is an error in the model, never 0.0. This follows the code at
`CurrencyPostAggregator.java:186`. The third unit test
(`CurrencyPostAggregatorTest.java:59-78`) expects 0.0 instead. The tests also call a
four-argument constructor with no target currency, which the class does not have. Both belong
to a different version of the class. The model follows the class as written; the first two
tests agree with it and appear as `Scenarios` lemmas, using GBP as the target.

## Model

| member | source | states |
|---|---|---|
| `CurrencyConversion.Create` | src/main/java/com/salecycle/druid/CurrencyPostAggregator.java:44-63 | Construction succeeds iff all of these hold: the target currency is non-blank (`StringUtils.isNotBlank`); the table is non-null and non-empty, with no null multiplier; both children are non-null. On success the node holds exactly the arguments and is `Valid`. The failed check reported is the first in source order: blank currency, missing or empty table, null multiplier, null `field`, null `currencyField`. |
| `CurrencyConversion.IsWhitespace` | src/main/java/com/salecycle/druid/CurrencyPostAggregator.java:52 | `Character.isWhitespace` as `StringUtils.isNotBlank` applies it: space, tab, newline and carriage return are whitespace; the non-breaking spaces U+00A0, U+2007 and U+202F are not. |
| `CurrencyConversion.IsNotBlank` | src/main/java/com/salecycle/druid/CurrencyPostAggregator.java:52 | A non-blank string is non-null and non-empty; a string whose first character is not whitespace is non-blank. |
| `CurrencyConversion.BlanknessIgnoresSurroundingWhitespace` | src/main/java/com/salecycle/druid/CurrencyPostAggregator.java:52 | Surrounding a string with whitespace does not change whether the currency check accepts it. |
| `CurrencyConversion.Compute` | src/main/java/com/salecycle/druid/CurrencyPostAggregator.java:79-83 | Evaluation succeeds only on a numeric value; it fails with `NullValue` exactly when the value is null, and with `NullCurrency` exactly when the value is a number and the currency is null. |
| `CurrencyConversion.ConvertCurrency` | src/main/java/com/salecycle/druid/CurrencyPostAggregator.java:182-188 | Conversion fails, with `UnknownCurrency`, exactly when the code is neither the target nor a key of the table. The target, and any code whose multiplier is 1, give the value back unchanged. |
| `CurrencyConversion.ComputeSucceedsIff` | src/main/java/com/salecycle/druid/CurrencyPostAggregator.java:79-83 | `compute` succeeds iff the value is a number and the currency child's `toString()` (`ObservedCurrency`, null when the child yields null) is non-null and is the target or a key of the table. |
| `CurrencyConversion.TargetCurrencyPassesThrough` | src/main/java/com/salecycle/druid/CurrencyPostAggregator.java:182-185 | When the observed currency equals the target, the value is returned unchanged. Replacing the table by any other changes nothing, so the table is never consulted. |
| `CurrencyConversion.KnownCurrencyIsMultiplied` | src/main/java/com/salecycle/druid/CurrencyPostAggregator.java:186-187 | Any other currency that is a key of the table yields value × that currency's multiplier. |
| `CurrencyConversion.UnknownCurrencyFails` | src/main/java/com/salecycle/druid/CurrencyPostAggregator.java:186 | A currency that is neither the target nor a key makes `compute` fail with `UnknownCurrency`. It does not yield a value. |
| `CurrencyConversion.NonNumericValueFails` | src/main/java/com/salecycle/druid/CurrencyPostAggregator.java:80 | A null or non-numeric value fails with `NullValue` or `NotANumber`. This happens before the currency child is evaluated: the result does not depend on that child. |
| `CurrencyConversion.PassThroughAgreesWithUnitRate` | src/main/java/com/salecycle/druid/CurrencyPostAggregator.java:182-188 | When the table maps the target to 1, the pass-through agrees with a plain table lookup for every currency in the table. |
| `CurrencyConversion.GetDependentFields` | src/main/java/com/salecycle/druid/CurrencyPostAggregator.java:65-71 | The result contains a field iff the field is a dependent field of either child, including when a child's set is empty. |
| `CurrencyConversion.ComputeReadsOnlyDependentFields` | src/main/java/com/salecycle/druid/CurrencyPostAggregator.java:66-83 | Two rows that agree on the dependent fields give the same `compute` result, provided each child reads only its own dependent fields. |
| `CurrencyConversion.Decorate` | src/main/java/com/salecycle/druid/CurrencyPostAggregator.java:110-113 | Decoration returns the node itself, whatever the aggregator metadata. |
| `CurrencyConversion.Equals` | src/main/java/com/salecycle/druid/CurrencyPostAggregator.java:141-169 | The same object is equal; null and an object of another class are not. On another instance it holds iff the tables are equal, both children are equal under their own `equals`, the names are equal (null equal only to null) and the target currencies are equal, for any children. |
| `CurrencyConversion.EqualsIsValueEquality` | src/main/java/com/salecycle/druid/CurrencyPostAggregator.java:150-168 | When children are compared by value, `equals` on two instances holds iff the tables, the children, the target currencies and the names (null-aware) are all equal. |
| `CurrencyConversion.EqualsReflexive` | src/main/java/com/salecycle/druid/CurrencyPostAggregator.java:143-145 | A node equals itself: the same object through the identity test, and an equal copy when the children's `equals` is reflexive. |
| `CurrencyConversion.EqualsSymmetric` | src/main/java/com/salecycle/druid/CurrencyPostAggregator.java:150-168 | `equals` is symmetric when the children's `equals` is an equivalence. |
| `CurrencyConversion.EqualsTransitive` | src/main/java/com/salecycle/druid/CurrencyPostAggregator.java:150-168 | `equals` is transitive when the children's `equals` is an equivalence. |
| `CurrencyConversion.EqualNodesComputeEqually` | src/main/java/com/salecycle/druid/CurrencyPostAggregator.java:141-169 | Equal nodes compute the same result on every row, provided equal children do. |
| `CurrencyConversion.HashCode` | src/main/java/com/salecycle/druid/CurrencyPostAggregator.java:172-180 | The hash, computed step by step as the fold `Hash31`, is the 32-bit base-31 polynomial of five component hashes: the name (`NameHash`: 0 if null, else `String.hashCode`), `field`, `currencyField`, the target currency and the table. |
| `CurrencyConversion.EqualNodesHashEqually` | src/main/java/com/salecycle/druid/CurrencyPostAggregator.java:171-180 | Equal nodes have equal hashes, provided equal children have equal hashes. |
| `JavaInt.Hash31IsPolynomial` | src/main/java/com/salecycle/druid/CurrencyPostAggregator.java:174-179 | The step-by-step `result = 31 * result + h` fold in wrapping `int` arithmetic equals the polynomial h0·31^(n-1) + … + h(n-1), taken modulo 2^32 into the `int` range. |
| `JavaInt.Wrap` | src/main/java/com/salecycle/druid/CurrencyPostAggregator.java:175-178 | An overflowing `int` operation yields the unique `int` congruent to the exact result modulo 2^32. |
| `JavaInt.StringHashCode` | src/main/java/com/salecycle/druid/CurrencyPostAggregator.java:174-177 | The name's and the currency's `hashCode` is the base-31 polynomial of the string's UTF-16 code units (`Utf16`, one or two `CodeUnits` per character, surrogate pairs for supplementary characters), modulo 2^32. |
| `Comparators.NullsFirstCompare` | src/main/java/com/salecycle/druid/CurrencyPostAggregator.java:36 | Returns -1, 0 or 1. It is 0 iff the two outputs are equal. A null comes before every number. Two numbers compare by their numeric order. |
| `Comparators.CompareAntisymmetric` | src/main/java/com/salecycle/druid/CurrencyPostAggregator.java:73-76 | Swapping the arguments negates the comparison. |
| `Comparators.CompareTransitive` | src/main/java/com/salecycle/druid/CurrencyPostAggregator.java:73-76 | The ordering is transitive. |
| `CacheKeys.CacheKeyBuilder.constructor` | src/main/java/com/salecycle/druid/CurrencyPostAggregator.java:117 | A new builder holds the type id and no components. |
| `CacheKeys.CacheKeyBuilder.AppendString` | src/main/java/com/salecycle/druid/CurrencyPostAggregator.java:118 | Appends one string component after the existing ones. |
| `CacheKeys.CacheKeyBuilder.AppendCacheable` | src/main/java/com/salecycle/druid/CurrencyPostAggregator.java:119-120 | Appends one child's cache-key fragment after the existing components. |
| `CacheKeys.CacheKeyBuilder.Build` | src/main/java/com/salecycle/druid/CurrencyPostAggregator.java:127 | The key is the type id and the components in the order they were appended. |
| `CurrencyConversion.GetCacheKey` | src/main/java/com/salecycle/druid/CurrencyPostAggregator.java:115-128 | The key has type id 1, then the target currency, `field`'s fragment and `currencyField`'s fragment. The serialised table follows only when serialisation succeeds. On failure the key has three components and the table is missing. |
| `CurrencyConversion.CheckedCacheKey` | src/main/java/com/salecycle/druid/CurrencyPostAggregator.java:122-126 | Corrected key: it fails iff the table cannot be serialised. Otherwise it has type id 1 and exactly four components: the target currency, `field`'s fragment, `currencyField`'s fragment and the serialised table. No key omits the table. |
| `CurrencyConversion.CheckedKeyDeterminesCompute` | src/main/java/com/salecycle/druid/CurrencyPostAggregator.java:116-128 | Two nodes with the same corrected key compute the same result on every row. This assumes the serialiser is injective and that a child's fragment determines its values. |
| `CurrencyConversion.CheckedKeySeparatesTables` | src/main/java/com/salecycle/druid/CurrencyPostAggregator.java:122-126 | With an injective serialiser, nodes whose tables differ never share a corrected key. |
| `CurrencyConversion.EqualNodesShareCheckedKey` | src/main/java/com/salecycle/druid/CurrencyPostAggregator.java:116-128 | Equal nodes get equal corrected keys, provided equal children have equal fragments. |
| `Scenarios.TestConfigurationIsAccepted` | src/main/java/com/salecycle/druid/CurrencyPostAggregator.java:52-62 | The tests' table {GBP: 1, USD: 2}, with target GBP and two field-access children, passes every check and is stored as given. |
| `Scenarios.BlankCurrencyIsRejected` | src/main/java/com/salecycle/druid/CurrencyPostAggregator.java:52 | A target currency made only of whitespace is rejected with the first check's error, even when the table and a child are also missing. |
| `Scenarios.ComputeCurrencyScenario` | src/test/java/com/salecycle/druid/CurrencyPostAggregatorTest.java:17-37 | A count of 3 in USD, with USD at 2, yields 6. |
| `Scenarios.ComputeDefaultScenario` | src/test/java/com/salecycle/druid/CurrencyPostAggregatorTest.java:38-58 | A count of 3 in the target GBP yields 3. |
| `Scenarios.CurrencyNotInMapScenario` | src/main/java/com/salecycle/druid/CurrencyPostAggregator.java:186 | A count of 3 in EUR, which is not in the table, fails with `UnknownCurrency`. It does not yield the 0.0 the third test expects. |
| `Scenarios.SwallowedFailureCollides` | src/main/java/com/salecycle/druid/CurrencyPostAggregator.java:122-126 | When serialisation fails, two nodes whose tables give USD as 2 and 3 get the same as-written key. On a USD row with a count of 3 they compute 6 and 9. |
| `Scenarios.FieldAccessFragmentDeterminesCompute` | src/main/java/com/salecycle/druid/CurrencyPostAggregator.java:119-120 | The field-access stand-in's cache-key fragment (three bytes per character) is injective, so two such children with the same fragment compute alike on every row. |
| `Scenarios.CheckedKeysSeparateCollidingNodes` | src/main/java/com/salecycle/druid/CurrencyPostAggregator.java:122-126 | With a serialiser that accepts both tables of the collision and is injective, the corrected keys of the two nodes differ, and any node sharing the first node's corrected key computes as it does on every row. |

## Left out

- Floating point: `double` values and multipliers are reals, and `value * multiplier` and `doubleValue()` are exact (`CurrencyConversion.DoubleMul`). Rounding, NaN and infinities are not modelled.
- Comparators.NullsFirstCompare: two numbers are compared as reals. `Double.compareTo`'s treatment of NaN and of -0.0 versus 0.0 is not modelled.
- The byte layout that Druid's `CacheKeyBuilder` produces is not modelled. A key is its type id and its ordered components.
- CurrencyConversion.GetCacheKey, CurrencyConversion.CheckedCacheKey, CurrencyConversion.EqualNodesShareCheckedKey: serialisation is a function of the table's value, the canonical encoding a cache key needs. Jackson writes a map's entries in its iteration order, and a table read from configuration keeps the order of its entries. So two `equals` nodes whose tables list the same entries in different orders get different keys in the source, while the model gives them the same key.
- CurrencyConversion.CheckedKeyDeterminesCompute, CurrencyConversion.CheckedKeySeparatesTables: they assume an injective serialiser. Only a serialiser that fails on all but countably many tables can be injective, so these lemmas say nothing about tables it rejects.
- Jackson's JSON text for the table is not modelled. Serialisation is a parameter that may fail. The stack trace printed on failure is output and is left out.
- `Map.hashCode` of the table is not modelled, because it depends on the IEEE bits of each `Double`. It is a parameter of `HashCode`.
- Children are abstract. Their own exceptions from `compute` and their own logic are not modelled. `Scenarios.FieldAccess` is a stand-in for Druid's field-access node, whose source is not part of this model. Its cache-key fragment, three bytes per character, is not Druid's byte layout.
- Object identity is modelled only as the `Self` argument of `equals`.
- The constructor keeps the caller's map without copying it. Later mutation of that map by the caller (aliasing) is not modelled.
- A `null` key in the table is not modelled.
- `Character.isWhitespace` follows the current Unicode tables, in which U+180E is not a space. Older JDKs counted it as whitespace.
- The messages of the constructor's `IllegalArgumentException`s are not modelled: each failed check is one `ConstructionError`.
- `toString`, the getters and the Jackson annotations are not modelled: they carry no behaviour. `CurrencyModule.java` only registers the class with Jackson, so it is not modelled either.
- The unit tests' four-argument constructor, and the variant that returns 0.0 for an unknown currency or a near-zero value, are not modelled. They are not part of the class as written.

## Findings

| source | as written | input that shows it | evidently intended | confidence | as-written member | corrected member |
|---|---|---|---|---|---|---|
| src/main/java/com/salecycle/druid/CurrencyPostAggregator.java:122-126 | A failure to serialise the table is caught and printed, and the key is built without the table. | Two nodes with target GBP and the same children, tables {GBP: 1, USD: 2} and {GBP: 1, USD: 3}, and a failing serialiser. They get equal keys, yet compute 6 and 9 on a USD row with a count of 3. | The failure is reported, so that no key ever omits the table. | medium; not executed | `CurrencyConversion.GetCacheKey`, `Scenarios.SwallowedFailureCollides` | `CurrencyConversion.CheckedCacheKey`, `CurrencyConversion.CheckedKeyDeterminesCompute`, `Scenarios.CheckedKeysSeparateCollidingNodes` |
