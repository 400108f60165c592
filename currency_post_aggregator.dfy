/** The currency-conversion post-aggregator: a node that reads a numeric value and a
    currency code from two child nodes and expresses the value in a target currency,
    using a table of multipliers. Every field is set once at construction, so a node is
    a value: an immutable datatype, generic over the type `N` of its children. */
module CurrencyConversion {
  import opened Wrappers
  import opened JavaInt
  import opened PostAggregators
  import opened CacheKeys

  /** The type id written first into this node's cache key. */
  const CURRENCY: byte := 1

  datatype CurrencyPostAggregator<N> = CurrencyPostAggregator(
    name: Option<string>,               // output name; may be null
    currency: string,                   // target currency code
    conversions: map<string, real>,     // currency code to multiplier
    field: N,                           // child yielding the numeric value
    currencyField: N)                   // child yielding the currency code
  {
    /** What construction guarantees of every node. */
    predicate Valid()
    {
      IsNotBlank(Some(currency)) && |conversions| > 0
    }
  }

  // ---------------------------------------------------------------------------
  // Construction

  /** The argument checks of the constructor, in the order they are made. */
  datatype ConstructionError =
    | BlankCurrency
    | NoConversions
    | NullConversionValue
    | NullField
    | NullCurrencyField

  /** `Character.isWhitespace`: the Unicode space, line and paragraph separators other
      than the non-breaking spaces, and the ASCII control characters 9-13 and 28-31. */
  function IsWhitespace(c: char): (r: bool)
    ensures c == ' ' || c == '\t' || c == '\n' || c == '\r' ==> r
    ensures c as int == 0xA0 || c as int == 0x2007 || c as int == 0x202F ==> !r
  {
    var v := c as int;
    || v == 0x20 || v == 0x1680 || (0x2000 <= v <= 0x200A && v != 0x2007)
    || v == 0x205F || v == 0x3000 || v == 0x2028 || v == 0x2029
    || (0x09 <= v <= 0x0D) || (0x1C <= v <= 0x1F)
  }

  /** `StringUtils.isNotBlank`: not null, and some character is not whitespace. */
  function IsNotBlank(s: Option<string>): (r: bool)
    ensures r ==> s.Some? && |s.value| > 0
    ensures s.Some? && |s.value| > 0 && !IsWhitespace(s.value[0]) ==> r
  {
    s.Some? && exists i :: 0 <= i < |s.value| && !IsWhitespace(s.value[i])
  }

  /** Whitespace around a string does not change whether it is blank: `isNotBlank` looks
      for one character that is not whitespace, wherever it is. */
  lemma {:induction false} BlanknessIgnoresSurroundingWhitespace(w: string, s: string)
    requires forall i :: 0 <= i < |w| ==> IsWhitespace(w[i])
    ensures IsNotBlank(Some(w + s + w)) <==> IsNotBlank(Some(s))
  {
    var t := w + s + w;
    if IsNotBlank(Some(s)) {
      var i :| 0 <= i < |s| && !IsWhitespace(s[i]);
      assert t[|w| + i] == s[i];
    }
    if IsNotBlank(Some(t)) {
      var j :| 0 <= j < |t| && !IsWhitespace(t[j]);
      assert forall k | 0 <= k < |w| :: t[k] == w[k] && t[|w| + |s| + k] == w[k];
      assert |w| <= j < |w| + |s|;
      assert s[j - |w|] == t[j];
    }
  }

  /** The constructor: every argument may be null; the checks run in source order and the
      first that fails is reported. */
  function Create<N>(
    name: Option<string>,
    currency: Option<string>,
    conversions: Option<map<string, Option<real>>>,
    field: Option<N>,
    currencyField: Option<N>)
    : (r: Result<CurrencyPostAggregator<N>, ConstructionError>)
    ensures r.Success? <==>
      && IsNotBlank(currency)
      && conversions.Some? && |conversions.value| > 0 && None !in conversions.value.Values
      && field.Some? && currencyField.Some?
    ensures r.Success? ==> r.value.Valid()
    ensures r.Success? ==>
      && r.value.name == name && Some(r.value.currency) == currency
      && Some(r.value.field) == field && Some(r.value.currencyField) == currencyField
      && r.value.conversions.Keys == conversions.value.Keys
      && forall k :: k in r.value.conversions ==> conversions.value[k] == Some(r.value.conversions[k])
    ensures !IsNotBlank(currency) ==> r == Failure(BlankCurrency)
    ensures IsNotBlank(currency) && (conversions.None? || |conversions.value| == 0) ==> r == Failure(NoConversions)
    ensures (IsNotBlank(currency) && conversions.Some? && |conversions.value| > 0
             && None in conversions.value.Values) ==> r == Failure(NullConversionValue)
    ensures (IsNotBlank(currency) && conversions.Some? && |conversions.value| > 0
             && None !in conversions.value.Values && field.None?) ==> r == Failure(NullField)
    ensures (IsNotBlank(currency) && conversions.Some? && |conversions.value| > 0
             && None !in conversions.value.Values && field.Some? && currencyField.None?)
            ==> r == Failure(NullCurrencyField)
  {
    if !IsNotBlank(currency) then Failure(BlankCurrency)
    else if conversions.None? || |conversions.value| == 0 then Failure(NoConversions)
    else if None in conversions.value.Values then Failure(NullConversionValue)
    else if field.None? then Failure(NullField)
    else if currencyField.None? then Failure(NullCurrencyField)
    else
      var m := conversions.value;
      var table := map k | k in m && m[k].Some? :: m[k].value;
      assert forall k :: k in m ==> m[k] in m.Values;
      assert table.Keys == m.Keys;
      Success(CurrencyPostAggregator(name, currency.value, table, field.value, currencyField.value))
  }

  // ---------------------------------------------------------------------------
  // Evaluation

  /** Why `compute` throws. */
  datatype ComputeError =
    | NullValue          // `doubleValue()` on a null value
    | NotANumber         // the value is not a `Number`: the cast fails
    | NullCurrency       // `toString()` on a null currency
    | UnknownCurrency    // `conversions.get` returns null, which cannot be unboxed

  /** Java's `value * multiplier` on `double`, taken exactly over the reals. */
  function DoubleMul(value: real, multiplier: real): real
  {
    value * multiplier
  }

  /** `convertCurrency`: the target currency passes the value through; any other code is
      looked up in the table. */
  function ConvertCurrency<N>(a: CurrencyPostAggregator<N>, fromCurrency: string, value: real)
    : (r: Result<real, ComputeError>)
    ensures r.Failure? <==> fromCurrency != a.currency && fromCurrency !in a.conversions
    ensures r.Failure? ==> r.error == UnknownCurrency
    ensures fromCurrency == a.currency ==> r == Success(value)
    ensures fromCurrency in a.conversions && a.conversions[fromCurrency] == 1.0 ==> r == Success(value)
  {
    if fromCurrency == a.currency then Success(value)
    else if fromCurrency !in a.conversions then Failure(UnknownCurrency)
    else Success(DoubleMul(value, a.conversions[fromCurrency]))
  }

  /** `compute`: evaluates the value child, then the currency child, then converts. */
  function Compute<N>(a: CurrencyPostAggregator<N>, ops: NodeOps<N>, row: Row): (r: Result<real, ComputeError>)
    ensures r.Success? ==> ops.compute(a.field, row).Num?
    ensures r == Failure(NullValue) <==> ops.compute(a.field, row).Null?
    ensures r == Failure(NullCurrency) <==>
      ops.compute(a.field, row).Num? && ops.compute(a.currencyField, row).Null?
  {
    var v := ops.compute(a.field, row);
    if v.Null? then Failure(NullValue)
    else if v.Obj? then Failure(NotANumber)
    else
      var c := ops.compute(a.currencyField, row);
      if c.Null? then Failure(NullCurrency)
      else ConvertCurrency(a, c.text, v.n)
  }

  /** The currency code the currency child yields on `row`, or None if it yields null. */
  function ObservedCurrency<N>(a: CurrencyPostAggregator<N>, ops: NodeOps<N>, row: Row): Option<string>
  {
    var c := ops.compute(a.currencyField, row);
    if c.Null? then None else Some(c.text)
  }

  /** `compute` succeeds exactly when the value is a number and the observed currency is
      the target or a key of the table. */
  lemma ComputeSucceedsIff<N>(a: CurrencyPostAggregator<N>, ops: NodeOps<N>, row: Row)
    ensures Compute(a, ops, row).Success? <==>
      && ops.compute(a.field, row).Num?
      && ObservedCurrency(a, ops, row).Some?
      && (ObservedCurrency(a, ops, row).value == a.currency || ObservedCurrency(a, ops, row).value in a.conversions)
  {
  }

  /** A value in the target currency comes back unchanged, whatever the table says. */
  lemma TargetCurrencyPassesThrough<N>(a: CurrencyPostAggregator<N>, ops: NodeOps<N>, row: Row, table: map<string, real>)
    requires ops.compute(a.field, row).Num?
    requires ObservedCurrency(a, ops, row) == Some(a.currency)
    ensures Compute(a, ops, row) == Success(ops.compute(a.field, row).n)
    ensures Compute(a.(conversions := table), ops, row) == Compute(a, ops, row)
  {
  }

  /** A value in another known currency is multiplied by that currency's multiplier. */
  lemma KnownCurrencyIsMultiplied<N>(a: CurrencyPostAggregator<N>, ops: NodeOps<N>, row: Row, code: string)
    requires ops.compute(a.field, row).Num?
    requires ObservedCurrency(a, ops, row) == Some(code)
    requires code != a.currency && code in a.conversions
    ensures Compute(a, ops, row) == Success(ops.compute(a.field, row).n * a.conversions[code])
  {
    assert Compute(a, ops, row) == Success(DoubleMul(ops.compute(a.field, row).n, a.conversions[code]));
  }

  /** A currency that is neither the target nor in the table is an error, never a value. */
  lemma UnknownCurrencyFails<N>(a: CurrencyPostAggregator<N>, ops: NodeOps<N>, row: Row)
    requires ops.compute(a.field, row).Num?
    requires ObservedCurrency(a, ops, row).Some?
    requires ObservedCurrency(a, ops, row).value != a.currency
    requires ObservedCurrency(a, ops, row).value !in a.conversions
    ensures Compute(a, ops, row) == Failure(UnknownCurrency)
  {
  }

  /** A value that is not a number fails before the currency child is consulted: the
      result does not depend on what that child yields. */
  lemma NonNumericValueFails<N>(a: CurrencyPostAggregator<N>, ops: NodeOps<N>, row: Row, other: N)
    requires !ops.compute(a.field, row).Num?
    ensures Compute(a, ops, row) == Failure(if ops.compute(a.field, row).Null? then NullValue else NotANumber)
    ensures Compute(a.(currencyField := other), ops, row) == Compute(a, ops, row)
  {
  }

  /** When the table maps the target currency to 1, the pass-through agrees with a plain
      table lookup for every known currency. */
  lemma PassThroughAgreesWithUnitRate<N>(a: CurrencyPostAggregator<N>, ops: NodeOps<N>, row: Row, code: string)
    requires a.currency in a.conversions && a.conversions[a.currency] == 1.0
    requires ops.compute(a.field, row).Num?
    requires ObservedCurrency(a, ops, row) == Some(code) && code in a.conversions
    ensures Compute(a, ops, row) == Success(ops.compute(a.field, row).n * a.conversions[code])
  {
    var v, m := ops.compute(a.field, row).n, a.conversions[code];
    if code != a.currency {
      assert Compute(a, ops, row) == Success(DoubleMul(v, m));
    } else {
      assert m == 1.0 && v * m == v;
    }
  }

  // ---------------------------------------------------------------------------
  // Dependent fields, comparator, decoration

  /** `getDependentFields`: a fresh set filled with both children's dependent fields. */
  method GetDependentFields<N>(a: CurrencyPostAggregator<N>, ops: NodeOps<N>) returns (dependentFields: set<string>)
    ensures forall f :: f in dependentFields <==>
      f in ops.dependentFields(a.field) || f in ops.dependentFields(a.currencyField)
  {
    dependentFields := {};
    dependentFields := dependentFields + ops.dependentFields(a.field);
    dependentFields := dependentFields + ops.dependentFields(a.currencyField);
  }

  /** The dependent fields are all `compute` reads: two rows that agree on them give the
      same result, provided each child reads only its own dependent fields. */
  lemma ComputeReadsOnlyDependentFields<N(!new)>(a: CurrencyPostAggregator<N>, ops: NodeOps<N>, r1: Row, r2: Row)
    requires ReadsOnlyDependentFields(ops)
    requires Agree(r1, r2, ops.dependentFields(a.field) + ops.dependentFields(a.currencyField))
    ensures Compute(a, ops, r1) == Compute(a, ops, r2)
  {
    assert Agree(r1, r2, ops.dependentFields(a.field));
    assert Agree(r1, r2, ops.dependentFields(a.currencyField));
  }

  /** `decorate`: the node depends on no aggregator metadata and returns itself. */
  function Decorate<N, F>(a: CurrencyPostAggregator<N>, aggregators: map<string, F>): (r: CurrencyPostAggregator<N>)
    ensures r == a
  {
    a
  }

  // ---------------------------------------------------------------------------
  // Equality and hash

  /** The argument of `equals`: this very object, null, an object of another class, or
      another instance of this class. */
  datatype Other<N> = Self | NullRef | OtherClass | Instance(that: CurrencyPostAggregator<N>)

  /** `equals`: identity, then class, then the fields one by one; the name is compared so
      that null equals only null. */
  function Equals<N>(a: CurrencyPostAggregator<N>, o: Other<N>, ops: NodeOps<N>): (r: bool)
    ensures o.Self? ==> r
    ensures o.NullRef? || o.OtherClass? ==> !r
    ensures r && o.Instance? ==>
      a.name == o.that.name && a.currency == o.that.currency && a.conversions == o.that.conversions
    ensures o.Instance? ==>
      (r <==> && a.conversions == o.that.conversions
              && ops.equals(a.field, o.that.field) && ops.equals(a.currencyField, o.that.currencyField)
              && a.name == o.that.name && a.currency == o.that.currency)
  {
    match o
    case Self => true
    case NullRef => false
    case OtherClass => false
    case Instance(that) =>
      && a.conversions == that.conversions
      && ops.equals(a.field, that.field)
      && ops.equals(a.currencyField, that.currencyField)
      && (if a.name.Some? then that.name.Some? && a.name.value == that.name.value else that.name.None?)
      && a.currency == that.currency
  }

  /** With children compared by value, `equals` on two instances is value equality of the
      whole configuration: it holds iff every field is equal. */
  lemma EqualsIsValueEquality<N(!new)>(a: CurrencyPostAggregator<N>, b: CurrencyPostAggregator<N>, ops: NodeOps<N>)
    requires forall x, y :: ops.equals(x, y) <==> x == y
    ensures Equals(a, Instance(b), ops) <==> a == b
  {
  }

  /** `equals` is reflexive: on the same object by its identity test, and on an equal copy
      when the children's `equals` is. */
  lemma EqualsReflexive<N(!new)>(a: CurrencyPostAggregator<N>, ops: NodeOps<N>)
    requires EqualsIsEquivalence(ops)
    ensures Equals(a, Self, ops) && Equals(a, Instance(a), ops)
  {
  }

  lemma EqualsSymmetric<N(!new)>(a: CurrencyPostAggregator<N>, b: CurrencyPostAggregator<N>, ops: NodeOps<N>)
    requires EqualsIsEquivalence(ops)
    requires Equals(a, Instance(b), ops)
    ensures Equals(b, Instance(a), ops)
  {
  }

  lemma EqualsTransitive<N(!new)>(a: CurrencyPostAggregator<N>, b: CurrencyPostAggregator<N>, c: CurrencyPostAggregator<N>, ops: NodeOps<N>)
    requires EqualsIsEquivalence(ops)
    requires Equals(a, Instance(b), ops) && Equals(b, Instance(c), ops)
    ensures Equals(a, Instance(c), ops)
  {
  }

  /** Equal nodes compute the same value on every row, when equal children do. */
  lemma EqualNodesComputeEqually<N(!new)>(a: CurrencyPostAggregator<N>, b: CurrencyPostAggregator<N>, ops: NodeOps<N>, row: Row)
    requires ComputeAgreesWithEquals(ops)
    requires Equals(a, Instance(b), ops)
    ensures Compute(a, ops, row) == Compute(b, ops, row)
  {
  }

  /** The hash of a null name is 0, of any other name `String.hashCode`. */
  function NameHash(name: Option<string>): int32
  {
    if name.Some? then StringHashCode(name.value) else 0
  }

  /** The hashes `hashCode` combines, in order: name, value child, currency child, target
      currency, table. `tableHash` stands for `Map.hashCode` of the table. */
  function HashComponents<N>(a: CurrencyPostAggregator<N>, ops: NodeOps<N>, tableHash: map<string, real> -> int32)
    : seq<int32>
  {
    [NameHash(a.name), ops.hashCode(a.field), ops.hashCode(a.currencyField),
     StringHashCode(a.currency), tableHash(a.conversions)]
  }

  /** `hashCode`: the base-31 polynomial of the five component hashes, in `int` arithmetic. */
  method HashCode<N>(a: CurrencyPostAggregator<N>, ops: NodeOps<N>, tableHash: map<string, real> -> int32)
    returns (result: int32)
    ensures result == Wrap(PolySum(HashComponents(a, ops, tableHash)))
  {
    ghost var hs := HashComponents(a, ops, tableHash);
    result := if a.name.Some? then StringHashCode(a.name.value) else 0;
    assert hs[..1][..0] == [];
    assert result == Hash31(hs[..1]);
    result := AddInt(MulInt(31, result), ops.hashCode(a.field));
    assert hs[..2][..1] == hs[..1];
    assert result == Hash31(hs[..2]);
    result := AddInt(MulInt(31, result), ops.hashCode(a.currencyField));
    assert hs[..3][..2] == hs[..2];
    assert result == Hash31(hs[..3]);
    result := AddInt(MulInt(31, result), StringHashCode(a.currency));
    assert hs[..4][..3] == hs[..3];
    assert result == Hash31(hs[..4]);
    result := AddInt(MulInt(31, result), tableHash(a.conversions));
    assert hs[..5][..4] == hs[..4] && hs[..5] == hs;
    Hash31IsPolynomial(hs);
  }

  /** Equal nodes have equal hashes, when equal children do. */
  lemma EqualNodesHashEqually<N(!new)>(a: CurrencyPostAggregator<N>, b: CurrencyPostAggregator<N>, ops: NodeOps<N>, tableHash: map<string, real> -> int32)
    requires HashAgreesWithEquals(ops)
    requires Equals(a, Instance(b), ops)
    ensures Wrap(PolySum(HashComponents(a, ops, tableHash))) == Wrap(PolySum(HashComponents(b, ops, tableHash)))
  {
  }

  // ---------------------------------------------------------------------------
  // Cache key

  /** `getCacheKey` as written: type id, target currency, the two children's fragments,
      then the serialised table. `serialize` stands for the JSON mapper; when it fails the
      exception is printed and the table is left out of the key. */
  method GetCacheKey<N>(a: CurrencyPostAggregator<N>, ops: NodeOps<N>, serialize: map<string, real> -> Option<string>)
    returns (key: CacheKey)
    ensures key.typeId == CURRENCY
    ensures |key.parts| == if serialize(a.conversions).Some? then 4 else 3
    ensures key.parts[..3] ==
      [StringPart(a.currency), CacheablePart(ops.cacheKey(a.field)), CacheablePart(ops.cacheKey(a.currencyField))]
    ensures serialize(a.conversions).Some? ==> key.parts[3] == StringPart(serialize(a.conversions).value)
  {
    var builder := new CacheKeyBuilder(CURRENCY);
    builder.AppendString(a.currency);
    builder.AppendCacheable(ops.cacheKey(a.field));
    builder.AppendCacheable(ops.cacheKey(a.currencyField));
    var json := serialize(a.conversions);
    if json.Some? {
      builder.AppendString(json.value);
    }
    key := builder.Build();
  }

  datatype CacheKeyError = ConversionsNotSerializable

  /** The cache key with a serialisation failure reported instead of swallowed. */
  function CheckedCacheKey<N>(a: CurrencyPostAggregator<N>, ops: NodeOps<N>, serialize: map<string, real> -> Option<string>)
    : (r: Result<CacheKey, CacheKeyError>)
    ensures r.Failure? <==> serialize(a.conversions).None?
    ensures r.Success? ==> r.value.typeId == CURRENCY && |r.value.parts| == 4
    ensures r.Success? ==>
      r.value.parts[..3] ==
        [StringPart(a.currency), CacheablePart(ops.cacheKey(a.field)), CacheablePart(ops.cacheKey(a.currencyField))]
    ensures r.Success? ==> r.value.parts[3] == StringPart(serialize(a.conversions).value)
  {
    match serialize(a.conversions)
    case None => Failure(ConversionsNotSerializable)
    case Some(json) =>
      Success(CacheKey(CURRENCY, [StringPart(a.currency), CacheablePart(ops.cacheKey(a.field)),
                                  CacheablePart(ops.cacheKey(a.currencyField)), StringPart(json)]))
  }

  /** Distinct tables serialise to distinct text. Tables are uncountably many and strings
      countably many, so this holds only of a serialiser that fails on all but countably
      many tables (for instance on every table with a multiplier that is not a `double`);
      a total serialiser cannot satisfy it. The lemmas that assume it speak only of the
      tables it accepts. */
  ghost predicate SerializationIsInjective(serialize: map<string, real> -> Option<string>)
  {
    forall m1, m2 :: serialize(m1).Some? && serialize(m1) == serialize(m2) ==> m1 == m2
  }

  /** Two nodes with the same checked key compute the same value on every row: a result
      cache keyed by it never serves one node's result for the other. */
  lemma CheckedKeyDeterminesCompute<N(!new)>(
    a: CurrencyPostAggregator<N>, b: CurrencyPostAggregator<N>, ops: NodeOps<N>,
    serialize: map<string, real> -> Option<string>, row: Row)
    requires CacheKeyDeterminesCompute(ops)
    requires SerializationIsInjective(serialize)
    requires CheckedCacheKey(a, ops, serialize).Success?
    requires CheckedCacheKey(a, ops, serialize) == CheckedCacheKey(b, ops, serialize)
    ensures Compute(a, ops, row) == Compute(b, ops, row)
  {
    var ka, kb := CheckedCacheKey(a, ops, serialize).value, CheckedCacheKey(b, ops, serialize).value;
    assert ka.parts[0] == kb.parts[0] && ka.parts[1] == kb.parts[1];
    assert ka.parts[2] == kb.parts[2] && ka.parts[3] == kb.parts[3];
    assert a.conversions == b.conversions;
  }

  /** Two nodes whose tables differ never share a checked key. */
  lemma CheckedKeySeparatesTables<N>(
    a: CurrencyPostAggregator<N>, b: CurrencyPostAggregator<N>, ops: NodeOps<N>,
    serialize: map<string, real> -> Option<string>)
    requires SerializationIsInjective(serialize)
    requires CheckedCacheKey(a, ops, serialize).Success?
    requires a.conversions != b.conversions
    ensures CheckedCacheKey(a, ops, serialize) != CheckedCacheKey(b, ops, serialize)
  {
  }

  /** Equal nodes share their checked key, when equal children share their fragments. */
  lemma EqualNodesShareCheckedKey<N(!new)>(
    a: CurrencyPostAggregator<N>, b: CurrencyPostAggregator<N>, ops: NodeOps<N>,
    serialize: map<string, real> -> Option<string>)
    requires forall x, y :: ops.equals(x, y) ==> ops.cacheKey(x) == ops.cacheKey(y)
    requires Equals(a, Instance(b), ops)
    ensures CheckedCacheKey(a, ops, serialize) == CheckedCacheKey(b, ops, serialize)
  {
  }
}
