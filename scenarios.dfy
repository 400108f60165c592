/** The node configured as the unit tests configure it: two field-access children over a
    row holding a count and a currency code. */
module Scenarios {
  import opened Wrappers
  import opened JavaInt
  import opened PostAggregators
  import opened CacheKeys
  import opened CurrencyConversion

  /** A character as three bytes, high first: every code point is below 0x110000. */
  function CharBytes(c: char): (bytes: seq<byte>)
    ensures |bytes| == 3
    ensures (bytes[0] as int) * 0x1_0000 + (bytes[1] as int) * 0x100 + bytes[2] as int == c as int
  {
    var v := c as int;
    [v / 0x1_0000, (v / 0x100) % 0x100, v % 0x100]
  }

  /** A field name as three bytes per character. */
  function FieldBytes(s: string): (bytes: seq<byte>)
    ensures |bytes| == 3 * |s|
  {
    if s == [] then [] else CharBytes(s[0]) + FieldBytes(s[1..])
  }

  /** Distinct field names have distinct fragments. */
  lemma {:induction false} FieldBytesInjective(s: string, t: string)
    requires FieldBytes(s) == FieldBytes(t)
    ensures s == t
  {
    if s != [] {
      var bs, bt := FieldBytes(s), FieldBytes(t);
      assert bs[..3] == CharBytes(s[0]) && bt[..3] == CharBytes(t[0]);
      assert s[0] as int == t[0] as int;
      assert bs[3..] == FieldBytes(s[1..]) && bt[3..] == FieldBytes(t[1..]);
      FieldBytesInjective(s[1..], t[1..]);
      assert s == [s[0]] + s[1..] && t == [t[0]] + t[1..];
    }
  }

  /** A stand-in for a field-access child, identified by its field name: it reads that
      field of the row (null when absent) and depends on that field alone. */
  const FieldAccess: NodeOps<string> := NodeOps(
    fieldName => {fieldName},
    (fieldName, row: Row) => if fieldName in row then row[fieldName] else Null,
    fieldName => FieldBytes(fieldName),
    (x, y) => x == y,
    fieldName => StringHashCode(fieldName))

  /** Field-access children with the same fragment read the same field, so they compute
      alike: the stand-in meets what a result cache asks of a child. */
  lemma FieldAccessFragmentDeterminesCompute()
    ensures CacheKeyDeterminesCompute(FieldAccess)
  {
    forall x, y, row | FieldAccess.cacheKey(x) == FieldAccess.cacheKey(y)
      ensures FieldAccess.compute(x, row) == FieldAccess.compute(y, row)
    {
      FieldBytesInjective(x, y);
    }
  }

  /** The tests' table: GBP at 1, USD at 2. */
  const TestTable: map<string, real> := map["GBP" := 1.0, "USD" := 2.0]

  function TestNode(conversions: map<string, real>): CurrencyPostAggregator<string>
  {
    CurrencyPostAggregator(Some("converted"), "GBP", conversions, "total", "currency")
  }

  /** A row with a count of 3 and the given currency code. */
  function TestRow(code: string): Row
  {
    map["total" := Num(3.0, "3"), "currency" := Obj(code)]
  }

  /** The tests' configuration, with GBP as target, passes every constructor check. */
  lemma TestConfigurationIsAccepted()
    ensures Create(Some("converted"), Some("GBP"), Some(map["GBP" := Some(1.0), "USD" := Some(2.0)]),
                   Some("total"), Some("currency")) == Success(TestNode(TestTable))
  {
    var r := Create(Some("converted"), Some("GBP"), Some(map["GBP" := Some(1.0), "USD" := Some(2.0)]),
                    Some("total"), Some("currency"));
    var m := map["GBP" := Some(1.0), "USD" := Some(2.0)];
    assert !IsWhitespace("GBP"[0]);
    assert m.Keys == {"GBP", "USD"};
    assert None !in m.Values by {
      forall k | k in m ensures m[k] != None { }
    }
    assert r.Success?;
    assert r.value.conversions == TestTable;
  }

  /** A blank target currency is rejected before anything else is looked at. */
  lemma BlankCurrencyIsRejected()
    ensures Create(Some("converted"), Some(" \t"), None, Some("total"), None) == Failure(BlankCurrency)
  {
  }

  /** USD at 2, value 3: the result is 6. */
  lemma ComputeCurrencyScenario()
    ensures Compute(TestNode(TestTable), FieldAccess, TestRow("USD")) == Success(6.0)
  {
  }

  /** The target currency GBP, value 3: the value comes back unchanged. */
  lemma ComputeDefaultScenario()
    ensures Compute(TestNode(TestTable), FieldAccess, TestRow("GBP")) == Success(3.0)
  {
  }

  /** EUR is neither the target nor in the table: the node fails rather than yield 0. */
  lemma CurrencyNotInMapScenario()
    ensures Compute(TestNode(TestTable), FieldAccess, TestRow("EUR")) == Failure(UnknownCurrency)
  {
  }

  /** With a serialiser that fails, the as-written cache key of two nodes that differ only
      in their tables is the same, although the nodes compute different values on the
      same row: a result cache would serve one node's result for the other. */
  method SwallowedFailureCollides() returns (k1: CacheKey, k2: CacheKey)
    ensures k1 == k2
    ensures Compute(TestNode(TestTable), FieldAccess, TestRow("USD")) == Success(6.0)
    ensures Compute(TestNode(TestTable["USD" := 3.0]), FieldAccess, TestRow("USD")) == Success(9.0)
  {
    var failing: map<string, real> -> Option<string> := _ => None;
    k1 := GetCacheKey(TestNode(TestTable), FieldAccess, failing);
    k2 := GetCacheKey(TestNode(TestTable["USD" := 3.0]), FieldAccess, failing);
    assert k1.parts == k1.parts[..3] && k2.parts == k2.parts[..3];
  }

  /** A serialiser that knows the two tables of the collision and fails on every other. */
  const TwoTableSerializer: map<string, real> -> Option<string> :=
    m => if m == TestTable then Some("{\"GBP\":1.0,\"USD\":2.0}")
         else if m == TestTable["USD" := 3.0] then Some("{\"GBP\":1.0,\"USD\":3.0}")
         else None

  lemma TwoTableSerializerIsInjective()
    ensures SerializationIsInjective(TwoTableSerializer)
  {
    assert TestTable["USD"] == 2.0;
    assert TestTable != TestTable["USD" := 3.0];
  }

  /** With the corrected key, the two nodes of the collision get distinct keys, and any two
      nodes over field-access children that share a corrected key compute alike. */
  lemma CheckedKeysSeparateCollidingNodes(row: Row)
    ensures CheckedCacheKey(TestNode(TestTable), FieldAccess, TwoTableSerializer).Success?
    ensures CheckedCacheKey(TestNode(TestTable), FieldAccess, TwoTableSerializer)
         != CheckedCacheKey(TestNode(TestTable["USD" := 3.0]), FieldAccess, TwoTableSerializer)
    ensures forall b: CurrencyPostAggregator<string> ::
      CheckedCacheKey(b, FieldAccess, TwoTableSerializer) == CheckedCacheKey(TestNode(TestTable), FieldAccess, TwoTableSerializer)
      ==> Compute(b, FieldAccess, row) == Compute(TestNode(TestTable), FieldAccess, row)
  {
    TwoTableSerializerIsInjective();
    FieldAccessFragmentDeterminesCompute();
    assert TestTable["USD"] == 2.0;
    CheckedKeySeparatesTables(TestNode(TestTable), TestNode(TestTable["USD" := 3.0]), FieldAccess, TwoTableSerializer);
    forall b: CurrencyPostAggregator<string> |
      CheckedCacheKey(b, FieldAccess, TwoTableSerializer) == CheckedCacheKey(TestNode(TestTable), FieldAccess, TwoTableSerializer)
      ensures Compute(b, FieldAccess, row) == Compute(TestNode(TestTable), FieldAccess, row)
    {
      CheckedKeyDeterminesCompute(b, TestNode(TestTable), FieldAccess, TwoTableSerializer, row);
    }
  }
}
