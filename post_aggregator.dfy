/** What every node of a post-aggregation expression tree offers its parent: the row
    fields it reads, its value on a row, its cache-key fragment, equality and hash. */
module PostAggregators {
  import opened JavaInt

  /** A Java object as a node sees it. `Num` is a `java.lang.Number` with its
      `doubleValue()` and its `toString()`; `Obj` is any other non-null object (a `String`
      among them) with its `toString()`. */
  datatype Value = Null | Num(n: real, text: string) | Obj(text: string)

  /** One aggregated row: field name to value. */
  type Row = map<string, Value>

  type byte = x: int | 0 <= x < 256

  /** The capability of a child node of type `N`. */
  datatype NodeOps<!N> = NodeOps(
    dependentFields: N -> set<string>,
    compute: (N, Row) -> Value,
    cacheKey: N -> seq<byte>,
    equals: (N, N) -> bool,
    hashCode: N -> int32)

  /** Two rows hold the same entries for every field in `fields`. */
  predicate Agree(r1: Row, r2: Row, fields: set<string>)
  {
    forall f :: f in fields ==> (f in r1 <==> f in r2) && (f in r1 ==> r1[f] == r2[f])
  }

  /** Each child's value depends only on the row fields it reports as dependent. */
  ghost predicate ReadsOnlyDependentFields<N(!new)>(ops: NodeOps<N>)
  {
    forall n, r1, r2 :: Agree(r1, r2, ops.dependentFields(n)) ==> ops.compute(n, r1) == ops.compute(n, r2)
  }

  /** The children's `equals` is an equivalence relation, as Java's contract asks. */
  ghost predicate EqualsIsEquivalence<N(!new)>(ops: NodeOps<N>)
  {
    && (forall x :: ops.equals(x, x))
    && (forall x, y :: ops.equals(x, y) ==> ops.equals(y, x))
    && (forall x, y, z :: ops.equals(x, y) && ops.equals(y, z) ==> ops.equals(x, z))
  }

  /** Equal children have equal hashes. */
  ghost predicate HashAgreesWithEquals<N(!new)>(ops: NodeOps<N>)
  {
    forall x, y :: ops.equals(x, y) ==> ops.hashCode(x) == ops.hashCode(y)
  }

  /** Equal children compute the same value on every row. */
  ghost predicate ComputeAgreesWithEquals<N(!new)>(ops: NodeOps<N>)
  {
    forall x, y, row :: ops.equals(x, y) ==> ops.compute(x, row) == ops.compute(y, row)
  }

  /** Children with the same cache-key fragment compute the same value on every row:
      the property a result cache relies on. */
  ghost predicate CacheKeyDeterminesCompute<N(!new)>(ops: NodeOps<N>)
  {
    forall x, y, row :: ops.cacheKey(x) == ops.cacheKey(y) ==> ops.compute(x, row) == ops.compute(y, row)
  }
}
