/** Cache keys as ordered sequences of components after a one-byte type id, and the
    builder that accumulates them. The byte layout of the produced array is not modelled. */
module CacheKeys {
  import opened PostAggregators

  /** One appended component: a string, or the key fragment of a cacheable child. */
  datatype KeyPart = StringPart(s: string) | CacheablePart(fragment: seq<byte>)

  datatype CacheKey = CacheKey(typeId: byte, parts: seq<KeyPart>)

  /** A key under construction: components are appended in order and never removed. */
  class CacheKeyBuilder {
    const typeId: byte
    var parts: seq<KeyPart>

    constructor (id: byte)
      ensures typeId == id && parts == []
    {
      typeId := id;
      parts := [];
    }

    method AppendString(s: string)
      modifies this
      ensures parts == old(parts) + [StringPart(s)]
    {
      parts := parts + [StringPart(s)];
    }

    method AppendCacheable(fragment: seq<byte>)
      modifies this
      ensures parts == old(parts) + [CacheablePart(fragment)]
    {
      parts := parts + [CacheablePart(fragment)];
    }

    method Build() returns (key: CacheKey)
      ensures key == CacheKey(typeId, parts)
    {
      key := CacheKey(typeId, parts);
    }
  }
}
