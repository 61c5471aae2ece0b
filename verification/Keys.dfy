/** Tagged RocksDB keys of targets (`context_key` and the `ctx_key_*` encoders). */
module Keys {
  import opened Bits
  import opened Targets

  const V4_EXACT: Byte := 1
  const V6_EXACT: Byte := 2
  const V4_LPM: Byte := 3
  const V6_LPM: Byte := 4

  function ContextKey(t: Target): seq<Byte> {
    match t
    case Exact(family, octets) => [if family.V4? then V4_EXACT else V6_EXACT] + octets
    case Cidr(family, prefix, octets) => [if family.V4? then V4_LPM else V6_LPM, prefix % 256] + octets
  }

  /** No target's key is a proper prefix of another's, and distinct targets have distinct keys. */
  lemma KeyPrefixFree(a: Target, b: Target)
    requires a.Valid() && b.Valid() && ContextKey(a) <= ContextKey(b)
    ensures a == b
  {
    var ka, kb := ContextKey(a), ContextKey(b);
    assert ka[0] == kb[0];
    assert |ka| == |kb|;
    assert ka == kb;
    assert a.octets == ka[|ka| - |a.octets|..];
    assert b.octets == kb[|kb| - |b.octets|..];
    if a.Cidr? { assert ka[1] == kb[1]; }
  }
}
