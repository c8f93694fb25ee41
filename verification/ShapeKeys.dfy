/** The 64-bit words that stand for property keys and for transitions. The other shape modules
    use the keys themselves; here is when that is the same. */
module ShapeKeys {
  /** An interned string is its address, one bit up. */
  function InternedKey(address: bv64): bv64 { address << 1 }

  /** A symbol is its offset, one bit up, with the lowest bit set. */
  function SymbolKey(off: bv64): bv64 { (off << 1) | 1 }

  /** A transition is the key with the attributes in the top byte. */
  function ChildKey(key: bv64, attrs: bv64): bv64 { key ^ (attrs << 56) }

  const TOP_BIT: bv64 := 0x8000_0000_0000_0000
  const TOP_BYTE: bv64 := 0x0100_0000_0000_0000

  /** Strings and symbols below 2^63 never share a word. */
  lemma KeysDistinct(p: bv64, q: bv64)
    requires p < TOP_BIT && q < TOP_BIT
    ensures InternedKey(p) == InternedKey(q) <==> p == q
    ensures SymbolKey(p) == SymbolKey(q) <==> p == q
    ensures InternedKey(p) != SymbolKey(q)
  {
  }

  /** The word of a key below 2^56 gives back the key and the attributes. */
  lemma ChildKeyParts(k: bv64, a: bv64)
    requires k < TOP_BYTE && a < 256
    ensures ChildKey(k, a) & 0x00FF_FFFF_FFFF_FFFF == k && ChildKey(k, a) >> 56 == a
  {
  }

  /** Transitions of keys below 2^56 share a word exactly when key and attributes agree. */
  lemma ChildKeysDistinct(k: bv64, a: bv64, l: bv64, b: bv64)
    requires k < TOP_BYTE && l < TOP_BYTE && a < 256 && b < 256
    ensures ChildKey(k, a) == ChildKey(l, b) <==> k == l && a == b
  {
    hide ChildKey;
    ChildKeyParts(k, a);
    ChildKeyParts(l, b);
  }

  /** Without that bound they collide: for every key and any two different attributes there is
      another key whose transition has the same word. */
  lemma HighKeysCollide(k: bv64, a: bv64, b: bv64)
    requires a < 256 && b < 256 && a != b
    ensures var l := ChildKey(k, a) ^ (b << 56);
      l != k && ChildKey(k, a) == ChildKey(l, b)
  {
    var x, y := a << 56, b << 56;
    assert x != y by { ShiftsDiffer(a, b); }
    XorBack(k ^ x, y);
    XorMoves(k, x, y);
  }

  lemma ShiftsDiffer(a: bv64, b: bv64)
    requires a < 256 && b < 256 && a != b
    ensures a << 56 != b << 56
  {
    assert (a << 56) >> 56 == a && (b << 56) >> 56 == b;
  }

  lemma XorBack(w: bv64, y: bv64)
    ensures w ^ y ^ y == w
  {
  }

  lemma XorMoves(k: bv64, x: bv64, y: bv64)
    requires x != y
    ensures k ^ x ^ y != k
  {
  }
}
