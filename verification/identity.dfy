/** The identity wrappers of the hash path.

    `Element` pairs a value with its index and compares and hashes by the
    value alone, so a hash set of elements can be searched by value and hand
    back the index it was stored with. `Item` compares by value and offset and
    hashes to the value's hash XOR the offset.

    Concrete hash functions are not modelled: `hashValue` is a parameter
    standing for the wrapped type's `hashValue`, a Swift `Int` taken as its
    64-bit word, and both wrappers receive the same one. Only the structure
    the wrappers put on top of it is stated. */
module Identity {

  // ---------------------------------------------------------------------------
  // Element

  datatype Element<T> = Element(value: T, index: int)

  /** `==` on elements. */
  predicate ElementEq<T(==)>(a: Element<T>, b: Element<T>)
  {
    a.value == b.value
  }

  /** `hash(into:)` feeds only the value's hash to the hasher. */
  function ElementHash<T>(hashValue: T -> bv64, e: Element<T>): bv64
  {
    hashValue(e.value)
  }

  /** Elements are equal exactly when their values are; the index plays no
      part, so the same value at two indices is one set entry. */
  lemma ElementEqIgnoresIndex<T>(v: T, w: T, i: int, j: int)
    ensures ElementEq(Element(v, i), Element(w, j)) <==> v == w
  {
  }

  /** The hash reads only the value: equal elements hash alike, and so does
      one value at any two indices. */
  lemma ElementHashRespectsEq<T>(hashValue: T -> bv64, a: Element<T>, b: Element<T>)
    ensures ElementEq(a, b) ==> ElementHash(hashValue, a) == ElementHash(hashValue, b)
    ensures ElementHash(hashValue, Element(a.value, b.index)) == ElementHash(hashValue, a)
  {
  }

  /** Element equality is an equivalence relation. */
  lemma ElementEqIsEquivalence<T>(a: Element<T>, b: Element<T>, c: Element<T>)
    ensures ElementEq(a, a)
    ensures ElementEq(a, b) ==> ElementEq(b, a)
    ensures ElementEq(a, b) && ElementEq(b, c) ==> ElementEq(a, c)
  {
  }

  // ---------------------------------------------------------------------------
  // Item

  datatype Item<T> = Item(value: T, offset: int, isNew: bool)

  /** `==` on items: value and offset, never `isNew`. */
  predicate ItemEq<T(==)>(a: Item<T>, b: Item<T>)
  {
    a.value == b.value && a.offset == b.offset
  }

  /** The 64 bits of a Swift `Int`, two's complement. */
  function Word(x: int): bv64
  {
    (x % 0x1_0000_0000_0000_0000) as bv64
  }

  /** `hashValue`: the value's hash XOR the offset. */
  function ItemHash<T>(hashValue: T -> bv64, it: Item<T>): bv64
  {
    hashValue(it.value) ^ Word(it.offset)
  }

  /** Items are equal exactly when value and offset agree; `isNew` is
      ignored. */
  lemma ItemEqIgnoresIsNew<T>(v: T, w: T, i: int, j: int, p: bool, q: bool)
    ensures ItemEq(Item(v, i, p), Item(w, j, q)) <==> v == w && i == j
  {
  }

  /** Equal items hash alike, and `isNew` never changes the hash. */
  lemma ItemHashRespectsEq<T>(hashValue: T -> bv64, a: Item<T>, b: Item<T>)
    ensures ItemEq(a, b) ==> ItemHash(hashValue, a) == ItemHash(hashValue, b)
    ensures ItemHash(hashValue, a.(isNew := !a.isNew)) == ItemHash(hashValue, a)
  {
    var flipped := a.(isNew := !a.isNew);
    assert flipped.value == a.value && flipped.offset == a.offset;
  }

  /** XOR with the offset can be undone: the offset's bits are recovered from
      the hash and the value's hash, so two items with one value hash alike
      only when their offsets have the same bits. */
  lemma {:induction false} ItemHashRecoversOffset<T>(hashValue: T -> bv64, a: Item<T>, b: Item<T>)
    ensures ItemHash(hashValue, a) ^ hashValue(a.value) == Word(a.offset)
    ensures a.value == b.value && ItemHash(hashValue, a) == ItemHash(hashValue, b)
            ==> Word(a.offset) == Word(b.offset)
  {
    var h := hashValue(a.value);
    assert (h ^ Word(a.offset)) ^ h == Word(a.offset);
  }

  /** The same value at offsets 0 and 1 hashes differently: XOR with 1 flips
      the lowest bit. */
  lemma AdjacentOffsetsHashApart<T>(hashValue: T -> bv64, v: T, p: bool, q: bool)
    ensures ItemHash(hashValue, Item(v, 0, p)) != ItemHash(hashValue, Item(v, 1, q))
  {
    assert Word(0) == 0 && Word(1) == 1;
  }

  /** Item equality is an equivalence relation. */
  lemma ItemEqIsEquivalence<T>(a: Item<T>, b: Item<T>, c: Item<T>)
    ensures ItemEq(a, a)
    ensures ItemEq(a, b) ==> ItemEq(b, a)
    ensures ItemEq(a, b) && ItemEq(b, c) ==> ItemEq(a, c)
  {
  }
}
