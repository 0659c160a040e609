/** FontVariation and FontVariation::Tag: one variable-font axis setting and
    the 32-bit identifier of its axis. */
module FontVariations {

  /** C++ uint32_t. */
  newtype uint32 = x: int | 0 <= x < 0x1_0000_0000

  /** juce::int32. */
  newtype int32 = x: int | -0x8000_0000 <= x < 0x8000_0000

  const TwoTo32: int := 0x1_0000_0000

  /** FontVariation::Tag: a wrapper around its 32-bit value. Tag(uint32_t)
      stores the bits unchanged. */
  datatype Tag = Tag(tag: uint32)

  /** Tag::operator== compares the wrapped integers. */
  predicate TagEquals(a: Tag, b: Tag)
    ensures TagEquals(a, b) <==> a == b
  {
    a.tag == b.tag
  }

  /** Tag::operator!= */
  predicate TagNotEquals(a: Tag, b: Tag)
    ensures TagNotEquals(a, b) <==> !TagEquals(a, b)
  {
    a.tag != b.tag
  }

  /** Tag::operator<, the order used by sorted containers. */
  predicate TagLess(a: Tag, b: Tag)
    ensures TagLess(a, b) ==> a != b
  {
    a.tag < b.tag
  }

  /** The default constructor Tag(): the member initialiser sets the value
      to 0, which makes it the least tag of all. */
  function DefaultTag(): (t: Tag)
    ensures forall u: Tag :: !TagLess(u, t)
    ensures forall u: Tag :: u != t ==> TagLess(t, u)
  {
    Tag(0)
  }

  /** Tag's < is a strict total order: transitive, and any two distinct tags
      are ordered one way or the other. */
  lemma TagLessIsStrictTotal(a: Tag, b: Tag, c: Tag)
    ensures !TagLess(a, a)
    ensures TagLess(a, b) && TagLess(b, c) ==> TagLess(a, c)
    ensures a != b ==> TagLess(a, b) || TagLess(b, a)
  {
  }

  /** FontVariation: an axis tag with the value the axis is set to. */
  datatype FontVariation = FontVariation(tag: Tag, value: real)

  /** The FontVariation (int32, float) constructor: static_cast<uint32_t>
      reinterprets a negative int32 as its two's-complement bit pattern. */
  function FromInt32(t: int32, value: real): (r: FontVariation)
    ensures r.value == value
    ensures (r.tag.tag as int - t as int) % TwoTo32 == 0
  {
    FontVariation(Tag(if t >= 0 then t as int as uint32 else (t as int + TwoTo32) as uint32), value)
  }

  /** The cast loses nothing: distinct int32 tags give distinct Tags, and a
      non-negative int32 is kept as it is. */
  lemma FromInt32Injective(s: int32, t: int32, value: real)
    ensures FromInt32(s, value).tag == FromInt32(t, value).tag ==> s == t
    ensures s >= 0 ==> FromInt32(s, value).tag.tag as int == s as int
  {
  }

  /** FontVariation::operator== : same tag and same value. */
  predicate Equals(a: FontVariation, b: FontVariation)
    ensures Equals(a, b) <==> a == b
  {
    TagEquals(a.tag, b.tag) && a.value == b.value
  }

  /** FontVariation::operator!= is the negation of operator==. */
  predicate NotEquals(a: FontVariation, b: FontVariation)
    ensures NotEquals(a, b) <==> a != b
  {
    !Equals(a, b)
  }

  /** FontVariation::operator< : std::tuple's < on (tag.tag, value), which
      compares the second components only when neither first one is less.
      That is the lexicographic order: tag first, then value. */
  predicate Less(a: FontVariation, b: FontVariation)
    ensures Less(a, b) <==>
      (TagLess(a.tag, b.tag) || (a.tag == b.tag && a.value < b.value))
  {
    a.tag.tag < b.tag.tag || (!(b.tag.tag < a.tag.tag) && a.value < b.value)
  }

  /** FontVariation's < is a strict total order, so it can key a sorted
      container: irreflexive, transitive, and trichotomous. */
  lemma LessIsStrictTotal(a: FontVariation, b: FontVariation, c: FontVariation)
    ensures !Less(a, a)
    ensures Less(a, b) ==> !Less(b, a)
    ensures Less(a, b) && Less(b, c) ==> Less(a, c)
    ensures a != b ==> Less(a, b) || Less(b, a)
  {
  }
}
