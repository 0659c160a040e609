/** FontOptions: the immutable description of a font. Each with* member
    returns a copy of the options with one setting replaced; the getters are
    the datatype's fields, except for the two metric overrides, which are
    stored with a -1 sentinel and read back as optional values. */
module FontOptionsModel {
  import opened Optional
  import opened FontVariations
  import opened VariationList

  /** What the options read from an attached Typeface: its family name and
      style. The handle itself is shared and never changed here. */
  datatype Typeface = Typeface(name: string, style: string)

  /** TypefaceMetricsKind is defined by another module and only passed
      through; the header names its `portable` value, which is the default. */
  datatype TypefaceMetricsKind = Portable | OtherMetricsKind(ordinal: nat)

  /** The -1.0f written into an unset height, point height or override. */
  const Unset: real := -1.0

  datatype FontOptions = FontOptions(
    name: string,
    style: string,
    typeface: Option<Typeface>,
    fallbacks: seq<string>,
    metricsKind: TypefaceMetricsKind,
    height: real,
    pointHeight: real,
    tracking: real,
    horizontalScale: real,
    ascentOverride: real,
    descentOverride: real,
    fallbackEnabled: bool,
    underlined: bool,
    variations: seq<FontVariation>)
  {
    /** withName: a new family name, ignored while a typeface is attached. */
    function WithName(x: string): (r: FontOptions)
      ensures typeface.None? ==> r.name == x && AgreeExcept(this, r, {NameField})
      ensures typeface.Some? ==> r == this
    {
      if typeface.None? then this.(name := x) else this
    }

    /** withStyle: a new style name, ignored while a typeface is attached. */
    function WithStyle(x: string): (r: FontOptions)
      ensures typeface.None? ==> r.style == x && AgreeExcept(this, r, {StyleField})
      ensures typeface.Some? ==> r == this
    {
      if typeface.None? then this.(style := x) else this
    }

    /** withTypeface: attaches (or detaches) a typeface. A non-null handle's
        name and style are copied in through withName and withStyle, which
        are called on these options and so still see the OLD handle. */
    function WithTypeface(x: Option<Typeface>): (r: FontOptions)
      ensures r.typeface == x
      ensures x.Some? && typeface.None? ==>
        r.name == x.value.name && r.style == x.value.style &&
        AgreeExcept(this, r, {NameField, StyleField, TypefaceField})
      ensures x.None? || typeface.Some? ==> AgreeExcept(this, r, {TypefaceField})
    {
      var result := if x.Some? then WithName(x.value.name).WithStyle(x.value.style) else this;
      result.(typeface := x)
    }

    /** withFallbacks */
    function WithFallbacks(x: seq<string>): (r: FontOptions)
      ensures r.fallbacks == x && AgreeExcept(this, r, {FallbacksField})
    {
      this.(fallbacks := x)
    }

    /** withFallbackEnabled; the argument defaults to true. */
    function WithFallbackEnabled(x: bool := true): (r: FontOptions)
      ensures r.fallbackEnabled == x && AgreeExcept(this, r, {FallbackEnabledField})
    {
      this.(fallbackEnabled := x)
    }

    /** withHeight: sets the JUCE height and marks the point height unset. */
    function WithHeight(x: real): (r: FontOptions)
      ensures r.height == x && r.pointHeight == Unset
      ensures AgreeExcept(this, r, {HeightField, PointHeightField})
      ensures AtMostOneHeightSet(r)
    {
      this.(height := x, pointHeight := Unset)
    }

    /** withPointHeight: sets the point height and marks the JUCE height unset. */
    function WithPointHeight(x: real): (r: FontOptions)
      ensures r.pointHeight == x && r.height == Unset
      ensures AgreeExcept(this, r, {HeightField, PointHeightField})
      ensures AtMostOneHeightSet(r)
    {
      this.(pointHeight := x, height := Unset)
    }

    /** withKerningFactor: the tracking factor. */
    function WithKerningFactor(x: real): (r: FontOptions)
      ensures r.tracking == x && AgreeExcept(this, r, {TrackingField})
    {
      this.(tracking := x)
    }

    /** withHorizontalScale */
    function WithHorizontalScale(x: real): (r: FontOptions)
      ensures r.horizontalScale == x && AgreeExcept(this, r, {HorizontalScaleField})
    {
      this.(horizontalScale := x)
    }

    /** withUnderline; the argument defaults to true. */
    function WithUnderline(x: bool := true): (r: FontOptions)
      ensures r.underlined == x && AgreeExcept(this, r, {UnderlinedField})
    {
      this.(underlined := x)
    }

    /** withMetricsKind */
    function WithMetricsKind(x: TypefaceMetricsKind): (r: FontOptions)
      ensures r.metricsKind == x && AgreeExcept(this, r, {MetricsKindField})
    {
      this.(metricsKind := x)
    }

    /** withAscentOverride: an empty optional is stored as -1. Reading it
        back gives the override exactly when it is non-negative. */
    function WithAscentOverride(x: Option<real>): (r: FontOptions)
      ensures r.GetAscentOverride() == if x.Some? && x.value >= 0.0 then x else None
      ensures AgreeExcept(this, r, {AscentOverrideField})
    {
      this.(ascentOverride := x.ValueOr(Unset))
    }

    /** withDescentOverride: as withAscentOverride, for the descent. */
    function WithDescentOverride(x: Option<real>): (r: FontOptions)
      ensures r.GetDescentOverride() == if x.Some? && x.value >= 0.0 then x else None
      ensures AgreeExcept(this, r, {DescentOverrideField})
    {
      this.(descentOverride := x.ValueOr(Unset))
    }

    /** withVariations: replaces the whole list of axis settings. */
    function WithVariations(x: seq<FontVariation>): (r: FontOptions)
      ensures r.variations == x && AgreeExcept(this, r, {VariationsField})
    {
      this.(variations := x)
    }

    /** withVariation: sets one axis, updating the first entry with that tag
        or appending a new entry when there is none. */
    function WithVariation(tag: Tag, value: real): (r: FontOptions)
      ensures AgreeExcept(this, r, {VariationsField})
      ensures var i := FindTag(variations, tag);
        if i < |variations| then
          |r.variations| == |variations| && r.variations[i] == FontVariation(tag, value) &&
          forall j :: 0 <= j < |variations| && j != i ==> r.variations[j] == variations[j]
        else
          r.variations == variations + [FontVariation(tag, value)]
    {
      var vs := Upserted(variations, tag, value);
      var i := FindTag(variations, tag);
      ReplacingVariationsFrame(this, vs);
      if i < |variations| then
        UpsertedUpdatesFirstMatch(variations, tag, value, i);
        this.(variations := vs)
      else
        UpsertedAppendsWhenAbsent(variations, tag, value);
        this.(variations := vs)
    }

    /** getAscentOverride: the stored value when non-negative, else none. */
    function GetAscentOverride(): (r: Option<real>)
      ensures r.Some? <==> ascentOverride >= 0.0
      ensures r.Some? ==> r.value == ascentOverride
    {
      if ascentOverride >= 0.0 then Some(ascentOverride) else None
    }

    /** getDescentOverride: the stored value when non-negative, else none. */
    function GetDescentOverride(): (r: Option<real>)
      ensures r.Some? <==> descentOverride >= 0.0
      ensures r.Some? ==> r.value == descentOverride
    {
      if descentOverride >= 0.0 then Some(descentOverride) else None
    }
  }

  /** The values the member initialisers give a FontOptions: no height of
      either kind, unit scale, no tracking, fallback on, no underline,
      portable metrics, no typeface, no fallbacks or variations, no override
      read back, and the model's invariants hold. */
  function MemberDefaults(): (r: FontOptions)
    ensures r.height == Unset && r.pointHeight == Unset
    ensures r.horizontalScale == 1.0 && r.tracking == 0.0
    ensures r.fallbackEnabled && !r.underlined
    ensures r.typeface.None? && r.metricsKind == Portable
    ensures r.name == "" && r.style == ""
    ensures r.fallbacks == [] && r.variations == []
    ensures r.GetAscentOverride().None? && r.GetDescentOverride().None?
    ensures Valid(r)
  {
    FontOptions(
      name := "",
      style := "",
      typeface := None,
      fallbacks := [],
      metricsKind := Portable,
      height := Unset,
      pointHeight := Unset,
      tracking := 0.0,
      horizontalScale := 1.0,
      ascentOverride := Unset,
      descentOverride := Unset,
      fallbackEnabled := true,
      underlined := false,
      variations := [])
  }

  /** The fields of FontOptions, to say which ones a mutator may change. */
  datatype Field =
    | NameField | StyleField | TypefaceField | FallbacksField | MetricsKindField
    | HeightField | PointHeightField | TrackingField | HorizontalScaleField
    | AscentOverrideField | DescentOverrideField | FallbackEnabledField
    | UnderlinedField | VariationsField

  /** a and b hold the same value in field f. */
  predicate SameField(a: FontOptions, b: FontOptions, f: Field)
  {
    match f
    case NameField => a.name == b.name
    case StyleField => a.style == b.style
    case TypefaceField => a.typeface == b.typeface
    case FallbacksField => a.fallbacks == b.fallbacks
    case MetricsKindField => a.metricsKind == b.metricsKind
    case HeightField => a.height == b.height
    case PointHeightField => a.pointHeight == b.pointHeight
    case TrackingField => a.tracking == b.tracking
    case HorizontalScaleField => a.horizontalScale == b.horizontalScale
    case AscentOverrideField => a.ascentOverride == b.ascentOverride
    case DescentOverrideField => a.descentOverride == b.descentOverride
    case FallbackEnabledField => a.fallbackEnabled == b.fallbackEnabled
    case UnderlinedField => a.underlined == b.underlined
    case VariationsField => a.variations == b.variations
  }

  /** b differs from a at most in the fields listed in changed. */
  predicate AgreeExcept(a: FontOptions, b: FontOptions, changed: set<Field>)
  {
    forall f :: f !in changed ==> SameField(a, b, f)
  }

  /** Replacing the variation list changes no other field. */
  lemma ReplacingVariationsFrame(o: FontOptions, vs: seq<FontVariation>)
    ensures AgreeExcept(o, o.(variations := vs), {VariationsField})
  {
  }

  /** Field covers the whole record: options agreeing on every field are
      equal, so "all other fields unchanged" leaves nothing out. */
  lemma AgreeOnAllFieldsIsEqual(a: FontOptions, b: FontOptions)
    requires AgreeExcept(a, b, {})
    ensures a == b
  {
    assert SameField(a, b, NameField) && SameField(a, b, StyleField);
    assert SameField(a, b, TypefaceField) && SameField(a, b, FallbacksField);
    assert SameField(a, b, MetricsKindField) && SameField(a, b, HeightField);
    assert SameField(a, b, PointHeightField) && SameField(a, b, TrackingField);
    assert SameField(a, b, HorizontalScaleField) && SameField(a, b, AscentOverrideField);
    assert SameField(a, b, DescentOverrideField) && SameField(a, b, FallbackEnabledField);
    assert SameField(a, b, UnderlinedField) && SameField(a, b, VariationsField);
  }

  /** The sizing invariant: a JUCE height and a point height are never set
      together; at least one of them holds the -1 sentinel (header lines
      219-220 and 228). */
  predicate AtMostOneHeightSet(o: FontOptions)
  {
    o.height == Unset || o.pointHeight == Unset
  }

  /** When a typeface is attached, the name and style are the handle's: the
      typeface takes precedence and its name and style are copied in (header
      lines 198-207). */
  predicate TypefaceConsistent(o: FontOptions)
  {
    o.typeface.Some? ==> o.name == o.typeface.value.name && o.style == o.typeface.value.style
  }

  /** The model's invariants on a FontOptions. */
  predicate Valid(o: FontOptions)
  {
    AtMostOneHeightSet(o) && DistinctTags(o.variations) && TypefaceConsistent(o)
  }

  /** A later withName is ignored once a typeface is attached: the name
      stays the one copied from the handle. */
  lemma WithTypefaceThenWithName(o: FontOptions, t: Typeface, x: string)
    requires o.typeface.None?
    ensures o.WithTypeface(Some(t)).WithName(x).name == t.name
    ensures o.WithTypeface(Some(t)).WithStyle(x).style == t.style
  {
  }

  /** Heights are exclusive: whichever setter ran last wins and the other
      height reads as unset. */
  lemma {:induction false} HeightSettersOverride(o: FontOptions, x: real, y: real)
    ensures o.WithHeight(x).WithPointHeight(y) == o.WithPointHeight(y)
    ensures o.WithPointHeight(y).WithHeight(x) == o.WithHeight(x)
  {
  }

  /** withVariation on the options: the "one entry per tag" invariant is
      kept, the tag then maps to the new value, and setting the same axis
      twice is the same as setting it once with the later value. */
  lemma WithVariationProperties(o: FontOptions, tag: Tag, v1: real, v2: real)
    ensures DistinctTags(o.variations) ==> DistinctTags(o.WithVariation(tag, v1).variations)
    ensures DistinctTags(o.variations) ==>
      var r := o.WithVariation(tag, v1).variations;
      HasTag(r, tag) && forall j :: 0 <= j < |r| && r[j].tag == tag ==> r[j].value == v1
    ensures o.WithVariation(tag, v1).WithVariation(tag, v2) == o.WithVariation(tag, v2)
  {
    if DistinctTags(o.variations) {
      UpsertedPreservesDistinct(o.variations, tag, v1);
      UpsertedLookup(o.variations, tag, v1);
    }
    UpsertedTags(o.variations, tag, v1);
    UpsertedTwice(o.variations, tag, v1, v2);
  }

  /** withVariation as the source writes it: copy the options, search the
      copy's list with find_if, then write the found entry's value in place
      or push a new entry onto the end. */
  method WithVariationBySearch(o: FontOptions, tag: Tag, value: real) returns (r: FontOptions)
    ensures r == o.WithVariation(tag, value)
  {
    var vars := o.variations;
    var i := 0;
    while i < |vars| && !TagEquals(vars[i].tag, tag)
      invariant 0 <= i <= |vars|
      invariant forall j :: 0 <= j < i ==> vars[j].tag != tag
    {
      i := i + 1;
    }
    assert i == FindTag(vars, tag);
    if i < |vars| {
      vars := vars[i := vars[i].(value := value)];
    } else {
      vars := vars + [FontVariation(tag, value)];
    }
    r := o.(variations := vars);
    UpsertedByFind(o.variations, tag, value);
  }
}
