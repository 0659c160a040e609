/** Options built the way callers build them: start from a value and apply
    a chain of with* calls. Proves that the model's invariants survive every
    chain whose calls pass the header's debug assertions, and shows what a
    release build does with a call that would trip one. */
module FontOptionsChains {
  import opened Optional
  import opened FontVariations
  import opened VariationList
  import opened FontOptionsModel

  /** One with* call and its argument. */
  datatype Mutation =
    | SetName(name: string)
    | SetStyle(style: string)
    | SetTypeface(typeface: Option<Typeface>)
    | SetFallbacks(fallbacks: seq<string>)
    | SetFallbackEnabled(enabled: bool)
    | SetHeight(height: real)
    | SetPointHeight(pointHeight: real)
    | SetKerningFactor(tracking: real)
    | SetHorizontalScale(scale: real)
    | SetUnderline(underlined: bool)
    | SetMetricsKind(kind: TypefaceMetricsKind)
    | SetAscentOverride(ascent: Option<real>)
    | SetDescentOverride(descent: Option<real>)
    | SetVariations(variations: seq<FontVariation>)
    | SetVariation(tag: Tag, value: real)

  function Apply(o: FontOptions, m: Mutation): FontOptions
  {
    match m
    case SetName(x) => o.WithName(x)
    case SetStyle(x) => o.WithStyle(x)
    case SetTypeface(x) => o.WithTypeface(x)
    case SetFallbacks(x) => o.WithFallbacks(x)
    case SetFallbackEnabled(x) => o.WithFallbackEnabled(x)
    case SetHeight(x) => o.WithHeight(x)
    case SetPointHeight(x) => o.WithPointHeight(x)
    case SetKerningFactor(x) => o.WithKerningFactor(x)
    case SetHorizontalScale(x) => o.WithHorizontalScale(x)
    case SetUnderline(x) => o.WithUnderline(x)
    case SetMetricsKind(x) => o.WithMetricsKind(x)
    case SetAscentOverride(x) => o.WithAscentOverride(x)
    case SetDescentOverride(x) => o.WithDescentOverride(x)
    case SetVariations(x) => o.WithVariations(x)
    case SetVariation(t, v) => o.WithVariation(t, v)
  }

  /** o.m1(...).m2(...)...: the calls applied left to right. */
  function ApplyAll(o: FontOptions, ms: seq<Mutation>): FontOptions
    decreases |ms|
  {
    if |ms| == 0 then o else ApplyAll(Apply(o, ms[0]), ms[1..])
  }

  /** The conditions the header's jassert/jassertfalse check in debug
      builds. withName and withStyle assert that no typeface is attached
      (lines 179 and 194). withTypeface with a non-null handle asserts an empty
      name and style (lines 204-205), and its calls to withName and withStyle
      on the current options (line 207) also assert that no typeface is
      attached yet. The height setters assert a positive height (lines 224
      and 232). When the assertions pass, a name, style or typeface call
      takes effect and the handle's name and style are copied in. */
  predicate Asserted(o: FontOptions, m: Mutation)
    ensures Asserted(o, m) && m.SetName? ==> Apply(o, m).name == m.name
    ensures Asserted(o, m) && m.SetStyle? ==> Apply(o, m).style == m.style
    ensures Asserted(o, m) && m.SetTypeface? ==>
      Apply(o, m).typeface == m.typeface && TypefaceConsistent(Apply(o, m))
  {
    match m
    case SetName(_) => o.typeface.None?
    case SetStyle(_) => o.typeface.None?
    case SetTypeface(x) => x.Some? ==> o.typeface.None? && o.name == "" && o.style == ""
    case SetHeight(x) => x > 0.0
    case SetPointHeight(x) => x > 0.0
    case _ => true
  }

  /** A call that keeps the model's invariants: it passes the debug
      assertions and, for withVariations, supplies a list with distinct
      tags. */
  predicate Keeps(o: FontOptions, m: Mutation)
  {
    Asserted(o, m) && (m.SetVariations? ==> DistinctTags(m.variations))
  }

  /** Every call in the chain keeps the invariants at the point it is made. */
  predicate KeepsAll(o: FontOptions, ms: seq<Mutation>)
    decreases |ms|
  {
    |ms| == 0 || (Keeps(o, ms[0]) && KeepsAll(Apply(o, ms[0]), ms[1..]))
  }

  /** One call that keeps the invariants leaves valid options valid. */
  lemma ApplyPreservesValid(o: FontOptions, m: Mutation)
    requires Valid(o) && Keeps(o, m)
    ensures Valid(Apply(o, m))
  {
    if m.SetVariation? {
      UpsertedPreservesDistinct(o.variations, m.tag, m.value);
    }
  }

  /** ... and so does a whole chain of them. */
  lemma {:induction false} ApplyAllPreservesValid(o: FontOptions, ms: seq<Mutation>)
    requires Valid(o) && KeepsAll(o, ms)
    ensures Valid(ApplyAll(o, ms))
    decreases |ms|
  {
    if |ms| > 0 {
      ApplyPreservesValid(o, ms[0]);
      ApplyAllPreservesValid(Apply(o, ms[0]), ms[1..]);
    }
  }

  /** Starting from the member defaults, every such chain is valid. */
  lemma ChainsFromDefaultsAreValid(ms: seq<Mutation>)
    requires KeepsAll(MemberDefaults(), ms)
    ensures Valid(ApplyAll(MemberDefaults(), ms))
  {
    ApplyAllPreservesValid(MemberDefaults(), ms);
  }

  /** The sizing invariant needs no condition at all: no chain of calls
      ever sets both heights. */
  lemma {:induction false} HeightsStayExclusive(o: FontOptions, ms: seq<Mutation>)
    requires AtMostOneHeightSet(o)
    ensures AtMostOneHeightSet(ApplyAll(o, ms))
    decreases |ms|
  {
    if |ms| > 0 {
      HeightsStayExclusive(Apply(o, ms[0]), ms[1..]);
    }
  }

  /** Replacing an attached typeface trips jassertfalse in a debug build,
      because withName and withStyle run on options that still hold the old
      handle. In a release build those calls do nothing, so the options carry
      the new handle but keep their old name and style, and they match the
      new handle only if its name and style happen to be the old ones. */
  lemma ReplacingTypefaceKeepsOldName(o: FontOptions, t: Typeface)
    requires o.typeface.Some?
    ensures var r := Apply(o, SetTypeface(Some(t)));
      && !Asserted(o, SetTypeface(Some(t)))
      && r.typeface == Some(t) && r.name == o.name && r.style == o.style
      && (TypefaceConsistent(r) <==> t.name == o.name && t.style == o.style)
  {
  }
}
