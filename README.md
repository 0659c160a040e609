# FontOptions: a Dafny model

This project models JUCE's `FontOptions` value type and its two small helper
types from `juce_FontOptions.h`.

- `FontVariation::Tag` is the 32-bit identifier of a variable-font axis.
- `FontVariation` is one axis setting: a tag and a value.
- `FontOptions` is an immutable record of fourteen settings. Each `with*` member
  returns a copy with one setting replaced. The getters read the fields back.

Everything in the header is a value computation, so the model is made of
datatypes and functions:

- `optional.dfy` holds `Option`. It stands for both `std::optional<float>` and
  the nullable `Typeface::Ptr`.
- `font_variation.dfy` holds `Tag`, `FontVariation` and their comparison
  operators. It also models the `int32` constructor, whose `static_cast` wraps
  a negative value to its two's-complement bit pattern.
- `variation_list.dfy` holds the axis-setting list. It models `std::find_if`
  (`FindTag`) and the update-or-append step of `withVariation` (`Upserted`),
  with lemmas for both of its cases.
- `font_options.dfy` holds the `FontOptions` datatype and one member function
  per `with*` mutator.
  - The plain getters (`getName`, `getHeight`, …) are the datatype's field
    destructors.
  - The two override getters, which turn the `-1` sentinel into an empty
    optional, are functions.
  - The predicate `AgreeExcept(a, b, fields)` says that `b` differs from `a`
    only in the listed fields. Every mutator's contract uses it to state what
    stays unchanged.
  - `withVariation` is written twice. `WithVariation` is a function over
    `Upserted`. `WithVariationBySearch` is a method that does what the source
    does: copy, search with a loop, then write in place or append. It is
    proved equal to the function.
- `font_options_chains.dfy` models chains of `with*` calls made on a value,
  and the header's debug assertions as the predicate `Asserted`. It proves
  that the model's invariants hold along every chain whose calls pass those
  assertions and, for `withVariations`, supply a list with distinct tags:
  - at most one of the two heights is set (header lines 219-220 and 228);
  - no tag appears twice in the variation list, since `withVariation`
    replaces an existing setting (lines 265-266);
  - an attached typeface's name and style are the options' name and style,
    since the typeface takes precedence and its name and style are copied in
    (lines 198-207).

Replacing one attached typeface with another breaks the last invariant.
`withTypeface` calls `withName` and `withStyle` on the current options
(line 207), which still hold the old handle. In a debug build those calls
reach `jassertfalse` (lines 179 and 194). In a release build they return the
options unchanged, so the result carries the new handle but the old name and
style. The lemma `FontOptionsChains.ReplacingTypefaceKeepsOldName` shows both.

## Model

| member | source | states |
|---|---|---|
| `Optional.Option.ValueOr` | modules/juce_graphics/fonts/juce_FontOptions.h:250 | `value_or`: the held value when present, the fallback otherwise |
| `FontVariations.TagEquals` | modules/juce_graphics/fonts/juce_FontOptions.h:75 | Tag equality holds exactly when the two tags are the same value |
| `FontVariations.TagNotEquals` | modules/juce_graphics/fonts/juce_FontOptions.h:78 | Tag inequality is the negation of Tag equality |
| `FontVariations.TagLess` | modules/juce_graphics/fonts/juce_FontOptions.h:81 | a tag is never less than itself |
| `FontVariations.DefaultTag` | modules/juce_graphics/fonts/juce_FontOptions.h:53-54 | the default Tag (value initialised to 0, line 72) is the least tag: no tag is below it and every other tag is above it |
| `FontVariations.TagLessIsStrictTotal` | modules/juce_graphics/fonts/juce_FontOptions.h:80-81 | Tag `<` is irreflexive and transitive, and orders any two distinct tags |
| `FontVariations.FromInt32` | modules/juce_graphics/fonts/juce_FontOptions.h:95-96 | the int32 constructor keeps the value, and the stored tag is congruent to the int32 modulo 2^32 |
| `FontVariations.FromInt32Injective` | modules/juce_graphics/fonts/juce_FontOptions.h:95-96 | distinct int32 tags give distinct Tags, and non-negative ones are kept unchanged |
| `FontVariations.Equals` | modules/juce_graphics/fonts/juce_FontOptions.h:99-102 | FontVariation `==` holds exactly when tag and value are both equal |
| `FontVariations.NotEquals` | modules/juce_graphics/fonts/juce_FontOptions.h:105-108 | FontVariation `!=` holds exactly when the two variations differ |
| `FontVariations.Less` | modules/juce_graphics/fonts/juce_FontOptions.h:110-114 | the `std::tie` comparison is the lexicographic order: tag first, then value |
| `FontVariations.LessIsStrictTotal` | modules/juce_graphics/fonts/juce_FontOptions.h:110-114 | FontVariation `<` is irreflexive, asymmetric and transitive, and orders any two distinct values |
| `VariationList.FindTag` | modules/juce_graphics/fonts/juce_FontOptions.h:275 | `find_if`: the first index whose tag matches, or the end exactly when no entry has the tag |
| `VariationList.Upserted` | modules/juce_graphics/fonts/juce_FontOptions.h:273-281 | the length stays when the tag is present and grows by one when it is absent; every existing position keeps its tag and a new last entry carries the tag |
| `VariationList.UpsertedUpdatesFirstMatch` | modules/juce_graphics/fonts/juce_FontOptions.h:276-277 | if the tag is present, the first match gets the new value, the length is unchanged and every other entry is unchanged |
| `VariationList.UpsertedAppendsWhenAbsent` | modules/juce_graphics/fonts/juce_FontOptions.h:278-279 | if the tag is absent, `(tag, value)` is appended after the unchanged existing entries |
| `VariationList.UpsertedByFind` | modules/juce_graphics/fonts/juce_FontOptions.h:273-281 | the entry-by-entry upsert equals "update at the find_if position, or push_back" |
| `VariationList.UpsertedTags` | modules/juce_graphics/fonts/juce_FontOptions.h:265-282 | afterwards the tag is present, and the set of tags grows by that tag only |
| `VariationList.UpsertedPreservesDistinct` | modules/juce_graphics/fonts/juce_FontOptions.h:265-282 | if all tags were distinct, they are still distinct after the upsert |
| `VariationList.UpsertedLookup` | modules/juce_graphics/fonts/juce_FontOptions.h:265-270 | on a distinct list, every entry with the tag afterwards is `(tag, value)`: the variation is replaced, not duplicated |
| `VariationList.UpsertedTwice` | modules/juce_graphics/fonts/juce_FontOptions.h:265-270 | upserting v1 then v2 for one tag equals upserting v2 once |
| `FontOptionsModel.FontOptions.WithName` | modules/juce_graphics/fonts/juce_FontOptions.h:168-181 | with no typeface, sets the name and nothing else; with a typeface, returns the options unchanged |
| `FontOptionsModel.FontOptions.WithStyle` | modules/juce_graphics/fonts/juce_FontOptions.h:183-196 | with no typeface, sets the style and nothing else; with a typeface, returns the options unchanged |
| `FontOptionsModel.FontOptions.WithTypeface` | modules/juce_graphics/fonts/juce_FontOptions.h:198-209 | always sets the typeface; copies the handle's name/style only when the handle is non-null and none was attached; otherwise changes nothing else |
| `FontOptionsModel.FontOptions.WithFallbacks` | modules/juce_graphics/fonts/juce_FontOptions.h:212 | sets the fallbacks; every other field is unchanged |
| `FontOptionsModel.FontOptions.WithFallbackEnabled` | modules/juce_graphics/fonts/juce_FontOptions.h:214-215 | sets the fallback flag (true when no argument is given); every other field is unchanged |
| `FontOptionsModel.FontOptions.WithHeight` | modules/juce_graphics/fonts/juce_FontOptions.h:217-224 | height becomes x and point height becomes -1; nothing else changes; at most one height is set |
| `FontOptionsModel.FontOptions.WithPointHeight` | modules/juce_graphics/fonts/juce_FontOptions.h:226-232 | point height becomes x and height becomes -1; nothing else changes; at most one height is set |
| `FontOptionsModel.FontOptions.WithKerningFactor` | modules/juce_graphics/fonts/juce_FontOptions.h:235 | sets the tracking factor; every other field is unchanged |
| `FontOptionsModel.FontOptions.WithHorizontalScale` | modules/juce_graphics/fonts/juce_FontOptions.h:238 | sets the horizontal scale; every other field is unchanged |
| `FontOptionsModel.FontOptions.WithUnderline` | modules/juce_graphics/fonts/juce_FontOptions.h:240-241 | sets the underline flag (true when no argument is given); every other field is unchanged |
| `FontOptionsModel.FontOptions.WithMetricsKind` | modules/juce_graphics/fonts/juce_FontOptions.h:244 | sets the metrics kind; every other field is unchanged |
| `FontOptionsModel.FontOptions.WithAscentOverride` | modules/juce_graphics/fonts/juce_FontOptions.h:246-250 | round trip: the getter returns `Some v` for `Some v` with v >= 0, and `None` for `None` or a negative v; nothing else changes |
| `FontOptionsModel.FontOptions.WithDescentOverride` | modules/juce_graphics/fonts/juce_FontOptions.h:252-256 | the same round trip for the descent override; nothing else changes |
| `FontOptionsModel.FontOptions.WithVariations` | modules/juce_graphics/fonts/juce_FontOptions.h:258-263 | replaces the variation list; every other field is unchanged |
| `FontOptionsModel.FontOptions.WithVariation` | modules/juce_graphics/fonts/juce_FontOptions.h:265-282 | only the list changes: the first entry with the tag is updated in place, or `(tag, value)` is appended when there is none |
| `FontOptionsModel.FontOptions.GetAscentOverride` | modules/juce_graphics/fonts/juce_FontOptions.h:307 | present exactly when the stored ascent is non-negative, and then equal to it |
| `FontOptionsModel.FontOptions.GetDescentOverride` | modules/juce_graphics/fonts/juce_FontOptions.h:309 | present exactly when the stored descent is non-negative, and then equal to it |
| `FontOptionsModel.MemberDefaults` | modules/juce_graphics/fonts/juce_FontOptions.h:329-341 | the member initialisers: both heights -1, scale 1, tracking 0, fallback on, no underline, portable metrics, empty name and style, no typeface, empty fallbacks and variations, neither override read back, and the model's invariants hold |
| `FontOptionsModel.AgreeOnAllFieldsIsEqual` | modules/juce_graphics/fonts/juce_FontOptions.h:329-341 | the field list covers the whole record, so agreeing on every field means equal options |
| `FontOptionsModel.WithTypefaceThenWithName` | modules/juce_graphics/fonts/juce_FontOptions.h:172-209 | after attaching a typeface, a later withName/withStyle leaves the handle's name/style in place |
| `FontOptionsModel.HeightSettersOverride` | modules/juce_graphics/fonts/juce_FontOptions.h:217-232 | whichever height setter runs last decides the result, for either order |
| `FontOptionsModel.WithVariationProperties` | modules/juce_graphics/fonts/juce_FontOptions.h:265-282 | on the options: distinct tags are preserved, the tag then holds the new value, and setting it twice equals setting it once with the later value |
| `FontOptionsModel.WithVariationBySearch` | modules/juce_graphics/fonts/juce_FontOptions.h:271-282 | the copy, find_if loop, in-place write or push_back gives exactly `WithVariation` |
| `FontOptionsChains.ApplyPreservesValid` | modules/juce_graphics/fonts/juce_FontOptions.h:172-282 | a single with* call that passes the debug assertions, and gives withVariations distinct tags, keeps the options valid |
| `FontOptionsChains.ApplyAllPreservesValid` | modules/juce_graphics/fonts/juce_FontOptions.h:172-282 | the same holds for a whole chain of such calls |
| `FontOptionsChains.ChainsFromDefaultsAreValid` | modules/juce_graphics/fonts/juce_FontOptions.h:329-341 | every such chain that starts from the member defaults yields valid options |
| `FontOptionsChains.HeightsStayExclusive` | modules/juce_graphics/fonts/juce_FontOptions.h:217-232 | no chain of with* calls ever sets both the height and the point height |
| `FontOptionsChains.Asserted` | modules/juce_graphics/fonts/juce_FontOptions.h:172-232 | the debug assertions at lines 179, 194, 204-205, 224 and 232, including the nested ones reached from line 207; when they pass, a name, style or typeface call takes effect and the name and style match the attached handle |
| `FontOptionsChains.ReplacingTypefaceKeepsOldName` | modules/juce_graphics/fonts/juce_FontOptions.h:172-209 | for any options with a typeface attached and any new typeface: the call fails the debug assertions; in a release build it attaches the new handle, keeps the old name and style, and leaves the options consistent only if the new handle has that same name and style |

## Left out

- `Tag` string constructors and `Tag::toString` (lines 60-69): they are only declared here, and their encoding rules are in a source file that is not part of this model.
- The `FontOptions` comparison operators and `tie()` (lines 313-327): they are only declared, and the field order they compare in is not in the header.
- The `FontOptions` constructors (lines 129-166): their bodies are defined outside the header. `MemberDefaults` holds only the in-class member initialisers (lines 329-341). The default constructor may override these, and the model does not capture that.
- `Typeface::Ptr` reference counting and lifetime: a handle is an immutable optional value carrying a name and a style, so two handles with equal name and style count as the same handle.
- `float` semantics: values are `real`, so there is no NaN (which would break `==` and `<` on `FontVariation`), no rounding and no signed zero.
- `jassert`/`jassertfalse`: these are debug-only, so the mutators do not require them. `FontOptionsChains.Asserted` records them as a predicate, and the chain lemmas use it.
- Style flags and the meaning of `TypefaceMetricsKind`: both are passed through unchanged. The metrics kind is an opaque enumeration whose only named value is `Portable`.
- `TagLess`: its contract only states irreflexivity. The full strict-total-order statement is the lemma `TagLessIsStrictTotal`.
