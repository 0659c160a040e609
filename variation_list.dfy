/** The list of axis settings held by FontOptions (std::vector<FontVariation>)
    and the find-then-update-or-append step of FontOptions::withVariation. */
module VariationList {
  import opened FontVariations

  /** True when some entry of vars has the given tag. */
  predicate HasTag(vars: seq<FontVariation>, tag: Tag)
  {
    exists j :: 0 <= j < |vars| && vars[j].tag == tag
  }

  /** The model's invariant on the list: at most one entry per axis tag, as
      withVariation replaces an existing setting rather than adding a second
      one (header lines 265-266). */
  predicate DistinctTags(vars: seq<FontVariation>)
  {
    forall i, j :: 0 <= i < j < |vars| ==> vars[i].tag != vars[j].tag
  }

  /** std::find_if with the predicate `v.tag == tag`: the index of the first
      entry with that tag, or |vars| (the end iterator) when there is none. */
  function FindTag(vars: seq<FontVariation>, tag: Tag): (i: nat)
    ensures i <= |vars|
    ensures forall j :: 0 <= j < i ==> vars[j].tag != tag
    ensures i < |vars| ==> vars[i].tag == tag
    ensures i == |vars| <==> !HasTag(vars, tag)
  {
    if |vars| == 0 then 0
    else if TagEquals(vars[0].tag, tag) then 0
    else 1 + FindTag(vars[1..], tag)
  }

  /** The list withVariation produces, read entry by entry: the first entry
      with the tag gets the new value, and a missing tag is added at the end. */
  function Upserted(vars: seq<FontVariation>, tag: Tag, value: real): (r: seq<FontVariation>)
    ensures |r| == if HasTag(vars, tag) then |vars| else |vars| + 1
    ensures forall j :: 0 <= j < |r| ==> r[j].tag == if j < |vars| then vars[j].tag else tag
  {
    if |vars| == 0 then [FontVariation(tag, value)]
    else if TagEquals(vars[0].tag, tag) then [vars[0].(value := value)] + vars[1..]
    else [vars[0]] + Upserted(vars[1..], tag, value)
  }

  /** Update case: when entry i is the first with the tag, its value is
      replaced, the length stays, and every other entry is as it was. */
  lemma {:induction false} UpsertedUpdatesFirstMatch(vars: seq<FontVariation>, tag: Tag, value: real, i: nat)
    requires i < |vars| && vars[i].tag == tag
    requires forall j :: 0 <= j < i ==> vars[j].tag != tag
    ensures |Upserted(vars, tag, value)| == |vars|
    ensures Upserted(vars, tag, value)[i] == FontVariation(tag, value)
    ensures forall j :: 0 <= j < |vars| && j != i ==> Upserted(vars, tag, value)[j] == vars[j]
  {
    if i > 0 {
      assert vars[0].tag != tag;
      UpsertedUpdatesFirstMatch(vars[1..], tag, value, i - 1);
    }
  }

  /** Append case: when no entry has the tag, (tag, value) is added at the
      end and the existing entries are a prefix of the result. */
  lemma {:induction false} UpsertedAppendsWhenAbsent(vars: seq<FontVariation>, tag: Tag, value: real)
    requires !HasTag(vars, tag)
    ensures Upserted(vars, tag, value) == vars + [FontVariation(tag, value)]
  {
    if |vars| > 0 {
      assert vars[0].tag != tag;
      assert !HasTag(vars[1..], tag) by {
        forall j | 0 <= j < |vars[1..]| ensures vars[1..][j].tag != tag {
          assert vars[1..][j] == vars[j + 1];
        }
      }
      UpsertedAppendsWhenAbsent(vars[1..], tag, value);
      assert vars == [vars[0]] + vars[1..];
    }
  }

  /** Both cases at once, in terms of the find_if position. */
  lemma UpsertedByFind(vars: seq<FontVariation>, tag: Tag, value: real)
    ensures var i := FindTag(vars, tag);
      Upserted(vars, tag, value) ==
        if i < |vars| then vars[i := FontVariation(tag, value)]
        else vars + [FontVariation(tag, value)]
  {
    var i := FindTag(vars, tag);
    if i < |vars| {
      UpsertedUpdatesFirstMatch(vars, tag, value, i);
    } else {
      UpsertedAppendsWhenAbsent(vars, tag, value);
    }
  }

  /** After the upsert the tag is present, and the set of tags grows by at
      most that one tag. */
  lemma UpsertedTags(vars: seq<FontVariation>, tag: Tag, value: real)
    ensures HasTag(Upserted(vars, tag, value), tag)
    ensures forall t :: HasTag(Upserted(vars, tag, value), t) <==> (HasTag(vars, t) || t == tag)
  {
    var r := Upserted(vars, tag, value);
    var i := FindTag(vars, tag);
    UpsertedByFind(vars, tag, value);
    if i < |vars| {
      assert r[i].tag == tag;
      forall t ensures HasTag(r, t) <==> (HasTag(vars, t) || t == tag) {
        if HasTag(r, t) {
          var j :| 0 <= j < |r| && r[j].tag == t;
          assert vars[j].tag == t;
        }
        if HasTag(vars, t) {
          var j :| 0 <= j < |vars| && vars[j].tag == t;
          assert r[j].tag == t;
        }
      }
    } else {
      assert r[|vars|].tag == tag;
      forall t ensures HasTag(r, t) <==> (HasTag(vars, t) || t == tag) {
        if HasTag(r, t) {
          var j :| 0 <= j < |r| && r[j].tag == t;
          if j < |vars| { assert vars[j].tag == t; }
        }
        if HasTag(vars, t) {
          var j :| 0 <= j < |vars| && vars[j].tag == t;
          assert r[j].tag == t;
        }
      }
    }
  }

  /** The upsert keeps the "one entry per tag" invariant. */
  lemma UpsertedPreservesDistinct(vars: seq<FontVariation>, tag: Tag, value: real)
    requires DistinctTags(vars)
    ensures DistinctTags(Upserted(vars, tag, value))
  {
    var r := Upserted(vars, tag, value);
    var i := FindTag(vars, tag);
    UpsertedByFind(vars, tag, value);
    if i < |vars| {
      assert forall j :: 0 <= j < |r| ==> r[j].tag == vars[j].tag;
    } else {
      forall a, b | 0 <= a < b < |r| ensures r[a].tag != r[b].tag {
        if b == |vars| {
          assert r[a] == vars[a];
        }
      }
    }
  }

  /** Once the list is distinct, the upserted tag occurs exactly once in the
      result and carries the new value. */
  lemma {:induction false} UpsertedLookup(vars: seq<FontVariation>, tag: Tag, value: real)
    requires DistinctTags(vars)
    ensures var r := Upserted(vars, tag, value);
      forall j :: 0 <= j < |r| && r[j].tag == tag ==> r[j] == FontVariation(tag, value)
  {
    UpsertedByFind(vars, tag, value);
  }

  /** Setting the same axis twice, first to v1 then to v2, is the same as
      setting it once to v2: the second call finds the entry the first one
      wrote, at the same position. */
  lemma {:induction false} UpsertedTwice(vars: seq<FontVariation>, tag: Tag, v1: real, v2: real)
    ensures Upserted(Upserted(vars, tag, v1), tag, v2) == Upserted(vars, tag, v2)
  {
    if |vars| > 0 && !TagEquals(vars[0].tag, tag) {
      UpsertedTwice(vars[1..], tag, v1, v2);
    }
  }
}
