/**
 * The interest picker: fourteen preset chips toggle an interest on or off, a
 * text box adds a custom interest, and the summary row shows each selected
 * interest by its preset label when it has one.
 *
 * The selected list belongs to the parent and reaches the picker as a value;
 * every change the picker makes is reported back as the new list. The picker's
 * own state is the text of the custom-interest box.
 */
module InterestSelector {
  import opened JsString
  import opened Wrappers

  datatype Preset = Preset(caption: string, value: string)

  const PRESETS: seq<Preset> := [
    Preset("\U{1F3DB}\U{FE0F} History", "history"),
    Preset("\U{1F35C} Food & Dining", "food"),
    Preset("\U{1F3A8} Art & Museums", "art"),
    Preset("\U{1F33F} Nature & Parks", "nature"),
    Preset("\U{1F6CD}\U{FE0F} Shopping", "shopping"),
    Preset("\U{1F3AD} Entertainment", "entertainment"),
    Preset("\U{1F3D6}\U{FE0F} Beaches", "beaches"),
    Preset("\U{1F4F8} Photography", "photography"),
    Preset("\U{1F3D4}\U{FE0F} Adventure", "adventure"),
    Preset("\U{1F377} Nightlife", "nightlife"),
    Preset("\U{1F9D8} Wellness", "wellness"),
    Preset("\U{26EA} Architecture", "architecture"),
    Preset("\U{1F6B5} Sports", "sports"),
    Preset("\U{1F3B5} Music & Events", "music")
  ]

  predicate NoDup(s: seq<string>) {
    forall i, j :: 0 <= i < j < |s| ==> s[i] != s[j]
  }

  // ------------------------------------------------------------ toggle

  /** `selected.filter((x) => x !== v)`. */
  function Without(xs: seq<string>, v: string): (r: seq<string>)
    ensures |r| <= |xs|
    ensures forall x :: x in r <==> x in xs && x != v
  {
    if xs == [] then []
    else Without(xs[..|xs| - 1], v) + (if xs[|xs| - 1] == v then [] else [xs[|xs| - 1]])
  }

  /** `toggle(v)`: the list reported when chip `v` (or the summary's remove button) is clicked. */
  function Toggle(selected: seq<string>, v: string): (r: seq<string>)
    ensures v in r <==> v !in selected
    ensures forall x :: x != v ==> (x in r <==> x in selected)
    ensures v !in selected ==> r == selected + [v]
  {
    if v in selected then Without(selected, v) else selected + [v]
  }

  /** Removal keeps the other elements in their order: it works piece by piece. */
  lemma {:induction false} WithoutAppend(a: seq<string>, b: seq<string>, v: string)
    ensures Without(a + b, v) == Without(a, v) + Without(b, v)
    decreases |b|
  {
    if b != [] {
      var b' := b[..|b| - 1];
      assert (a + b)[..|a + b| - 1] == a + b';
      WithoutAppend(a, b', v);
    } else {
      assert a + b == a;
    }
  }

  /** Removing an absent value changes nothing. */
  lemma {:induction false} WithoutAbsent(xs: seq<string>, v: string)
    requires v !in xs
    ensures Without(xs, v) == xs
  {
    if xs != [] {
      WithoutAbsent(xs[..|xs| - 1], v);
      assert xs[..|xs| - 1] + [xs[|xs| - 1]] == xs;
    }
  }

  /** Toggling a present value removes every occurrence of it and keeps the rest in order. */
  lemma ToggleRemoves(selected: seq<string>, v: string, i: nat)
    requires i < |selected| && selected[i] == v
    ensures Toggle(selected, v) == Without(selected[..i], v) + Without(selected[i + 1..], v)
  {
    var a, b := selected[..i], selected[i + 1..];
    assert v in selected;
    assert selected == a + ([v] + b);
    WithoutAppend(a, [v] + b, v);
    WithoutAppend([v], b, v);
    assert Without([v], v) == [] by { assert [v][..0] == []; }
    assert Without([v] + b, v) == Without(b, v);
  }

  /** Toggling an absent value twice gives back the original list. */
  lemma ToggleTwiceAbsent(selected: seq<string>, v: string)
    requires v !in selected
    ensures Toggle(Toggle(selected, v), v) == selected
  {
    WithoutAppend(selected, [v], v);
    WithoutAbsent(selected, v);
    assert Without([v], v) == [] by { assert [v][..0] == []; }
  }

  /** Removal keeps a duplicate-free list duplicate-free. */
  lemma {:induction false} WithoutKeepsNoDup(xs: seq<string>, v: string)
    requires NoDup(xs)
    ensures NoDup(Without(xs, v))
  {
    if xs != [] {
      var p := xs[..|xs| - 1];
      var last := xs[|xs| - 1];
      assert NoDup(p);
      WithoutKeepsNoDup(p, v);
      assert last !in p;
    }
  }

  /** Toggling keeps a duplicate-free list duplicate-free. */
  lemma ToggleKeepsNoDup(selected: seq<string>, v: string)
    requires NoDup(selected)
    ensures NoDup(Toggle(selected, v))
  {
    if v in selected {
      WithoutKeepsNoDup(selected, v);
    }
  }

  // ------------------------------------------------------------ custom interest

  /** `addCustom`'s decision: the list it reports, or `None` when it reports nothing
      (the trimmed text is empty or already selected). */
  function CustomAddition(selected: seq<string>, custom: string): (r: Option<seq<string>>)
    ensures r.Some? <==> !AllSpace(custom) && Trim(custom) !in selected
    ensures r.Some? ==> r.value == selected + [Trim(custom)]
    ensures r.Some? ==> var v := r.value[|selected|];
                        v != [] && !IsSpace(v[0]) && !IsSpace(v[|v| - 1])
  {
    var v := Trim(custom);
    if v != [] && v !in selected then Some(selected + [v]) else None
  }

  /** A custom interest is added at most once: the same text a second time reports nothing. */
  lemma CustomAdditionOnce(selected: seq<string>, custom: string)
    requires CustomAddition(selected, custom).Some?
    ensures CustomAddition(CustomAddition(selected, custom).value, custom).None?
  {
    var r := CustomAddition(selected, custom).value;
    assert r[|selected|] == Trim(custom);
  }

  /** Adding a custom interest keeps a duplicate-free list duplicate-free. */
  lemma CustomAdditionKeepsNoDup(selected: seq<string>, custom: string)
    requires NoDup(selected)
    requires CustomAddition(selected, custom).Some?
    ensures NoDup(CustomAddition(selected, custom).value)
  {
    var r := CustomAddition(selected, custom).value;
    forall i, j | 0 <= i < j < |r| ensures r[i] != r[j] {
      if j == |selected| {
        assert r[i] == selected[i];
      } else {
        assert r[i] == selected[i] && r[j] == selected[j];
      }
    }
  }

  /** The picker's own state: the text of the custom-interest box. */
  class Picker {
    var custom: string

    constructor ()
      ensures custom == ""
    {
      custom := "";
    }

    /** Typing in the box replaces its text. */
    method SetCustom(text: string)
      modifies this
      ensures custom == text
    {
      custom := text;
    }

    /** The Add button is disabled while the box holds only whitespace: exactly when pressing
        it could never report a list, whatever is selected. */
    predicate AddDisabled(): (d: bool)
      reads this
      ensures d <==> AllSpace(custom)
      ensures d ==> forall selected :: CustomAddition(selected, custom).None?
      ensures !d ==> CustomAddition([], custom).Some?
    {
      Trim(custom) == []
    }

    /** `addCustom`: reports the grown list and empties the box, or does nothing at all. */
    method AddCustom(selected: seq<string>) returns (reported: Option<seq<string>>)
      modifies this
      ensures reported == CustomAddition(selected, old(custom))
      ensures custom == if reported.Some? then "" else old(custom)
    {
      var v := Trim(custom);
      if v != [] && v !in selected {
        reported := Some(selected + [v]);
        custom := "";
      } else {
        reported := None;
      }
    }
  }

  // ------------------------------------------------------------ summary labels

  /** `PRESETS.find((p) => p.value === v)`: the first preset with that value. */
  function FindPreset(presets: seq<Preset>, v: string): (r: Option<Preset>)
    ensures r.Some? ==> exists i :: 0 <= i < |presets| && presets[i] == r.value && r.value.value == v
                                   && forall j :: 0 <= j < i ==> presets[j].value != v
    ensures r.None? <==> forall i :: 0 <= i < |presets| ==> presets[i].value != v
  {
    if presets == [] then None
    else if presets[0].value == v then Some(presets[0])
    else
      var r := FindPreset(presets[1..], v);
      assert r.Some? ==> exists i :: 0 <= i < |presets[1..]| && presets[1..][i] == r.value && r.value.value == v
                                     && forall j :: 0 <= j < i ==> presets[1..][j].value != v;
      assert r.Some? ==> exists i :: 0 <= i < |presets| && presets[i] == r.value && r.value.value == v
                                     && forall j :: 0 <= j < i ==> presets[j].value != v by {
        if r.Some? {
          var i :| 0 <= i < |presets[1..]| && presets[1..][i] == r.value && r.value.value == v
                   && forall j :: 0 <= j < i ==> presets[1..][j].value != v;
          assert presets[i + 1] == r.value;
          forall j | 0 <= j < i + 1 ensures presets[j].value != v {
            if j > 0 { assert presets[j] == presets[1..][j - 1]; }
          }
        }
      }
      r
  }

  /** The summary chip's text for a selected value. */
  function SummaryLabel(v: string): string {
    match FindPreset(PRESETS, v)
    case Some(p) => p.caption
    case None => v
  }

  /** No two presets share a value. */
  lemma PresetValuesDistinct()
    ensures forall i, j :: 0 <= i < j < |PRESETS| ==> PRESETS[i].value != PRESETS[j].value
  {
  }

  /** A preset value is shown by its preset's label; any other value is shown as it is. */
  lemma SummaryLabelIs(v: string)
    ensures forall i :: 0 <= i < |PRESETS| && PRESETS[i].value == v ==> SummaryLabel(v) == PRESETS[i].caption
    ensures (forall i :: 0 <= i < |PRESETS| ==> PRESETS[i].value != v) ==> SummaryLabel(v) == v
  {
    PresetValuesDistinct();
  }

  /** The labels of the summary row, one per selected value, in order. */
  function Summary(selected: seq<string>): (r: seq<string>)
    ensures |r| == |selected|
    ensures forall i :: 0 <= i < |r| ==> r[i] == SummaryLabel(selected[i])
  {
    seq(|selected|, i requires 0 <= i < |selected| => SummaryLabel(selected[i]))
  }

  /** Helper for `CustomLabel`: no preset value has the length of `street art`. */
  lemma NoTenLetterPreset()
    ensures forall i :: 0 <= i < |PRESETS| ==> |PRESETS[i].value| != 10
  {
  }

  /** The `food` preset is shown by its label. */
  lemma FoodLabel()
    ensures SummaryLabel("food") == "\U{1F35C} Food & Dining"
  {
    SummaryLabelIs("food");
    assert PRESETS[1].value == "food";
  }

  /** A custom interest is shown as typed. */
  lemma CustomLabel()
    ensures SummaryLabel("street art") == "street art"
  {
    NoTenLetterPreset();
    SummaryLabelIs("street art");
  }
}
