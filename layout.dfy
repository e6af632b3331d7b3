/** The layout controls as values: the four standard toggles, the custom
    toggle and the language select, the string `getActiveLayouts` reads off
    them, and the three transitions that change them (`updateLayouts`, a
    click on a standard toggle, a change of the select). */
module Layout {
  import opened Wrappers
  import opened Text
  import opened Catalog

  /** The separator inside the layouts string. */
  const Comma := ","

  /** `off[k]` is whether the toggle of standard pane `k + 1` (html, css, js,
      preview, in document order) carries the `off` class; `customOff` is the
      same for the custom toggle; `select` is the value of the language select. */
  datatype Toggles = Toggles(off: seq<bool>, customOff: bool, select: string)

  /** Four standard toggles, and a select that holds one of its options or,
      after an assignment that matched no option, none (value ""). */
  predicate WellFormed(t: Toggles) {
    |t.off| == 4 && (t.select == "" || IsOptionValue(t.select))
  }

  /** Moreover an active custom toggle names a catalog entry. */
  predicate Settled(t: Toggles) {
    WellFormed(t) && (!t.customOff ==> IsCatalogValue(t.select))
  }

  predicate AllOn(off: seq<bool>) {
    forall k :: 0 <= k < |off| ==> !off[k]
  }

  /** The controls as the page's markup creates them: no toggle is off and the
      select shows its placeholder option. */
  const Initial := Toggles([false, false, false, false], false, "-1")

  /** The ids of the standard panes among the first `n` whose toggles are on, in document order. */
  function OnIdsTo(off: seq<bool>, n: nat): (ids: seq<nat>)
    requires n <= |off|
    ensures |ids| <= n
  {
    if n == 0 then [] else OnIdsTo(off, n - 1) + (if off[n - 1] then [] else [n])
  }

  /** They are exactly the ids of the panes that are on, and strictly increasing. */
  lemma {:induction false} OnIdsToFacts(off: seq<bool>, n: nat)
    requires n <= |off|
    ensures var ids := OnIdsTo(off, n);
      && (forall k :: 0 <= k < |ids| ==> 1 <= ids[k] <= n && !off[ids[k] - 1])
      && (forall k :: 0 <= k < n ==> (!off[k] <==> k + 1 in ids))
      && (forall j, k :: 0 <= j < k < |ids| ==> ids[j] < ids[k])
  {
    OnIdsToBounds(off, n);
    OnIdsToMember(off, n);
    OnIdsToSorted(off, n);
  }

  lemma {:induction false} OnIdsToBounds(off: seq<bool>, n: nat)
    requires n <= |off|
    ensures forall k :: 0 <= k < |OnIdsTo(off, n)| ==> 1 <= OnIdsTo(off, n)[k] <= n && !off[OnIdsTo(off, n)[k] - 1]
  {
    if n > 0 {
      var prev := OnIdsTo(off, n - 1);
      var ids := OnIdsTo(off, n);
      assert ids == prev + if off[n - 1] then [] else [n];
      OnIdsToBounds(off, n - 1);
      forall k | 0 <= k < |ids| ensures 1 <= ids[k] <= n && !off[ids[k] - 1] {
        if k < |prev| {
          assert ids[k] == prev[k];
        } else {
          assert ids[k] == n;
        }
      }
    }
  }

  lemma {:induction false} OnIdsToMember(off: seq<bool>, n: nat)
    requires n <= |off|
    ensures var ids := OnIdsTo(off, n);
      forall k :: 0 <= k < n ==> (!off[k] <==> k + 1 in ids)
  {
    if n > 0 {
      var prev := OnIdsTo(off, n - 1);
      var ids := OnIdsTo(off, n);
      var last := if off[n - 1] then [] else [n];
      assert ids == prev + last;
      OnIdsToMember(off, n - 1);
      OnIdsToBounds(off, n - 1);
      forall k | 0 <= k < n ensures !off[k] <==> k + 1 in ids {
        assert k + 1 in ids <==> k + 1 in prev || k + 1 in last;
        if k == n - 1 {
          assert forall j :: 0 <= j < |prev| ==> prev[j] <= n - 1;
        } else {
          assert k + 1 !in last;
        }
      }
    }
  }

  lemma {:induction false} OnIdsToSorted(off: seq<bool>, n: nat)
    requires n <= |off|
    ensures forall j, k :: 0 <= j < k < |OnIdsTo(off, n)| ==> OnIdsTo(off, n)[j] < OnIdsTo(off, n)[k]
  {
    if n > 0 {
      var prev := OnIdsTo(off, n - 1);
      var ids := OnIdsTo(off, n);
      assert ids == prev + if off[n - 1] then [] else [n];
      OnIdsToSorted(off, n - 1);
      OnIdsToBounds(off, n - 1);
      forall j, k | 0 <= j < k < |ids| ensures ids[j] < ids[k] {
        assert ids[j] == prev[j];
        if k < |prev| {
          assert ids[k] == prev[k];
        } else {
          assert ids[k] == n;
        }
      }
    }
  }

  /** The ids of the standard panes whose toggles are on, in document order. */
  function OnIds(off: seq<bool>): seq<nat> {
    OnIdsTo(off, |off|)
  }

  /** `id.toString()` for each id. The ensures spells the comprehension out
      element by element, so that callers need not unfold it. */
  function IdStrings(ids: seq<nat>): (r: seq<string>)
    ensures |r| == |ids| && forall k :: 0 <= k < |ids| ==> r[k] == DecimalString(ids[k])
  {
    seq(|ids|, k requires 0 <= k < |ids| => DecimalString(ids[k]))
  }

  /** The ids of the standard panes that are on, joined by commas. */
  function StandardLayouts(off: seq<bool>): string {
    Join(IdStrings(OnIds(off)), Comma)
  }

  /** `getActiveLayouts`: the select's value while the custom toggle is on,
      otherwise the standard ids that are on. */
  function ActiveLayouts(t: Toggles): string {
    if !t.customOff then t.select else StandardLayouts(t.off)
  }

  /** `getActiveLayouts().split(',')`, the list every consumer works from. */
  function Actives(t: Toggles): seq<string> {
    Split(ActiveLayouts(t), Comma)
  }

  // ---------------------------------------------------------------------------
  // the loop of getActiveLayouts

  /** What the loop of `getActiveLayouts` has accumulated: every id followed by a comma. */
  function Terminated(ids: seq<nat>): string
    decreases |ids|
  {
    if |ids| == 0 then "" else Terminated(ids[..|ids| - 1]) + DecimalString(ids[|ids| - 1]) + Comma
  }

  /** `s.slice(0, -1)`: all but the last character, and "" for "". */
  function DropLast(s: string): string {
    if |s| == 0 then "" else s[..|s| - 1]
  }

  lemma {:induction false} TerminatedEnds(ids: seq<nat>)
    requires |ids| > 0
    ensures Terminated(ids) == DropLast(Terminated(ids)) + Comma
  {
    var p := Terminated(ids[..|ids| - 1]) + DecimalString(ids[|ids| - 1]);
    assert Terminated(ids) == p + Comma;
  }

  /** Cutting the last comma off the accumulator leaves the ids joined by commas. */
  lemma {:induction false} DropLastTerminated(ids: seq<nat>)
    ensures DropLast(Terminated(ids)) == Join(IdStrings(ids), Comma)
    decreases |ids|
  {
    if |ids| > 0 {
      var init := ids[..|ids| - 1];
      var last := DecimalString(ids[|ids| - 1]);
      assert Terminated(ids) == Terminated(init) + last + Comma;
      assert DropLast(Terminated(ids)) == Terminated(init) + last;
      assert IdStrings(ids) == IdStrings(init) + [last];
      if |init| == 0 {
        assert IdStrings(ids) == [last];
      } else {
        DropLastTerminated(init);
        TerminatedEnds(init);
        JoinSnoc(IdStrings(init), last, Comma);
      }
    }
  }

  // ---------------------------------------------------------------------------
  // what the layouts string denotes

  lemma DigitsNoComma(s: string)
    requires AllDigits(s)
    ensures ',' !in s
  {
    forall i | 0 <= i < |s| ensures s[i] != ',' {
      assert IsDigit(s[i]);
    }
  }

  lemma OptionNoComma(v: string)
    requires v == "" || IsOptionValue(v)
    ensures ',' !in v
  {
    if IsCatalogValue(v) {
      var id := CatalogValueNumber(v);
      DigitsNoComma(v);
    }
  }

  lemma {:induction false} IdStringsMember(ids: seq<nat>, id: nat)
    ensures DecimalString(id) in IdStrings(ids) <==> id in ids
  {
    if DecimalString(id) in IdStrings(ids) {
      var k :| 0 <= k < |ids| && IdStrings(ids)[k] == DecimalString(id);
      DecimalInjective(ids[k], id);
    }
    if id in ids {
      var k :| 0 <= k < |ids| && ids[k] == id;
      assert IdStrings(ids)[k] == DecimalString(id);
    }
  }

  /** No pane is on exactly when every toggle is off. */
  lemma NoneOn(off: seq<bool>)
    ensures OnIds(off) == [] <==> AllOff(off)
  {
    OnIdsToEmpty(off, |off|);
  }

  lemma {:induction false} OnIdsToEmpty(off: seq<bool>, n: nat)
    requires n <= |off|
    ensures OnIdsTo(off, n) == [] <==> forall k :: 0 <= k < n ==> off[k]
  {
    if n > 0 {
      OnIdsToEmpty(off, n - 1);
    }
  }

  /** With the custom toggle off, the layouts string is "" exactly when every
      standard toggle is off; otherwise splitting it gives back one piece per
      pane that is on. */
  lemma StandardSplit(off: seq<bool>)
    ensures StandardLayouts(off) == "" <==> AllOff(off)
    ensures Split(StandardLayouts(off), Comma) == if AllOff(off) then [""] else IdStrings(OnIds(off))
  {
    NoneOn(off);
    var parts := IdStrings(OnIds(off));
    if |parts| == 0 {
      assert Split("", Comma) == [""];
    } else {
      assert |Join(parts, Comma)| >= |parts[0]|;
      forall k | 0 <= k < |parts| ensures Comma[0] !in parts[k] {
        DigitsNoComma(parts[k]);
      }
      SplitJoin(parts, Comma);
    }
  }

  /** The pieces are never empty while a pane is on (there is no trailing
      comma), and they name exactly the panes that are on. */
  lemma StandardLayoutsDenote(off: seq<bool>)
    ensures !AllOff(off) ==> forall p :: p in Split(StandardLayouts(off), Comma) ==> p != ""
    ensures forall id: nat :: DecimalString(id) in Split(StandardLayouts(off), Comma) <==> 1 <= id <= |off| && !off[id - 1]
  {
    StandardSplit(off);
    var ids := OnIds(off);
    OnIdsToFacts(off, |off|);
    forall id: nat ensures DecimalString(id) in Split(StandardLayouts(off), Comma) <==> 1 <= id <= |off| && !off[id - 1] {
      IdStringsMember(ids, id);
    }
  }

  predicate AllOff(off: seq<bool>) {
    forall k :: 0 <= k < |off| ==> off[k]
  }

  /** With the custom toggle on, the page works from the select's value alone. */
  lemma CustomLayouts(t: Toggles)
    requires WellFormed(t) && !t.customOff
    ensures Actives(t) == [t.select]
  {
    OptionNoComma(t.select);
    SplitPlainByChar(t.select, Comma);
  }

  /** The standard panes and the custom pane are never active together: a
      catalog value among the actives is all there is. */
  lemma Exclusive(t: Toggles)
    requires WellFormed(t)
    ensures forall v :: v in Actives(t) && IsCatalogValue(v) ==> Actives(t) == [v]
  {
    if t.customOff {
      StandardLayoutsDenote(t.off);
      forall v | IsCatalogValue(v) ensures v !in Actives(t) {
        var id := CatalogValueNumber(v);
      }
    } else {
      CustomLayouts(t);
    }
  }

  // ---------------------------------------------------------------------------
  // transitions

  /** Some piece of the layouts string names a catalog entry. */
  predicate NamesCustom(arr: seq<string>) {
    exists e :: e in CustomEditors && DecimalString(e.id) in arr
  }

  lemma NamesCustomIndex(arr: seq<string>)
    ensures NamesCustom(arr) <==> exists j :: 0 <= j < |CustomEditors| && DecimalString(CustomEditors[j].id) in arr
  {
    if NamesCustom(arr) {
      var e :| e in CustomEditors && DecimalString(e.id) in arr;
      var j :| 0 <= j < |CustomEditors| && CustomEditors[j] == e;
    }
  }

  /** The first loop of `updateLayouts`: standard toggle `k` ends off exactly
      when its id is not among the pieces. */
  function StandardOff(arr: seq<string>): (off: seq<bool>)
    ensures |off| == 4
  {
    [DecimalString(1) !in arr, DecimalString(2) !in arr, DecimalString(3) !in arr, DecimalString(4) !in arr]
  }

  /** `updateLayouts(layouts)`: every standard toggle whose id is not among
      the comma-separated pieces is switched off; if some piece names a catalog
      entry, the select is assigned the whole layouts string and the custom
      toggle is left as it is, otherwise the custom toggle is switched off.
      The page reads each toggle's id from its class name, which only works
      while no standard toggle is off yet. */
  function ApplyLayouts(t: Toggles, layouts: string): (r: Toggles)
    requires |t.off| == 4 && AllOn(t.off)
    ensures WellFormed(t) ==> WellFormed(r)
  {
    var arr := Split(layouts, Comma);
    Toggles(
      StandardOff(arr),
      if NamesCustom(arr) then t.customOff else true,
      if NamesCustom(arr) then SelectAssign(layouts) else t.select)
  }

  /** A click on standard toggle `i`: it flips, the custom toggle is switched
      off and the select is assigned -1. */
  function Click(t: Toggles, i: nat): (r: Toggles)
    requires i < |t.off|
    ensures Settled(t) ==> Settled(r)
  {
    Toggles(t.off[i := !t.off[i]], true, SelectAssign("-1"))
  }

  /** `Number(v) >= 0`, which is false for NaN. */
  predicate NonNegative(v: string) {
    JsNumber(v).Some? && JsNumber(v).value >= 0
  }

  /** The select changes to `v`: a non-negative value switches the custom
      toggle on and every standard toggle off, a negative one the reverse. */
  function Choose(t: Toggles, v: string): (r: Toggles)
    ensures |r.off| == |t.off|
  {
    var custom := NonNegative(v);
    Toggles(seq(|t.off|, _ => custom), !custom, v)
  }

  // ---------------------------------------------------------------------------
  // properties of the transitions

  /** A click flips the pane it is on and no other, and leaves no custom pane active. */
  lemma ClickFlips(t: Toggles, i: nat)
    requires WellFormed(t) && i < 4
    ensures var a := Actives(Click(t, i));
      (DecimalString(i + 1) in a <==> t.off[i]) &&
      (forall id: nat :: 1 <= id <= 4 && id != i + 1 ==> (DecimalString(id) in a <==> !t.off[id - 1])) &&
      (forall v :: IsCatalogValue(v) ==> v !in a)
  {
    var u := Click(t, i);
    StandardLayoutsDenote(u.off);
    forall v | IsCatalogValue(v) ensures v !in Actives(u) {
      var id := CatalogValueNumber(v);
    }
  }

  /** Choosing a catalog language makes it the only active pane; choosing the
      placeholder brings back all four standard panes. */
  lemma ChooseExclusive(t: Toggles, v: string)
    requires |t.off| == 4 && IsOptionValue(v)
    ensures Settled(Choose(t, v))
    ensures IsCatalogValue(v) ==> Actives(Choose(t, v)) == [v]
    ensures !IsCatalogValue(v) ==> ActiveLayouts(Choose(t, v)) == "1,2,3,4"
  {
    var u := Choose(t, v);
    OptionSign(v);
    if IsCatalogValue(v) {
      CustomLayouts(u);
    } else {
      assert u.off == [false, false, false, false];
      AllOnLayouts(u.off);
    }
  }

  /** With every toggle on, every pane is on, in order. */
  lemma {:induction false} OnIdsAllOn(off: seq<bool>, n: nat)
    requires AllOn(off) && n <= |off|
    ensures |OnIdsTo(off, n)| == n && forall k :: 0 <= k < n ==> OnIdsTo(off, n)[k] == k + 1
  {
    if n > 0 {
      OnIdsAllOn(off, n - 1);
      assert !off[n - 1];
    }
  }

  /** With the first `n` toggles off, none of the first `n` panes is on. */
  lemma {:induction false} OnIdsNoneOn(off: seq<bool>, n: nat)
    requires n <= |off| && forall k :: 0 <= k < n ==> off[k]
    ensures OnIdsTo(off, n) == []
  {
    if n > 0 {
      OnIdsNoneOn(off, n - 1);
    }
  }

  lemma JoinAllIds(d: seq<string>)
    requires d == ["1", "2", "3", "4"]
    ensures Join(d, Comma) == "1,2,3,4"
  {
    assert d[1..][1..][1..] == ["4"];
    assert Join(d[1..][1..], Comma) == "3,4";
    assert Join(d[1..], Comma) == "2,3,4";
  }

  /** With every standard toggle on, the layouts string is the initial one. */
  lemma AllOnLayouts(off: seq<bool>)
    requires off == [false, false, false, false]
    ensures StandardLayouts(off) == "1,2,3,4"
  {
    OnIdsAllOn(off, 4);
    assert OnIds(off) == [1, 2, 3, 4];
    assert IdStrings([1, 2, 3, 4]) == ["1", "2", "3", "4"];
    JoinAllIds(IdStrings([1, 2, 3, 4]));
  }

  /** Applying the layouts string of a settled state to the controls as the
      markup creates them gives back the same layouts string; only a state with
      nothing active does not survive, since its empty string is replaced by the
      initial layouts before it is applied. */
  lemma Reapply(t: Toggles)
    requires Settled(t) && ActiveLayouts(t) != ""
    ensures ActiveLayouts(ApplyLayouts(Initial, ActiveLayouts(t))) == ActiveLayouts(t)
  {
    if t.customOff {
      StandardSplit(t.off);
      ReapplyStandard(t.off);
    } else {
      ReapplyCustom(t.select);
    }
  }

  lemma ReapplyCustom(v: string)
    requires IsCatalogValue(v)
    ensures ApplyLayouts(Initial, v) == Toggles([true, true, true, true], false, v)
  {
    var arr := Split(v, Comma);
    OptionNoComma(v);
    SplitPlainByChar(v, Comma);
    var id := CatalogValueNumber(v);
    var e := Find(id).value;
    assert NamesCustom(arr) by {
      assert e in CustomEditors && DecimalString(e.id) in arr;
    }
    forall k | 1 <= k <= 4 ensures DecimalString(k) !in arr {
      DecimalInjective(k, id);
    }
  }

  /** The standard layouts string names no catalog entry. */
  lemma StandardNamesNoCustom(off: seq<bool>)
    requires |off| == 4
    ensures !NamesCustom(Split(StandardLayouts(off), Comma))
  {
    StandardLayoutsDenote(off);
    forall e | e in CustomEditors ensures DecimalString(e.id) !in Split(StandardLayouts(off), Comma) {
      CatalogIds();
    }
  }

  lemma ReapplyStandard(off: seq<bool>)
    requires |off| == 4
    ensures ApplyLayouts(Initial, StandardLayouts(off)) == Toggles(off, true, Initial.select)
  {
    StandardNamesNoCustom(off);
    StandardOffOf(off);
  }

  /** Marking the standard toggles from the standard layouts string gives
      back the toggles it was written from. */
  lemma StandardOffOf(off: seq<bool>)
    requires |off| == 4
    ensures StandardOff(Split(StandardLayouts(off), Comma)) == off
  {
    var marked := StandardOff(Split(StandardLayouts(off), Comma));
    forall k | 0 <= k < 4 ensures marked[k] == off[k] {
      StandardMember(off, k + 1);
    }
  }

  lemma StandardMember(off: seq<bool>, id: nat)
    requires |off| == 4 && 1 <= id <= 4
    ensures DecimalString(id) in Split(StandardLayouts(off), Comma) <==> !off[id - 1]
  {
    StandardLayoutsDenote(off);
  }

  /** A layouts string none of whose pieces is a known id switches every pane
      off, the custom one included. */
  lemma UnknownIdsAllOff(layouts: string)
    requires forall id: nat :: 1 <= id <= 13 ==> DecimalString(id) !in Split(layouts, Comma)
    ensures ActiveLayouts(ApplyLayouts(Initial, layouts)) == ""
  {
    var arr := Split(layouts, Comma);
    assert !NamesCustom(arr) by {
      forall e | e in CustomEditors ensures DecimalString(e.id) !in arr {
        CatalogIds();
      }
    }
    var u := ApplyLayouts(Initial, layouts);
    assert AllOff(u.off);
    StandardSplit(u.off);
  }

  /** From any layout, choosing a catalog language leaves its pane alone
      active; a click on the html toggle afterwards leaves the html pane alone
      active and the language pane inactive. */
  lemma ExclusivityScenario(t: Toggles, v: string)
    requires WellFormed(t) && IsCatalogValue(v)
    ensures Actives(Choose(t, v)) == [v]
    ensures var a := Actives(Click(Choose(t, v), 0));
      DecimalString(HtmlId) in a && v !in a &&
      DecimalString(CssId) !in a && DecimalString(JsId) !in a && DecimalString(PreviewId) !in a
  {
    ChooseExclusive(t, v);
    var u := Choose(t, v);
    OptionSign(v);
    assert u.off == [true, true, true, true];
    ClickFlips(u, 0);
    var a := Actives(Click(u, 0));
    assert DecimalString(HtmlId) in a;
    assert v !in a;
    assert DecimalString(CssId) !in a;
    assert DecimalString(JsId) !in a;
    assert DecimalString(PreviewId) !in a;
  }
}
