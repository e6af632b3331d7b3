/** What `setLayout` and `toogleEditor` derive from the list of active ids:
    the grid's column template, whether the row gutters are shown, the row
    template of the editor column, which panes are displayed, and the
    language of the custom editor (`createEditors` and `createCustomEditor`). */
module Geometry {
  import opened Wrappers
  import opened Text
  import opened Catalog
  import opened Layout

  /** `ENUM_LAYOUTS.preview` as it appears in the list. */
  const PreviewToken := "4"

  const TwoColumns := "49.5% 1% 49.5%"
  const OneColumn := "100%"
  const OneRow := "100%"
  const TwoRows := "49.5% 1% 49.5%"
  const ThreeRows := "32.6% 1% 32.6% 1% 32.6%"

  /** The language of the custom editor when no custom pane is active. */
  const PlainText := "plaintext"

  /** The column template: two columns when the preview shares the grid with
      something else, one otherwise. */
  function Columns(actives: seq<string>): string {
    if PreviewToken in actives then (if |actives| > 1 then TwoColumns else OneColumn) else OneColumn
  }

  /** The row gutters are hidden only when the preview is all there is. */
  function RowGuttersShown(actives: seq<string>): bool {
    if PreviewToken in actives then |actives| > 1 else true
  }

  /** `actives.filter(x => x !== '4').length`. */
  function EditorCount(actives: seq<string>): nat
    decreases |actives|
  {
    if |actives| == 0 then 0
    else (if actives[0] != PreviewToken then 1 else 0) + EditorCount(actives[1..])
  }

  /** The row template for a number of editor rows; `None` for any other
      count, for which the page leaves the template as it was. */
  function RowsFor(n: nat): Option<string> {
    if n == 1 then Some(OneRow)
    else if n == 2 then Some(TwoRows)
    else if n == 3 then Some(ThreeRows)
    else None
  }

  function RowTemplate(actives: seq<string>): Option<string> {
    RowsFor(EditorCount(actives))
  }

  /** `toogleEditor`: the container of standard pane `id` is displayed exactly
      when its id is in the list. */
  function PaneShown(actives: seq<string>, id: nat): bool {
    DecimalString(id) in actives
  }

  /** The custom pane is displayed when the list is a single entry that reads
      as a number above 4; that number is the catalog id it asks for. */
  function CustomId(actives: seq<string>): Option<int> {
    if |actives| == 1 && JsNumber(actives[0]).Some? && JsNumber(actives[0]).value > 4
    then Some(JsNumber(actives[0]).value)
    else None
  }

  /** The language the custom editor is created with, or switched to: the
      catalog entry's language for a custom pane, "plaintext" otherwise.
      `None` stands for the `TypeError` the page raises when the id has no
      catalog entry. */
  function CustomLanguage(actives: seq<string>): Option<string> {
    match CustomId(actives)
    case None => Some(PlainText)
    case Some(id) =>
      match Find(id)
      case None => None
      case Some(e) => Some(e.language)
  }

  /** The value of the `--custom-editor` property for a language. */
  function IconUrl(language: string): string {
    "url('/" + language + ".svg')"
  }

  // ---------------------------------------------------------------------------
  // properties

  lemma {:induction false} EditorCountAppend(x: seq<string>, y: seq<string>)
    ensures EditorCount(x + y) == EditorCount(x) + EditorCount(y)
    decreases |x|
  {
    if |x| > 0 {
      assert (x + y)[0] == x[0];
      assert (x + y)[1..] == x[1..] + y;
      EditorCountAppend(x[1..], y);
    } else {
      assert x + y == y;
    }
  }

  /** Ids other than the preview's all count as editors. */
  lemma {:induction false} EditorCountOfIds(ids: seq<nat>)
    requires forall k :: 0 <= k < |ids| ==> ids[k] != PreviewId
    ensures EditorCount(IdStrings(ids)) == |ids|
    decreases |ids|
  {
    if |ids| > 0 {
      DecimalInjective(ids[0], PreviewId);
      assert IdStrings(ids)[1..] == IdStrings(ids[1..]);
      EditorCountOfIds(ids[1..]);
    }
  }

  /** The standard ids that are on split into the editors that are on and,
      after them, the preview if it is on. */
  lemma OnIdsSplit(off: seq<bool>)
    requires |off| == 4
    ensures OnIds(off) == OnIdsTo(off, 3) + (if off[3] then [] else [PreviewId])
    ensures EditorCount(IdStrings(OnIds(off))) == |OnIdsTo(off, 3)|
  {
    var e := OnIdsTo(off, 3);
    OnIdsToFacts(off, 3);
    var p: seq<nat> := if off[3] then [] else [PreviewId];
    assert IdStrings(e + p) == IdStrings(e) + IdStrings(p);
    EditorCountAppend(IdStrings(e), IdStrings(p));
    EditorCountOfIds(e);
    if !off[3] {
      assert IdStrings(p) == [DecimalString(4)];
    }
  }

  /** No standard id reads as a number above 4. */
  lemma NoCustomAmongStandard(off: seq<bool>)
    requires |off| == 4
    ensures CustomId(Split(StandardLayouts(off), Comma)) == None
  {
    StandardSplit(off);
    var a := Split(StandardLayouts(off), Comma);
    if |a| == 1 && !AllOff(off) {
      var ids := OnIds(off);
      OnIdsToFacts(off, 4);
      assert a[0] == DecimalString(ids[0]);
      NumberOfDecimal(ids[0]);
    }
  }

  /** The preview is in the list exactly when its toggle is on; the list
      has one entry per pane that is on, or the single entry "" when none is. */
  lemma StandardShape(off: seq<bool>)
    requires |off| == 4
    ensures var a := Split(StandardLayouts(off), Comma);
      && (PreviewToken in a <==> !off[PreviewId - 1])
      && |a| == (if AllOff(off) then 1 else |OnIdsTo(off, 3)| + (if off[3] then 0 else 1))
      && (AllOff(off) ==> OnIdsTo(off, 3) == [])
  {
    StandardSplit(off);
    StandardLayoutsDenote(off);
    OnIdsSplit(off);
    assert DecimalString(PreviewId) == PreviewToken;
    if AllOff(off) {
      OnIdsNoneOn(off, 3);
    }
  }

  /** Every entry but the preview's counts as an editor row; so does the
      single "" of an empty list. */
  lemma StandardEditorCount(off: seq<bool>)
    requires |off| == 4
    ensures EditorCount(Split(StandardLayouts(off), Comma)) == if AllOff(off) then 1 else |OnIdsTo(off, 3)|
  {
    StandardSplit(off);
    OnIdsSplit(off);
    if AllOff(off) {
      assert EditorCount([""]) == 1;
    }
  }

  /** With the custom toggle off: two columns exactly when the preview and
      some editor are on; the row gutters hidden exactly when the preview is on
      alone; one row per editor that is on, one row when nothing at all is on,
      and the row template left as it was when the preview is on alone; each
      standard pane displayed exactly when its toggle is on; the custom pane
      hidden and the custom editor in plain text. */
  lemma StandardGeometry(t: Toggles)
    requires WellFormed(t) && t.customOff
    ensures var a := Actives(t);
      var preview := !t.off[PreviewId - 1];
      var editors := |OnIdsTo(t.off, 3)|;
      && Columns(a) == (if preview && editors > 0 then TwoColumns else OneColumn)
      && RowGuttersShown(a) == !(preview && editors == 0)
      && RowTemplate(a) == (if preview && editors == 0 then None else RowsFor(if editors == 0 then 1 else editors))
      && (forall id: nat :: 1 <= id <= 4 ==> (PaneShown(a, id) <==> !t.off[id - 1]))
      && CustomId(a) == None
      && CustomLanguage(a) == Some(PlainText)
  {
    StandardShape(t.off);
    StandardEditorCount(t.off);
    StandardLayoutsDenote(t.off);
    NoCustomAmongStandard(t.off);
  }

  /** A single entry other than the preview's: one column, row gutters
      shown, one row. */
  lemma SingleEditorGrid(v: string)
    requires v != PreviewToken
    ensures Columns([v]) == OneColumn && RowGuttersShown([v]) && RowTemplate([v]) == Some(OneRow)
  {
    assert EditorCount([v]) == 1 + EditorCount([v][1..]);
  }

  /** A catalog value as the single entry: no standard pane is displayed and
      the custom pane is, with the language of that catalog entry. */
  lemma CatalogEntryPane(v: string)
    requires IsCatalogValue(v)
    ensures v != PreviewToken
    ensures forall id: nat :: 1 <= id <= 4 ==> !PaneShown([v], id)
    ensures CustomId([v]).Some? && DecimalString(CustomId([v]).value) == v
    ensures Find(CustomId([v]).value).Some?
    ensures CustomLanguage([v]) == Some(Find(CustomId([v]).value).value.language)
  {
    var id := CatalogValueNumber(v);
    forall k: nat | 1 <= k <= 4 ensures DecimalString(k) != v {
      DecimalInjective(k, id);
    }
    assert DecimalString(PreviewId) == PreviewToken;
  }

  /** The placeholder or an empty select as the single entry: no pane is displayed. */
  lemma NoEntryPane(v: string)
    requires v == "-1" || v == ""
    ensures v != PreviewToken
    ensures forall id: nat :: 1 <= id <= 4 ==> !PaneShown([v], id)
    ensures CustomId([v]) == None
  {
    forall id: nat | 1 <= id <= 4 ensures DecimalString(id) != v {
      assert |DecimalString(id)| == 1 && IsDigit(DecimalString(id)[0]);
    }
    if v == "-1" {
      var one := v[1..];
      assert one == "1" && !IsDigit(v[0]);
      assert one[..0] == "";
      assert DigitsValue(one) == 1;
      assert JsNumber(v) == Some(-1);
    }
  }

  /** With the custom toggle on: one column, row gutters shown, one row, no
      standard pane displayed; the custom pane is displayed exactly when the
      select holds a catalog value, and then with that entry's language. */
  lemma CustomGeometry(t: Toggles)
    requires WellFormed(t) && !t.customOff
    ensures var a := Actives(t);
      && Columns(a) == OneColumn
      && RowGuttersShown(a)
      && RowTemplate(a) == Some(OneRow)
      && (forall id: nat :: 1 <= id <= 4 ==> !PaneShown(a, id))
      && (CustomId(a).Some? <==> IsCatalogValue(t.select))
      && (IsCatalogValue(t.select) ==>
            DecimalString(CustomId(a).value) == t.select &&
            Find(CustomId(a).value).Some? &&
            CustomLanguage(a) == Some(Find(CustomId(a).value).value.language))
  {
    CustomLayouts(t);
    if IsCatalogValue(t.select) {
      CatalogEntryPane(t.select);
    } else {
      NoEntryPane(t.select);
    }
    SingleEditorGrid(t.select);
  }

  /** In every well-formed state the catalog lookup of the custom pane
      succeeds, so the page never raises the `TypeError` it would on an id
      missing from the catalog. */
  lemma LookupSucceeds(t: Toggles)
    requires WellFormed(t)
    ensures CustomLanguage(Actives(t)).Some?
  {
    if t.customOff {
      StandardGeometry(t);
    } else {
      CustomGeometry(t);
    }
  }

  /** Preview alone: one column, no row gutters, rows left as they were. */
  lemma PreviewAlone(t: Toggles)
    requires WellFormed(t) && t.customOff && t.off == [true, true, true, false]
    ensures Columns(Actives(t)) == OneColumn && !RowGuttersShown(Actives(t)) && RowTemplate(Actives(t)) == None
  {
    StandardGeometry(t);
    OnIdsNoneOn(t.off, 3);
  }

  /** Everything on: two columns and three rows. */
  lemma EverythingOn(t: Toggles)
    requires WellFormed(t) && t.customOff && t.off == [false, false, false, false]
    ensures Columns(Actives(t)) == TwoColumns && RowGuttersShown(Actives(t)) && RowTemplate(Actives(t)) == Some(ThreeRows)
  {
    StandardGeometry(t);
    OnIdsAllOn(t.off, 3);
  }

  /** Html and preview: two columns and one row. */
  lemma HtmlAndPreview(t: Toggles)
    requires WellFormed(t) && t.customOff && t.off == [false, true, true, false]
    ensures Columns(Actives(t)) == TwoColumns && RowGuttersShown(Actives(t)) && RowTemplate(Actives(t)) == Some(OneRow)
  {
    StandardGeometry(t);
    HtmlOnlyEditor(t.off);
  }

  lemma HtmlOnlyEditor(off: seq<bool>)
    requires off == [false, true, true, false]
    ensures |OnIdsTo(off, 3)| == 1
  {
    assert OnIdsTo(off, 1) == OnIdsTo(off, 0) + [1];
    assert OnIdsTo(off, 2) == OnIdsTo(off, 1);
    assert OnIdsTo(off, 3) == OnIdsTo(off, 2);
  }
}
