/** The fixed identifiers of the page: the four standard panes (`ENUM_LAYOUTS`),
    the custom-language catalog (`CUSTOM_EDITORS`) and the options of the
    language select built from it. */
module Catalog {
  import opened Wrappers
  import opened Text

  /** Ids of the four standard panes. */
  const HtmlId: nat := 1
  const CssId: nat := 2
  const JsId: nat := 3
  const PreviewId: nat := 4

  /** One entry of the custom-language catalog. */
  datatype CustomEditor = CustomEditor(id: nat, name: string, language: string)

  const CustomEditors: seq<CustomEditor> := [
    CustomEditor(5, "csharp", "csharp"),
    CustomEditor(6, "php", "php"),
    CustomEditor(7, "python", "python"),
    CustomEditor(8, "java", "java"),
    CustomEditor(9, "json", "json"),
    CustomEditor(10, "shell", "shell"),
    CustomEditor(11, "sql", "sql"),
    CustomEditor(12, "typescript", "typescript"),
    CustomEditor(13, "xml", "xml")
  ]

  /** `editors.find(x => x.id === id)`: the first entry with that id, if any. */
  function FindIn(editors: seq<CustomEditor>, id: int): (r: Option<CustomEditor>)
    ensures r.Some? ==> r.value in editors && r.value.id == id
    ensures r.None? <==> forall e :: e in editors ==> e.id != id
    decreases |editors|
  {
    if |editors| == 0 then None
    else if editors[0].id == id then Some(editors[0])
    else FindIn(editors[1..], id)
  }

  function Find(id: int): Option<CustomEditor> {
    FindIn(CustomEditors, id)
  }

  /** The catalog ids are exactly 5 to 13, one entry each, in ascending order. */
  lemma CatalogIds()
    ensures |CustomEditors| == 9
    ensures forall k :: 0 <= k < 9 ==> CustomEditors[k].id == k + 5
  {
  }

  /** The lookup the page performs on a custom id succeeds exactly for the ids 5 to 13. */
  lemma FindCatalog(id: int)
    ensures Find(id).Some? <==> 5 <= id <= 13
    ensures Find(id).Some? ==> Find(id).value.id == id && Find(id).value in CustomEditors
  {
    CatalogIds();
    if 5 <= id <= 13 {
      assert CustomEditors[id - 5].id == id;
    }
  }

  /** The values of the select options that `loadCustomList` adds, one per
      catalog entry in catalog order (`option.value = item.id`). */
  const OptionValues: seq<string> := ["5", "6", "7", "8", "9", "10", "11", "12", "13"]

  /** Each option value is the decimal form of its entry's id. */
  lemma OptionValuesOfCatalog()
    ensures |OptionValues| == |CustomEditors|
    ensures forall k :: 0 <= k < |OptionValues| ==> OptionValues[k] == DecimalString(CustomEditors[k].id)
  {
    CatalogIds();
    assert DecimalString(10) == DecimalString(1) + [DigitChar(0)];
    assert DecimalString(11) == DecimalString(1) + [DigitChar(1)];
    assert DecimalString(12) == DecimalString(1) + [DigitChar(2)];
    assert DecimalString(13) == DecimalString(1) + [DigitChar(3)];
  }

  /** The value of one of the catalog options. */
  predicate IsCatalogValue(v: string) {
    v in OptionValues
  }

  /** The values the select can hold: the page's placeholder option `-1`
      (assigned by the toggle handler) and one option per catalog entry. */
  predicate IsOptionValue(v: string) {
    v == "-1" || IsCatalogValue(v)
  }

  /** `select.value = v`: the option with value `v` becomes selected; when
      there is none, no option is selected and the select's value reads "". */
  function SelectAssign(v: string): string {
    if IsOptionValue(v) then v else ""
  }

  /** A catalog option value reads back, through `Number`, as the id of a
      catalog entry, and that entry is the one `find` returns. */
  lemma CatalogValueNumber(v: string) returns (id: nat)
    requires IsCatalogValue(v)
    ensures 5 <= id <= 13 && v == DecimalString(id)
    ensures JsNumber(v) == Some(id as int)
    ensures Find(id).Some? && Find(id).value.id == id
  {
    var k :| 0 <= k < |OptionValues| && OptionValues[k] == v;
    OptionValuesOfCatalog();
    id := CustomEditors[k].id;
    CatalogIds();
    NumberOfDecimal(id);
    FindCatalog(id);
  }

  /** Every option value other than the placeholder is a catalog value; the
      placeholder reads as a negative number and the catalog values as non-negative ones. */
  lemma OptionSign(v: string)
    requires IsOptionValue(v)
    ensures JsNumber(v).Some?
    ensures JsNumber(v).value >= 0 <==> IsCatalogValue(v)
  {
    if IsCatalogValue(v) {
      var id := CatalogValueNumber(v);
    } else {
      assert v == "-1";
      assert v[1..] == "1";
    }
  }
}
