/** The page: the module-level state of the playground (`EDITORS`,
    `EMBEDDED`), the layout controls and the style fields its functions write,
    with one method per function or event handler that changes them. */
module Playground {
  import opened Wrappers
  import opened Text
  import opened Catalog
  import opened Codec
  import opened Url
  import opened Preview
  import opened Layout
  import opened Geometry

  class Page {
    /** The `off` class of the html, css, js and preview toggles. */
    var off: seq<bool>
    /** The `off` class of the custom toggle. */
    var customOff: bool
    /** The value of the language select. */
    var selectValue: string
    /** `EMBEDDED`. */
    var embedded: bool

    /** Whether the html, css, js and preview containers are displayed. */
    var paneShown: seq<bool>
    /** Whether the custom container is displayed. */
    var customShown: bool
    /** The `--custom-editor` property. */
    var customIcon: string
    /** `gridTemplateColumns` of the grid. */
    var columns: string
    /** Whether the row gutters (`.grid-rows`) are displayed. */
    var rowGuttersShown: bool
    /** `gridTemplateRows` of the editor column. */
    var rows: string

    /** Whether `EDITORS` is set. */
    var editorsCreated: bool
    /** The texts of the html, css, js and custom editors. */
    var contents: Contents
    /** The language of the custom editor. */
    var customLanguage: string
    /** The preview frame's `srcdoc`. */
    var srcdoc: string
    /** The last path handed to `history.replaceState`. */
    var path: string

    /** The `encode`/`decode` pair of the base64 package. */
    const codec: Codec
    const skeleton: string

    function State(): Toggles
      reads this`off, this`customOff, this`selectValue
    {
      Toggles(off, customOff, selectValue)
    }

    ghost predicate Valid()
      reads this`off, this`customOff, this`selectValue, this`paneShown
    {
      WellFormed(State()) && |paneShown| == 4
    }

    /** The displayed panes, the columns and the row gutters are those of the
        active list, and so are the rows whenever the list fixes them. */
    ghost predicate LaidOut()
      reads this`off, this`customOff, this`selectValue, this`paneShown, this`customShown,
        this`columns, this`rowGuttersShown, this`rows
    {
      var a := Actives(State());
      |paneShown| == 4 &&
      (forall k :: 0 <= k < 4 ==> paneShown[k] == PaneShown(a, k + 1)) &&
      customShown == CustomId(a).Some? &&
      columns == Columns(a) &&
      rowGuttersShown == RowGuttersShown(a) &&
      (RowTemplate(a).Some? ==> rows == RowTemplate(a).value)
    }

    /** The page is laid out for its active list, the custom container
        shows the icon of the active entry's language, and of what `setLayout`
        leaves alone, the row template `rows0` and the icon `icon0` were kept. */
    ghost predicate Arranged(rows0: string, icon0: string)
      reads this`off, this`customOff, this`selectValue, this`paneShown, this`customShown,
        this`customIcon, this`columns, this`rowGuttersShown, this`rows
    {
      && LaidOut() && IconFollows()
      && (RowTemplate(Actives(State())).None? ==> rows == rows0)
      && (!customShown ==> customIcon == icon0)
    }

    /** What `getHashValue` leaves of the controls and the layout, whether or
        not the load succeeds: the embedded flag set by the path's prefix, and
        the controls, panes, grid and icon untouched when the layouts token
        does not decode, or else the decoded layouts applied to the controls
        `t0` and the page arranged for them. The other parameters are the
        values before the load. */
    ghost predicate LoadedLayouts(pathname: string, embedded0: bool, t0: Toggles, panes0: seq<bool>,
      custom0: bool, icon0: string, columns0: string, gutters0: bool, rows0: string)
      requires |t0.off| == 4 && AllOn(t0.off)
      reads this`embedded, this`off, this`customOff, this`selectValue, this`paneShown, this`customShown,
        this`customIcon, this`columns, this`rowGuttersShown, this`rows
    {
      && embedded == (embedded0 || StripEmbed(pathname).0)
      && match PathLayouts(codec, pathname)
        case None =>
          && State() == t0 && paneShown == panes0 && customShown == custom0 && customIcon == icon0
          && columns == columns0 && rowGuttersShown == gutters0 && rows == rows0
        case Some(layouts) =>
          State() == ApplyLayouts(t0, layouts) && Arranged(rows0, icon0)
    }

    /** What a successful `createEditors` leaves: the embedded flag set by the
        path, the page arranged for the loaded layouts, the loaded texts in the
        editors and the custom editor in the active entry's language. */
    ghost predicate Created(l: Loaded, embedded0: bool, rows0: string, icon0: string)
      reads this`embedded, this`off, this`customOff, this`selectValue, this`paneShown, this`customShown,
        this`customIcon, this`columns, this`rowGuttersShown, this`rows, this`contents, this`customLanguage
    {
      && embedded == (embedded0 || l.embedded)
      && Arranged(rows0, icon0)
      && contents == l.contents
      && CustomLanguage(Actives(State())) == Some(customLanguage)
    }

    /** The custom container shows the icon of the active entry's language. */
    ghost predicate IconFollows()
      reads this`off, this`customOff, this`selectValue, this`customShown, this`customIcon
    {
      var a := Actives(State());
      customShown ==> CustomLanguage(a).Some? && customIcon == IconUrl(CustomLanguage(a).value)
    }

    /** An existing custom editor is in the active entry's language. */
    ghost predicate LanguageFollows()
      reads this`off, this`customOff, this`selectValue, this`customShown,
        this`customLanguage, this`editorsCreated
    {
      customShown && editorsCreated ==> CustomLanguage(Actives(State())) == Some(customLanguage)
    }

    /** The page as its markup creates it, before `init` runs. */
    constructor(codec: Codec)
      ensures Valid() && State() == Initial && AllOn(off)
      ensures this.codec == codec && skeleton == Template && !embedded && !editorsCreated
    {
      this.codec := codec;
      skeleton := Template;
      off := [false, false, false, false];
      customOff := false;
      selectValue := "-1";
      embedded := false;
      paneShown := [true, true, true, true];
      customShown := false;
      customIcon := "";
      columns := "";
      rowGuttersShown := true;
      rows := "";
      editorsCreated := false;
      contents := NoContents;
      customLanguage := PlainText;
      srcdoc := "";
      path := "";
    }

    /** `getActiveLayouts`. */
    method GetActiveLayouts() returns (editors: string)
      requires |off| == 4
      ensures editors == ActiveLayouts(State())
    {
      editors := "";
      for k := 0 to 4
        invariant editors == Terminated(OnIdsTo(off, k))
      {
        ghost var ids := OnIdsTo(off, k);
        if !off[k] {
          assert OnIdsTo(off, k + 1) == ids + [k + 1];
          assert (ids + [k + 1])[..|ids|] == ids;
          editors := editors + DecimalString(k + 1) + Comma;
        } else {
          assert OnIdsTo(off, k + 1) == ids + [];
          assert ids + [] == ids;
        }
      }
      DropLastTerminated(OnIds(off));
      editors := DropLast(editors);
      if !customOff {
        editors := selectValue;
      }
    }

    /** `createCustomEditor`: the custom editor takes the language of the
        catalog entry the single active id names. */
    method CreateCustomEditor()
      requires Valid() && CustomId(Actives(State())).Some?
      modifies this`customLanguage
      ensures CustomLanguage(Actives(State())) == Some(customLanguage)
    {
      var layouts := GetActiveLayouts();
      var actives := Split(layouts, Comma);
      LookupSucceeds(State());
      var id := JsNumber(actives[0]).value;
      customLanguage := Find(id).value.language;
    }

    /** `toogleEditor` over the html, css, js and preview containers. */
    method ToggleEditor()
      requires Valid()
      modifies this`paneShown, this`customShown, this`customIcon, this`customLanguage
      ensures Valid()
      ensures var a := Actives(State());
        && |paneShown| == 4
        && (forall k :: 0 <= k < 4 ==> paneShown[k] == PaneShown(a, k + 1))
        && customShown == CustomId(a).Some?
        && (customShown ==> CustomLanguage(a).Some? && customIcon == IconUrl(CustomLanguage(a).value))
        && (!customShown ==> customIcon == old(customIcon))
        && (customShown && editorsCreated ==> CustomLanguage(a) == Some(customLanguage))
        && (!(customShown && editorsCreated) ==> customLanguage == old(customLanguage))
    {
      ShowPanes();
      ShowCustom();
    }

    /** The standard containers of `toogleEditor`: each is displayed exactly
        when its id is active. */
    method ShowPanes()
      requires |off| == 4
      modifies this`paneShown
      ensures |paneShown| == 4
      ensures forall k :: 0 <= k < 4 ==> paneShown[k] == PaneShown(Actives(State()), k + 1)
    {
      var layouts := GetActiveLayouts();
      var actives := Split(layouts, Comma);
      var shown: seq<bool> := [];
      for k := 0 to 4
        invariant |shown| == k
        invariant forall j :: 0 <= j < k ==> shown[j] == PaneShown(actives, j + 1)
      {
        shown := shown + [DecimalString(k + 1) in actives];
      }
      paneShown := shown;
    }

    /** The custom container of `toogleEditor`: it is displayed, with the
        icon of its language, exactly when a single custom id is active, and
        then an existing custom editor takes that language. */
    method ShowCustom()
      requires Valid()
      modifies this`customShown, this`customIcon, this`customLanguage
      ensures var a := Actives(State());
        && customShown == CustomId(a).Some?
        && (customShown ==> CustomLanguage(a).Some? && customIcon == IconUrl(CustomLanguage(a).value))
        && (!customShown ==> customIcon == old(customIcon))
        && (customShown && editorsCreated ==> CustomLanguage(a) == Some(customLanguage))
        && (!(customShown && editorsCreated) ==> customLanguage == old(customLanguage))
    {
      var layouts := GetActiveLayouts();
      var actives := Split(layouts, Comma);
      var id := CustomId(actives);
      if id.Some? {
        customShown := true;
        LookupSucceeds(State());
        customIcon := IconUrl(Find(id.value).value.language);
        if editorsCreated {
          CreateCustomEditor();
        }
      } else {
        customShown := false;
      }
    }

    /** The grid part of `setLayout`: the column template, the row gutters
        and the row template follow the active list. */
    method ArrangeGrid()
      requires Valid()
      modifies this`columns, this`rowGuttersShown, this`rows
      ensures columns == Columns(Actives(State()))
      ensures rowGuttersShown == RowGuttersShown(Actives(State()))
      ensures rows == if RowTemplate(Actives(State())).Some? then RowTemplate(Actives(State())).value else old(rows)
    {
      var layouts := GetActiveLayouts();
      var actives := Split(layouts, Comma);
      if PreviewToken in actives {
        if |actives| > 1 {
          columns := TwoColumns;
          rowGuttersShown := true;
        } else {
          columns := OneColumn;
          rowGuttersShown := false;
        }
      } else {
        columns := OneColumn;
        rowGuttersShown := true;
      }
      var editors := EditorCount(actives);
      if editors == 1 {
        rows := OneRow;
      }
      if editors == 2 {
        rows := TwoRows;
      }
      if editors == 3 {
        rows := ThreeRows;
      }
    }

    /** `setLayout`: the panes, then the grid. */
    method SetLayout()
      requires Valid()
      modifies this`paneShown, this`customShown, this`customIcon, this`customLanguage,
        this`columns, this`rowGuttersShown, this`rows
      ensures Valid() && Arranged(old(rows), old(customIcon)) && LanguageFollows()
      ensures !(customShown && editorsCreated) ==> customLanguage == old(customLanguage)
    {
      ToggleEditor();
      ArrangeGrid();
    }

    /** The first loop of `updateLayouts`: every standard toggle whose id is
        not among the pieces is switched off. */
    method MarkStandard(arr: seq<string>)
      requires |off| == 4 && AllOn(off)
      modifies this`off
      ensures off == StandardOff(arr)
    {
      for k := 0 to 4
        invariant |off| == 4
        invariant forall j :: 0 <= j < 4 ==> off[j] == (j < k && DecimalString(j + 1) !in arr)
      {
        if DecimalString(k + 1) !in arr {
          off := off[k := true];
        }
      }
    }

    /** The second loop of `updateLayouts`: `customFlag` stays true unless a
        piece names a catalog entry, in which case the select is assigned the
        whole layouts string. */
    method ScanCatalog(arr: seq<string>, layouts: string) returns (customFlag: bool)
      modifies this`selectValue
      ensures customFlag == !NamesCustom(arr)
      ensures selectValue == if customFlag then old(selectValue) else SelectAssign(layouts)
    {
      customFlag := true;
      for k := 0 to |CustomEditors|
        invariant customFlag <==> forall j :: 0 <= j < k ==> DecimalString(CustomEditors[j].id) !in arr
        invariant selectValue == if customFlag then old(selectValue) else SelectAssign(layouts)
      {
        if DecimalString(CustomEditors[k].id) in arr {
          customFlag := false;
          selectValue := SelectAssign(layouts);
        }
      }
      NamesCustomIndex(arr);
    }

    /** `updateLayouts`: the page reads each toggle's id from its class name,
        which fails with a `TypeError` once a toggle is off, so it is only
        called on the controls as the markup creates them. */
    method UpdateLayouts(layouts: string)
      requires Valid() && AllOn(off)
      modifies this`off, this`customOff, this`selectValue,
        this`paneShown, this`customShown, this`customIcon, this`customLanguage,
        this`columns, this`rowGuttersShown, this`rows
      ensures State() == ApplyLayouts(old(State()), layouts)
      ensures Valid() && Arranged(old(rows), old(customIcon)) && LanguageFollows()
      ensures !(customShown && editorsCreated) ==> customLanguage == old(customLanguage)
    {
      MarkControls(layouts);
      SetLayout();
    }

    /** The two loops of `updateLayouts` and the custom toggle after them. */
    method MarkControls(layouts: string)
      requires Valid() && AllOn(off)
      modifies this`off, this`customOff, this`selectValue
      ensures State() == ApplyLayouts(old(State()), layouts)
    {
      ghost var t0 := State();
      var arr := Split(layouts, Comma);
      MarkStandard(arr);
      var customFlag := ScanCatalog(arr, layouts);
      if customFlag {
        customOff := true;
      }
      assert State() == ApplyLayouts(t0, layouts);
    }

    /** `getHashValue` on the path the browser reports: the embedded flag is
        set first, then the layouts are applied, then the contents are
        decoded; an undecodable field ends the load with an error, keeping
        what was done before it. */
    method Load(pathname: string) returns (r: Result<Contents, LoadError>)
      requires Valid() && AllOn(off)
      modifies this`embedded, this`off, this`customOff, this`selectValue,
        this`paneShown, this`customShown, this`customIcon, this`customLanguage,
        this`columns, this`rowGuttersShown, this`rows
      ensures Valid()
      ensures r == match ParsePath(codec, pathname) case Ok(l) => Ok(l.contents) case Err(e) => Err(e)
      ensures LoadedLayouts(pathname, old(embedded), old(State()), old(paneShown), old(customShown), old(customIcon), old(columns), old(rowGuttersShown), old(rows))
      ensures PathLayouts(codec, pathname).None? ==> customLanguage == old(customLanguage)
      ensures PathLayouts(codec, pathname).Some? ==>
        && LanguageFollows()
        && (!(customShown && editorsCreated) ==> customLanguage == old(customLanguage))
      ensures !editorsCreated ==> customLanguage == old(customLanguage)
    {
      var (isEmbed, rest) := StripEmbed(pathname);
      if isEmbed {
        embedded := true;
      }
      var t := Tokens(rest);
      var layouts := DecodeLayouts(codec, t[0]);
      assert layouts == PathLayouts(codec, pathname);
      if layouts.None? {
        return Err(Undecodable(LayoutsField));
      }
      UpdateLayouts(layouts.value);
      var html := DecodeContent(codec, TokenAt(t, 1));
      if html.None? {
        return Err(Undecodable(HtmlField));
      }
      var css := DecodeContent(codec, TokenAt(t, 2));
      if css.None? {
        return Err(Undecodable(CssField));
      }
      var js := DecodeContent(codec, TokenAt(t, 3));
      if js.None? {
        return Err(Undecodable(JsField));
      }
      var custom := DecodeContent(codec, TokenAt(t, 4));
      if custom.None? {
        return Err(Undecodable(CustomField));
      }
      r := Ok(Contents(html.value, css.value, js.value, custom.value));
    }

    /** `setHashUrl`. */
    method SetHashUrl()
      requires Valid()
      modifies this`path
      ensures path == WrittenPath(codec, ActiveLayouts(State()), contents)
    {
      var layouts := GetActiveLayouts();
      var hash := codec.encode(layouts);
      if NotEmpty(contents) {
        hash := hash + (WriteSeparator + codec.encode(contents.html) + WriteSeparator + codec.encode(contents.css)
          + WriteSeparator + codec.encode(contents.js) + WriteSeparator + codec.encode(contents.custom));
      }
      path := "/" + hash;
    }

    /** `update`: the preview is recomposed and the path rewritten. */
    method Update()
      requires Valid()
      modifies this`srcdoc, this`path
      ensures srcdoc == ComposeAsWritten(skeleton, contents.html, contents.css, contents.js)
      ensures '$' !in contents.html && '$' !in contents.css && '$' !in contents.js ==>
        srcdoc == Compose(skeleton, contents.html, contents.css, contents.js)
      ensures path == WrittenPath(codec, ActiveLayouts(State()), contents)
    {
      srcdoc := ComposeAsWritten(skeleton, contents.html, contents.css, contents.js);
      if '$' !in contents.html && '$' !in contents.css && '$' !in contents.js {
        ComposeAgrees(skeleton, contents.html, contents.css, contents.js);
      }
      SetHashUrl();
    }

    /** The assignment of `EDITORS` in `createEditors`: the editors hold the
        given values, and the custom one takes the catalog language when a
        single custom id is active, plain text otherwise. */
    method BuildEditors(values: Contents)
      requires Valid()
      modifies this`contents, this`customLanguage, this`editorsCreated
      ensures contents == values && editorsCreated
      ensures CustomLanguage(Actives(State())) == Some(customLanguage) && LanguageFollows()
    {
      var layouts := GetActiveLayouts();
      var actives := Split(layouts, Comma);
      LookupSucceeds(State());
      contents := values;
      customLanguage := CustomLanguage(actives).value;
      editorsCreated := true;
    }

    /** `createEditors`: the session is loaded from the path, and the editors
        are created with the loaded contents, the custom one in the language
        the loaded layouts ask for; a failed load leaves them uncreated. */
    method CreateEditors(pathname: string) returns (r: Result<Contents, LoadError>)
      requires Valid() && AllOn(off) && !editorsCreated
      modifies this`embedded, this`off, this`customOff, this`selectValue,
        this`paneShown, this`customShown, this`customIcon, this`customLanguage,
        this`columns, this`rowGuttersShown, this`rows, this`contents, this`editorsCreated
      ensures Valid()
      ensures r == match ParsePath(codec, pathname) case Ok(l) => Ok(l.contents) case Err(e) => Err(e)
      ensures editorsCreated <==> r.Ok?
      ensures r.Ok? ==>
        && State() == ApplyLayouts(old(State()), ParsePath(codec, pathname).value.layouts)
        && Created(ParsePath(codec, pathname).value, old(embedded), old(rows), old(customIcon))
      ensures LoadedLayouts(pathname, old(embedded), old(State()), old(paneShown), old(customShown), old(customIcon), old(columns), old(rowGuttersShown), old(rows))
      ensures r.Err? ==> contents == old(contents) && customLanguage == old(customLanguage)
    {
      r := Load(pathname);
      if r.Err? {
        return;
      }
      LayoutsFirst(codec, pathname);
      ghost var l := ParsePath(codec, pathname).value;
      FinishCreate(r.value, l, old(embedded), old(rows), old(customIcon));
    }

    method FinishCreate(values: Contents, ghost l: Loaded, ghost embedded0: bool, ghost rows0: string, ghost icon0: string)
      requires Valid() && values == l.contents && embedded == (embedded0 || l.embedded)
      requires Arranged(rows0, icon0)
      modifies this`contents, this`customLanguage, this`editorsCreated
      ensures editorsCreated && Created(l, embedded0, rows0, icon0)
    {
      BuildEditors(values);
    }

    /** `init`: the editors are created and the page is updated once. */
    method Start(pathname: string) returns (r: Result<Contents, LoadError>)
      requires Valid() && AllOn(off) && !editorsCreated
      modifies this`embedded, this`off, this`customOff, this`selectValue,
        this`paneShown, this`customShown, this`customIcon, this`customLanguage,
        this`columns, this`rowGuttersShown, this`rows, this`contents, this`editorsCreated,
        this`srcdoc, this`path
      ensures Valid()
      ensures r == match ParsePath(codec, pathname) case Ok(l) => Ok(l.contents) case Err(e) => Err(e)
      ensures editorsCreated <==> r.Ok?
      ensures r.Ok? ==>
        && State() == ApplyLayouts(old(State()), ParsePath(codec, pathname).value.layouts)
        && Created(ParsePath(codec, pathname).value, old(embedded), old(rows), old(customIcon))
        && srcdoc == ComposeAsWritten(skeleton, contents.html, contents.css, contents.js)
        && path == WrittenPath(codec, ActiveLayouts(State()), contents)
      ensures LoadedLayouts(pathname, old(embedded), old(State()), old(paneShown), old(customShown), old(customIcon), old(columns), old(rowGuttersShown), old(rows))
      ensures r.Err? ==>
        && contents == old(contents) && customLanguage == old(customLanguage)
        && srcdoc == old(srcdoc) && path == old(path)
    {
      r := CreateEditors(pathname);
      if r.Ok? {
        Update();
      }
    }

    /** A change in an editor: its text is the new content and the page is
        updated (the js editor's one-second debounce only delays this). */
    method Edit(c: Contents)
      requires Valid() && editorsCreated
      modifies this`contents, this`srcdoc, this`path
      ensures contents == c
      ensures srcdoc == ComposeAsWritten(skeleton, c.html, c.css, c.js)
      ensures path == WrittenPath(codec, ActiveLayouts(State()), c)
    {
      contents := c;
      Update();
    }

    /** What both handlers do after changing the controls: `update()`, then
        `setLayout()`. */
    method Refresh()
      requires Valid()
      modifies this`srcdoc, this`path,
        this`paneShown, this`customShown, this`customIcon, this`customLanguage,
        this`columns, this`rowGuttersShown, this`rows
      ensures Valid() && Arranged(old(rows), old(customIcon)) && LanguageFollows()
      ensures !(customShown && editorsCreated) ==> customLanguage == old(customLanguage)
      ensures srcdoc == ComposeAsWritten(skeleton, contents.html, contents.css, contents.js)
      ensures path == WrittenPath(codec, ActiveLayouts(State()), contents)
    {
      Update();
      SetLayout();
    }

    /** The click handler of standard toggle `i`. Without editors, `update`
        fails on `EDITORS` after the controls have changed, and `ok` is false. */
    method ClickToggle(i: nat) returns (ok: bool)
      requires Valid() && i < 4
      modifies this`off, this`customOff, this`selectValue, this`srcdoc, this`path,
        this`paneShown, this`customShown, this`customIcon, this`customLanguage,
        this`columns, this`rowGuttersShown, this`rows
      ensures Valid()
      ensures State() == Click(old(State()), i)
      ensures ok == editorsCreated
      ensures ok ==> (Arranged(old(rows), old(customIcon)) && LanguageFollows()
        && (!customShown ==> customLanguage == old(customLanguage))
        && srcdoc == ComposeAsWritten(skeleton, contents.html, contents.css, contents.js)
        && path == WrittenPath(codec, ActiveLayouts(State()), contents))
      ensures !ok ==> (srcdoc == old(srcdoc) && path == old(path) && columns == old(columns)
        && rows == old(rows) && rowGuttersShown == old(rowGuttersShown) && paneShown == old(paneShown)
        && customShown == old(customShown) && customIcon == old(customIcon)
        && customLanguage == old(customLanguage))
    {
      off := off[i := !off[i]];
      customOff := true;
      selectValue := SelectAssign("-1");
      if !editorsCreated {
        return false;
      }
      Refresh();
      ok := true;
    }

    /** The controls part of the select's change handler: the select holds
        `v`, and a non-negative `v` switches the custom toggle on and every
        standard toggle off, a negative one the reverse. */
    method SelectControls(v: string)
      requires Valid() && IsOptionValue(v)
      modifies this`off, this`customOff, this`selectValue
      ensures Valid()
      ensures State() == Choose(old(State()), v)
    {
      selectValue := v;
      var custom := NonNegative(v);
      if custom {
        customOff := false;
      } else {
        customOff := true;
      }
      for k := 0 to 4
        invariant |off| == 4
        invariant forall j :: 0 <= j < k ==> off[j] == custom
        modifies this`off
      {
        off := off[k := custom];
      }
      assert off == seq(4, _ => custom);
    }

    /** The change handler of the select, now holding `v`. */
    method ChangeSelect(v: string) returns (ok: bool)
      requires Valid() && IsOptionValue(v)
      modifies this`off, this`customOff, this`selectValue, this`srcdoc, this`path,
        this`paneShown, this`customShown, this`customIcon, this`customLanguage,
        this`columns, this`rowGuttersShown, this`rows
      ensures Valid()
      ensures State() == Choose(old(State()), v)
      ensures ok == editorsCreated
      ensures ok ==> (Arranged(old(rows), old(customIcon)) && LanguageFollows()
        && (!customShown ==> customLanguage == old(customLanguage))
        && srcdoc == ComposeAsWritten(skeleton, contents.html, contents.css, contents.js)
        && path == WrittenPath(codec, ActiveLayouts(State()), contents))
      ensures !ok ==> (srcdoc == old(srcdoc) && path == old(path) && columns == old(columns)
        && rows == old(rows) && rowGuttersShown == old(rowGuttersShown) && paneShown == old(paneShown)
        && customShown == old(customShown) && customIcon == old(customIcon)
        && customLanguage == old(customLanguage))
    {
      SelectControls(v);
      if !editorsCreated {
        return false;
      }
      Refresh();
      ok := true;
    }
  }

  // ---------------------------------------------------------------------------
  // the session across a reload

  /** What a session writes, read back by a fresh page: the path carries the
      active layouts and the four contents, and applying those layouts to the
      fresh controls gives back the same active layouts. A session with no
      pane active, or with the custom toggle on and no option selected, comes
      back with the initial layouts. Only the controls as the markup creates
      them (custom on with the placeholder selected) are excluded, and no
      session has those once `init` has run. */
  lemma SessionRoundTrip(codec: Codec, t: Toggles, c: Contents)
    requires UrlCodec(codec) && WellFormed(t) && (!t.customOff ==> t.select != "-1")
    requires !StartsWith(codec.encode(ActiveLayouts(t)), "embed")
    ensures var layouts := if ActiveLayouts(t) == "" then InitialLayouts else ActiveLayouts(t);
      && ParsePath(codec, EscapeBars(WrittenPath(codec, ActiveLayouts(t), c))) == Ok(Loaded(false, layouts, c))
      && ActiveLayouts(ApplyLayouts(Initial, layouts)) == layouts
  {
    RoundTrip(codec, ActiveLayouts(t), c);
    if ActiveLayouts(t) == "" {
      AllOnLayouts(Initial.off);
      var u := ApplyLayouts(Initial, InitialLayouts);
      assert Settled(Toggles(Initial.off, true, "-1"));
      assert ActiveLayouts(Toggles(Initial.off, true, "-1")) == InitialLayouts;
      Reapply(Toggles(Initial.off, true, "-1"));
    } else {
      assert Settled(t);
      Reapply(t);
    }
  }
}
