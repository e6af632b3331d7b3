# Code playground page: layouts, URL state and preview

This project models the page script of a browser code playground
(`src/main.js`). The page has four standard panes: html, css, js and preview.
It also has one custom pane whose language comes from a catalog of nine
languages. A set of toggles and a language select decide which panes are
shown. The script keeps the whole session in the URL path: the active
layouts and the four editor texts, each encoded with base64 and joined by
`|`. On load it reads the session back from the path. It composes the preview
document by putting the html, css and js texts into a fixed skeleton.

The modules follow the script:

- `Text`: the JavaScript string operations the script relies on. These are
  `indexOf`, `replace` with a string pattern, `split`, `join`, `toString` on
  ids and `Number` on option values.
- `Catalog`: `CUSTOM_EDITORS`, `find` over it, the option values that
  `loadCustomList` adds to the select, and the assignment `select.value = v`.
- `Codec`: the base64 `encode`/`decode` pair. It is a parameter, and the
  properties the round trip needs of it are predicates.
- `Url`: `getHashValue` as a function from the path to the loaded session or
  the field whose token does not decode. It also has the path that
  `setHashUrl` writes and the percent-escaping the browser applies to `|`.
- `Preview`: `createTemplate`. It is modelled twice: once as written (with
  JavaScript's `$` replacement patterns), which is what the page uses, and
  once as evidently intended.
- `Layout`: the toggles and the select as a value (`Toggles`), the string
  `getActiveLayouts` reads off them, and the three transitions that change
  them. These are `updateLayouts`, a click on a standard toggle and a change
  of the select.
- `Geometry`: what `setLayout` and `toogleEditor` derive from the list of
  active ids. That is the grid columns, the row gutters, the row template,
  the displayed panes and the custom editor's language.
- `Playground`: the page as a class, with one field per piece of state the
  script writes. The script's functions and event handlers are methods over
  these fields, each proved against the functions above.

## Model

| member | source | states |
|---|---|---|
| Text.IndexOfFrom | src/main.js:75 | the index found is an occurrence of the pattern at or after the start, and no occurrence lies between the start and it; `None` means there is no occurrence at or after the start (`indexOf` is called from 0, so none at all) |
| Text.ReplaceFirstAt | src/main.js:92-95 | when the text in front of a placeholder cannot hold the pattern, even across the seam, a literal replace puts the replacement exactly where that placeholder was |
| Text.JoinSplit | src/main.js:80 | splitting on a non-empty separator loses nothing: joining the pieces gives the text back |
| Text.SplitJoin | src/main.js:80 | splitting pieces joined by a separator gives the pieces back when none of them holds the separator's first character |
| Text.SplitPlain | src/main.js:234 | a text in which the separator occurs nowhere splits into itself alone |
| Text.DecimalString | src/main.js:237 | `toString` of an id is a non-empty string of digits, one digit long exactly for ids below 10 |
| Text.NumberOfDecimal | src/main.js:263 | `Number` reads an id's decimal string back as the id |
| Text.DecimalInjective | src/main.js:237 | two ids have the same decimal string exactly when they are equal |
| Catalog.FindIn | src/main.js:263 | `find` returns an entry of the list that has the id, and returns nothing exactly when no entry has it |
| Catalog.CatalogIds | src/main.js:30-40 | the catalog has nine entries, with ids 5 to 13 in order |
| Catalog.FindCatalog | src/main.js:30-40 | `find` by id succeeds exactly for ids 5 to 13, and returns the entry with that id |
| Catalog.OptionValuesOfCatalog | src/main.js:312-323 | the select's options are the catalog ids as strings, in catalog order |
| Catalog.CatalogValueNumber | src/main.js:316-322 | a catalog option's value is the decimal string of an id from 5 to 13; `Number` reads it as that id, and `find` returns that entry |
| Catalog.OptionSign | src/main.js:414 | every option value reads as a number, and it is non-negative exactly for catalog options |
| Url.RoundTrip | src/main.js:72-89 | the path `setHashUrl` writes, as the browser reports it back, loads without the embedded flag, with the same layouts and the same four texts; empty layouts come back as the initial ones |
| Url.ReadBack | src/main.js:80 | that path has no embed marker, and splitting it on `%7C` gives the tokens the hash was written from |
| Url.HashFields | src/main.js:296-297 | the hash is the encoded layouts alone when every editor is empty, and otherwise five fields; split on the bar separator, it gives back exactly those tokens |
| Url.EscapedPath | src/main.js:299 | the path the browser reports is `/` and the hash's tokens joined by `%7C` |
| Url.StripEmbedAsWritten | src/main.js:75-76 | the test `indexOf('/embed') === 0` holds exactly when the path starts with the marker, and then `replace('/embed', '')` removes exactly that prefix |
| Url.EmbedPrefix | src/main.js:75-78 | a path with the `/embed` prefix sets the embedded flag and is otherwise read as the rest of the path; without the prefix the flag stays off |
| Url.EmptyPath | src/main.js:80-88 | an empty path, or `/`, loads the initial layouts and four empty texts whatever the codec |
| Url.LayoutsOnlyPath | src/main.js:80-88 | a path holding only a layouts token loads the layouts it decodes to (the initial ones for an empty token) and empty texts; missing fields are never decoded |
| Url.BadFieldAbortsLoad | src/main.js:84 | an html token that does not decode makes the load fail at the html field |
| Url.LayoutsFirst | src/main.js:80-81 | a load that succeeds applied the layouts decoded from the first token; a layouts token that does not decode fails the load at the layouts field |
| Preview.HtmlStage | src/main.js:93 | the html goes in place of the body's placeholder, whatever the html is |
| Preview.CssStage | src/main.js:94 | the css then goes into the style block, whatever the html was |
| Preview.FirstTwoStages | src/main.js:92-94 | after the first two replacements the document is the skeleton with the html in the body and the css in the style block |
| Preview.BeforeScriptFree | src/main.js:14 | the text in front of the script block holds no js placeholder as long as the css and the html hold none |
| Preview.Composition | src/main.js:91-96 | with the literal replace, the preview is the skeleton with the css in the style block, the html in the body and the js in the script, whenever the css and the html hold no js placeholder |
| Preview.PlaceholderCollision | src/main.js:91-96 | css that is the js placeholder itself receives the script, and the script block keeps its placeholder |
| Preview.SubstitutionPlain | src/main.js:93-95 | a replacement text without `$` is inserted as it is |
| Preview.ExpandingPlain | src/main.js:93-95 | for a replacement without `$`, JavaScript's `replace` and the literal replace agree |
| Preview.AsWrittenAgrees | src/main.js:91-96 | the code as written and the intended composition give the same preview when no text holds `$` |
| Preview.ComposeAgrees | src/main.js:91-96 | on any skeleton, the expanding replacements and the literal ones give the same document when no text holds `$` |
| Preview.AsWrittenFirstTwo | src/main.js:92-94 | as written, the first two stages put the html and the css in their places when neither holds `$` |
| Preview.DollarQuote | src/main.js:95 | JavaScript expands the replacement `x='$'` to `x='` followed by the text after the match |
| Preview.DollarQuoteStage | src/main.js:95 | as written, the script `x='$'` puts `x='` and a second copy of the document's tail into the script block |
| Preview.DollarQuoteCounterexample | src/main.js:91-96 | for any html and css without `$` or a js placeholder, and the js `x='$'`, the preview as written has `x='` and the tail twice where the intended one has `x='$'`, so the two differ |
| Layout.OnIdsToFacts | src/main.js:223-224 | the ids the loop collects are exactly those of the panes that are on, strictly increasing |
| Layout.OnIdsToBounds | src/main.js:223-224 | every id collected from the first `n` toggles is between 1 and `n`, and its toggle is on |
| Layout.OnIdsToMember | src/main.js:223-224 | a pane among the first `n` is collected exactly when its toggle is on |
| Layout.OnIdsToSorted | src/main.js:223-224 | the collected ids are strictly increasing |
| Layout.TerminatedEnds | src/main.js:224-226 | the loop's accumulated text ends in a comma once an id was added |
| Layout.DropLastTerminated | src/main.js:224-226 | dropping the trailing comma gives the ids joined by commas (and "" for no ids) |
| Layout.DigitsNoComma | src/main.js:224 | an id's decimal string holds no comma |
| Layout.OptionNoComma | src/main.js:228 | a select value holds no comma, so it splits into itself |
| Layout.IdStringsMember | src/main.js:237 | an id's decimal string is among the pieces exactly when the id is among the ids |
| Layout.NoneOn | src/main.js:221-226 | no id is collected exactly when every standard toggle is off |
| Layout.OnIdsToEmpty | src/main.js:223-224 | nothing is collected from the first `n` toggles exactly when all of them are off |
| Layout.StandardSplit | src/main.js:221-231 | with the custom toggle off, the layouts string is "" exactly when every standard toggle is off, and otherwise splits back into one decimal id per pane that is on |
| Layout.StandardLayoutsDenote | src/main.js:221-231 | the standard layouts string has no empty piece while a pane is on, and names id `n` exactly when standard pane `n` is on |
| Layout.CustomLayouts | src/main.js:228 | with the custom toggle on, the active list is the select's value alone |
| Layout.Exclusive | src/main.js:221-231 | in any reachable state, a catalog id in the active list is the whole list |
| Layout.NamesCustomIndex | src/main.js:241-246 | some piece names a catalog entry exactly when the catalog loop finds one at some index |
| Layout.StandardOff | src/main.js:236-238 | the marking of `updateLayouts` covers the four standard toggles |
| Layout.ApplyLayouts | src/main.js:233-251 | `updateLayouts` keeps the controls well formed: four standard toggles and a select holding one of its options or none |
| Layout.Click | src/main.js:428-435 | a click keeps settled controls settled: four standard toggles, a select holding one of its options or none, and an active custom toggle only with a catalog value |
| Layout.Choose | src/main.js:410-422 | a change of the select keeps four standard toggles |
| Layout.ClickFlips | src/main.js:428-435 | a click flips the clicked pane in the active list, leaves every other standard pane as it was, and leaves no catalog id active |
| Layout.ChooseExclusive | src/main.js:410-422 | choosing a catalog option makes that id the whole active list; choosing the placeholder option turns all four standard panes on |
| Layout.OnIdsAllOn | src/main.js:23-29 | with every toggle on, the loop collects the ids 1 to `n` in order |
| Layout.OnIdsNoneOn | src/main.js:223-224 | with every toggle off, the loop collects nothing |
| Layout.AllOnLayouts | src/main.js:23 | with every standard toggle on, the layouts string is `INITIAL_LAYOUTS`, "1,2,3,4" |
| Layout.Reapply | src/main.js:233-251 | applying a settled page's layouts string to fresh controls gives back the same layouts string |
| Layout.ReapplyCustom | src/main.js:241-248 | applying a catalog option value to fresh controls turns every standard pane off and keeps the custom pane on, with that value selected |
| Layout.StandardNamesNoCustom | src/main.js:241-246 | a standard layouts string names no catalog entry |
| Layout.ReapplyStandard | src/main.js:233-251 | applying a standard layouts string to fresh controls gives back exactly those toggles, with the custom one off |
| Layout.StandardOffOf | src/main.js:236-238 | marking from a standard layouts string gives back the toggles it was written from |
| Layout.StandardMember | src/main.js:237 | standard id `n` is among the pieces of the standard layouts string exactly when pane `n` is on |
| Layout.UnknownIdsAllOff | src/main.js:233-251 | a layouts string none of whose pieces is a known id turns every pane off, the custom pane included, so the active layouts read "" |
| Layout.ExclusivityScenario | src/main.js:410-440 | choosing a catalog language makes it the only active pane; clicking html afterwards shows html alone and drops the language |
| Geometry.EditorCountAppend | src/main.js:290 | the editor count of a concatenation is the sum of the counts |
| Geometry.EditorCountOfIds | src/main.js:290 | without the preview id, every id counts as an editor |
| Geometry.OnIdsSplit | src/main.js:223-224 | the ids that are on are the editors' ids followed by the preview's id when the preview is on, and the editor count is the number of editors on |
| Geometry.NoCustomAmongStandard | src/main.js:261 | a standard layouts string never shows the custom pane |
| Geometry.StandardShape | src/main.js:276-277 | the preview id is in the standard list exactly when the preview is on, and the list has one entry per pane on (one empty entry when none is) |
| Geometry.StandardEditorCount | src/main.js:290-292 | the editor count of the standard list is the number of editors on, or 1 for the empty entry |
| Geometry.StandardGeometry | src/main.js:268-293 | with the custom toggle off: two columns exactly when the preview shares the grid; row gutters hidden only for the preview alone; the row template follows the editor count; each standard pane is shown exactly when on; plain-text custom editor |
| Geometry.SingleEditorGrid | src/main.js:276-292 | a single non-preview entry gets one column, row gutters and one row |
| Geometry.CatalogEntryPane | src/main.js:256-263 | a catalog option as the whole list shows no standard pane, shows the custom pane with that id, and takes that entry's language |
| Geometry.NoEntryPane | src/main.js:256-265 | the placeholder option, or no option, shows no pane at all |
| Geometry.CustomGeometry | src/main.js:253-293 | with the custom toggle on: one column, row gutters and one row, no standard pane, and the custom pane exactly when the select holds a catalog id, in that entry's language |
| Geometry.LookupSucceeds | src/main.js:263 | in every reachable state the catalog lookup of `toogleEditor` and `createCustomEditor` finds its entry |
| Geometry.PreviewAlone | src/main.js:276-292 | the preview alone gets one column, hidden row gutters and no row template |
| Geometry.EverythingOn | src/main.js:276-292 | all four panes get two columns, row gutters and three rows |
| Geometry.HtmlAndPreview | src/main.js:276-292 | html with the preview gets two columns, row gutters and one row |
| Playground.Page.constructor | src/main.js:42-43 | the page starts well formed, with every toggle on, the placeholder option selected, no editors and the embedded flag off |
| Playground.Page.GetActiveLayouts | src/main.js:221-231 | the loop returns the active layouts string of the current controls |
| Playground.Page.CreateCustomEditor | src/main.js:325-329 | the custom editor takes the language of the active catalog entry |
| Playground.Page.ToggleEditor | src/main.js:253-266 | each standard container is displayed exactly when its id is active; the custom container is displayed, with its language's icon, exactly when one catalog id is active; existing editors take that language |
| Playground.Page.ShowPanes | src/main.js:256-259 | each standard container is displayed exactly when its id is active |
| Playground.Page.ShowCustom | src/main.js:261-265 | the custom container, its icon and an existing custom editor's language follow the active list |
| Playground.Page.ArrangeGrid | src/main.js:271-292 | the column template and the row gutters follow the active list; the row template follows it for one to three editors and is left as it was otherwise |
| Playground.Page.SetLayout | src/main.js:268-293 | afterwards the page is laid out as its active list asks; the custom container shows the icon of the active entry's language and an existing custom editor takes that language; the row template is kept when the list fixes none |
| Playground.Page.MarkStandard | src/main.js:236-238 | a standard toggle ends off exactly when its id is not among the pieces |
| Playground.Page.ScanCatalog | src/main.js:240-246 | the flag stays set exactly when no piece names a catalog entry; otherwise the select is assigned the whole layouts string |
| Playground.Page.MarkControls | src/main.js:234-248 | the controls end as `ApplyLayouts` says, which keeps well-formed controls well formed |
| Playground.Page.UpdateLayouts | src/main.js:233-251 | the controls end as `ApplyLayouts` says, and the page is laid out for them: panes, grid, the custom icon and an existing custom editor's language follow the new list, and the row template is kept when the list fixes none |
| Playground.Page.Load | src/main.js:72-89 | the result is the contents `ParsePath` gives, or the field that failed; the embedded flag is set by the prefix; the layouts are applied, and the page laid out with the custom icon and language and the kept row template, exactly when they decode; a layouts token that does not decode leaves the controls, panes, grid, icon and language untouched |
| Playground.Page.SetHashUrl | src/main.js:295-300 | the path written is `WrittenPath` of the active layouts and the editors' texts |
| Playground.Page.Update | src/main.js:302-310 | the preview is `createTemplate` as written (with `$` patterns expanded) applied to the three texts, which is the literal composition whenever no text holds `$`; the path is rewritten |
| Playground.Page.BuildEditors | src/main.js:132-137 | the editors hold the loaded texts, and the custom one has the language the active list asks for |
| Playground.Page.CreateEditors | src/main.js:127-154 | a successful load leaves the editors created with the loaded texts, the loaded layouts applied and laid out, the custom icon and the custom editor in the entry's language, the row template kept when the list fixes none; a failed load leaves the editors uncreated, their texts and language as they were, the embedded flag set by the prefix, and the controls and layout as `getHashValue` left them: untouched when the layouts token does not decode, otherwise applied and laid out |
| Playground.Page.Start | src/main.js:377-385 | after `init`, a successful load lays the page out as `CreateEditors` says and is followed by the as-written preview of the loaded texts and a path written from the loaded session; a failed load leaves the page as `CreateEditors` says, with the preview and the path as they were |
| Playground.Page.Edit | src/main.js:139-147 | an edit makes the new texts the contents, recomposes the preview as the code does (expanding `$` patterns) and rewrites the path |
| Playground.Page.Refresh | src/main.js:424-425 | the preview is recomposed as written and the path rewritten; the page is laid out for the controls, the custom icon and an existing custom editor switch to the active entry's language, and the row template is kept when the list fixes none |
| Playground.Page.ClickToggle | src/main.js:428-440 | the controls end as `Click` says; with editors the page is refreshed as `Refresh` says (custom pane hidden, its icon and language kept, the row template kept when the list fixes none); without them the handler stops before touching the preview, the path, the grid, the displayed panes or the custom editor |
| Playground.Page.SelectControls | src/main.js:410-422 | the controls end as `Choose` says and stay well formed |
| Playground.Page.ChangeSelect | src/main.js:410-426 | the controls end as `Choose` says; with editors the page is refreshed as `Refresh` says, so a catalog choice switches the custom icon and the custom editor to that entry's language; without them the preview, the path, the grid, the displayed panes and the custom editor are untouched |
| Playground.SessionRoundTrip | src/main.js:295-300 | a fresh page reading the path a session wrote loads the same texts and ends with the same active layouts; a session with no pane active, or with the custom toggle on and no option selected, reloads with the initial layouts; this covers every well-formed session except the controls as the markup creates them |

## Left out

- The Monaco editors, the Split gutters, the clipboard buttons, the dialog,
  the loader, `embedConfig`, Emmet and the Prettier hotkeys are user
  interface with no state the rest of the page reads. The editors are
  modelled only by their four texts and the custom editor's language.
- The js editor's one-second debounce is timing only. `Edit` models what
  happens once the delay ends. Edits that the timer merges would be modelled
  as the last of them.
- The base64 encoding itself is not modelled. The codec is a parameter, and
  the round-trip lemmas state what they need of it: decoding undoes
  encoding, tokens hold no `|` or `%`, and only the empty text encodes to "".
  They also require that the encoded layouts do not begin with `embed`, so
  that the written path cannot be read as embedded. Base64 has this
  property here: every layouts string begins with a digit or `-`, and a
  base64 token beginning `em` needs a first byte `z`.
- `window.location`, `history.replaceState` and the iframe are fields
  (`path`, `srcdoc`) or parameters (the path passed to `Load`).
- A `decode` that throws is modelled as an error result. The model does not
  say what the browser does with the uncaught error.
- `Number` is modelled for decimal digit strings, a leading `-` and the
  empty string. Those are the only forms the select and the layouts string
  can hold in a reachable state.
- The page's markup is not part of this model. The model takes:
  - the standard toggles come in document order html, css, js, preview;
  - no toggle carries `off` at load;
  - the select starts on a placeholder option with value `-1`.
- `updateLayouts` reads each toggle's id from its class name, which fails
  once a toggle is off. `Playground.Page.UpdateLayouts` therefore requires
  every standard toggle to be on, as it is on the only call.
- The model follows the code where a reader might expect a default or a
  guard:
  - the preview alone leaves the row template as it was;
  - a layouts token that does not decode is not replaced by a default;
  - a layouts string with no known id turns every pane off;
  - with nothing active the path encodes "" and reloads with the initial
    layouts;
  - a layouts string such as "7,1" names a catalog entry, so the select is
    assigned a value no option has and reads "".

## Findings

| source | as written | input that shows it | evidently intended | confidence | as-written member | corrected member |
|---|---|---|---|---|---|---|
| src/main.js:91-96 | `createTemplate` inserts the texts with `String.prototype.replace` and a string replacement, so `$'`, `` $` ``, `$&` and `$$` in a text are expanded | html "", css "", js `x='$'`: the script block receives `x='` followed by the document's tail, so the tail appears twice | each text is inserted literally (for example by passing a function as the replacement) | high, not executed | Preview.DollarQuoteCounterexample | Preview.Composition |

The page itself (`Playground.Page.Update` and the methods that call it)
models the code as written: its preview is `ComposeAsWritten`, which
`Preview.ComposeAgrees` shows equal to the corrected composition for texts
without `$`. The corrected composition, `Preview.CreateTemplate`, is what
`Preview.Composition` and `Preview.PlaceholderCollision` describe.
