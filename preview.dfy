/** The preview compositor (`createTemplate`): the three editor texts are put
    into a fixed document skeleton by replacing one placeholder each. */
module Preview {
  import opened Wrappers
  import opened Text

  const HtmlPlaceholder := "HTML_EDITOR"
  const CssPlaceholder := "CSS_EDITOR"
  const JsPlaceholder := "JS_EDITOR"

  /** The skeleton's fixed text around its three placeholders. */
  const Head := "<!DOCTYPE html>" + "<html lang=\"en\">" + "<head> <style>"
  const StyleToBody := "</style></head>" + "<body style=\"" + "background-color: " + "#333333;\">"
  const BodyToScript := "<script>"
  const Tail := "</script>" + "</body></html>"

  /** The skeleton (`TEMPLATE`): the style block holds the css placeholder,
      the body the html placeholder followed by a script block holding the js one. */
  const Template := Head + CssPlaceholder + StyleToBody + HtmlPlaceholder + BodyToScript + JsPlaceholder + Tail

  /** `createTemplate` with each text inserted literally, as the page evidently
      intends: the html placeholder is replaced first, then the css one, then
      the js one, each at its first occurrence in the text built so far. */
  function CreateTemplate(html: string, css: string, js: string): string {
    Compose(Template, html, css, js)
  }

  function Compose(skeleton: string, html: string, css: string, js: string): string {
    ReplaceFirst(ReplaceFirst(ReplaceFirst(skeleton, HtmlPlaceholder, html), CssPlaceholder, css), JsPlaceholder, js)
  }

  // ---------------------------------------------------------------------------
  // what the page's code does: String.prototype.replace with a string replacement

  /** The text `String.prototype.replace` inserts for the replacement string
      `rep` when `matched` was found between `before` and `after`: `$$` stands
      for `$`, `$&` for the match, `` $` `` for the text before it and `$'` for
      the text after it; any other `$` is literal (there are no capture groups). */
  function Substitution(rep: string, matched: string, before: string, after: string): string
    decreases |rep|
  {
    if |rep| == 0 then ""
    else if rep[0] == '$' && |rep| >= 2 && rep[1] in "$&`'" then
      (if rep[1] == '$' then "$" else if rep[1] == '&' then matched else if rep[1] == '`' then before else after)
        + Substitution(rep[2..], matched, before, after)
    else [rep[0]] + Substitution(rep[1..], matched, before, after)
  }

  /** `s.replace(pat, rep)` as JavaScript evaluates it. */
  function ReplaceFirstExpanding(s: string, pat: string, rep: string): string {
    match IndexOf(s, pat)
    case None => s
    case Some(k) => s[..k] + Substitution(rep, pat, s[..k], s[k + |pat|..]) + s[k + |pat|..]
  }

  /** `createTemplate` as written. */
  function CreateTemplateAsWritten(html: string, css: string, js: string): string {
    ComposeAsWritten(Template, html, css, js)
  }

  function ComposeAsWritten(skeleton: string, html: string, css: string, js: string): string {
    ReplaceFirstExpanding(ReplaceFirstExpanding(ReplaceFirstExpanding(skeleton, HtmlPlaceholder, html), CssPlaceholder, css), JsPlaceholder, js)
  }

  // ---------------------------------------------------------------------------
  // properties

  /** A replacement without `$` is inserted as it is. */
  lemma {:induction false} SubstitutionPlain(rep: string, matched: string, before: string, after: string)
    requires '$' !in rep
    ensures Substitution(rep, matched, before, after) == rep
    decreases |rep|
  {
    if |rep| > 0 {
      SubstitutionPlain(rep[1..], matched, before, after);
      assert [rep[0]] + rep[1..] == rep;
    }
  }

  lemma ReplaceExpandingAt(x: string, pat: string, z: string, rep: string)
    requires pat != "" && Free(x, pat)
    requires |x| == 0 || x[|x| - 1] !in pat
    ensures ReplaceFirstExpanding(x + pat + z, pat, rep) == x + Substitution(rep, pat, x, z) + z
  {
    FirstOccurrence(x, pat, z);
    var s := x + pat + z;
    assert s[..|x|] == x;
    assert s[|x| + |pat|..] == z;
  }

  // The characters that keep the placeholders apart: the fixed parts lack
  // characters of the placeholders, and every seam between a fixed part and
  // an inserted text is an angle bracket, which no placeholder holds.

  lemma HeadFacts()
    ensures '_' !in Head && 'J' !in Head
    ensures |Head| > 0 && Head[|Head| - 1] == '>'
  {
  }

  lemma HeadLacksM()
    ensures 'M' !in Head
  {
  }

  lemma StyleToBodyFacts()
    ensures 'M' !in StyleToBody && 'J' !in StyleToBody
    ensures |StyleToBody| > 0 && StyleToBody[0] == '<' && StyleToBody[|StyleToBody| - 1] == '>'
  {
  }

  lemma BodyToScriptFacts()
    ensures 'J' !in BodyToScript
    ensures |BodyToScript| > 0 && BodyToScript[0] == '<' && BodyToScript[|BodyToScript| - 1] == '>'
  {
  }

  lemma PlaceholderFacts()
    ensures '>' !in HtmlPlaceholder && '>' !in CssPlaceholder && '>' !in JsPlaceholder && '<' !in JsPlaceholder
    ensures 'M' !in CssPlaceholder
  {
  }

  /** The html replaces the html placeholder in the body, whatever it is. */
  lemma HtmlStage(html: string)
    ensures ReplaceFirst(Template, HtmlPlaceholder, html)
      == Head + CssPlaceholder + StyleToBody + html + (BodyToScript + JsPlaceholder + Tail)
  {
    HeadLacksM();
    StyleToBodyFacts();
    PlaceholderFacts();
    var before := Head + CssPlaceholder + StyleToBody;
    assert 'M' !in before;
    FreeByChar(before, HtmlPlaceholder, 'M');
    var rest := BodyToScript + JsPlaceholder + Tail;
    assert Template == before + HtmlPlaceholder + rest;
    ReplaceFirstAt(before, HtmlPlaceholder, rest, html);
  }

  /** Then the css replaces the css placeholder in the style block, whatever the html was. */
  lemma CssStage(html: string, css: string)
    ensures ReplaceFirst(Head + CssPlaceholder + StyleToBody + html + (BodyToScript + JsPlaceholder + Tail), CssPlaceholder, css)
      == Head + css + StyleToBody + html + (BodyToScript + JsPlaceholder + Tail)
  {
    HeadFacts();
    PlaceholderFacts();
    FreeByChar(Head, CssPlaceholder, '_');
    var rest := StyleToBody + html + (BodyToScript + JsPlaceholder + Tail);
    Regroup(Head, CssPlaceholder, StyleToBody, html, BodyToScript + JsPlaceholder + Tail);
    Regroup(Head, css, StyleToBody, html, BodyToScript + JsPlaceholder + Tail);
    ReplaceFirstAt(Head, CssPlaceholder, rest, css);
  }

  /** Where the first two replacements put their text does not depend on any
      of the texts: the html goes into the body and the css into the style block. */
  lemma FirstTwoStages(html: string, css: string)
    ensures ReplaceFirst(ReplaceFirst(Template, HtmlPlaceholder, html), CssPlaceholder, css)
      == Head + css + StyleToBody + html + (BodyToScript + JsPlaceholder + Tail)
  {
    HtmlStage(html);
    CssStage(html, css);
  }

  /** The text in front of the js placeholder holds no js placeholder as long
      as neither the css nor the html does. */
  lemma {:induction false} BeforeScriptFree(html: string, css: string)
    requires Free(css, JsPlaceholder) && Free(html, JsPlaceholder)
    ensures Free(Head + css + StyleToBody + html + BodyToScript, JsPlaceholder)
  {
    HeadFacts();
    StyleToBodyFacts();
    BodyToScriptFacts();
    PlaceholderFacts();
    FreeByChar(Head, JsPlaceholder, 'J');
    FreeByChar(StyleToBody, JsPlaceholder, 'J');
    FreeByChar(BodyToScript, JsPlaceholder, 'J');
    FreeConcat(Head, css, JsPlaceholder);
    FreeConcat(Head + css, StyleToBody, JsPlaceholder);
    var left := Head + css + StyleToBody;
    assert left[|left| - 1] == StyleToBody[|StyleToBody| - 1];
    FreeConcat(left, html, JsPlaceholder);
    FreeConcat(left + html, BodyToScript, JsPlaceholder);
  }

  /** When neither the css nor the html holds the js placeholder, the preview
      document is the skeleton with the css in the style block, the html in the
      body and the js in the script block, every other character unchanged. */
  lemma Composition(html: string, css: string, js: string)
    requires Free(css, JsPlaceholder) && Free(html, JsPlaceholder)
    ensures CreateTemplate(html, css, js) == Head + css + StyleToBody + html + BodyToScript + js + Tail
  {
    FirstTwoStages(html, css);
    BeforeScriptFree(html, css);
    BodyToScriptFacts();
    PlaceholderFacts();
    var before := Head + css + StyleToBody + html + BodyToScript;
    assert before[|before| - 1] == BodyToScript[|BodyToScript| - 1];
    SplitLast(Head, css, StyleToBody, html, BodyToScript, JsPlaceholder, Tail);
    ReplaceFirstAt(before, JsPlaceholder, Tail, js);
  }

  lemma CollisionStage(html: string, js: string)
    ensures ReplaceFirst(Head + JsPlaceholder + StyleToBody + html + (BodyToScript + JsPlaceholder + Tail), JsPlaceholder, js)
      == Head + js + StyleToBody + html + BodyToScript + JsPlaceholder + Tail
  {
    HeadFacts();
    PlaceholderFacts();
    FreeByChar(Head, JsPlaceholder, 'J');
    var after := StyleToBody + html + (BodyToScript + JsPlaceholder + Tail);
    Regroup(Head, JsPlaceholder, StyleToBody, html, BodyToScript + JsPlaceholder + Tail);
    ReplaceFirstAt(Head, JsPlaceholder, after, js);
    Ungroup(Head, js, StyleToBody, html, BodyToScript, JsPlaceholder, Tail);
  }

  /** Regrouping the concatenations the stages produce. */
  lemma Regroup(a: string, b: string, c: string, d: string, e: string)
    ensures a + b + c + d + e == a + b + (c + d + e)
  {
  }

  lemma SplitLast(a: string, b: string, c: string, d: string, e: string, p: string, q: string)
    ensures a + b + c + d + (e + p + q) == a + b + c + d + e + p + q
  {
  }

  lemma Ungroup(a: string, b: string, c: string, d: string, p: string, q: string, r: string)
    ensures a + b + (c + d + (p + q + r)) == a + b + c + d + p + q + r
  {
  }

  /** The collision the page does not guard against: css that is the js
      placeholder receives the script, and the script block keeps its placeholder. */
  lemma PlaceholderCollision(html: string, js: string)
    ensures CreateTemplate(html, JsPlaceholder, js)
      == Head + js + StyleToBody + html + BodyToScript + JsPlaceholder + Tail
  {
    FirstTwoStages(html, JsPlaceholder);
    CollisionStage(html, js);
  }

  lemma ExpandingPlain(s: string, pat: string, rep: string)
    requires '$' !in rep
    ensures ReplaceFirstExpanding(s, pat, rep) == ReplaceFirst(s, pat, rep)
  {
    match IndexOf(s, pat)
    case None =>
    case Some(k) => SubstitutionPlain(rep, pat, s[..k], s[k + |pat|..]);
  }

  /** The page's code and the intended composition agree on texts without `$`. */
  lemma AsWrittenAgrees(html: string, css: string, js: string)
    requires '$' !in html && '$' !in css && '$' !in js
    ensures CreateTemplateAsWritten(html, css, js) == CreateTemplate(html, css, js)
  {
    ComposeAgrees(Template, html, css, js);
  }

  /** On any skeleton, the three expanding replacements insert texts without `$` literally. */
  lemma ComposeAgrees(skeleton: string, html: string, css: string, js: string)
    requires '$' !in html && '$' !in css && '$' !in js
    ensures ComposeAsWritten(skeleton, html, css, js) == Compose(skeleton, html, css, js)
  {
    var t1 := ReplaceFirst(skeleton, HtmlPlaceholder, html);
    ExpandingPlain(skeleton, HtmlPlaceholder, html);
    var t2 := ReplaceFirst(t1, CssPlaceholder, css);
    ExpandingPlain(t1, CssPlaceholder, css);
    ExpandingPlain(t2, JsPlaceholder, js);
  }

  /** The page's first two stages insert texts without `$` as they are. */
  lemma AsWrittenFirstTwo(html: string, css: string)
    requires '$' !in html && '$' !in css
    ensures ReplaceFirstExpanding(ReplaceFirstExpanding(Template, HtmlPlaceholder, html), CssPlaceholder, css)
      == Head + css + StyleToBody + html + (BodyToScript + JsPlaceholder + Tail)
  {
    var t1 := ReplaceFirst(Template, HtmlPlaceholder, html);
    ExpandingPlain(Template, HtmlPlaceholder, html);
    ExpandingPlain(t1, CssPlaceholder, css);
    FirstTwoStages(html, css);
  }

  /** `x='$'` as a replacement string: its `$'` stands for the text after the match. */
  lemma DollarQuote(matched: string, before: string, after: string)
    ensures Substitution("x='$'", matched, before, after) == "x='" + after
  {
    var rep := "x='$'";
    assert rep[1..] == "='$'" && rep[2..] == "'$'" && rep[3..] == "$'";
    assert Substitution("$'", matched, before, after) == after + Substitution("", matched, before, after);
  }

  /** The script `x='$'` is expanded: its `$'` becomes the text after the js placeholder. */
  lemma DollarQuoteStage(html: string, css: string)
    requires Free(css, JsPlaceholder) && Free(html, JsPlaceholder)
    ensures ReplaceFirstExpanding(Head + css + StyleToBody + html + (BodyToScript + JsPlaceholder + Tail), JsPlaceholder, "x='$'")
      == Head + css + StyleToBody + html + BodyToScript + "x='" + Tail + Tail
  {
    BeforeScriptFree(html, css);
    BodyToScriptFacts();
    PlaceholderFacts();
    var front := Head + css + StyleToBody + html + BodyToScript;
    SplitLast(Head, css, StyleToBody, html, BodyToScript, JsPlaceholder, Tail);
    assert front[|front| - 1] == BodyToScript[|BodyToScript| - 1];
    ReplaceExpandingAt(front, JsPlaceholder, Tail, "x='$'");
    DollarQuote(JsPlaceholder, front, Tail);
  }

  /** They disagree on the script `x='$'`: JavaScript reads its `$'` as "the
      text after the placeholder", so the page's preview receives `x='`
      followed by the closing tags, and then the closing tags once more. */
  lemma DollarQuoteCounterexample(html: string, css: string)
    requires Free(css, JsPlaceholder) && Free(html, JsPlaceholder)
    requires '$' !in html && '$' !in css
    ensures CreateTemplateAsWritten(html, css, "x='$'")
      == Head + css + StyleToBody + html + BodyToScript + "x='" + Tail + Tail
    ensures CreateTemplate(html, css, "x='$'")
      == Head + css + StyleToBody + html + BodyToScript + "x='$'" + Tail
    ensures CreateTemplateAsWritten(html, css, "x='$'") != CreateTemplate(html, css, "x='$'")
  {
    Composition(html, css, "x='$'");
    AsWrittenFirstTwo(html, css);
    DollarQuoteStage(html, css);
    var front := Head + css + StyleToBody + html + BodyToScript;
    var asWritten := front + "x='" + Tail + Tail;
    var intended := front + "x='$'" + Tail;
    assert asWritten[|front| + 3] == Tail[0] == '<';
    assert intended[|front| + 3] == '$';
  }
}
