/** The URL synchroniser: `getHashValue` reads the session from the page's
    path at start-up, and `notEmpty` with `setHashUrl` write it back after
    every change. */
module Url {
  import opened Wrappers
  import opened Text
  import opened Codec

  /** The layouts used when the path carries none (`INITIAL_LAYOUTS`). */
  const InitialLayouts := "1,2,3,4"
  /** The path prefix that switches on embedded mode. */
  const EmbedMarker := "/embed"
  /** The separator the reader splits on. */
  const ReadSeparator := "%7C"
  /** The separator the writer joins with. */
  const WriteSeparator := "|"

  /** The texts of the html, css, js and custom editors. */
  datatype Contents = Contents(html: string, css: string, js: string, custom: string)

  const NoContents := Contents("", "", "", "")

  datatype Field = LayoutsField | HtmlField | CssField | JsField | CustomField

  /** The exception that escapes `getHashValue`: `decode` failed on a field. */
  datatype LoadError = Undecodable(field: Field)

  /** What `getHashValue` establishes: the embedded flag, the layouts string
      handed to `updateLayouts`, and the editor contents it returns. */
  datatype Loaded = Loaded(embedded: bool, layouts: string, contents: Contents)

  // ---------------------------------------------------------------------------
  // reading

  /** Whether the path starts with the embed marker, and the path with that
      first occurrence of the marker removed. */
  function StripEmbed(pathname: string): (bool, string) {
    if StartsWith(pathname, EmbedMarker) then (true, pathname[|EmbedMarker|..]) else (false, pathname)
  }

  /** The page tests for the marker with `indexOf(...) === 0` and removes it
      with `replace`: that is the prefix test and the slice of `StripEmbed`. */
  lemma StripEmbedAsWritten(pathname: string)
    ensures StartsWith(pathname, EmbedMarker) <==> IndexOf(pathname, EmbedMarker) == Some(0)
    ensures StripEmbed(pathname) ==
      if IndexOf(pathname, EmbedMarker) == Some(0) then (true, ReplaceFirst(pathname, EmbedMarker, ""))
      else (false, pathname)
  {
    if StartsWith(pathname, EmbedMarker) {
      assert pathname[..0] + "" + pathname[|EmbedMarker|..] == pathname[|EmbedMarker|..];
    }
  }

  /** `pathname.slice(1).split('%7C')`. */
  function Tokens(pathname: string): seq<string> {
    Split(if |pathname| == 0 then "" else pathname[1..], ReadSeparator)
  }

  /** Destructuring the split: a missing field is `undefined`, which the page
      treats like the empty token. */
  function TokenAt(tokens: seq<string>, i: nat): string {
    if i < |tokens| then tokens[i] else ""
  }

  /** The layouts field: an empty token stands for the initial layouts and is not decoded. */
  function DecodeLayouts(codec: Codec, token: string): Option<string> {
    if |token| <= 0 then Some(InitialLayouts) else codec.decode(token)
  }

  /** A content field: an empty or missing token is the empty text and is not decoded. */
  function DecodeContent(codec: Codec, token: string): Option<string> {
    if token == "" then Some("") else codec.decode(token)
  }

  /** The layouts string `getHashValue` hands to `updateLayouts`, or `None`
      when its token does not decode. */
  function PathLayouts(codec: Codec, pathname: string): Option<string> {
    DecodeLayouts(codec, Tokens(StripEmbed(pathname).1)[0])
  }

  /** `getHashValue`: the fields are decoded in the order layouts, html, css,
      js, custom, and the first one `decode` rejects aborts the load. */
  function ParsePath(codec: Codec, pathname: string): Result<Loaded, LoadError> {
    var (embedded, rest) := StripEmbed(pathname);
    var t := Tokens(rest);
    match DecodeLayouts(codec, t[0])
    case None => Err(Undecodable(LayoutsField))
    case Some(layouts) =>
      match DecodeContent(codec, TokenAt(t, 1))
      case None => Err(Undecodable(HtmlField))
      case Some(html) =>
        match DecodeContent(codec, TokenAt(t, 2))
        case None => Err(Undecodable(CssField))
        case Some(css) =>
          match DecodeContent(codec, TokenAt(t, 3))
          case None => Err(Undecodable(JsField))
          case Some(js) =>
            match DecodeContent(codec, TokenAt(t, 4))
            case None => Err(Undecodable(CustomField))
            case Some(custom) => Ok(Loaded(embedded, layouts, Contents(html, css, js, custom)))
  }

  // ---------------------------------------------------------------------------
  // writing

  /** `notEmpty`: some editor holds text. */
  predicate NotEmpty(c: Contents) {
    |c.html| > 0 || |c.css| > 0 || |c.js| > 0 || |c.custom| > 0
  }

  /** The hash `setHashUrl` builds: the encoded layouts, followed by the four
      encoded contents only when some editor holds text. */
  function Hash(codec: Codec, layouts: string, c: Contents): string {
    codec.encode(layouts) +
      if NotEmpty(c) then
        WriteSeparator + codec.encode(c.html) + WriteSeparator + codec.encode(c.css) +
        WriteSeparator + codec.encode(c.js) + WriteSeparator + codec.encode(c.custom)
      else ""
  }

  /** The path handed to `history.replaceState`. */
  function WrittenPath(codec: Codec, layouts: string, c: Contents): string {
    "/" + Hash(codec, layouts, c)
  }

  /** The path as the browser reports it back: every `|` percent-encoded as `%7C`. */
  function EscapeBars(s: string): string {
    if s == "" then "" else (if s[0] == '|' then ReadSeparator else [s[0]]) + EscapeBars(s[1..])
  }

  /** The tokens the hash is made of, in field order. */
  function HashTokens(codec: Codec, layouts: string, c: Contents): (tokens: seq<string>) {
    if NotEmpty(c) then
      [codec.encode(layouts), codec.encode(c.html), codec.encode(c.css), codec.encode(c.js), codec.encode(c.custom)]
    else [codec.encode(layouts)]
  }

  // ---------------------------------------------------------------------------
  // properties

  lemma {:induction false} EscapeBarsAppend(a: string, b: string)
    ensures EscapeBars(a + b) == EscapeBars(a) + EscapeBars(b)
    decreases |a|
  {
    if a != "" {
      assert (a + b)[1..] == a[1..] + b;
      EscapeBarsAppend(a[1..], b);
    } else {
      assert a + b == b;
    }
  }

  lemma {:induction false} EscapeBarsPlain(s: string)
    requires '|' !in s
    ensures EscapeBars(s) == s
    decreases |s|
  {
    if s != "" {
      EscapeBarsPlain(s[1..]);
      assert [s[0]] + s[1..] == s;
    }
  }

  lemma HashIsJoin(codec: Codec, layouts: string, c: Contents)
    ensures Hash(codec, layouts, c) == Join(HashTokens(codec, layouts, c), WriteSeparator)
  {
    var t := HashTokens(codec, layouts, c);
    var b := WriteSeparator;
    if NotEmpty(c) {
      assert t[3..][1..] == t[4..] && t[2..][1..] == t[3..] && t[1..][1..] == t[2..];
      assert Join(t[3..], b) == t[3] + b + t[4];
      assert Join(t[2..], b) == t[2] + b + (t[3] + b + t[4]);
      assert Join(t[1..], b) == t[1] + b + (t[2] + b + (t[3] + b + t[4]));
      assert Join(t, b) == t[0] + b + (t[1] + b + (t[2] + b + (t[3] + b + t[4])));
    }
  }

  /** The written hash holds exactly one field when every editor is empty and
      exactly five otherwise: the encoded layouts, then html, css, js and
      custom. With nothing to store it is the encoded layouts alone. */
  lemma HashFields(codec: Codec, layouts: string, c: Contents)
    requires PathSafe(codec)
    ensures !NotEmpty(c) ==> Hash(codec, layouts, c) == codec.encode(layouts)
    ensures Split(Hash(codec, layouts, c), WriteSeparator) == HashTokens(codec, layouts, c)
    ensures |Split(Hash(codec, layouts, c), WriteSeparator)| == if NotEmpty(c) then 5 else 1
  {
    var t := HashTokens(codec, layouts, c);
    HashIsJoin(codec, layouts, c);
    assert forall k :: 0 <= k < |t| ==> '|' !in t[k];
    SplitJoin(t, WriteSeparator);
  }

  /** Escaping the bars of tokens joined with `|` joins them with `%7C`. */
  lemma {:induction false} EscapeJoin(t: seq<string>)
    requires forall k :: 0 <= k < |t| ==> '|' !in t[k]
    ensures EscapeBars(Join(t, WriteSeparator)) == Join(t, ReadSeparator)
    decreases |t|
  {
    if |t| == 1 {
      EscapeBarsPlain(t[0]);
    } else if |t| > 1 {
      var rest := Join(t[1..], WriteSeparator);
      assert Join(t, WriteSeparator) == t[0] + WriteSeparator + rest;
      EscapeBarsAppend(t[0] + WriteSeparator, rest);
      EscapeBarsAppend(t[0], WriteSeparator);
      EscapeBarsPlain(t[0]);
      EscapeSeparator();
      EscapeJoin(t[1..]);
      assert Join(t, ReadSeparator) == t[0] + ReadSeparator + Join(t[1..], ReadSeparator);
    }
  }

  /** The browser reports the written separator as the read one. */
  lemma EscapeSeparator()
    ensures EscapeBars(WriteSeparator) == ReadSeparator
  {
    assert WriteSeparator[1..] == "";
  }

  /** Once the browser has escaped the bars, the path is the tokens joined with `%7C`. */
  lemma EscapedPath(codec: Codec, layouts: string, c: Contents)
    requires PathSafe(codec)
    ensures EscapeBars(WrittenPath(codec, layouts, c))
      == "/" + Join(HashTokens(codec, layouts, c), ReadSeparator)
  {
    var t := HashTokens(codec, layouts, c);
    HashIsJoin(codec, layouts, c);
    EscapeBarsAppend("/", Hash(codec, layouts, c));
    EscapeJoin(t);
  }

  lemma EmbedAfterSlash(x: string)
    ensures StartsWith("/" + x, EmbedMarker) <==> StartsWith(x, "embed")
  {
    if |x| >= 5 {
      var head := ("/" + x)[..6];
      assert head == "/" + x[..5];
      assert head[1..] == x[..5];
      assert EmbedMarker[1..] == "embed";
    }
  }

  /** The embed marker can only begin a written path through the layouts token. */
  lemma NoEmbedMarker(t: seq<string>)
    requires |t| >= 1 && !StartsWith(t[0], "embed")
    requires forall k :: 0 <= k < |t| ==> '%' !in t[k]
    ensures !StartsWith("/" + Join(t, ReadSeparator), EmbedMarker)
  {
    var j := Join(t, ReadSeparator);
    if |t| > 1 {
      var t0 := t[0];
      assert j == t0 + (ReadSeparator + Join(t[1..], ReadSeparator));
      if |t0| >= 5 {
        assert j[..5] == t0[..5];
      } else {
        assert j[|t0|] == '%';
        assert |j| >= 5 ==> j[..5][|t0|] == '%';
      }
    }
    EmbedAfterSlash(j);
  }

  /** Round trip of the session through the URL. If the codec round-trips,
      its tokens hold no `|` or `%`, only the empty text encodes to the empty
      token, the browser reports each written `|` as `%7C`, and the encoded
      layouts do not begin with "embed", then reading the written path gives
      back the layouts (the initial layouts standing in for the empty layouts
      string) and all four contents, outside embedded mode. */
  lemma RoundTrip(codec: Codec, layouts: string, c: Contents)
    requires UrlCodec(codec)
    requires !StartsWith(codec.encode(layouts), "embed")
    ensures ParsePath(codec, EscapeBars(WrittenPath(codec, layouts, c)))
      == Ok(Loaded(false, if layouts == "" then InitialLayouts else layouts, c))
  {
    ReadBack(codec, layouts, c);
    assert codec.decode(codec.encode(layouts)) == Some(layouts);
    assert codec.encode(layouts) == "" <==> layouts == "";
    if NotEmpty(c) {
      assert codec.decode(codec.encode(c.html)) == Some(c.html);
      assert codec.decode(codec.encode(c.css)) == Some(c.css);
      assert codec.decode(codec.encode(c.js)) == Some(c.js);
      assert codec.decode(codec.encode(c.custom)) == Some(c.custom);
      assert codec.encode(c.html) == "" <==> c.html == "";
      assert codec.encode(c.css) == "" <==> c.css == "";
      assert codec.encode(c.js) == "" <==> c.js == "";
      assert codec.encode(c.custom) == "" <==> c.custom == "";
    }
  }

  /** The path the browser reports back carries no embed marker, and its
      tokens are those the hash was written from. */
  lemma ReadBack(codec: Codec, layouts: string, c: Contents)
    requires UrlCodec(codec)
    requires !StartsWith(codec.encode(layouts), "embed")
    ensures var path := EscapeBars(WrittenPath(codec, layouts, c));
      StripEmbed(path) == (false, path) && Tokens(path) == HashTokens(codec, layouts, c)
  {
    var t := HashTokens(codec, layouts, c);
    var path := EscapeBars(WrittenPath(codec, layouts, c));
    EscapedPath(codec, layouts, c);
    assert forall k :: 0 <= k < |t| ==> '%' !in t[k];
    NoEmbedMarker(t);
    assert StripEmbed(path) == (false, path);
    assert path[1..] == Join(t, ReadSeparator);
    SplitJoin(t, ReadSeparator);
  }

  /** A path that starts with the embed marker sets the embedded flag and is
      otherwise read exactly as the path that follows the marker; a path
      without the marker leaves the flag off. */
  lemma EmbedPrefix(codec: Codec, rest: string)
    requires !StartsWith(rest, EmbedMarker)
    ensures ParsePath(codec, rest).Ok? ==> !ParsePath(codec, rest).value.embedded
    ensures ParsePath(codec, EmbedMarker + rest) ==
      match ParsePath(codec, rest)
      case Ok(l) => Ok(l.(embedded := true))
      case Err(e) => Err(e)
  {
    assert (EmbedMarker + rest)[|EmbedMarker|..] == rest;
  }

  /** Whatever the codec: a path with no fields, or a bare "/", loads the
      initial layouts and empty contents; decode is never consulted. */
  lemma EmptyPath(codec: Codec)
    ensures ParsePath(codec, "") == Ok(Loaded(false, InitialLayouts, NoContents))
    ensures ParsePath(codec, "/") == Ok(Loaded(false, InitialLayouts, NoContents))
  {
    assert Split("", ReadSeparator) == [""];
  }

  /** Whatever the codec: a path holding only the layouts token loads no
      content, and absent content fields are never decoded. */
  lemma LayoutsOnlyPath(codec: Codec, token: string)
    requires '%' !in token && !StartsWith(token, "embed")
    requires token == "" || codec.decode(token).Some?
    ensures ParsePath(codec, "/" + token) ==
      Ok(Loaded(false, if token == "" then InitialLayouts else codec.decode(token).value, NoContents))
  {
    var path := "/" + token;
    assert path[1..] == token;
    NoEmbedMarker([token]);
    SplitPlainByChar(token, ReadSeparator);
  }

  /** The first undecodable content token aborts the whole load: the fields
      after it are lost even when they are well formed. */
  lemma BadFieldAbortsLoad(codec: Codec, pathname: string)
    requires var t := Tokens(StripEmbed(pathname).1);
      DecodeLayouts(codec, t[0]).Some? && TokenAt(t, 1) != "" && codec.decode(TokenAt(t, 1)).None?
    ensures ParsePath(codec, pathname) == Err(Undecodable(HtmlField))
  {
  }

  /** The layouts are applied before any content field is decoded: a load
      that succeeds applied its layouts, and one whose layouts token does not
      decode fails on that field. */
  lemma LayoutsFirst(codec: Codec, pathname: string)
    ensures ParsePath(codec, pathname).Ok? ==>
      && PathLayouts(codec, pathname) == Some(ParsePath(codec, pathname).value.layouts)
      && ParsePath(codec, pathname).value.embedded == StripEmbed(pathname).0
    ensures PathLayouts(codec, pathname).None? ==> ParsePath(codec, pathname) == Err(Undecodable(LayoutsField))
  {
  }
}
