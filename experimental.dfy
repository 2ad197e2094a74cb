/** The two pieces of the experimental widget support that are not browser
    control: the walk that collects the images embedded in a widget's
    props, and the rule that wraps an HTML fragment in a page before it is
    rendered. */
module Experimental {
  import opened Wrappers
  import opened Json
  import Search

  /** Subtrees below this depth are not searched. */
  const MAX_DEPTH: int := 20
  /** The MIME type assumed for a raw base64 string. */
  const DEFAULT_MIME: string := "image/png"
  /** A string that is not a data URL counts as base64 data only when it is
      longer than this. */
  const MIN_RAW_LENGTH: int := 100

  predicate StartsWith(s: string, p: string) {
    |p| <= |s| && s[..|p|] == p
  }

  /** `s.split(c)[0]`: the text before the first `c`, or all of `s`. */
  function Before(s: string, c: char): (r: string)
    ensures |r| <= |s| && r == s[..|r|] && c !in r
    ensures |r| < |s| ==> s[|r|] == c
  {
    match Search.Find(s, c)
    case None => s
    case Some(i) => s[..i]
  }

  /** The text after the first `c` of `s`. */
  function After(s: string, c: char): (r: string)
    requires c in s
    ensures |r| < |s| && r == s[|s| - |r|..] && s[|s| - |r| - 1] == c && c !in s[..|s| - |r| - 1]
  {
    var i := Search.Find(s, c).value;
    s[i + 1..]
  }

  // ---------------------------------------------------------------------
  // Images in widget props

  /** An image found: its MIME type and its base64 data, as the props
      hold them. */
  type Image = (Json, Json)

  /** The MIME type of a data URL's header: its piece between the first
      and the second ':', cut at the first ';'. */
  function MimeOf(header: string): string {
    if ':' in header then Before(Before(After(header, ':'), ':'), ';') else DEFAULT_MIME
  }

  /** What a string under "image" describes. A data URL gives the text
      after its first ',' as the data; its MIME type is the header's piece
      between the first and the second ':', cut at the first ';'. Any
      other string counts only when it is long. */
  function ImageOf(img: string): Option<Image> {
    if StartsWith(img, "data:") then
      match Search.Find(img, ',')
      case None => None
      case Some(i) =>
        Some((JStr(MimeOf(img[..i])), JStr(img[i + 1..])))
    else if |img| > MIN_RAW_LENGTH then Some((JStr(DEFAULT_MIME), JStr(img)))
    else None
  }

  /** The image a dictionary itself describes: its "mimeType" and
      "base64" members when it has both, else its "image" member when that
      is a string. */
  function OwnImage(fields: seq<(string, Json)>): Option<Image> {
    if HasKey(fields, "base64") && HasKey(fields, "mimeType") then
      Some((Get(fields, "mimeType").value, Get(fields, "base64").value))
    else match Get(fields, "image")
      case Some(JStr(img)) => ImageOf(img)
      case _ => None
  }

  function Listed(o: Option<Image>): seq<Image> {
    if o.Some? then [o.value] else []
  }

  /** The images `_search` collects from `obj` at `depth`, in the order it
      collects them: a dictionary's own image before those in its values,
      list items in order. */
  function Found(obj: Json, depth: int): seq<Image>
    decreases obj
  {
    if depth > MAX_DEPTH then []
    else match obj
      case JObj(fields) => Listed(OwnImage(fields)) + FoundInValues(fields, depth + 1)
      case JArr(items) => FoundInItems(items, depth + 1)
      case _ => []
  }

  function FoundInItems(items: seq<Json>, depth: int): seq<Image>
    decreases items
  {
    if items == [] then []
    else FoundInItems(items[..|items| - 1], depth) + Found(items[|items| - 1], depth)
  }

  function FoundInValues(fields: seq<(string, Json)>, depth: int): seq<Image>
    decreases fields
  {
    if fields == [] then []
    else
      var last := fields[|fields| - 1];
      assert last in fields && last.1 < last;
      FoundInValues(fields[..|fields| - 1], depth) + Found(last.1, depth)
  }

  lemma FoundUnfolds(obj: Json, depth: int)
    requires depth <= MAX_DEPTH
    ensures obj.JObj? ==> Found(obj, depth) == Listed(OwnImage(obj.fields)) + FoundInValues(obj.fields, depth + 1)
    ensures obj.JArr? ==> Found(obj, depth) == FoundInItems(obj.items, depth + 1)
    ensures !obj.JObj? && !obj.JArr? ==> Found(obj, depth) == []
  {
  }

  lemma ItemsSnoc(items: seq<Json>, i: int, depth: int)
    requires 0 <= i < |items|
    ensures FoundInItems(items[..i + 1], depth) == FoundInItems(items[..i], depth) + Found(items[i], depth)
  {
    assert items[..i + 1][..i] == items[..i];
  }

  lemma ValuesSnoc(fields: seq<(string, Json)>, i: int, depth: int)
    requires 0 <= i < |fields|
    ensures FoundInValues(fields[..i + 1], depth) == FoundInValues(fields[..i], depth) + Found(fields[i].1, depth)
  {
    assert fields[..i + 1][..i] == fields[..i];
  }

  /** The list `extract_images_from_widget_props` fills, with `_search`
      as a method that appends to it. */
  class ImageCollector {
    var images: seq<Image>

    constructor()
      ensures images == []
    {
      images := [];
    }

    /** `_search`. */
    method Search(obj: Json, depth: int)
      modifies this
      ensures images == old(images) + Found(obj, depth)
      decreases obj, 1
    {
      if depth > MAX_DEPTH {
        return;
      }
      FoundUnfolds(obj, depth);
      if obj.JObj? {
        var own := OwnImage(obj.fields);
        if own.Some? {
          images := images + [own.value];
        }
        SearchValues(obj.fields, depth + 1);
      } else if obj.JArr? {
        SearchItems(obj.items, depth + 1);
      }
    }

    /** The loop of `_search` over a dictionary's values. */
    method SearchValues(fields: seq<(string, Json)>, depth: int)
      modifies this
      ensures images == old(images) + FoundInValues(fields, depth)
      decreases fields, 0
    {
      ghost var start := images;
      for i := 0 to |fields|
        invariant images == start + FoundInValues(fields[..i], depth)
      {
        assert fields[i] in fields && fields[i].1 < fields[i];
        Search(fields[i].1, depth);
        ValuesSnoc(fields, i, depth);
      }
      assert fields[..|fields|] == fields;
    }

    /** The loop of `_search` over a list's items. */
    method SearchItems(items: seq<Json>, depth: int)
      modifies this
      ensures images == old(images) + FoundInItems(items, depth)
      decreases items, 0
    {
      ghost var start := images;
      for i := 0 to |items|
        invariant images == start + FoundInItems(items[..i], depth)
      {
        Search(items[i], depth);
        ItemsSnoc(items, i, depth);
      }
      assert items[..|items|] == items;
    }
  }

  /** `extract_images_from_widget_props`. */
  method ExtractImages(props: Json) returns (images: seq<Image>)
    ensures images == Found(props, 0)
  {
    var collector := new ImageCollector();
    collector.Search(props, 0);
    images := collector.images;
  }

  // ---------------------------------------------------------------------
  // Properties of the search

  /** `obj` inside `n` one-element lists. */
  function Nest(obj: Json, n: nat): Json {
    if n == 0 then obj else JArr([Nest(obj, n - 1)])
  }

  /** Each enclosing list costs one level of depth. */
  lemma {:induction false} NestShifts(obj: Json, n: nat, depth: int)
    ensures Found(Nest(obj, n), depth) == Found(obj, depth + n)
  {
    if n > 0 {
      var inner := Nest(obj, n - 1);
      NestShifts(obj, n - 1, depth + 1);
      if depth <= MAX_DEPTH {
        assert [inner][..0] == [];
        assert FoundInItems([inner], depth + 1) == Found(inner, depth + 1);
      } else {
        assert Found(obj, depth + n) == [];
      }
    }
  }

  /** Anything below more than `MAX_DEPTH` enclosing lists is not found;
      at exactly `MAX_DEPTH` it still is. */
  lemma DepthLimit(obj: Json, n: nat)
    ensures n > MAX_DEPTH ==> Found(Nest(obj, n), 0) == []
    ensures n == MAX_DEPTH ==> Found(Nest(obj, n), 0) == Found(obj, MAX_DEPTH)
  {
    NestShifts(obj, n, 0);
  }

  /** Lists are searched in order: the images of a concatenation are those
      of its parts, in turn. */
  lemma {:induction false} ItemsAppend(a: seq<Json>, b: seq<Json>, depth: int)
    ensures FoundInItems(a + b, depth) == FoundInItems(a, depth) + FoundInItems(b, depth)
    decreases |b|
  {
    if b != [] {
      var c := a + b;
      assert c[..|c| - 1] == a + b[..|b| - 1] && c[|c| - 1] == b[|b| - 1];
      ItemsAppend(a, b[..|b| - 1], depth);
    } else {
      assert a + b == a;
    }
  }

  /** The same for the values of a dictionary. */
  lemma {:induction false} ValuesAppend(a: seq<(string, Json)>, b: seq<(string, Json)>, depth: int)
    ensures FoundInValues(a + b, depth) == FoundInValues(a, depth) + FoundInValues(b, depth)
    decreases |b|
  {
    if b != [] {
      var c := a + b;
      assert c[..|c| - 1] == a + b[..|b| - 1] && c[|c| - 1] == b[|b| - 1];
      ValuesAppend(a, b[..|b| - 1], depth);
    } else {
      assert a + b == a;
    }
  }

  /** A dictionary with both "base64" and "mimeType" yields that pair
      before anything in its values, and its "image" member is not
      looked at. */
  lemma BothKeys(fields: seq<(string, Json)>, depth: int)
    requires depth <= MAX_DEPTH && HasKey(fields, "base64") && HasKey(fields, "mimeType")
    ensures Found(JObj(fields), depth)
      == [(Get(fields, "mimeType").value, Get(fields, "base64").value)] + FoundInValues(fields, depth + 1)
  {
  }

  /** A data URL built from a MIME type, parameters and data reads back
      as that type and that data, whatever the data holds. */
  lemma DataUrlRoundTrip(mime: string, params: string, data: string)
    requires ':' !in mime && ';' !in mime && ',' !in mime && ',' !in params
    requires params == [] || params[0] == ';'
    ensures ImageOf("data:" + mime + params + "," + data) == Some((JStr(mime), JStr(data)))
  {
    var header := "data:" + mime + params;
    assert header == "data:" + (mime + params);
    assert "data:" + mime + params + "," + data == header + [','] + data;
    DataUrlSplits(header, data);
    MimeOfBuilt(mime, params);
  }

  /** A data URL is cut at its first ','. */
  lemma DataUrlSplits(header: string, data: string)
    requires StartsWith(header, "data:") && ',' !in header
    ensures ImageOf(header + [','] + data) == Some((JStr(MimeOf(header)), JStr(data)))
  {
    var img := header + [','] + data;
    Search.FindAfter(header, ',', data);
    assert img[..|header|] == header && img[|header| + 1..] == data;
    assert img[..5] == header[..5];
  }

  /** The MIME type read from the header of a data URL built from it. */
  lemma MimeOfBuilt(mime: string, params: string)
    requires ':' !in mime && ';' !in mime
    requires params == [] || params[0] == ';'
    ensures MimeOf("data:" + mime + params) == mime
  {
    var header := "data:" + mime + params;
    assert header == "data" + [':'] + (mime + params);
    Search.FindAfter("data", ':', mime + params);
    assert After(header, ':') == mime + params;
    var b := Before(mime + params, ':');
    PrefixOfJoin(mime, params, b);
    if |b| == |mime| {
      assert b == mime;
      NoCharBefore(mime, ';');
    } else {
      assert b[|mime|] == ';';
      assert b == mime + [';'] + b[|mime| + 1..];
      Search.FindAfter(mime, ';', b[|mime| + 1..]);
    }
  }

  /** A prefix of `a + b` that is at least `a`, when `a` has no `:`. */
  lemma PrefixOfJoin(a: string, b: string, r: string)
    requires ':' !in a && r == Before(a + b, ':')
    ensures |a| <= |r| && r == a + b[..|r| - |a|]
  {
    var s := a + b;
    assert forall i :: 0 <= i < |a| ==> s[i] == a[i] && s[i] != ':';
    assert s[..|r|] == a + b[..|r| - |a|];
  }

  lemma NoCharBefore(s: string, c: char)
    requires c !in s
    ensures Before(s, c) == s
  {
  }

  /** A data URL without ',' yields nothing, and so does a short string
      that is not a data URL; every other string yields an image. */
  lemma ImageOfNone(img: string)
    ensures ImageOf(img).None? <==>
      (StartsWith(img, "data:") && ',' !in img) || (!StartsWith(img, "data:") && |img| <= MIN_RAW_LENGTH)
  {
  }

  /** A string that is not a data URL yields itself as PNG data, exactly
      when it is longer than `MIN_RAW_LENGTH`. */
  lemma RawImage(img: string)
    requires !StartsWith(img, "data:")
    ensures ImageOf(img) == Some((JStr(DEFAULT_MIME), JStr(img))) <==> |img| > MIN_RAW_LENGTH
  {
  }

  /** The header of a data URL always has a ':' (the one of "data:"), so
      the default MIME type of that branch is never used. */
  lemma DataHeaderHasColon(img: string)
    requires StartsWith(img, "data:") && ',' in img
    ensures ':' in img[..Search.Find(img, ',').value]
  {
    var i := Search.Find(img, ',').value;
    assert img[4] == ':';
    assert img[..5] == "data:";
    assert forall j :: 0 <= j < 5 ==> img[j] == "data:"[j] && img[j] != ',';
    assert i > 4;
    assert img[..i][4] == ':';
  }

  // ---------------------------------------------------------------------
  // The page `render` loads

  const DOCTYPE_TAG: string := "<!DOCTYPE"
  const HTML_TAG: string := "<html"
  /** The template's head after the doctype tag. */
  const DOCUMENT_HEAD: string :=
    " html>\n<html>\n<head>\n    <meta charset=\"utf-8\">\n    <style>\n"
    + "        body { margin: 0; padding: 8px; font-family: system-ui, sans-serif; }\n"
    + "        * { box-sizing: border-box; }\n    </style>\n</head>\n<body>"
  const DOCUMENT_PREFIX: string := DOCTYPE_TAG + DOCUMENT_HEAD
  const DOCUMENT_SUFFIX: string := "</body>\n</html>"
  const NOT_STARTED: string := "Renderer not started. Use 'with WidgetRenderer():'"

  /** Python's `str.isspace`: the characters `strip()` removes. */
  predicate IsSpace(c: char) {
    || c == ' ' || ('\t' <= c <= '\r') || ('\U{1C}' <= c <= '\U{1F}')
    || c == '\U{85}' || c == '\U{A0}' || c == '\U{1680}' || ('\U{2000}' <= c <= '\U{200A}')
    || c == '\U{2028}' || c == '\U{2029}' || c == '\U{202F}' || c == '\U{205F}' || c == '\U{3000}'
  }

  function TrimLeft(s: string): (r: string)
    ensures |r| <= |s| && r == s[|s| - |r|..]
    ensures r == [] || !IsSpace(r[0])
    ensures forall i :: 0 <= i < |s| - |r| ==> IsSpace(s[i])
  {
    if s != [] && IsSpace(s[0]) then TrimLeft(s[1..]) else s
  }

  function TrimRight(s: string): (r: string)
    ensures |r| <= |s| && r == s[..|r|]
    ensures r == [] || !IsSpace(r[|r| - 1])
    ensures forall i :: |r| <= i < |s| ==> IsSpace(s[i])
  {
    if s != [] && IsSpace(s[|s| - 1]) then TrimRight(s[..|s| - 1]) else s
  }

  /** `html.strip()`. */
  function Strip(s: string): string {
    TrimRight(TrimLeft(s))
  }

  /** HTML that `render` passes through as a whole page. */
  predicate IsDocument(html: string) {
    var t := Strip(html);
    StartsWith(t, DOCTYPE_TAG) || StartsWith(t, HTML_TAG)
  }

  /** The page `render` loads for `html`. */
  function Wrap(html: string): string {
    if IsDocument(html) then html else DOCUMENT_PREFIX + html + DOCUMENT_SUFFIX
  }

  datatype RenderError = NotStarted(message: string)

  /** What `render` sets as the page's content, or its RuntimeError when
      no page has been started; the screenshot itself is not modelled. */
  function PageContent(started: bool, html: string): (r: Result<string, RenderError>)
    ensures r.Err? <==> !started
    ensures r.Err? ==> r.error == NotStarted(NOT_STARTED)
    ensures r.Ok? ==> IsDocument(r.value)
  {
    WrapIsDocument(html);
    if !started then Err(NotStarted(NOT_STARTED)) else Ok(Wrap(html))
  }

  lemma StripUnchanged(s: string)
    requires s != [] && !IsSpace(s[0]) && !IsSpace(s[|s| - 1])
    ensures Strip(s) == s
  {
    assert TrimLeft(s) == s;
  }

  /** Text that starts with the doctype tag is a whole page, whatever
      follows the tag: `strip()` cannot cut into it. */
  lemma DoctypeIsDocument(rest: string)
    ensures IsDocument(DOCTYPE_TAG + rest)
  {
    var w := DOCTYPE_TAG + rest;
    assert w[..|DOCTYPE_TAG|] == DOCTYPE_TAG;
    StripKeepsPrefix(w, DOCTYPE_TAG);
  }

  /** `strip()` keeps a prefix that begins and ends with non-space. */
  lemma StripKeepsPrefix(w: string, p: string)
    requires p != [] && StartsWith(w, p) && !IsSpace(p[0]) && !IsSpace(p[|p| - 1])
    ensures StartsWith(Strip(w), p)
  {
    assert TrimLeft(w) == w by { assert w[0] == p[0]; }
    var t := TrimRight(w);
    assert w[|p| - 1] == p[|p| - 1];
    assert t[..|p|] == w[..|p|];
  }

  lemma Regroup(a: string, b: string, c: string, d: string)
    ensures (a + b) + c + d == a + ((b + c) + d)
  {
  }

  /** The wrapped page ends with the template's closing tag. */
  lemma EndsInTag(body: string)
    ensures var w := body + DOCUMENT_SUFFIX; w != [] && w[|w| - 1] == '>'
  {
    var w := body + DOCUMENT_SUFFIX;
    assert w[|w| - 1] == DOCUMENT_SUFFIX[|DOCUMENT_SUFFIX| - 1];
  }

  /** A wrapped fragment is a whole page. */
  lemma WrapIsDocument(html: string)
    ensures IsDocument(Wrap(html))
  {
    if !IsDocument(html) {
      var body := DOCUMENT_HEAD + html;
      var rest := body + DOCUMENT_SUFFIX;
      Regroup(DOCTYPE_TAG, DOCUMENT_HEAD, html, DOCUMENT_SUFFIX);
      EndsInTag(body);
      DoctypeIsDocument(rest);
    }
  }

  /** Wrapping twice is wrapping once. */
  lemma WrapIdempotent(html: string)
    ensures Wrap(Wrap(html)) == Wrap(html)
  {
    WrapIsDocument(html);
  }

  /** A page is passed through unchanged exactly when it is already a
      whole document; otherwise the fragment sits unchanged between the
      template's head and tail. */
  lemma WrapEmbeds(html: string)
    ensures Wrap(html) == html <==> IsDocument(html)
    ensures !IsDocument(html) ==>
      Wrap(html)[|DOCUMENT_PREFIX|..|DOCUMENT_PREFIX| + |html|] == html
  {
    if !IsDocument(html) {
      assert |Wrap(html)| > |html|;
      var w := Wrap(html);
      assert w[|DOCUMENT_PREFIX|..|DOCUMENT_PREFIX| + |html|] == html;
    }
  }
}
