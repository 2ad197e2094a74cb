/** The edit value object and the semantic-token decoder of the client's
    utility module. */
module Utils {
  import opened Wrappers
  import opened Json

  /** A text edit: replace the text between two (line, character)
      positions by `text`. */
  datatype DocumentContentChange = DocumentContentChange(text: string, start: (int, int), end: (int, int))

  function PositionDict(pos: (int, int)): Json {
    JObj([("line", JInt(pos.0)), ("character", JInt(pos.1))])
  }

  /** `get_dict`: the edit as a content-change object of a didChange
      notification. */
  function GetDict(c: DocumentContentChange): (j: Json)
    ensures j.JObj? && Get(j.fields, "text") == Some(JStr(c.text))
  {
    JObj([("text", JStr(c.text)),
          ("range", JObj([("start", PositionDict(c.start)), ("end", PositionDict(c.end))]))])
  }

  function PositionFromDict(j: Json): Option<(int, int)> {
    if !j.JObj? then None
    else
      var l := Get(j.fields, "line");
      var ch := Get(j.fields, "character");
      if l.Some? && l.value.JInt? && ch.Some? && ch.value.JInt? then Some((l.value.i, ch.value.i))
      else None
  }

  /** Reads a content-change object back: the receiving side of `get_dict`. */
  function ChangeFromDict(j: Json): Option<DocumentContentChange> {
    if !j.JObj? then None
    else
      var t := Get(j.fields, "text");
      var r := Get(j.fields, "range");
      if t.Some? && t.value.JStr? && r.Some? && r.value.JObj? then
        var s := Get(r.value.fields, "start");
        var e := Get(r.value.fields, "end");
        if s.Some? && e.Some? then
          var sp := PositionFromDict(s.value);
          var ep := PositionFromDict(e.value);
          if sp.Some? && ep.Some? then Some(DocumentContentChange(t.value.s, sp.value, ep.value))
          else None
        else None
      else None
  }

  /** `get_dict` loses nothing: text, start and end come back unchanged. */
  lemma ChangeFromDictOfGetDict(c: DocumentContentChange)
    ensures ChangeFromDict(GetDict(c)) == Some(c)
  {
    var r := [("start", PositionDict(c.start)), ("end", PositionDict(c.end))];
    assert Get(GetDict(c).fields, "range") == Some(JObj(r));
    assert Get(r, "end") == Some(PositionDict(c.end));
    assert Get(PositionDict(c.start).fields, "character") == Some(JInt(c.start.1));
    assert Get(PositionDict(c.end).fields, "character") == Some(JInt(c.end.1));
  }

  // ---------------------------------------------------------------------
  // Semantic tokens

  /** A decoded token: absolute line and start character, length, and the
      token type's name from the legend. */
  datatype Token = Token(line: int, character: int, length: int, tokenType: string)

  /** IndexError from the legend's list of type names, or KeyError from
      subscripting a dictionary with the type index. */
  datatype TokenError = TokenTypeIndexError(index: int) | TokenTypeKeyError(key: int)

  /** Python list indexing: negative indices count from the end. */
  function PyIndex(s: seq<string>, i: int): (r: Option<string>)
    ensures r.Some? <==> -|s| <= i < |s|
    ensures r.Some? && i >= 0 ==> r.value == s[i]
  {
    if 0 <= i < |s| then Some(s[i])
    else if -|s| <= i < 0 then Some(s[|s| + i])
    else None
  }

  /** Fields of the k-th complete group of five integers. */
  function DeltaLine(data: seq<int>, k: nat): int requires 5 * k + 5 <= |data| { data[5 * k] }
  function DeltaChar(data: seq<int>, k: nat): int requires 5 * k + 5 <= |data| { data[5 * k + 1] }
  function Length(data: seq<int>, k: nat): int requires 5 * k + 5 <= |data| { data[5 * k + 2] }
  function TypeIndex(data: seq<int>, k: nat): int requires 5 * k + 5 <= |data| { data[5 * k + 3] }

  /** The tokens of the first n groups. Each group is read against the
      position of the token before it ((0, 0) for the first): its line is the
      previous line plus the delta line; its character is the previous
      character plus the delta character on the same line, and the delta
      character itself on a new line. The fifth integer (modifiers) is never
      read. */
  function DecodeGroups(data: seq<int>, types: seq<string>, n: nat): (r: Result<seq<Token>, TokenError>)
    requires 5 * n <= |data|
    ensures r.Ok? ==> |r.value| == n
  {
    if n == 0 then Ok([])
    else match DecodeGroups(data, types, n - 1)
      case Err(e) => Err(e)
      case Ok(ts) =>
        var prev := if ts == [] then (0, 0) else (ts[|ts| - 1].line, ts[|ts| - 1].character);
        var k := n - 1;
        var line := prev.0 + DeltaLine(data, k);
        var character := if DeltaLine(data, k) == 0 then prev.1 + DeltaChar(data, k) else DeltaChar(data, k);
        match PyIndex(types, TypeIndex(data, k))
        case None => Err(TokenTypeIndexError(TypeIndex(data, k)))
        case Some(t) => Ok(ts + [Token(line, character, Length(data, k), t)])
  }

  /** `_process_semantic_tokens` as a value: one token per complete group of
      five; a trailing partial group is dropped. */
  function Decode(data: seq<int>, types: seq<string>): Result<seq<Token>, TokenError> {
    DecodeGroups(data, types, |data| / 5)
  }

  /** `_process_semantic_tokens`: the loop with its running line and
      character. */
  method ProcessSemanticTokens(data: seq<int>, types: seq<string>) returns (r: Result<seq<Token>, TokenError>)
    ensures r == Decode(data, types)
  {
    var tokens: seq<Token> := [];
    var line, character := 0, 0;
    var k := 0;
    while 5 * k + 5 <= |data|
      invariant 5 * k <= |data|
      invariant DecodeGroups(data, types, k) == Ok(tokens)
      invariant (line, character) == if tokens == [] then (0, 0) else (tokens[|tokens| - 1].line, tokens[|tokens| - 1].character)
    {
      var dLine, dChar, length, token := data[5 * k], data[5 * k + 1], data[5 * k + 2], data[5 * k + 3];
      line := line + dLine;
      character := if dLine == 0 then character + dChar else dChar;
      var t := PyIndex(types, token);
      if t.None? {
        DecodeGroupsErrPersists(data, types, k + 1, |data| / 5);
        return Err(TokenTypeIndexError(token));
      }
      tokens := tokens + [Token(line, character, length, t.value)];
      k := k + 1;
    }
    assert k == |data| / 5;
    return Ok(tokens);
  }

  /** Once a group fails, every longer decoding fails with the same error. */
  lemma {:induction false} DecodeGroupsErrPersists(data: seq<int>, types: seq<string>, m: nat, n: nat)
    requires m <= n && 5 * n <= |data|
    requires DecodeGroups(data, types, m).Err?
    ensures DecodeGroups(data, types, n) == DecodeGroups(data, types, m)
  {
    if m < n {
      DecodeGroupsErrPersists(data, types, m, n - 1);
    }
  }

  /** Sum of the delta lines of groups 0..k. */
  function LineSum(data: seq<int>, k: nat): int
    requires 5 * k + 5 <= |data|
  {
    if k == 0 then DeltaLine(data, 0) else LineSum(data, k - 1) + DeltaLine(data, k)
  }

  /** A decoded prefix is a prefix of every longer decoding. */
  lemma {:induction false} DecodeGroupsPrefix(data: seq<int>, types: seq<string>, m: nat, n: nat)
    requires m <= n && 5 * n <= |data|
    requires DecodeGroups(data, types, n).Ok?
    ensures DecodeGroups(data, types, m).Ok?
    ensures DecodeGroups(data, types, m).value == DecodeGroups(data, types, n).value[..m]
  {
    if m < n {
      DecodeGroupsPrefix(data, types, m, n - 1);
      var ts := DecodeGroups(data, types, n - 1).value;
      assert DecodeGroups(data, types, n).value[..n - 1] == ts;
      assert ts[..m] == DecodeGroups(data, types, n).value[..m];
    } else {
      assert DecodeGroups(data, types, n).value[..n] == DecodeGroups(data, types, n).value;
    }
  }

  /** What each decoded token holds, stated group by group: the line is the
      running sum of delta lines, the character follows the same-line rule,
      the length is copied and the type is looked up in the legend. */
  lemma {:induction false} DecodedToken(data: seq<int>, types: seq<string>, k: nat)
    requires Decode(data, types).Ok?
    requires k < |Decode(data, types).value|
    ensures 5 * k + 5 <= |data|
    ensures Decode(data, types).value[k].line == LineSum(data, k)
    ensures Decode(data, types).value[k].character ==
      if DeltaLine(data, k) == 0 then (if k == 0 then 0 else Decode(data, types).value[k - 1].character) + DeltaChar(data, k)
      else DeltaChar(data, k)
    ensures Decode(data, types).value[k].length == Length(data, k)
    ensures Some(Decode(data, types).value[k].tokenType) == PyIndex(types, TypeIndex(data, k))
  {
    var n := |data| / 5;
    var ts := Decode(data, types).value;
    DecodeGroupsPrefix(data, types, k + 1, n);
    var pre := DecodeGroups(data, types, k + 1).value;
    assert pre == ts[..k + 1];
    assert pre[k] == ts[k];
    DecodeGroupsLine(data, types, k + 1);
  }

  lemma {:induction false} DecodeGroupsLine(data: seq<int>, types: seq<string>, n: nat)
    requires 1 <= n && 5 * n <= |data|
    requires DecodeGroups(data, types, n).Ok?
    ensures DecodeGroups(data, types, n).value[n - 1].line == LineSum(data, n - 1)
  {
    if n > 1 {
      DecodeGroupsLine(data, types, n - 1);
    }
  }

  /** With non-negative delta lines the decoded lines never go down. */
  lemma {:induction false} DecodedLinesNonDecreasing(data: seq<int>, types: seq<string>, i: nat, j: nat)
    requires forall k :: 0 <= k < |data| / 5 ==> DeltaLine(data, k) >= 0
    requires Decode(data, types).Ok?
    requires i <= j < |Decode(data, types).value|
    ensures Decode(data, types).value[i].line <= Decode(data, types).value[j].line
  {
    DecodedToken(data, types, i);
    DecodedToken(data, types, j);
    LineSumMonotone(data, i, j);
  }

  lemma {:induction false} LineSumMonotone(data: seq<int>, i: nat, j: nat)
    requires i <= j && 5 * j + 5 <= |data|
    requires forall k :: 0 <= k < |data| / 5 ==> DeltaLine(data, k) >= 0
    ensures LineSum(data, i) <= LineSum(data, j)
  {
    if i < j {
      LineSumMonotone(data, i, j - 1);
      assert DeltaLine(data, j) >= 0;
    }
  }

  /** Only complete groups count: anything after the last one is ignored. */
  lemma {:induction false} TrailingPartialGroupIgnored(data: seq<int>, extra: seq<int>, types: seq<string>)
    requires |data| % 5 == 0 && |extra| < 5
    ensures Decode(data + extra, types) == Decode(data, types)
  {
    var n := |data| / 5;
    assert (|data| + |extra|) / 5 == n;
    DecodeGroupsPrefixData(data, extra, types, n);
  }

  lemma {:induction false} DecodeGroupsPrefixData(data: seq<int>, extra: seq<int>, types: seq<string>, n: nat)
    requires 5 * n <= |data|
    ensures DecodeGroups(data + extra, types, n) == DecodeGroups(data, types, n)
  {
    if n > 0 {
      DecodeGroupsPrefixData(data, extra, types, n - 1);
      var k := n - 1;
      assert (data + extra)[5 * k] == data[5 * k];
      assert (data + extra)[5 * k + 1] == data[5 * k + 1];
      assert (data + extra)[5 * k + 2] == data[5 * k + 2];
      assert (data + extra)[5 * k + 3] == data[5 * k + 3];
    }
  }

  // ---------------------------------------------------------------------
  // The decoder handed the whole legend object

  /** A Python dictionary key: JSON objects decode to string keys, while
      the decoder subscripts with the integer type index. */
  datatype PyKey = StrKey(name: string) | IntKey(value: int)

  /** `d[k]` on a dictionary decoded from a JSON object: the value of the
      first field whose key equals `k`; None stands for KeyError. */
  function Subscript(fields: seq<(string, Json)>, k: PyKey): (r: Option<Json>)
    ensures r.Some? <==> exists i :: 0 <= i < |fields| && StrKey(fields[i].0) == k
    ensures r.Some? ==> exists i :: 0 <= i < |fields| && StrKey(fields[i].0) == k && fields[i].1 == r.value
    decreases |fields|
  {
    if fields == [] then None
    else if StrKey(fields[0].0) == k then Some(fields[0].1)
    else
      var r := Subscript(fields[1..], k);
      assert forall i :: 0 < i < |fields| ==> fields[i] == fields[1..][i - 1];
      r
  }

  /** `_process_semantic_tokens` when `token_types` is the legend object
      itself rather than its list of type names: `types[token]`
      subscripts that dictionary, and whatever it yields is appended as
      the fourth field. */
  function DecodeGroupsWithLegendObject(data: seq<int>, legend: seq<(string, Json)>, n: nat)
    : (r: Result<seq<(int, int, int, Json)>, TokenError>)
    requires 5 * n <= |data|
    ensures r.Ok? ==> |r.value| == n
  {
    if n == 0 then Ok([])
    else match DecodeGroupsWithLegendObject(data, legend, n - 1)
      case Err(e) => Err(e)
      case Ok(ts) =>
        var prev := if ts == [] then (0, 0) else (ts[|ts| - 1].0, ts[|ts| - 1].1);
        var k := n - 1;
        var line := prev.0 + DeltaLine(data, k);
        var character := if DeltaLine(data, k) == 0 then prev.1 + DeltaChar(data, k) else DeltaChar(data, k);
        match Subscript(legend, IntKey(TypeIndex(data, k)))
        case None => Err(TokenTypeKeyError(TypeIndex(data, k)))
        case Some(t) => Ok(ts + [(line, character, Length(data, k), t)])
  }

  function DecodeWithLegendObject(data: seq<int>, legend: seq<(string, Json)>): Result<seq<(int, int, int, Json)>, TokenError> {
    DecodeGroupsWithLegendObject(data, legend, |data| / 5)
  }

  /** No string key equals an integer, so the first complete group already
      raises KeyError, whatever the legend holds. */
  lemma {:induction false} LegendObjectGroupsFail(data: seq<int>, legend: seq<(string, Json)>, n: nat)
    requires 1 <= n && 5 * n <= |data|
    ensures DecodeGroupsWithLegendObject(data, legend, n) == Err(TokenTypeKeyError(TypeIndex(data, 0)))
  {
    if n > 1 {
      LegendObjectGroupsFail(data, legend, n - 1);
    } else {
      assert Subscript(legend, IntKey(TypeIndex(data, 0))).None?;
    }
  }

  /** Decoding against the legend object succeeds, with no tokens, exactly
      when the data holds no complete group. */
  lemma LegendObjectDecodeFails(data: seq<int>, legend: seq<(string, Json)>)
    ensures DecodeWithLegendObject(data, legend).Ok? <==> |data| < 5
    ensures |data| < 5 ==> DecodeWithLegendObject(data, legend) == Ok([])
    ensures |data| >= 5 ==> DecodeWithLegendObject(data, legend) == Err(TokenTypeKeyError(data[3]))
  {
    if |data| >= 5 {
      LegendObjectGroupsFail(data, legend, |data| / 5);
    }
  }

  /** A token as a server holds it before encoding: absolute position,
      length, index into the legend, modifier bits. */
  datatype AbsoluteToken = AbsoluteToken(line: int, character: int, length: int, typeIndex: int, modifiers: int)

  /** The relative encoding of the "Semantic Tokens" section of the Language
      Server Protocol 3.17, each token against the one before it. */
  function Encode(ts: seq<AbsoluteToken>): (data: seq<int>)
    ensures |data| == 5 * |ts|
  {
    if ts == [] then [] else Encode(ts[..|ts| - 1]) + RelativeGroup(ts)
  }

  /** The group of the last token of `ts`: its line against the token
      before it, its character against that token's when both share a
      line, then length, type index and modifier bits. */
  function RelativeGroup(ts: seq<AbsoluteToken>): (g: seq<int>)
    requires ts != []
    ensures |g| == 5
  {
    var t := ts[|ts| - 1];
    var prev := if |ts| == 1 then (0, 0) else (ts[|ts| - 2].line, ts[|ts| - 2].character);
    var dLine := t.line - prev.0;
    var dChar := if dLine == 0 then t.character - prev.1 else t.character;
    [dLine, dChar, t.length, t.typeIndex, t.modifiers]
  }

  function Named(t: AbsoluteToken, types: seq<string>): Token
    requires 0 <= t.typeIndex < |types|
  {
    Token(t.line, t.character, t.length, types[t.typeIndex])
  }

  function NamedAll(ts: seq<AbsoluteToken>, types: seq<string>): (r: seq<Token>)
    requires forall i :: 0 <= i < |ts| ==> 0 <= ts[i].typeIndex < |types|
    ensures |r| == |ts|
  {
    seq(|ts|, i requires 0 <= i < |ts| => Named(ts[i], types))
  }

  /** Decoding undoes the protocol's encoding: every token comes back with
      its absolute position, its length and its type name. */
  lemma DecodeEncode(ts: seq<AbsoluteToken>, types: seq<string>)
    requires forall i :: 0 <= i < |ts| ==> 0 <= ts[i].typeIndex < |types|
    ensures Decode(Encode(ts), types) == Ok(NamedAll(ts, types))
  {
    assert |Encode(ts)| / 5 == |ts|;
    DecodeGroupsEncode(ts, types);
  }

  lemma {:induction false} DecodeGroupsEncode(ts: seq<AbsoluteToken>, types: seq<string>)
    requires forall i :: 0 <= i < |ts| ==> 0 <= ts[i].typeIndex < |types|
    ensures DecodeGroups(Encode(ts), types, |ts|) == Ok(NamedAll(ts, types))
  {
    if ts != [] {
      var init := ts[..|ts| - 1];
      assert forall i :: 0 <= i < |init| ==> init[i] == ts[i];
      DecodeGroupsEncode(init, types);
      assert Encode(ts) == Encode(init) + RelativeGroup(ts);
      if |ts| > 1 {
        assert init[|ts| - 2] == ts[|ts| - 2];
        NamedAllAt(init, types, |ts| - 2);
      }
      DecodeLastToken(ts, types, Encode(init), NamedAll(init, types));
      NamedAllSnoc(ts, types);
    }
  }

  /** Once the earlier groups decode to tokens ending at the same position
      as the earlier tokens of `ts`, the last token's group decodes to it. */
  lemma DecodeLastToken(ts: seq<AbsoluteToken>, types: seq<string>, d: seq<int>, prefix: seq<Token>)
    requires ts != [] && 0 <= ts[|ts| - 1].typeIndex < |types|
    requires |d| == 5 * (|ts| - 1) && DecodeGroups(d, types, |ts| - 1) == Ok(prefix) && |prefix| == |ts| - 1
    requires |ts| > 1 ==> prefix[|ts| - 2].line == ts[|ts| - 2].line && prefix[|ts| - 2].character == ts[|ts| - 2].character
    ensures DecodeGroups(d + RelativeGroup(ts), types, |ts|) == Ok(prefix + [Named(ts[|ts| - 1], types)])
  {
    var n := |ts|;
    var t := ts[n - 1];
    var prevLine := if n == 1 then 0 else ts[n - 2].line;
    var prevChar := if n == 1 then 0 else ts[n - 2].character;
    DecodeAppendGroup(d, RelativeGroup(ts), types, n, prefix, t, prevLine, prevChar);
  }

  /** Decoding the groups of an encoding followed by one more group. */
  lemma DecodeAppendGroup(d: seq<int>, group: seq<int>, types: seq<string>, n: nat, prefix: seq<Token>,
                          t: AbsoluteToken, prevLine: int, prevChar: int)
    requires 1 <= n && |d| == 5 * (n - 1) && |group| == 5 && 0 <= t.typeIndex < |types|
    requires DecodeGroups(d, types, n - 1) == Ok(prefix)
    requires |prefix| == n - 1
    requires n == 1 ==> prevLine == 0 && prevChar == 0
    requires n > 1 ==> prevLine == prefix[n - 2].line && prevChar == prefix[n - 2].character
    requires group[0] == t.line - prevLine
    requires group[1] == if t.line - prevLine == 0 then t.character - prevChar else t.character
    requires group[2] == t.length && group[3] == t.typeIndex
    ensures DecodeGroups(d + group, types, n) == Ok(prefix + [Named(t, types)])
  {
    DecodeGroupsPrefixData(d, group, types, n - 1);
    DecodeNextGroup(d + group, d, group, types, n, prefix, t, prevLine, prevChar);
  }

  lemma NamedAllAt(ts: seq<AbsoluteToken>, types: seq<string>, i: nat)
    requires forall j :: 0 <= j < |ts| ==> 0 <= ts[j].typeIndex < |types|
    requires i < |ts|
    ensures NamedAll(ts, types)[i] == Named(ts[i], types)
  {
  }

  /** A group holding a token's position relative to the token before it,
      its length and its type index decodes to that token. */
  lemma DecodeNextGroup(e: seq<int>, d: seq<int>, group: seq<int>, types: seq<string>, n: nat, prefix: seq<Token>,
                        t: AbsoluteToken, prevLine: int, prevChar: int)
    requires 1 <= n && e == d + group && |d| == 5 * (n - 1) && |group| == 5 && 0 <= t.typeIndex < |types|
    requires DecodeGroups(e, types, n - 1) == Ok(prefix)
    requires |prefix| == n - 1
    requires n == 1 ==> prevLine == 0 && prevChar == 0
    requires n > 1 ==> prevLine == prefix[n - 2].line && prevChar == prefix[n - 2].character
    requires group[0] == t.line - prevLine
    requires group[1] == if t.line - prevLine == 0 then t.character - prevChar else t.character
    requires group[2] == t.length && group[3] == t.typeIndex
    ensures DecodeGroups(e, types, n) == Ok(prefix + [Named(t, types)])
  {
    assert e[5 * (n - 1)] == group[0] && e[5 * (n - 1) + 1] == group[1];
    assert e[5 * (n - 1) + 2] == group[2] && e[5 * (n - 1) + 3] == group[3];
    DecodeGroupsStep(e, types, n, prefix);
  }

  lemma NamedAllSnoc(ts: seq<AbsoluteToken>, types: seq<string>)
    requires ts != [] && forall i :: 0 <= i < |ts| ==> 0 <= ts[i].typeIndex < |types|
    ensures NamedAll(ts, types) == NamedAll(ts[..|ts| - 1], types) + [Named(ts[|ts| - 1], types)]
  {
  }

  /** One step of `DecodeGroups` once the earlier groups are known. */
  lemma DecodeGroupsStep(data: seq<int>, types: seq<string>, n: nat, ts: seq<Token>)
    requires 1 <= n && 5 * n <= |data|
    requires DecodeGroups(data, types, n - 1) == Ok(ts)
    requires -|types| <= TypeIndex(data, n - 1) < |types|
    ensures var prev := if ts == [] then (0, 0) else (ts[|ts| - 1].line, ts[|ts| - 1].character);
      var k := n - 1;
      DecodeGroups(data, types, n) == Ok(ts + [Token(
        prev.0 + DeltaLine(data, k),
        if DeltaLine(data, k) == 0 then prev.1 + DeltaChar(data, k) else DeltaChar(data, k),
        Length(data, k),
        PyIndex(types, TypeIndex(data, k)).value)])
  {
  }

  /** Encoding is prefix-wise: the first `n` groups encode the first `n`
      tokens. */
  lemma {:induction false} EncodePrefix(ts: seq<AbsoluteToken>, n: nat)
    requires n <= |ts|
    ensures Encode(ts)[..5 * n] == Encode(ts[..n])
    decreases |ts|
  {
    if n < |ts| {
      var t := ts[..|ts| - 1];
      EncodePrefix(t, n);
      assert t[..n] == ts[..n];
      assert Encode(ts)[..5 * n] == Encode(t)[..5 * n];
    } else {
      assert ts[..n] == ts;
    }
  }
}
