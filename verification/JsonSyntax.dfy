/**
 JSON values, the concrete syntax of JSON text with all its white space, and the pure
 reading functions that `meojson::parser` computes. Reading accepts exactly the text of
 the concrete syntax and returns the value it stands for.
 */
module JsonSyntax {
  import opened Options
  import opened Texts
  import opened JsonStrings
  import opened JsonTokens

  /** `json::value`: numbers keep their text, strings their stored form, object keys are decoded. */
  datatype Value =
    | Null
    | Boolean(flag: bool)
    | Number(text: string)
    | String(raw: string)
    | Array(items: seq<Value>)
    | Object(members: map<string, Value>)

  /** Number texts follow section 6 of RFC 8259 and stored strings can stand between quotes. */
  ghost predicate ValidValue(v: Value) {
    match v
    case Null => true
    case Boolean(_) => true
    case Number(text) => IsNumber(text)
    case String(raw) => ValidRaw(raw)
    case Array(items) => forall i :: 0 <= i < |items| ==> ValidValue(items[i])
    case Object(members) => forall k :: k in members ==> ValidValue(members[k])
  }

  // ---------------------------------------------------------------- concrete syntax

  datatype Cst =
    | Scalar(value: Value)
    | EmptyArray(ws: string)
    | ArrayOf(items: Items)
    | EmptyObject(ws: string)
    | ObjectOf(members: Members)

  datatype Items =
    | LastItem(before: string, item: Cst, after: string)
    | MoreItems(before: string, item: Cst, after: string, rest: Items)

  datatype Members =
    | LastMember(before: string, key: string, afterKey: string, beforeItem: string, item: Cst, after: string)
    | MoreMembers(before: string, key: string, afterKey: string, beforeItem: string, item: Cst, after: string,
                  rest: Members)

  predicate IsScalar(v: Value) {
    !v.Array? && !v.Object?
  }

  function ScalarText(v: Value): string {
    match v
    case Null => "null"
    case Boolean(b) => if b then "true" else "false"
    case Number(text) => text
    case String(raw) => QuotedText(raw)
    case Array(_) => ""
    case Object(_) => ""
  }

  function CstText(c: Cst): string {
    match c
    case Scalar(v) => ScalarText(v)
    case EmptyArray(ws) => "[" + (ws + "]")
    case ArrayOf(items) => "[" + (ItemsText(items) + "]")
    case EmptyObject(ws) => "{" + (ws + "}")
    case ObjectOf(members) => "{" + (MembersText(members) + "}")
  }

  function ItemsText(xs: Items): string {
    match xs
    case LastItem(before, item, after) => before + (CstText(item) + after)
    case MoreItems(before, item, after, rest) => before + (CstText(item) + (after + ("," + ItemsText(rest))))
  }

  function MembersText(ms: Members): string {
    match ms
    case LastMember(before, key, afterKey, beforeItem, item, after) =>
      before + (QuotedText(key) + (afterKey + (":" + (beforeItem + (CstText(item) + after)))))
    case MoreMembers(before, key, afterKey, beforeItem, item, after, rest) =>
      before + (QuotedText(key) + (afterKey + (":" + (beforeItem
      + (CstText(item) + (after + ("," + MembersText(rest))))))))
  }

  /** The key stored for a raw key; an undecodable one becomes the empty key. */
  function DecodedKey(raw: string): string {
    if Unquoted(raw).Some? then Unquoted(raw).value else ""
  }

  /** `unordered_map::emplace`: an existing key keeps its value. */
  function Emplace(m: map<string, Value>, key: string, v: Value): map<string, Value> {
    if key in m then m else m[key := v]
  }

  /** The value that concrete syntax stands for. */
  function Meaning(c: Cst): Value {
    match c
    case Scalar(v) => v
    case EmptyArray(_) => Array([])
    case ArrayOf(items) => Array(ItemsMeaning(items))
    case EmptyObject(_) => Object(map[])
    case ObjectOf(members) => Object(MembersMeaning(members, map[]))
  }

  function ItemsMeaning(xs: Items): seq<Value> {
    match xs
    case LastItem(_, item, _) => [Meaning(item)]
    case MoreItems(_, item, _, rest) => [Meaning(item)] + ItemsMeaning(rest)
  }

  function MembersMeaning(ms: Members, acc: map<string, Value>): map<string, Value>
    decreases ms
  {
    var now := Emplace(acc, DecodedKey(ms.key), Meaning(ms.item));
    match ms
    case LastMember(_, _, _, _, _, _) => now
    case MoreMembers(_, _, _, _, _, _, rest) => MembersMeaning(rest, now)
  }

  ghost predicate ValidCst(c: Cst) {
    match c
    case Scalar(v) => IsScalar(v) && ValidValue(v)
    case EmptyArray(ws) => AllWs(ws)
    case ArrayOf(items) => ValidItems(items)
    case EmptyObject(ws) => AllWs(ws)
    case ObjectOf(members) => ValidMembers(members)
  }

  ghost predicate ValidItems(xs: Items) {
    && AllWs(xs.before) && ValidCst(xs.item) && AllWs(xs.after)
    && (xs.MoreItems? ==> ValidItems(xs.rest))
  }

  ghost predicate ValidMembers(ms: Members) {
    && AllWs(ms.before) && ValidRaw(ms.key) && AllWs(ms.afterKey)
    && AllWs(ms.beforeItem) && ValidCst(ms.item) && AllWs(ms.after)
    && (ms.MoreMembers? ==> ValidMembers(ms.rest))
  }

  // ---------------------------------------------------------------- reading

  /** A value that is neither an array nor an object, chosen by its first character. */
  function ReadScalar(text: string, i: nat): (r: Option<(Value, nat)>)
    requires i < |text|
    ensures r.Some? ==> i < r.value.1 <= |text|
  {
    match text[i]
    case 'n' => if At(text, i, "null") then Some((Null, i + 4)) else None
    case 't' => if At(text, i, "true") then Some((Boolean(true), i + 4)) else None
    case 'f' => if At(text, i, "false") then Some((Boolean(false), i + 5)) else None
    case '\"' => (match ReadString(text, i) case None => None case Some((raw, k)) => Some((String(raw), k)))
    case c =>
      if c == '-' || IsDigit(c) then
        match NumberEnd(text, i) case None => None case Some(k) => Some((Number(text[i..k]), k))
      else None
  }

  function ReadValue(text: string, i: nat): (r: Option<(Value, nat)>)
    requires i <= |text|
    ensures r.Some? ==> i < r.value.1 <= |text|
    decreases |text| - i, 0
  {
    if i == |text| then None
    else if text[i] == '[' then
      var j := SkipWs(text, i + 1);
      if !Readable(text, j) then None
      else if text[j] == ']' then Some((Array([]), j + 1))
      else
        match ReadItems(text, i + 1)
        case None => None
        case Some((vs, k)) => if text[k] == ']' then Some((Array(vs), k + 1)) else None
    else if text[i] == '{' then
      var j := SkipWs(text, i + 1);
      if !Readable(text, j) then None
      else if text[j] == '}' then Some((Object(map[]), j + 1))
      else
        match ReadMembers(text, i + 1, map[])
        case None => None
        case Some((ms, k)) => if text[k] == '}' then Some((Object(ms), k + 1)) else None
    else ReadScalar(text, i)
  }

  /** Comma-separated values, up to the first character that is neither. */
  function ReadItems(text: string, i: nat): (r: Option<(seq<Value>, nat)>)
    requires i <= |text|
    ensures r.Some? ==> i < r.value.1 < |text|
    decreases |text| - i, 1
  {
    var j := SkipWs(text, i);
    if !Readable(text, j) then None
    else
      match ReadValue(text, j)
      case None => None
      case Some((v, e)) =>
        var k := SkipWs(text, e);
        if !Readable(text, k) then None
        else if text[k] != ',' then Some(([v], k))
        else
          match ReadItems(text, k + 1)
          case None => None
          case Some((vs, m)) => Some(([v] + vs, m))
  }

  /** A key with its colon, and where its value starts. */
  function ReadKey(text: string, i: nat): (r: Option<(string, nat)>)
    requires i <= |text|
    ensures r.Some? ==> i < r.value.1 < |text|
  {
    var j := SkipWs(text, i);
    match ReadString(text, j)
    case None => None
    case Some((raw, e)) =>
      var k := SkipWs(text, e);
      if !Readable(text, k) || text[k] != ':' then None
      else
        var p := SkipWs(text, k + 1);
        if Readable(text, p) then Some((raw, p)) else None
  }

  function ReadMembers(text: string, i: nat, acc: map<string, Value>): (r: Option<(map<string, Value>, nat)>)
    requires i <= |text|
    ensures r.Some? ==> i < r.value.1 < |text|
    decreases |text| - i, 1
  {
    match ReadKey(text, i)
    case None => None
    case Some((raw, p)) =>
      match ReadValue(text, p)
      case None => None
      case Some((v, e)) =>
        var k := SkipWs(text, e);
        var now := Emplace(acc, DecodedKey(raw), v);
        if !Readable(text, k) then None
        else if text[k] != ',' then Some((now, k))
        else ReadMembers(text, k + 1, now)
  }

  /** `parser::parse`: one array or object, with nothing readable after it. */
  function ReadDocument(text: string): Option<Value> {
    var j := SkipWs(text, 0);
    if !Readable(text, j) || (text[j] != '[' && text[j] != '{') then None
    else
      match ReadValue(text, j)
      case None => None
      case Some((v, k)) => if Readable(text, SkipWs(text, k)) then None else Some(v)
  }

  // ---------------------------------------------------------------- soundness

  lemma {:induction false} ReadScalarSound(text: string, i: nat)
    requires i < |text| && ReadScalar(text, i).Some?
    ensures var (v, k) := ReadScalar(text, i).value;
            IsScalar(v) && ValidValue(v) && text[i..k] == ScalarText(v)
  {
    if text[i] == '\"' {
      ReadStringSound(text, i);
    } else if text[i] == '-' || IsDigit(text[i]) {
      NumberSound(text, i);
    }
  }

  lemma {:induction false} BracketText(text: string, i: nat, k: nat, open: string, body: string, close: string)
    requires i < k < |text| && [text[i]] == open && [text[k]] == close && text[i + 1..k] == body
    ensures text[i..k + 1] == open + (body + close)
  {
    assert text[i..k + 1] == [text[i]] + (text[i + 1..k] + [text[k]]);
  }

  lemma {:induction false} ReadValueSound(text: string, i: nat) returns (c: Cst)
    requires i <= |text| && ReadValue(text, i).Some?
    ensures var (v, k) := ReadValue(text, i).value;
            && ValidCst(c) && text[i..k] == CstText(c) && Meaning(c) == v
            && (c.Scalar? ==> text[i] != '[' && text[i] != '{')
    decreases |text| - i, 0
  {
    hide ReadScalar, SkipWs, ValidValue, AllWs, ValidItems, ValidMembers, ItemsText, MembersText,
         ItemsMeaning, MembersMeaning, ScalarText, ReadItems, ReadMembers;
    if text[i] == '[' {
      var j := SkipWs(text, i + 1);
      if text[j] == ']' {
        c := EmptyArray(text[i + 1..j]);
        BracketText(text, i, j, "[", text[i + 1..j], "]");
        WsSlice(text, i + 1);
      } else {
        var items := ReadItemsSound(text, i + 1);
        c := ArrayOf(items);
        BracketText(text, i, ReadItems(text, i + 1).value.1, "[", ItemsText(items), "]");
      }
    } else if text[i] == '{' {
      var j := SkipWs(text, i + 1);
      if text[j] == '}' {
        c := EmptyObject(text[i + 1..j]);
        BracketText(text, i, j, "{", text[i + 1..j], "}");
        WsSlice(text, i + 1);
      } else {
        var members := ReadMembersSound(text, i + 1, map[]);
        c := ObjectOf(members);
        BracketText(text, i, ReadMembers(text, i + 1, map[]).value.1, "{", MembersText(members), "}");
      }
    } else {
      ReadScalarSound(text, i);
      c := Scalar(ReadScalar(text, i).value.0);
    }
  }

  lemma {:induction false} WsSlice(text: string, i: nat)
    requires i <= |text|
    ensures AllWs(text[i..SkipWs(text, i)])
  {
    SkipWhileAll(IsWs, text, i);
  }

  lemma {:induction false} ReadItemsSound(text: string, i: nat) returns (xs: Items)
    requires i <= |text| && ReadItems(text, i).Some?
    ensures var (vs, m) := ReadItems(text, i).value;
            ValidItems(xs) && text[i..m] == ItemsText(xs) && ItemsMeaning(xs) == vs
    decreases |text| - i, 1
  {
    hide ReadValue, SkipWs, ValidCst, CstText, Meaning, AllWs;
    var j := SkipWs(text, i);
    var c := ReadValueSound(text, j);
    var e := ReadValue(text, j).value.1;
    var k := SkipWs(text, e);
    WsSlice(text, i);
    WsSlice(text, e);
    if text[k] != ',' {
      xs := LastItem(text[i..j], c, text[e..k]);
      JoinItem(text, i, j, e, k, k);
    } else {
      var rest := ReadItemsSound(text, k + 1);
      var m := ReadItems(text, k + 1).value.1;
      xs := MoreItems(text[i..j], c, text[e..k], rest);
      JoinItem(text, i, j, e, k, m);
      JoinComma(text, k, m);
    }
  }

  lemma {:induction false} JoinItem(text: string, i: nat, j: nat, e: nat, k: nat, m: nat)
    requires i <= j <= e <= k <= m <= |text|
    ensures text[i..m] == text[i..j] + (text[j..e] + (text[e..k] + text[k..m]))
    ensures text[i..k] == text[i..j] + (text[j..e] + text[e..k])
  {
    SliceJoin(text, e, k, m);
    SliceJoin(text, j, e, m);
    SliceJoin(text, i, j, m);
    SliceJoin(text, j, e, k);
    SliceJoin(text, i, j, k);
  }

  lemma {:induction false} JoinComma(text: string, k: nat, m: nat)
    requires k < m <= |text| && text[k] == ','
    ensures text[k..m] == "," + text[k + 1..m]
  {
  }

  lemma {:induction false} ReadKeySound(text: string, i: nat)
      returns (before: string, afterKey: string, beforeItem: string)
    requires i <= |text| && ReadKey(text, i).Some?
    ensures var (raw, p) := ReadKey(text, i).value;
            && AllWs(before) && AllWs(afterKey) && AllWs(beforeItem) && ValidRaw(raw)
            && text[i..p] == before + (QuotedText(raw) + (afterKey + (":" + beforeItem)))
  {
    hide ReadString, SkipWs, AllWs;
    var j := SkipWs(text, i);
    var (raw, e) := ReadString(text, j).value;
    var k := SkipWs(text, e);
    var p := SkipWs(text, k + 1);
    before, afterKey, beforeItem := text[i..j], text[e..k], text[k + 1..p];
    WsSlice(text, i);
    WsSlice(text, e);
    WsSlice(text, k + 1);
    ReadStringSound(text, j);
    JoinItem(text, i, j, e, k, p);
    assert text[k..p] == ":" + text[k + 1..p];
  }

  lemma {:induction false} ReadMembersSound(text: string, i: nat, acc: map<string, Value>) returns (ms: Members)
    requires i <= |text| && ReadMembers(text, i, acc).Some?
    ensures var (r, m) := ReadMembers(text, i, acc).value;
            ValidMembers(ms) && text[i..m] == MembersText(ms) && MembersMeaning(ms, acc) == r
    decreases |text| - i, 1
  {
    hide ReadValue, ReadKey, SkipWs, ValidCst, CstText, Meaning, AllWs, ValidRaw, QuotedText, Emplace, DecodedKey;
    var before, afterKey, beforeItem := ReadKeySound(text, i);
    var (raw, p) := ReadKey(text, i).value;
    var c := ReadValueSound(text, p);
    var (v, e) := ReadValue(text, p).value;
    var k := SkipWs(text, e);
    WsSlice(text, e);
    if text[k] != ',' {
      ms := LastMember(before, raw, afterKey, beforeItem, c, text[e..k]);
      JoinItem(text, i, p, e, k, k);
      KeyAssoc(before, QuotedText(raw), afterKey, beforeItem, CstText(c) + text[e..k]);
    } else {
      var rest := ReadMembersSound(text, k + 1, Emplace(acc, DecodedKey(raw), v));
      var m := ReadMembers(text, k + 1, Emplace(acc, DecodedKey(raw), v)).value.1;
      ms := MoreMembers(before, raw, afterKey, beforeItem, c, text[e..k], rest);
      JoinItem(text, i, p, e, k, m);
      JoinComma(text, k, m);
      KeyAssoc(before, QuotedText(raw), afterKey, beforeItem, CstText(c) + (text[e..k] + ("," + MembersText(rest))));
    }
  }

  lemma {:induction false} KeyAssoc(a: string, b: string, c: string, d: string, rest: string)
    ensures (a + (b + (c + (":" + d)))) + rest == a + (b + (c + (":" + (d + rest))))
  {
  }

  // ---------------------------------------------------------------- completeness

  /** No value's text starts with white space, NUL or a closing bracket. */
  lemma {:induction false} CstStart(c: Cst)
    requires ValidCst(c)
    ensures CstText(c) != ""
    ensures var first := CstText(c)[0];
            !IsWs(first) && first != '\0' && first != ']' && first != '}'
    ensures !c.Scalar? ==> CstText(c)[0] == '[' || CstText(c)[0] == '{'
  {
    if c.Scalar? && c.value.Number? {
      var n :| ValidParts(n) && PartsText(n) == c.value.text;
      if n.minus == "" {
        assert c.value.text[0] == n.whole[0];
      }
    }
  }

  lemma {:induction false} ReadScalarComplete(text: string, i: nat, v: Value)
    requires IsScalar(v) && ValidValue(v) && At(text, i, ScalarText(v))
    requires i + |ScalarText(v)| < |text| && EndsNumber(text[i + |ScalarText(v)|])
    ensures i < |text| && text[i] != '[' && text[i] != '{'
    ensures ReadScalar(text, i) == Some((v, i + |ScalarText(v)|))
  {
    match v
    case Null => AtChar(text, i, "null", 0);
    case Boolean(b) => AtChar(text, i, ScalarText(v), 0);
    case Number(s) => NumberAt(text, i, s);
    case String(raw) => ReadStringAt(text, i, raw);
  }

  /** White space up to a character that is none. */
  lemma {:induction false} SkipWsAt(text: string, i: nat, ws: string)
    requires At(text, i, ws) && AllWs(ws)
    requires i + |ws| < |text| && !IsWs(text[i + |ws|]) && text[i + |ws|] != '\0'
    ensures SkipWs(text, i) == i + |ws| && Readable(text, i + |ws|)
  {
    SkipWhileAt(IsWs, text, i, ws);
  }

  lemma {:induction false} WsEndsNumber(text: string, i: nat, ws: string)
    requires At(text, i, ws) && AllWs(ws)
    requires i + |ws| < |text| && EndsNumber(text[i + |ws|])
    ensures i < |text| && EndsNumber(text[i])
  {
    if ws != "" {
      AtChar(text, i, ws, 0);
      assert IsWs(ws[0]);
    }
  }

  lemma {:induction false} EmptyBracketAt(text: string, i: nat, open: string, ws: string, close: string)
    requires At(text, i, open + (ws + close)) && AllWs(ws) && |open| == |close| == 1
    requires !IsWs(close[0]) && close[0] != '\0'
    ensures i + |ws| + 2 <= |text| && text[i] == open[0]
    ensures SkipWs(text, i + 1) == i + 1 + |ws| && Readable(text, i + 1 + |ws|) && text[i + 1 + |ws|] == close[0]
  {
    AtConcat(text, i, open, ws + close);
    AtConcat(text, i + 1, ws, close);
    AtChar(text, i, open, 0);
    AtChar(text, i + 1 + |ws|, close, 0);
    SkipWsAt(text, i + 1, ws);
  }

  lemma {:induction false} BracketAt(text: string, i: nat, open: string, body: string, close: string)
    requires At(text, i, open + (body + close)) && |open| == |close| == 1
    ensures i + |body| + 2 <= |text| && text[i] == open[0]
    ensures At(text, i + 1, body) && text[i + 1 + |body|] == close[0]
  {
    AtConcat(text, i, open, body + close);
    AtConcat(text, i + 1, body, close);
    AtChar(text, i, open, 0);
    AtChar(text, i + 1 + |body|, close, 0);
  }

  lemma {:induction false} ReadValueComplete(text: string, i: nat, c: Cst)
    requires ValidCst(c) && At(text, i, CstText(c))
    requires c.Scalar? ==> i + |CstText(c)| < |text| && EndsNumber(text[i + |CstText(c)|])
    ensures ReadValue(text, i) == Some((Meaning(c), i + |CstText(c)|))
    decreases c
  {
    hide At, SkipWs, Readable, ReadItems, ReadMembers, ReadScalar, ScalarText, ValidItems, ValidMembers, AllWs,
         ValidValue, EndsNumber;
    match c
    case Scalar(v) =>
      ReadScalarComplete(text, i, v);
    case EmptyArray(ws) =>
      EmptyBracketAt(text, i, "[", ws, "]");
    case EmptyObject(ws) =>
      EmptyBracketAt(text, i, "{", ws, "}");
    case ArrayOf(items) =>
      BracketAt(text, i, "[", ItemsText(items), "]");
      ReadItemsComplete(text, i + 1, items);
    case ObjectOf(members) =>
      BracketAt(text, i, "{", MembersText(members), "}");
      ReadMembersComplete(text, i + 1, members, map[]);
  }

  /** The text of a value after white space, followed by `rest`. */
  lemma {:induction false} ReadItemAt(text: string, i: nat, before: string, c: Cst, rest: string)
    requires AllWs(before) && ValidCst(c) && At(text, i, before + (CstText(c) + rest))
    ensures var j := i + |before|;
            && SkipWs(text, i) == j && Readable(text, j) && text[j] != ']'
            && At(text, j, CstText(c)) && At(text, j + |CstText(c)|, rest)
  {
    hide At, SkipWs, AllWs, ValidCst, CstText;
    var j := i + |before|;
    AtConcat(text, i, before, CstText(c) + rest);
    AtConcat(text, j, CstText(c), rest);
    CstStart(c);
    AtChar(text, j, CstText(c), 0);
    SkipWsAt(text, i, before);
  }

  /** White space after a value up to a delimiter. */
  lemma {:induction false} AfterAt(text: string, i: nat, ws: string)
    requires AllWs(ws) && At(text, i, ws) && i + |ws| < |text|
    requires text[i + |ws|] == ',' || text[i + |ws|] == ']' || text[i + |ws|] == '}'
    ensures SkipWs(text, i) == i + |ws| && Readable(text, i + |ws|)
    ensures i < |text| && EndsNumber(text[i])
  {
    SkipWsAt(text, i, ws);
    WsEndsNumber(text, i, ws);
  }

  lemma {:induction false} CommaAt(text: string, i: nat, ws: string, rest: string)
    requires AllWs(ws) && At(text, i, ws + ("," + rest))
    ensures var k := i + |ws|;
            && SkipWs(text, i) == k && Readable(text, k) && text[k] == ',' && At(text, k + 1, rest)
    ensures i < |text| && EndsNumber(text[i])
  {
    hide At, SkipWs, AllWs, EndsNumber;
    AtConcat(text, i, ws, "," + rest);
    AtConcat(text, i + |ws|, ",", rest);
    AtChar(text, i + |ws|, ",", 0);
    AfterAt(text, i, ws);
  }

  lemma {:induction false} ReadItemsComplete(text: string, i: nat, xs: Items)
    requires ValidItems(xs) && At(text, i, ItemsText(xs))
    requires i + |ItemsText(xs)| < |text| && text[i + |ItemsText(xs)|] == ']'
    ensures ReadItems(text, i) == Some((ItemsMeaning(xs), i + |ItemsText(xs)|))
    ensures Readable(text, SkipWs(text, i)) && text[SkipWs(text, i)] != ']'
    decreases xs
  {
    hide At, SkipWs, ReadValue, ValidCst, CstText, AllWs, Meaning, EndsNumber;
    var j := i + |xs.before|;
    var e := j + |CstText(xs.item)|;
    match xs
    case LastItem(before, item, after) =>
      ReadItemAt(text, i, before, item, after);
      AfterAt(text, e, after);
      ReadValueComplete(text, j, item);
    case MoreItems(before, item, after, rest) =>
      ReadItemAt(text, i, before, item, after + ("," + ItemsText(rest)));
      CommaAt(text, e, after, ItemsText(rest));
      ReadValueComplete(text, j, item);
      ReadItemsComplete(text, e + |after| + 1, rest);
  }

  lemma {:induction false} KeyPartsAt(text: string, i: nat, before: string, q: string, afterKey: string,
                                      beforeItem: string, v: string, rest: string)
    requires At(text, i, before + (q + (afterKey + (":" + (beforeItem + (v + rest))))))
    ensures var j := i + |before|;
            var e := j + |q|;
            var k := e + |afterKey|;
            var p := k + 1 + |beforeItem|;
            && At(text, i, before) && At(text, j, q) && At(text, e, afterKey) && At(text, k, ":")
            && At(text, k + 1, beforeItem) && At(text, p, v) && At(text, p + |v|, rest)
  {
    hide At;
    var j := i + |before|;
    var e := j + |q|;
    var k := e + |afterKey|;
    AtConcat(text, i, before, q + (afterKey + (":" + (beforeItem + (v + rest)))));
    AtConcat(text, j, q, afterKey + (":" + (beforeItem + (v + rest))));
    AtConcat(text, e, afterKey, ":" + (beforeItem + (v + rest)));
    AtConcat(text, k, ":", beforeItem + (v + rest));
    AtConcat(text, k + 1, beforeItem, v + rest);
    AtConcat(text, k + 1 + |beforeItem|, v, rest);
  }

  /** The text of a member up to its value, followed by `rest`. */
  lemma {:induction false} ReadKeyAt(text: string, i: nat, before: string, raw: string, afterKey: string,
                                     beforeItem: string, c: Cst, rest: string)
    requires AllWs(before) && ValidRaw(raw) && AllWs(afterKey) && AllWs(beforeItem) && ValidCst(c)
    requires At(text, i, before + (QuotedText(raw) + (afterKey + (":" + (beforeItem + (CstText(c) + rest))))))
    ensures var p := i + |before| + |QuotedText(raw)| + |afterKey| + 1 + |beforeItem|;
            && ReadKey(text, i) == Some((raw, p)) && Readable(text, SkipWs(text, i)) && text[SkipWs(text, i)] == '\"'
            && At(text, p, CstText(c)) && At(text, p + |CstText(c)|, rest)
  {
    hide At, SkipWs, AllWs, ValidCst, CstText, ReadString, ValidRaw;
    var q := QuotedText(raw);
    var j := i + |before|;
    var e := j + |q|;
    var k := e + |afterKey|;
    var p := k + 1 + |beforeItem|;
    KeyPartsAt(text, i, before, q, afterKey, beforeItem, CstText(c), rest);
    CstStart(c);
    AtChar(text, p, CstText(c), 0);
    AtChar(text, k, ":", 0);
    ReadStringAt(text, j, raw);
    SkipWsAt(text, i, before);
    SkipWsAt(text, e, afterKey);
    SkipWsAt(text, k + 1, beforeItem);
  }

  lemma {:induction false} ReadMembersComplete(text: string, i: nat, ms: Members, acc: map<string, Value>)
    requires ValidMembers(ms) && At(text, i, MembersText(ms))
    requires i + |MembersText(ms)| < |text| && text[i + |MembersText(ms)|] == '}'
    ensures ReadMembers(text, i, acc) == Some((MembersMeaning(ms, acc), i + |MembersText(ms)|))
    ensures Readable(text, SkipWs(text, i)) && text[SkipWs(text, i)] != '}'
    decreases ms
  {
    hide At, SkipWs, ReadValue, ReadKey, ValidCst, CstText, AllWs, Meaning, ValidRaw, QuotedText, DecodedKey, Emplace,
         EndsNumber;
    var p := i + |ms.before| + |QuotedText(ms.key)| + |ms.afterKey| + 1 + |ms.beforeItem|;
    var e := p + |CstText(ms.item)|;
    match ms
    case LastMember(before, key, afterKey, beforeItem, item, after) =>
      ReadKeyAt(text, i, before, key, afterKey, beforeItem, item, after);
      AfterAt(text, e, after);
      ReadValueComplete(text, p, item);
    case MoreMembers(before, key, afterKey, beforeItem, item, after, rest) =>
      ReadKeyAt(text, i, before, key, afterKey, beforeItem, item, after + ("," + MembersText(rest)));
      CommaAt(text, e, after, MembersText(rest));
      ReadValueComplete(text, p, item);
      ReadMembersComplete(text, e + |after| + 1, rest, Emplace(acc, DecodedKey(key), Meaning(item)));
  }

  // ---------------------------------------------------------------- documents

  /** The text is one array or object between white space; a NUL ends the text early. */
  ghost predicate IsDocument(text: string, before: string, c: Cst, after: string, ignored: string) {
    && AllWs(before) && AllWs(after) && ValidCst(c) && !c.Scalar?
    && (ignored != "" ==> ignored[0] == '\0')
    && text == before + (CstText(c) + (after + ignored))
  }

  lemma {:induction false} ReadDocumentSound(text: string)
      returns (before: string, c: Cst, after: string, ignored: string)
    requires ReadDocument(text).Some?
    ensures IsDocument(text, before, c, after, ignored) && Meaning(c) == ReadDocument(text).value
  {
    hide ReadValue, AllWs, ValidCst, CstText, Meaning;
    var j := SkipWs(text, 0);
    c := ReadValueSound(text, j);
    var k := ReadValue(text, j).value.1;
    var m := SkipWs(text, k);
    before, after, ignored := text[0..j], text[k..m], text[m..];
    WsSlice(text, 0);
    WsSlice(text, k);
    SkipWhileAll(IsWs, text, k);
    JoinItem(text, 0, j, k, m, |text|);
    assert text[0..|text|] == text && text[m..|text|] == ignored;
  }

  lemma {:induction false} DocumentAt(text: string, before: string, c: Cst, after: string, ignored: string)
    requires IsDocument(text, before, c, after, ignored)
    ensures var j := |before|;
            var k := j + |CstText(c)|;
            && At(text, 0, before) && At(text, j, CstText(c)) && At(text, k, after) && At(text, k + |after|, ignored)
            && k + |after| + |ignored| == |text|
            && ValidCst(c) && !c.Scalar? && AllWs(before) && AllWs(after) && (ignored != "" ==> ignored[0] == '\0')
  {
    hide AllWs, ValidCst, CstText;
    var j := |before|;
    var k := j + |CstText(c)|;
    assert At(text, 0, text);
    hide At;
    AtConcat(text, 0, before, CstText(c) + (after + ignored));
    AtConcat(text, j, CstText(c), after + ignored);
    AtConcat(text, k, after, ignored);
  }

  lemma {:induction false} ReadDocumentComplete(text: string, before: string, c: Cst, after: string, ignored: string)
    requires IsDocument(text, before, c, after, ignored)
    ensures ReadDocument(text) == Some(Meaning(c))
  {
    hide ReadValue, ReadItems, ReadMembers, ReadScalar, AllWs, ValidCst, ValidItems, ValidMembers, Meaning, At, SkipWs,
         CstText, IsDocument;
    DocumentAt(text, before, c, after, ignored);
    var j := |before|;
    var k := j + |CstText(c)|;
    CstStart(c);
    AtChar(text, j, CstText(c), 0);
    SkipWsAt(text, 0, before);
    ReadValueComplete(text, j, c);
    AfterDocument(text, k, after, ignored);
  }

  lemma {:induction false} AfterDocument(text: string, k: nat, after: string, ignored: string)
    requires At(text, k, after) && AllWs(after) && At(text, k + |after|, ignored) && k + |after| + |ignored| == |text|
    requires ignored != "" ==> ignored[0] == '\0'
    ensures !Readable(text, SkipWs(text, k))
  {
    if ignored != "" {
      AtChar(text, k + |after|, ignored, 0);
    }
    SkipAfter(text, k, after);
  }

  lemma {:induction false} SkipAfter(text: string, i: nat, ws: string)
    requires At(text, i, ws) && AllWs(ws)
    requires i + |ws| < |text| ==> text[i + |ws|] == '\0'
    ensures !Readable(text, SkipWs(text, i))
  {
    SkipWhileAt(IsWs, text, i, ws);
  }

  /** The parser accepts exactly the documents, and returns what their syntax stands for. */
  lemma {:induction false} ReadDocumentExact(text: string, v: Value)
    ensures ReadDocument(text) == Some(v) <==>
            exists before, c, after, ignored :: IsDocument(text, before, c, after, ignored) && Meaning(c) == v
  {
    if ReadDocument(text) == Some(v) {
      var before, c, after, ignored := ReadDocumentSound(text);
      assert IsDocument(text, before, c, after, ignored) && Meaning(c) == v;
    }
    if before, c, after, ignored :| IsDocument(text, before, c, after, ignored) && Meaning(c) == v {
      ReadDocumentComplete(text, before, c, after, ignored);
    }
  }
}
