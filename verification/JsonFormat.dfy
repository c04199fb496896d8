/**
 The printing loops of meojson: `to_string` and `format` of `value`, `array` and `object`,
 appending to a string and dropping the last comma. Each is proved to print the value in
 some order of its object keys; `format` with `ordered` prints every object's keys in order.
 */
module JsonFormat {
  import opened Options
  import opened JsonStrings
  import opened JsonTokens
  import opened JsonSyntax
  import opened JsonPrinter
  import opened JsonParser

  // ---------------------------------------------------------------- key order

  /** `std::string`'s order. */
  predicate Less(a: string, b: string) {
    if a == "" then b != ""
    else b != "" && (a[0] < b[0] || (a[0] == b[0] && Less(a[1..], b[1..])))
  }

  lemma {:induction false} LessTotal(a: string, b: string)
    ensures a != b ==> Less(a, b) || Less(b, a)
  {
    if a != "" && b != "" && a[0] == b[0] {
      LessTotal(a[1..], b[1..]);
      assert a == [a[0]] + a[1..] && b == [b[0]] + b[1..];
    }
  }

  lemma {:induction false} LessTransitive(a: string, b: string, c: string)
    requires Less(a, b) && Less(b, c)
    ensures Less(a, c)
  {
    if a != "" && a[0] == b[0] && b[0] == c[0] {
      LessTransitive(a[1..], b[1..], c[1..]);
    }
  }

  /** The order of the standard library: at the first difference the smaller character decides,
      and a proper prefix comes first. */
  lemma {:induction false} LessExactly(a: string, b: string)
    ensures Less(a, b) <==>
            exists k :: 0 <= k <= |a| && k < |b| && a[..k] == b[..k] && (k == |a| || a[k] < b[k])
  {
    if a != "" && b != "" && a[0] == b[0] {
      var c, d := a[1..], b[1..];
      LessExactly(c, d);
      if Less(c, d) {
        var k :| 0 <= k <= |c| && k < |d| && c[..k] == d[..k] && (k == |c| || c[k] < d[k]);
        assert a[..k + 1] == [a[0]] + c[..k] && b[..k + 1] == [b[0]] + d[..k];
      }
      if k :| 0 <= k <= |a| && k < |b| && a[..k] == b[..k] && (k == |a| || a[k] < b[k]) {
        assert k > 0;
        assert c[..k - 1] == a[..k][1..] && d[..k - 1] == b[..k][1..];
      }
    } else if b != "" {
      assert a[..0] == b[..0];
      forall k | 0 < k <= |a| && k < |b| ensures a[..k] == b[..k] ==> a[0] == b[0] {
        assert a[..k][0] == a[0] && b[..k][0] == b[0];
      }
    }
  }

  predicate Increasing(keys: seq<string>) {
    forall i, j :: 0 <= i < j < |keys| ==> Less(keys[i], keys[j])
  }

  predicate Distinct(keys: seq<string>) {
    forall i, j :: 0 <= i < j < |keys| ==> keys[i] != keys[j]
  }

  /** The keys of every object stand in increasing order. */
  predicate KeysInOrder(a: Arranged) {
    match a
    case Atom(_) => true
    case List(items) => forall i :: 0 <= i < |items| ==> KeysInOrder(items[i])
    case Dict(members) =>
      && (forall i, j :: 0 <= i < j < |members| ==> Less(members[i].key, members[j].key))
      && (forall i :: 0 <= i < |members| ==> KeysInOrder(members[i].value))
  }

  /** The iteration order of an `unordered_map`: any order at all. */
  method KeyOrder(members: map<string, Value>) returns (keys: seq<string>)
    ensures Distinct(keys) && forall k :: k in keys <==> k in members
  {
    keys := [];
    var remaining := members.Keys;
    while remaining != {}
      invariant remaining <= members.Keys
      invariant Distinct(keys) && forall k :: k in keys <==> k in members && k !in remaining
      decreases |remaining|
    {
      var k :| k in remaining;
      remaining := remaining - {k};
      keys := keys + [k];
    }
  }

  /** `std::sort` of the keys. */
  method SortKeys(keys: seq<string>) returns (sorted: seq<string>)
    requires Distinct(keys)
    ensures Increasing(sorted) && forall k :: k in sorted <==> k in keys
  {
    sorted := [];
    for i := 0 to |keys|
      invariant Increasing(sorted) && forall k :: k in sorted <==> k in keys[..i]
    {
      var key := keys[i];
      assert key !in keys[..i];
      var j := 0;
      while j < |sorted| && Less(sorted[j], key)
        invariant j <= |sorted| && forall m :: 0 <= m < j ==> Less(sorted[m], key)
      {
        j := j + 1;
      }
      InsertIncreasing(sorted, j, key);
      sorted := sorted[..j] + [key] + sorted[j..];
      assert keys[..i + 1] == keys[..i] + [key];
    }
    assert keys[..|keys|] == keys;
  }

  lemma {:induction false} InsertIncreasing(s: seq<string>, j: nat, key: string)
    requires Increasing(s) && key !in s && j <= |s|
    requires forall m :: 0 <= m < j ==> Less(s[m], key)
    requires j < |s| ==> !Less(s[j], key)
    ensures var t := s[..j] + [key] + s[j..];
            Increasing(t) && forall k :: k in t <==> k == key || k in s
  {
    var t := s[..j] + [key] + s[j..];
    assert s == s[..j] + s[j..];
    forall m | j <= m < |s| ensures Less(key, s[m]) {
      LessTotal(key, s[j]);
      if m > j {
        LessTransitive(key, s[j], s[m]);
      }
    }
    forall a, b | 0 <= a < b < |t| ensures Less(t[a], t[b]) {
      if b < j {
        assert t[a] == s[a] && t[b] == s[b];
      } else if b == j {
        assert t[a] == s[a];
      } else {
        assert t[b] == s[b - 1];
        assert a < j ==> t[a] == s[a];
        assert a > j ==> t[a] == s[a - 1];
      }
    }
    forall k ensures k in t <==> k == key || k in s {
      assert k in t <==> k in s[..j] || k == key || k in s[j..];
    }
  }

  // ---------------------------------------------------------------- the text before the closing bracket

  /** What the array loop appends: every item with a comma after it. */
  function Pieces(style: Style, n: nat, items: seq<Arranged>): string {
    if items == [] then ""
    else Open(style, n) + (PrintedText(style, n + 1, items[0]) + "," + Pieces(style, n, items[1..]))
  }

  function MemberText(style: Style, n: nat, m: Member): string {
    Open(style, n) + (QuotedText(Quoted(m.key)) + (":" + (AfterColon(style) + PrintedText(style, n + 1, m.value))))
  }

  /** What the object loop appends: every member with a comma after it. */
  function MemberPieces(style: Style, n: nat, members: seq<Member>): string {
    if members == [] then "" else MemberText(style, n, members[0]) + "," + MemberPieces(style, n, members[1..])
  }

  lemma {:induction false} PiecesAppend(style: Style, n: nat, items: seq<Arranged>, x: Arranged)
    ensures Pieces(style, n, items + [x]) ==
            Pieces(style, n, items) + (Open(style, n) + PrintedText(style, n + 1, x) + ",")
    decreases |items|
  {
    hide Open, PrintedText;
    var piece := Open(style, n) + PrintedText(style, n + 1, x) + ",";
    if items == [] {
      assert items + [x] == [x] && [x][1..] == [];
    } else {
      assert (items + [x])[1..] == items[1..] + [x];
      PiecesAppend(style, n, items[1..], x);
      var head := Open(style, n) + (PrintedText(style, n + 1, items[0]) + ",");
      assert Pieces(style, n, items + [x]) == head + (Pieces(style, n, items[1..]) + piece);
    }
  }

  lemma {:induction false} MemberPiecesAppend(style: Style, n: nat, members: seq<Member>, m: Member)
    ensures MemberPieces(style, n, members + [m]) == MemberPieces(style, n, members) + MemberText(style, n, m) + ","
    decreases |members|
  {
    hide MemberText;
    if members == [] {
      assert members + [m] == [m] && [m][1..] == [];
    } else {
      assert (members + [m])[1..] == members[1..] + [m];
      MemberPiecesAppend(style, n, members[1..], m);
    }
  }

  lemma {:induction false} CloseOne(piece: string, close: string)
    ensures var p := (piece + ",") + "";
            p != "" && p[|p| - 1] == ',' && p[..|p| - 1] + close == piece + close
  {
    var p := (piece + ",") + "";
    assert p[..|p| - 1] == piece;
  }

  lemma {:induction false} CloseMore(piece: string, q: string, close: string, rest: string)
    requires q != "" && q[|q| - 1] == ',' && q[..|q| - 1] + close == rest
    ensures var p := (piece + ",") + q;
            p != "" && p[|p| - 1] == ',' && p[..|p| - 1] + close == piece + ("," + rest)
  {
    var p := (piece + ",") + q;
    assert p[..|p| - 1] == (piece + ",") + q[..|q| - 1];
  }

  lemma {:induction false} Assoc3(a: string, b: string, c: string)
    ensures a + (b + c) == (a + b) + c
  {
  }

  lemma {:induction false} PiecesStep(style: Style, n: nat, items: seq<Arranged>)
    requires items != []
    ensures var piece := Open(style, n) + PrintedText(style, n + 1, items[0]);
            && Pieces(style, n, items) == (piece + ",") + Pieces(style, n, items[1..])
            && ItemsText(PrintedItems(style, n, items)) ==
                 if |items| == 1 then piece + Close(style, n)
                 else piece + ("," + ItemsText(PrintedItems(style, n, items[1..])))
  {
    hide Open, Close, Printed, CstText, PrintedText;
    ItemTextIs(style, n, items[0]);
    var o, t := Open(style, n), PrintedText(style, n + 1, items[0]);
    Assoc3(o, t + ",", Pieces(style, n, items[1..]));
    Assoc3(o, t, ",");
    if |items| == 1 {
      Assoc3(o, t, Close(style, n));
    } else {
      var rest := ItemsText(PrintedItems(style, n, items[1..]));
      assert "" + ("," + rest) == "," + rest;
      Assoc3(o, t, "," + rest);
    }
  }

  /** The list without its last comma, but with the line that closes it. */
  lemma {:induction false} PiecesClose(style: Style, n: nat, items: seq<Arranged>)
    requires items != []
    ensures var p := Pieces(style, n, items);
            && p != "" && p[|p| - 1] == ','
            && p[..|p| - 1] + Close(style, n) == ItemsText(PrintedItems(style, n, items))
    decreases |items|
  {
    hide Open, Close, PrintedText, ItemsText, PrintedItems;
    PiecesStep(style, n, items);
    var piece := Open(style, n) + PrintedText(style, n + 1, items[0]);
    if |items| == 1 {
      CloseOne(piece, Close(style, n));
    } else {
      PiecesClose(style, n, items[1..]);
      CloseMore(piece, Pieces(style, n, items[1..]), Close(style, n), ItemsText(PrintedItems(style, n, items[1..])));
    }
  }

  lemma {:induction false} ItemTextIs(style: Style, n: nat, a: Arranged)
    ensures PrintedText(style, n, a) == CstText(Printed(style, n, a))
    ensures PrintedText(style, n + 1, a) == CstText(Printed(style, n + 1, a))
  {
  }

  lemma {:induction false} MemberPiecesStep(style: Style, n: nat, members: seq<Member>)
    requires members != []
    ensures var m := MemberText(style, n, members[0]);
            && MemberPieces(style, n, members) == (m + ",") + MemberPieces(style, n, members[1..])
            && MembersText(PrintedMembers(style, n, members)) ==
                 if |members| == 1 then m + Close(style, n)
                 else m + ("," + MembersText(PrintedMembers(style, n, members[1..])))
  {
    hide Open, Close, Printed, CstText, PrintedText, Quoted, QuotedText, AfterColon, MemberText;
    ItemTextIs(style, n, members[0].value);
    if |members| == 1 {
      MemberTextAssoc(style, n, members[0], Close(style, n));
    } else {
      var rest := "," + MembersText(PrintedMembers(style, n, members[1..]));
      assert "" + rest == rest;
      MemberTextAssoc(style, n, members[0], "" + rest);
    }
  }

  lemma {:induction false} MemberPiecesClose(style: Style, n: nat, members: seq<Member>)
    requires members != []
    ensures var p := MemberPieces(style, n, members);
            && p != "" && p[|p| - 1] == ','
            && p[..|p| - 1] + Close(style, n) == MembersText(PrintedMembers(style, n, members))
    decreases |members|
  {
    hide Close, MemberText, MembersText, PrintedMembers;
    MemberPiecesStep(style, n, members);
    var m, close := MemberText(style, n, members[0]), Close(style, n);
    if |members| == 1 {
      CloseOne(m, close);
    } else {
      MemberPiecesClose(style, n, members[1..]);
      CloseMore(m, MemberPieces(style, n, members[1..]), close, MembersText(PrintedMembers(style, n, members[1..])));
    }
  }

  lemma {:induction false} MemberTextAssoc(style: Style, n: nat, m: Member, rest: string)
    ensures MemberText(style, n, m) + rest ==
            Open(style, n) + (QuotedText(Quoted(m.key)) + ("" + (":" + (AfterColon(style)
            + (PrintedText(style, n + 1, m.value) + rest)))))
  {
    Assoc5(Open(style, n), QuotedText(Quoted(m.key)), AfterColon(style), PrintedText(style, n + 1, m.value), rest);
  }

  lemma {:induction false} Assoc5(a: string, b: string, c: string, d: string, e: string)
    ensures (a + (b + (":" + (c + d)))) + e == a + (b + ("" + (":" + (c + (d + e)))))
  {
  }

  // ---------------------------------------------------------------- collecting members

  /** The members so far belong to the object, each in some arrangement. */
  predicate Collected(members: map<string, Value>, ms: seq<Member>, keys: seq<string>) {
    && |ms| <= |keys|
    && forall i :: 0 <= i < |ms| ==>
         ms[i].key == keys[i] && keys[i] in members && Arranges(ms[i].value, members[keys[i]])
  }

  lemma {:induction false} ForgetKeys(ms: seq<Member>, acc: map<string, Value>, k: string)
    ensures k in ForgetMembers(ms, acc) ==> k in acc || exists i :: 0 <= i < |ms| && ms[i].key == k
    decreases |ms|
  {
    if ms != [] {
      ForgetKeys(ms[1..], Emplace(acc, ms[0].key, Forget(ms[0].value)), k);
      if i :| 0 <= i < |ms[1..]| && ms[1..][i].key == k {
        assert ms[i + 1].key == k;
      }
    }
  }

  lemma {:induction false} CollectedAll(members: map<string, Value>, ms: seq<Member>, keys: seq<string>)
    requires Collected(members, ms, keys) && |ms| == |keys| && Distinct(keys)
    requires forall k :: k in keys <==> k in members
    ensures Arranges(Dict(ms), Object(members))
  {
    var r := ForgetMembers(ms, map[]);
    assert DistinctKeys(ms);
    forall k | k in members ensures k in r && r[k] == members[k] {
      var i :| 0 <= i < |keys| && keys[i] == k;
      ForgetMembersFind(ms, map[], k);
      assert ms[i].key == k;
    }
    forall k | k in r ensures k in members {
      ForgetKeys(ms, map[], k);
    }
    assert r == members;
  }

  // ---------------------------------------------------------------- to_string

  method ToString(v: Value, ghost n: nat := 0) returns (s: string, ghost a: Arranged)
    ensures IsPrint(Compact, n, v, s)
    ensures Arranges(a, v) && s == PrintedText(Compact, n, a)
    decreases v, 1
  {
    match v {
      case Null => s, a := "null", Atom(v);
      case Boolean(b) => s, a := if b then "true" else "false", Atom(v);
      case Number(text) => s, a := text, Atom(v);
      case String(raw) => s, a := "\"" + raw + "\"", Atom(v);
      case Array(_) => s, a := ArrayToString(v, n);
      case Object(_) => s, a := ObjectToString(v, n);
    }
    assert Arranges(a, v) && s == PrintedText(Compact, n, a);
  }

  method ArrayToString(v: Value, ghost n: nat) returns (str: string, ghost a: Arranged)
    requires v.Array?
    ensures IsPrint(Compact, n, v, str)
    ensures Arranges(a, v) && str == PrintedText(Compact, n, a)
    decreases v, 0
  {
    hide Arranges, PrintedText, Pieces;
    str := "[";
    ghost var list: seq<Arranged> := [];
    ListStart(Compact, n);
    for i := 0 to |v.items|
      invariant |list| == i && forall j :: 0 <= j < i ==> Arranges(list[j], v.items[j])
      invariant str == "[" + Pieces(Compact, n, list)
    {
      ghost var b;
      var t;
      t, b := ToString(v.items[i], n + 1);
      PiecesAppend(Compact, n, list, b);
      str := str + (t + ",");
      list := list + [b];
    }
    a := List(list);
    ListDone(Compact, n, list, v.items);
    if str[|str| - 1] == ',' {
      str := str[..|str| - 1];
    }
    str := str + "]";
  }

  lemma {:induction false} ListStart(style: Style, n: nat)
    ensures Pieces(style, n, []) == "" && MemberPieces(style, n, []) == ""
    ensures Open(Compact, n) == "" && Close(Compact, n) == "" && AfterColon(Compact) == ""
  {
  }

  /** The end of the array loop: dropping the last comma and closing the bracket. */
  lemma {:induction false} ListDone(style: Style, n: nat, list: seq<Arranged>, items: seq<Value>)
    requires |list| == |items| && forall j :: 0 <= j < |list| ==> Arranges(list[j], items[j])
    ensures Arranges(List(list), Array(items))
    ensures var str := "[" + Pieces(style, n, list);
            var cut := if str[|str| - 1] == ',' then str[..|str| - 1] else str;
            cut + Close(style, n) + "]" == PrintedText(style, n, List(list))
  {
    hide Open, Close, ItemsText, Pieces, Forget;
    ForgetList(list, items);
    if list == [] {
      ListStart(style, n);
    } else {
      PiecesClose(style, n, list);
      var p := Pieces(style, n, list);
      assert ("[" + p)[..|p|] == "[" + p[..|p| - 1];
    }
  }

  lemma {:induction false} ForgetList(list: seq<Arranged>, items: seq<Value>)
    requires |list| == |items| && forall j :: 0 <= j < |list| ==> Arranges(list[j], items[j])
    ensures Arranges(List(list), Array(items))
  {
    assert ForgetItems(list) == items;
  }

  /** The end of the object loop. */
  lemma {:induction false} DictDone(style: Style, n: nat, ms: seq<Member>)
    ensures var str := "{" + MemberPieces(style, n, ms);
            var cut := if str[|str| - 1] == ',' then str[..|str| - 1] else str;
            cut + Close(style, n) + "}" == PrintedText(style, n, Dict(ms))
  {
    hide Open, Close, MembersText, MemberPieces;
    if ms == [] {
      ListStart(style, n);
    } else {
      MemberPiecesClose(style, n, ms);
      var p := MemberPieces(style, n, ms);
      assert ("{" + p)[..|p|] == "{" + p[..|p| - 1];
    }
  }

  method ObjectToString(v: Value, ghost n: nat) returns (str: string, ghost a: Arranged)
    requires v.Object?
    ensures IsPrint(Compact, n, v, str)
    ensures Arranges(a, v) && str == PrintedText(Compact, n, a)
    decreases v, 0
  {
    hide Arranges, PrintedText, MemberPieces, Quoted;
    str := "{";
    ghost var ms: seq<Member> := [];
    ListStart(Compact, n);
    var keys := KeyOrder(v.members);
    for i := 0 to |keys|
      invariant |ms| == i && Collected(v.members, ms, keys)
      invariant str == "{" + MemberPieces(Compact, n, ms)
    {
      ghost var b;
      var t;
      t, b := ToString(v.members[keys[i]], n + 1);
      var key := UnescapeString(keys[i]);
      MemberPiecesAppend(Compact, n, ms, Member(keys[i], b));
      str := str + ("\"" + key + "\":" + t + ",");
      ms := ms + [Member(keys[i], b)];
    }
    a := Dict(ms);
    CollectedAll(v.members, ms, keys);
    DictDone(Compact, n, ms);
    if str[|str| - 1] == ',' {
      str := str[..|str| - 1];
    }
    str := str + "}";
  }

  // ---------------------------------------------------------------- format

  method Format(v: Value, ordered: bool, shiftStr: string, count: nat) returns (s: string, ghost a: Arranged)
    ensures IsPrint(Indented(shiftStr), count, v, s)
    ensures Arranges(a, v) && s == PrintedText(Indented(shiftStr), count, a)
    ensures ordered ==> KeysInOrder(a)
    decreases v, 1
  {
    match v {
      case Null => s, a := "null", Atom(v);
      case Boolean(b) => s, a := if b then "true" else "false", Atom(v);
      case Number(text) => s, a := text, Atom(v);
      case String(raw) => s, a := "\"" + raw + "\"", Atom(v);
      case Array(_) => s, a := ArrayFormat(v, ordered, shiftStr, count);
      case Object(_) => s, a := ObjectFormat(v, ordered, shiftStr, count);
    }
    assert Arranges(a, v) && s == PrintedText(Indented(shiftStr), count, a);
  }

  /** The loops that build the indentation. */
  method Indentation(shiftStr: string, count: nat) returns (shift: string)
    ensures shift == Repeat(shiftStr, count)
  {
    shift := "";
    for i := 0 to count
      invariant shift == Repeat(shiftStr, i)
    {
      shift := shift + shiftStr;
    }
  }

  method ArrayFormat(v: Value, ordered: bool, shiftStr: string, count: nat) returns (str: string, ghost a: Arranged)
    requires v.Array?
    ensures IsPrint(Indented(shiftStr), count, v, str)
    ensures Arranges(a, v) && str == PrintedText(Indented(shiftStr), count, a)
    ensures ordered ==> KeysInOrder(a)
    decreases v, 0
  {
    hide Arranges, PrintedText, Pieces;
    ghost var style := Indented(shiftStr);
    var shift := Indentation(shiftStr, count + 1);
    str := "[";
    ghost var list: seq<Arranged> := [];
    ListStart(style, count);
    for i := 0 to |v.items|
      invariant |list| == i && forall j :: 0 <= j < i ==> Arranges(list[j], v.items[j])
      invariant ordered ==> forall j :: 0 <= j < i ==> KeysInOrder(list[j])
      invariant str == "[" + Pieces(style, count, list)
    {
      ghost var b;
      var t;
      t, b := Format(v.items[i], ordered, shiftStr, count + 1);
      PiecesAppend(style, count, list, b);
      str := str + ("\n" + shift + t + ",");
      list := list + [b];
    }
    a := List(list);
    ListDone(style, count, list, v.items);
    if str[|str| - 1] == ',' {
      str := str[..|str| - 1];
    }
    var closing := Indentation(shiftStr, count);
    str := str + "\n" + closing + "]";
  }

  method ObjectFormat(v: Value, ordered: bool, shiftStr: string, count: nat) returns (str: string, ghost a: Arranged)
    requires v.Object?
    ensures IsPrint(Indented(shiftStr), count, v, str)
    ensures Arranges(a, v) && str == PrintedText(Indented(shiftStr), count, a)
    ensures ordered ==> KeysInOrder(a)
    decreases v, 0
  {
    hide Arranges, PrintedText, MemberPieces, MemberText, Quoted, Less, KeysInOrder, Forget, Proper;
    ghost var style := Indented(shiftStr);
    var shift := Indentation(shiftStr, count + 1);
    str := "{";
    ghost var ms: seq<Member> := [];
    ListStart(style, count);
    var keys := KeyOrder(v.members);
    if ordered {
      keys := SortKeys(keys);
      IncreasingDistinct(keys);
    }
    for i := 0 to |keys|
      invariant |ms| == i && Collected(v.members, ms, keys)
      invariant ordered ==> forall j :: 0 <= j < i ==> KeysInOrder(ms[j].value)
      invariant str == "{" + MemberPieces(style, count, ms)
    {
      ghost var b;
      var t;
      t, b := Format(v.members[keys[i]], ordered, shiftStr, count + 1);
      var key := UnescapeString(keys[i]);
      MemberPiecesAppend(style, count, ms, Member(keys[i], b));
      IndentedMemberText(shiftStr, count, Member(keys[i], b));
      str := str + ("\n" + shift + "\"" + key + "\": " + t + ",");
      ms := ms + [Member(keys[i], b)];
    }
    a := Dict(ms);
    if ordered {
      MembersInOrder(v.members, ms, keys);
    }
    CollectedAll(v.members, ms, keys);
    DictDone(style, count, ms);
    if str[|str| - 1] == ',' {
      str := str[..|str| - 1];
    }
    var closing := Indentation(shiftStr, count);
    str := str + "\n" + closing + "}";
  }

  lemma {:induction false} IndentedMemberText(shiftStr: string, n: nat, m: Member)
    ensures MemberText(Indented(shiftStr), n, m) + "," ==
            "\n" + Repeat(shiftStr, n + 1) + "\"" + Quoted(m.key) + "\": "
            + PrintedText(Indented(shiftStr), n + 1, m.value) + ","
  {
    hide PrintedText, Repeat, Quoted;
  }

  lemma {:induction false} MembersInOrder(members: map<string, Value>, ms: seq<Member>, keys: seq<string>)
    requires Collected(members, ms, keys) && Increasing(keys)
    requires forall i :: 0 <= i < |ms| ==> KeysInOrder(ms[i].value)
    ensures KeysInOrder(Dict(ms))
  {
  }

  lemma {:induction false} IncreasingDistinct(keys: seq<string>)
    requires Increasing(keys)
    ensures Distinct(keys)
  {
    forall i, j | 0 <= i < j < |keys| ensures keys[i] != keys[j] {
      LessIrreflexive(keys[i]);
    }
  }

  lemma {:induction false} LessIrreflexive(a: string)
    ensures !Less(a, a)
  {
    if a != "" {
      LessIrreflexive(a[1..]);
    }
  }

  // ---------------------------------------------------------------- ordered printing is canonical

  function KeysOf(ms: seq<Member>): (keys: seq<string>)
    ensures |keys| == |ms|
    ensures forall i :: 0 <= i < |ms| ==> keys[i] == ms[i].key
  {
    seq(|ms|, i requires 0 <= i < |ms| => ms[i].key)
  }

  lemma {:induction false} HasKey(s: seq<string>)
    ensures s == [] || exists k :: k in s
  {
    if s != [] {
      assert s[0] in s;
    }
  }

  /** A set of keys can be put in increasing order in one way only. */
  lemma {:induction false} IncreasingUnique(s: seq<string>, t: seq<string>)
    requires Increasing(s) && Increasing(t) && forall k :: k in s <==> k in t
    ensures s == t
    decreases |s|
  {
    HasKey(s);
    HasKey(t);
    if s != [] && t != [] {
      assert s[0] in t && t[0] in t;
      var i :| 0 <= i < |t| && t[i] == s[0];
      var j :| 0 <= j < |s| && s[j] == t[0];
      if i > 0 && j > 0 {
        LessTransitive(t[0], t[i], t[0]);
        LessIrreflexive(t[0]);
      }
      assert s[0] == t[0];
      LessIrreflexive(s[0]);
      IncreasingDistinct(s);
      IncreasingDistinct(t);
      forall k ensures k in s[1..] <==> k in t[1..] {
        assert k in s[1..] <==> k in s && k != s[0];
        assert k in t[1..] <==> k in t && k != t[0];
      }
      IncreasingUnique(s[1..], t[1..]);
      assert s == [s[0]] + s[1..] && t == [t[0]] + t[1..];
    }
  }

  lemma {:induction false} DictKeys(ms: seq<Member>, members: map<string, Value>)
    requires DistinctKeys(ms) && ForgetMembers(ms, map[]) == members
    ensures forall k :: k in KeysOf(ms) <==> k in members
    ensures forall i :: 0 <= i < |ms| ==> ms[i].key in members && members[ms[i].key] == Forget(ms[i].value)
  {
    forall i | 0 <= i < |ms| ensures ms[i].key in members && members[ms[i].key] == Forget(ms[i].value) {
      ForgetMembersFind(ms, map[], ms[i].key);
    }
    forall k ensures k in KeysOf(ms) <==> k in members {
      ForgetKeys(ms, map[], k);
    }
  }

  /** A value has one arrangement with all keys in order: the text of an ordered `format`
      does not depend on the iteration order of the maps. */
  lemma {:induction false} OrderedUnique(a: Arranged, b: Arranged, v: Value)
    requires Arranges(a, v) && Arranges(b, v) && KeysInOrder(a) && KeysInOrder(b)
    ensures a == b
    decreases a
  {
    match v
    case Array(items) =>
      forall i | 0 <= i < |items| ensures a.items[i] == b.items[i] {
        OrderedUnique(a.items[i], b.items[i], items[i]);
      }
      assert a.items == b.items;
    case Object(members) =>
      OrderedMembersUnique(a.members, b.members, members);
    case _ =>
  }

  lemma {:induction false} OrderedMembersUnique(ms: seq<Member>, ns: seq<Member>, members: map<string, Value>)
    requires Arranges(Dict(ms), Object(members)) && Arranges(Dict(ns), Object(members))
    requires KeysInOrder(Dict(ms)) && KeysInOrder(Dict(ns))
    ensures ms == ns
    decreases ms
  {
    DictKeys(ms, members);
    DictKeys(ns, members);
    IncreasingUnique(KeysOf(ms), KeysOf(ns));
    forall i | 0 <= i < |ms| ensures ms[i] == ns[i] {
      assert KeysOf(ms)[i] == KeysOf(ns)[i];
      OrderedUnique(ms[i].value, ns[i].value, members[ms[i].key]);
    }
  }

  // ---------------------------------------------------------------- through printer and parser

  /** Compact printing, then parsing. */
  method ToStringThenParse(v: Value) returns (r: Option<Value>)
    ensures r == Some(v) <==> ValidValue(v) && !IsScalar(v)
  {
    ghost var a;
    var text;
    text, a := ToString(v);
    r := Parser.ParseText(text);
    PrintThenParseExactly(Compact, 0, a, v);
  }

  /** Indented printing, then parsing. */
  method FormatThenParse(v: Value, ordered: bool, shiftStr: string, count: nat) returns (r: Option<Value>)
    requires AllWs(shiftStr)
    ensures r == Some(v) <==> ValidValue(v) && !IsScalar(v)
  {
    ghost var a;
    var text;
    text, a := Format(v, ordered, shiftStr, count);
    r := Parser.ParseText(text);
    PrintThenParseExactly(Indented(shiftStr), count, a, v);
  }

  /** Parsing, printing and parsing again. */
  method ParsePrintParse(content: string) returns (first: Option<Value>, second: Option<Value>)
    ensures second == first == ReadDocument(content)
  {
    first := Parser.ParseText(content);
    second := None;
    if first.Some? {
      ParsedIsValid(content);
      second := ToStringThenParse(first.value);
    }
  }
}
