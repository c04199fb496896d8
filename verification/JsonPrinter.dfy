/**
 The two printers of meojson, compact `to_string` and indented `format`, and their
 relation to the parser: whatever the order of object keys and whatever the indentation,
 the printed text is read back as the value printed.
 */
module JsonPrinter {
  import opened Options
  import opened JsonStrings
  import opened JsonTokens
  import opened JsonSyntax

  // ---------------------------------------------------------------- arrangements

  /** A value with an order for the members of every object. */
  datatype Arranged =
    | Atom(value: Value)
    | List(items: seq<Arranged>)
    | Dict(members: seq<Member>)

  datatype Member = Member(key: string, value: Arranged)

  function Forget(a: Arranged): Value
    decreases a, 0
  {
    match a
    case Atom(v) => v
    case List(items) => Array(ForgetItems(items))
    case Dict(members) => Object(ForgetMembers(members, map[]))
  }

  function ForgetItems(items: seq<Arranged>): (r: seq<Value>)
    ensures |r| == |items| && forall i :: 0 <= i < |r| ==> r[i] == Forget(items[i])
    decreases items, 1
  {
    if items == [] then [] else [Forget(items[0])] + ForgetItems(items[1..])
  }

  function ForgetMembers(members: seq<Member>, acc: map<string, Value>): map<string, Value>
    decreases members, 1
  {
    if members == [] then acc
    else ForgetMembers(members[1..], Emplace(acc, members[0].key, Forget(members[0].value)))
  }

  /** Every atom is a scalar and no object lists a key twice. */
  predicate Proper(a: Arranged) {
    match a
    case Atom(v) => IsScalar(v)
    case List(items) => forall i :: 0 <= i < |items| ==> Proper(items[i])
    case Dict(members) => DistinctKeys(members) && forall i :: 0 <= i < |members| ==> Proper(members[i].value)
  }

  predicate DistinctKeys(members: seq<Member>) {
    forall i, j :: 0 <= i < j < |members| ==> members[i].key != members[j].key
  }

  /** An order in which the value's objects may be traversed. */
  predicate Arranges(a: Arranged, v: Value) {
    Proper(a) && Forget(a) == v
  }

  lemma {:induction false} ForgetMembersAppend(ms: seq<Member>, m: Member, acc: map<string, Value>)
    ensures ForgetMembers(ms + [m], acc) == Emplace(ForgetMembers(ms, acc), m.key, Forget(m.value))
    decreases |ms|
  {
    hide Emplace;
    if ms == [] {
      assert ms + [m] == [m] && [m][1..] == [];
    } else {
      assert (ms + [m])[1..] == ms[1..] + [m];
      ForgetMembersAppend(ms[1..], m, Emplace(acc, ms[0].key, Forget(ms[0].value)));
    }
  }

  /** With distinct keys, every member's value is in the map. */
  lemma {:induction false} ForgetMembersFind(ms: seq<Member>, acc: map<string, Value>, k: string)
    requires DistinctKeys(ms) && forall i :: 0 <= i < |ms| ==> ms[i].key !in acc
    ensures k in acc ==> k in ForgetMembers(ms, acc) && ForgetMembers(ms, acc)[k] == acc[k]
    ensures forall i :: 0 <= i < |ms| && ms[i].key == k ==>
              k in ForgetMembers(ms, acc) && ForgetMembers(ms, acc)[k] == Forget(ms[i].value)
    decreases |ms|
  {
    if ms != [] {
      var tail := ms[1..];
      assert forall i :: 0 <= i < |tail| ==> tail[i] == ms[i + 1];
      ForgetMembersFind(tail, Emplace(acc, ms[0].key, Forget(ms[0].value)), k);
    }
  }

  // ---------------------------------------------------------------- layout

  datatype Style = Compact | Indented(shift: string)

  function Repeat(s: string, n: nat): string {
    if n == 0 then "" else Repeat(s, n - 1) + s
  }

  /** What stands before each item at nesting depth n. */
  function Open(style: Style, n: nat): string {
    if style.Compact? then "" else "\n" + Repeat(style.shift, n + 1)
  }

  /** What stands before the closing bracket. */
  function Close(style: Style, n: nat): string {
    if style.Compact? then "" else "\n" + Repeat(style.shift, n)
  }

  function AfterColon(style: Style): string {
    if style.Compact? then "" else " "
  }

  /** The concrete syntax of a printed value. */
  function Printed(style: Style, n: nat, a: Arranged): Cst
    decreases a, 0
  {
    match a
    case Atom(v) => Scalar(v)
    case List(items) =>
      if items == [] then EmptyArray(Close(style, n)) else ArrayOf(PrintedItems(style, n, items))
    case Dict(members) =>
      if members == [] then EmptyObject(Close(style, n)) else ObjectOf(PrintedMembers(style, n, members))
  }

  function PrintedItems(style: Style, n: nat, items: seq<Arranged>): Items
    requires items != []
    decreases items, 1
  {
    var c := Printed(style, n + 1, items[0]);
    if |items| == 1 then LastItem(Open(style, n), c, Close(style, n))
    else MoreItems(Open(style, n), c, "", PrintedItems(style, n, items[1..]))
  }

  function PrintedMembers(style: Style, n: nat, members: seq<Member>): Members
    requires members != []
    decreases members, 1
  {
    var key := Quoted(members[0].key);
    var c := Printed(style, n + 1, members[0].value);
    if |members| == 1 then LastMember(Open(style, n), key, "", AfterColon(style), c, Close(style, n))
    else MoreMembers(Open(style, n), key, "", AfterColon(style), c, "", PrintedMembers(style, n, members[1..]))
  }

  function PrintedText(style: Style, n: nat, a: Arranged): string {
    CstText(Printed(style, n, a))
  }

  /** The text prints the value in some order of its object keys. */
  ghost predicate IsPrint(style: Style, n: nat, v: Value, text: string) {
    exists a :: Arranges(a, v) && text == PrintedText(style, n, a)
  }

  // ---------------------------------------------------------------- the printed syntax

  lemma {:induction false} PrintedMeaning(style: Style, n: nat, a: Arranged)
    ensures Meaning(Printed(style, n, a)) == Forget(a)
    decreases a, 0
  {
    match a
    case Atom(_) =>
    case List(items) => if items != [] { PrintedItemsMeaning(style, n, items); }
    case Dict(members) => if members != [] { PrintedMembersMeaning(style, n, members, map[]); }
  }

  lemma {:induction false} PrintedItemsMeaning(style: Style, n: nat, items: seq<Arranged>)
    requires items != []
    ensures ItemsMeaning(PrintedItems(style, n, items)) == ForgetItems(items)
    decreases items, 1
  {
    hide Printed, Meaning, Forget;
    PrintedMeaning(style, n + 1, items[0]);
    if |items| > 1 {
      PrintedItemsMeaning(style, n, items[1..]);
    }
  }

  lemma {:induction false} PrintedMembersMeaning(style: Style, n: nat, members: seq<Member>, acc: map<string, Value>)
    requires members != []
    ensures MembersMeaning(PrintedMembers(style, n, members), acc) == ForgetMembers(members, acc)
    decreases members, 1
  {
    hide Printed, Meaning, Forget, Emplace, Quoted;
    PrintedMeaning(style, n + 1, members[0].value);
    QuotedRoundTrip(members[0].key);
    if |members| > 1 {
      PrintedMembersMeaning(style, n, members[1..], Emplace(acc, members[0].key, Forget(members[0].value)));
    }
  }

  predicate BlankStyle(style: Style) {
    style.Indented? ==> AllWs(style.shift)
  }

  lemma {:induction false} RepeatBlank(s: string, n: nat)
    requires AllWs(s)
    ensures AllWs(Repeat(s, n))
  {
    if n > 0 {
      RepeatBlank(s, n - 1);
    }
  }

  lemma {:induction false} StyleBlank(style: Style, n: nat)
    requires BlankStyle(style)
    ensures AllWs(Open(style, n)) && AllWs(Close(style, n)) && AllWs(AfterColon(style)) && AllWs("")
  {
    if style.Indented? {
      RepeatBlank(style.shift, n + 1);
      RepeatBlank(style.shift, n);
    }
  }

  lemma {:induction false} PrintedValid(style: Style, n: nat, a: Arranged)
    requires BlankStyle(style) && Proper(a) && ValidValue(Forget(a))
    ensures ValidCst(Printed(style, n, a))
    decreases a, 0
  {
    StyleBlank(style, n);
    match a
    case Atom(_) =>
    case List(items) =>
      if items != [] {
        forall i | 0 <= i < |items| ensures ValidValue(Forget(items[i])) {
          assert ForgetItems(items)[i] == Forget(items[i]);
        }
        PrintedItemsValid(style, n, items);
      }
    case Dict(members) =>
      if members != [] {
        forall i | 0 <= i < |members| ensures ValidValue(Forget(members[i].value)) {
          ForgetMembersFind(members, map[], members[i].key);
        }
        PrintedMembersValid(style, n, members);
      }
  }

  lemma {:induction false} PrintedItemsValid(style: Style, n: nat, items: seq<Arranged>)
    requires BlankStyle(style) && items != []
    requires forall i :: 0 <= i < |items| ==> Proper(items[i]) && ValidValue(Forget(items[i]))
    ensures ValidItems(PrintedItems(style, n, items))
    decreases items, 1
  {
    hide Printed, Forget, ValidValue, Proper, AllWs, ValidCst;
    StyleBlank(style, n);
    PrintedValid(style, n + 1, items[0]);
    if |items| > 1 {
      PrintedItemsValid(style, n, items[1..]);
    }
  }

  lemma {:induction false} PrintedMembersValid(style: Style, n: nat, members: seq<Member>)
    requires BlankStyle(style) && members != []
    requires forall i :: 0 <= i < |members| ==> Proper(members[i].value) && ValidValue(Forget(members[i].value))
    ensures ValidMembers(PrintedMembers(style, n, members))
    decreases members, 1
  {
    hide Printed, Forget, ValidValue, Proper, AllWs, ValidCst, Quoted, ValidRaw;
    StyleBlank(style, n);
    QuotedValid(members[0].key);
    PrintedValid(style, n + 1, members[0].value);
    if |members| > 1 {
      PrintedMembersValid(style, n, members[1..]);
    }
  }

  // ---------------------------------------------------------------- parsed values are valid

  lemma {:induction false} MeaningValid(c: Cst)
    requires ValidCst(c)
    ensures ValidValue(Meaning(c))
    decreases c
  {
    match c
    case Scalar(_) =>
    case EmptyArray(_) =>
    case ArrayOf(items) => ItemsMeaningValid(items);
    case EmptyObject(_) =>
    case ObjectOf(members) =>
      MembersMeaningValid(members, map[]);
      assert Meaning(c) == Object(MembersMeaning(members, map[]));
  }

  lemma {:induction false} ItemsMeaningValid(xs: Items)
    requires ValidItems(xs)
    ensures forall i :: 0 <= i < |ItemsMeaning(xs)| ==> ValidValue(ItemsMeaning(xs)[i])
    decreases xs
  {
    hide ValidValue;
    MeaningValid(xs.item);
    if xs.MoreItems? {
      ItemsMeaningValid(xs.rest);
    }
  }

  ghost predicate AllValid(m: map<string, Value>) {
    forall k :: k in m ==> ValidValue(m[k])
  }

  lemma {:induction false} MembersMeaningValid(ms: Members, acc: map<string, Value>)
    requires ValidMembers(ms) && AllValid(acc)
    ensures AllValid(MembersMeaning(ms, acc))
    decreases ms
  {
    hide DecodedKey;
    MeaningValid(ms.item);
    var now := Emplace(acc, DecodedKey(ms.key), Meaning(ms.item));
    if ms.MoreMembers? {
      MembersMeaningValid(ms.rest, now);
    }
  }

  /** What the parser returns is always valid, whatever escapes or duplicate keys the text has. */
  lemma {:induction false} ParsedIsValid(text: string)
    requires ReadDocument(text).Some?
    ensures ValidValue(ReadDocument(text).value) && !IsScalar(ReadDocument(text).value)
  {
    var before, c, after, ignored := ReadDocumentSound(text);
    MeaningValid(c);
  }

  // ---------------------------------------------------------------- round trips

  /** Printing a valid array or object, compact or indented by any white space from any
      depth, in any order of keys, and parsing the text gives back the value. */
  lemma {:induction false} PrintThenParse(style: Style, n: nat, a: Arranged, v: Value)
    requires BlankStyle(style) && Arranges(a, v) && ValidValue(v) && !IsScalar(v)
    ensures ReadDocument(PrintedText(style, n, a)) == Some(v)
  {
    PrintedValid(style, n, a);
    PrintedMeaning(style, n, a);
    var c := Printed(style, n, a);
    assert CstText(c) == "" + (CstText(c) + ("" + ""));
    assert IsDocument(CstText(c), "", c, "", "") by {
      assert AllWs("");
    }
    ReadDocumentComplete(CstText(c), "", c, "", "");
  }

  /** The round trip holds for exactly the valid arrays and objects. */
  lemma {:induction false} PrintThenParseExactly(style: Style, n: nat, a: Arranged, v: Value)
    requires BlankStyle(style) && Arranges(a, v)
    ensures ReadDocument(PrintedText(style, n, a)) == Some(v) <==> ValidValue(v) && !IsScalar(v)
  {
    if ReadDocument(PrintedText(style, n, a)) == Some(v) {
      ParsedIsValid(PrintedText(style, n, a));
    }
    if ValidValue(v) && !IsScalar(v) {
      PrintThenParse(style, n, a, v);
    }
  }

  /** For every text the parser accepts, printing the value and parsing again is stable. */
  lemma {:induction false} ReparseStable(text: string, style: Style, n: nat, a: Arranged)
    requires ReadDocument(text).Some? && BlankStyle(style) && Arranges(a, ReadDocument(text).value)
    ensures ReadDocument(PrintedText(style, n, a)) == ReadDocument(text)
  {
    ParsedIsValid(text);
    PrintThenParse(style, n, a, ReadDocument(text).value);
  }
}
