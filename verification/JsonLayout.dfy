/**
 How printed text is laid out, without counting depths: an item of a list stands as it would
 be printed on its own, every line of it shifted once more.
 */
module JsonLayout {
  import opened JsonStrings
  import opened JsonTokens
  import opened JsonSyntax
  import opened JsonPrinter

  // ---------------------------------------------------------------- shifting a print

  /** The same syntax with every line that it breaks shifted once more. */
  function Shifted(shift: string, c: Cst): Cst {
    match c
    case Scalar(_) => c
    case EmptyArray(ws) => EmptyArray(ws + shift)
    case ArrayOf(items) => ArrayOf(ShiftedItems(shift, items))
    case EmptyObject(ws) => EmptyObject(ws + shift)
    case ObjectOf(members) => ObjectOf(ShiftedMembers(shift, members))
  }

  function ShiftedItems(shift: string, xs: Items): Items {
    match xs
    case LastItem(before, item, after) => LastItem(before + shift, Shifted(shift, item), after + shift)
    case MoreItems(before, item, after, rest) =>
      MoreItems(before + shift, Shifted(shift, item), after, ShiftedItems(shift, rest))
  }

  function ShiftedMembers(shift: string, ms: Members): Members {
    match ms
    case LastMember(before, key, afterKey, beforeItem, item, after) =>
      LastMember(before + shift, key, afterKey, beforeItem, Shifted(shift, item), after + shift)
    case MoreMembers(before, key, afterKey, beforeItem, item, after, rest) =>
      MoreMembers(before + shift, key, afterKey, beforeItem, Shifted(shift, item), after, ShiftedMembers(shift, rest))
  }

  lemma {:induction false} BreaksShift(shift: string, n: nat)
    ensures Open(Indented(shift), n + 1) == Open(Indented(shift), n) + shift
    ensures Close(Indented(shift), n + 1) == Close(Indented(shift), n) + shift
  {
    assert ("\n" + Repeat(shift, n + 1)) + shift == "\n" + (Repeat(shift, n + 1) + shift);
    assert ("\n" + Repeat(shift, n)) + shift == "\n" + (Repeat(shift, n) + shift);
  }

  /** One level deeper is the same print shifted once more. */
  lemma {:induction false} DeeperIsShifted(shift: string, n: nat, a: Arranged)
    ensures Printed(Indented(shift), n + 1, a) == Shifted(shift, Printed(Indented(shift), n, a))
    decreases a, 0
  {
    BreaksShift(shift, n);
    hide Open, Close;
    match a
    case Atom(_) =>
    case List(items) => if items != [] { DeeperItems(shift, n, items); }
    case Dict(members) => if members != [] { DeeperMembers(shift, n, members); }
  }

  lemma {:induction false} DeeperItems(shift: string, n: nat, items: seq<Arranged>)
    requires items != []
    ensures PrintedItems(Indented(shift), n + 1, items) == ShiftedItems(shift, PrintedItems(Indented(shift), n, items))
    decreases items, 1
  {
    BreaksShift(shift, n);
    hide Open, Close, Printed, Shifted;
    DeeperIsShifted(shift, n + 1, items[0]);
    if |items| > 1 {
      DeeperItems(shift, n, items[1..]);
    }
  }

  lemma {:induction false} DeeperMembers(shift: string, n: nat, members: seq<Member>)
    requires members != []
    ensures PrintedMembers(Indented(shift), n + 1, members)
            == ShiftedMembers(shift, PrintedMembers(Indented(shift), n, members))
    decreases members, 1
  {
    BreaksShift(shift, n);
    hide Open, Close, Printed, Shifted, Quoted, AfterColon;
    DeeperIsShifted(shift, n + 1, members[0].value);
    if |members| > 1 {
      DeeperMembers(shift, n, members[1..]);
    }
  }

  // ---------------------------------------------------------------- lists

  /** The parts with a comma between each two. */
  function Commas(parts: seq<string>): string {
    if parts == [] then "" else if |parts| == 1 then parts[0] else parts[0] + "," + Commas(parts[1..])
  }

  /** The text of a value that stands inside an indented list. */
  function Inside(shift: string, a: Arranged): string {
    CstText(Shifted(shift, Printed(Indented(shift), 0, a)))
  }

  /** The lines of an item, and of a member. */
  function ItemLines(shift: string, items: seq<Arranged>): (r: seq<string>)
    ensures |r| == |items|
  {
    seq(|items|, i requires 0 <= i < |items| => ItemLine(shift, items[i]))
  }

  function ItemLine(shift: string, a: Arranged): string {
    "\n" + shift + Inside(shift, a)
  }

  function MemberLines(shift: string, members: seq<Member>): (r: seq<string>)
    ensures |r| == |members|
  {
    seq(|members|, i requires 0 <= i < |members| => MemberLine(shift, members[i]))
  }

  function MemberLine(shift: string, m: Member): string {
    "\n" + shift + "\"" + Quoted(m.key) + "\": " + Inside(shift, m.value)
  }

  /** An indented list: each item on a line of its own, shifted once, and the closing
      bracket back on a line of its own. */
  lemma {:induction false} IndentedLists(shift: string, items: seq<Arranged>, members: seq<Member>)
    ensures PrintedText(Indented(shift), 0, List(items)) == "[" + Commas(ItemLines(shift, items)) + "\n]"
    ensures PrintedText(Indented(shift), 0, Dict(members)) == "{" + Commas(MemberLines(shift, members)) + "\n}"
  {
    TopBreaks(shift);
    hide Open, Close, ItemLines, MemberLines;
    var style := Indented(shift);
    if items == [] {
      NoLines(shift);
      assert "[" + ("\n" + "]") == "[" + "" + "\n]";
    } else {
      ItemsLines(shift, items);
      var p := Commas(ItemLines(shift, items));
      assert "[" + ((p + "\n") + "]") == "[" + p + "\n]";
    }
    if members == [] {
      NoLines(shift);
      assert "{" + ("\n" + "}") == "{" + "" + "\n}";
    } else {
      MembersLines(shift, members);
      var p := Commas(MemberLines(shift, members));
      assert "{" + ((p + "\n") + "}") == "{" + p + "\n}";
    }
  }

  lemma {:induction false} NoLines(shift: string)
    ensures ItemLines(shift, []) == [] && MemberLines(shift, []) == []
  {
  }

  lemma {:induction false} TopBreaks(shift: string)
    ensures Open(Indented(shift), 0) == "\n" + shift && Close(Indented(shift), 0) == "\n"
  {
    assert Repeat(shift, 0) == "";
    assert Repeat(shift, 1) == shift;
  }

  lemma {:induction false} ItemsLines(shift: string, items: seq<Arranged>)
    requires items != []
    ensures ItemsText(PrintedItems(Indented(shift), 0, items)) == Commas(ItemLines(shift, items)) + "\n"
    decreases |items|
  {
    hide ItemsText, PrintedItems, ItemLine, ItemLines, Commas;
    ItemsHead(shift, items);
    ItemLinesStep(shift, items);
    if |items| > 1 {
      ItemsLines(shift, items[1..]);
      LineComma(ItemLine(shift, items[0]), Commas(ItemLines(shift, items[1..])));
    }
  }

  lemma {:induction false} LineComma(a: string, c: string)
    ensures a + ("," + (c + "\n")) == a + "," + c + "\n"
  {
  }

  lemma {:induction false} ItemLinesStep(shift: string, items: seq<Arranged>)
    requires items != []
    ensures Commas(ItemLines(shift, items)) ==
            if |items| == 1 then ItemLine(shift, items[0])
            else ItemLine(shift, items[0]) + "," + Commas(ItemLines(shift, items[1..]))
  {
    hide ItemLine;
    var lines := ItemLines(shift, items);
    assert lines[0] == ItemLine(shift, items[0]);
    assert |items| > 1 ==> lines[1..] == ItemLines(shift, items[1..]);
  }

  lemma {:induction false} ItemsHead(shift: string, items: seq<Arranged>)
    requires items != []
    ensures ItemsText(PrintedItems(Indented(shift), 0, items)) ==
            ItemLine(shift, items[0])
            + if |items| == 1 then "\n" else "," + ItemsText(PrintedItems(Indented(shift), 0, items[1..]))
  {
    TopBreaks(shift);
    DeeperIsShifted(shift, 0, items[0]);
    hide Open, Close, Printed, Shifted, CstText;
    if |items| == 1 {
      TextLine("\n" + shift, Inside(shift, items[0]), "\n");
    } else {
      var rest := "," + ItemsText(PrintedItems(Indented(shift), 0, items[1..]));
      assert "" + rest == rest;
      TextLine("\n" + shift, Inside(shift, items[0]), "" + rest);
    }
  }

  lemma {:induction false} TextLine(a: string, b: string, rest: string)
    ensures a + (b + rest) == (a + b) + rest
  {
  }

  lemma {:induction false} MembersLines(shift: string, members: seq<Member>)
    requires members != []
    ensures MembersText(PrintedMembers(Indented(shift), 0, members)) == Commas(MemberLines(shift, members)) + "\n"
    decreases |members|
  {
    hide MembersText, PrintedMembers, MemberLine, MemberLines, Commas;
    MembersHead(shift, members);
    MemberLinesStep(shift, members);
    if |members| > 1 {
      MembersLines(shift, members[1..]);
      LineComma(MemberLine(shift, members[0]), Commas(MemberLines(shift, members[1..])));
    }
  }

  lemma {:induction false} MemberLinesStep(shift: string, members: seq<Member>)
    requires members != []
    ensures Commas(MemberLines(shift, members)) ==
            if |members| == 1 then MemberLine(shift, members[0])
            else MemberLine(shift, members[0]) + "," + Commas(MemberLines(shift, members[1..]))
  {
    hide MemberLine;
    var lines := MemberLines(shift, members);
    assert lines[0] == MemberLine(shift, members[0]);
    assert |members| > 1 ==> lines[1..] == MemberLines(shift, members[1..]);
  }

  lemma {:induction false} MembersHead(shift: string, members: seq<Member>)
    requires members != []
    ensures MembersText(PrintedMembers(Indented(shift), 0, members)) ==
            MemberLine(shift, members[0])
            + if |members| == 1 then "\n"
              else "," + MembersText(PrintedMembers(Indented(shift), 0, members[1..]))
  {
    TopBreaks(shift);
    var m := members[0];
    DeeperIsShifted(shift, 0, m.value);
    hide Open, Close, Printed, Shifted, CstText, Quoted;
    if |members| == 1 {
      KeyLine("\n" + shift, Quoted(m.key), Inside(shift, m.value), "\n");
    } else {
      var rest := "," + MembersText(PrintedMembers(Indented(shift), 0, members[1..]));
      assert "" + rest == rest;
      KeyLine("\n" + shift, Quoted(m.key), Inside(shift, m.value), "" + rest);
    }
  }

  lemma {:induction false} KeyLine(a: string, key: string, b: string, rest: string)
    ensures a + (QuotedText(key) + ("" + (":" + (" " + (b + rest))))) == (a + "\"" + key + "\": " + b) + rest
  {
  }

  // ---------------------------------------------------------------- compact

  /** The compact texts of items, and of members. */
  function ItemTexts(items: seq<Arranged>): (r: seq<string>)
    ensures |r| == |items|
  {
    seq(|items|, i requires 0 <= i < |items| => PrintedText(Compact, 0, items[i]))
  }

  function MemberTexts(members: seq<Member>): (r: seq<string>)
    ensures |r| == |members|
  {
    seq(|members|, i requires 0 <= i < |members| =>
      "\"" + Quoted(members[i].key) + "\":" + PrintedText(Compact, 0, members[i].value))
  }

  /** Compact text does not depend on a depth. */
  lemma {:induction false} CompactDepth(n: nat, a: Arranged)
    ensures Printed(Compact, n, a) == Printed(Compact, 0, a)
    decreases a, 0
  {
    match a
    case Atom(_) =>
    case List(items) => if items != [] { CompactItems(n, items); }
    case Dict(members) => if members != [] { CompactMembers(n, members); }
  }

  lemma {:induction false} CompactItems(n: nat, items: seq<Arranged>)
    requires items != []
    ensures PrintedItems(Compact, n, items) == PrintedItems(Compact, 0, items)
    decreases items, 1
  {
    hide Printed;
    CompactDepth(n + 1, items[0]);
    CompactDepth(1, items[0]);
    if |items| > 1 {
      CompactItems(n, items[1..]);
    }
  }

  lemma {:induction false} CompactMembers(n: nat, members: seq<Member>)
    requires members != []
    ensures PrintedMembers(Compact, n, members) == PrintedMembers(Compact, 0, members)
    decreases members, 1
  {
    hide Printed, Quoted;
    CompactDepth(n + 1, members[0].value);
    CompactDepth(1, members[0].value);
    if |members| > 1 {
      CompactMembers(n, members[1..]);
    }
  }

  /** A compact list: its parts with commas between them and nothing else. */
  lemma {:induction false} CompactLists(n: nat, items: seq<Arranged>, members: seq<Member>)
    ensures PrintedText(Compact, n, List(items)) == "[" + Commas(ItemTexts(items)) + "]"
    ensures PrintedText(Compact, n, Dict(members)) == "{" + Commas(MemberTexts(members)) + "}"
  {
    hide ItemTexts, MemberTexts;
    CompactDepth(n, List(items));
    CompactDepth(n, Dict(members));
    NoTexts();
    if items == [] {
      assert "[" + ("" + "]") == "[" + "" + "]";
    } else {
      ItemsTexts(items);
      var p := Commas(ItemTexts(items));
      assert "[" + (p + "]") == "[" + p + "]";
    }
    if members == [] {
      assert "{" + ("" + "}") == "{" + "" + "}";
    } else {
      MembersTexts(members);
      var p := Commas(MemberTexts(members));
      assert "{" + (p + "}") == "{" + p + "}";
    }
  }

  lemma {:induction false} NoTexts()
    ensures ItemTexts([]) == [] && MemberTexts([]) == []
  {
  }

  lemma {:induction false} ItemsTexts(items: seq<Arranged>)
    requires items != []
    ensures ItemsText(PrintedItems(Compact, 0, items)) == Commas(ItemTexts(items))
    decreases |items|
  {
    CompactDepth(1, items[0]);
    var text := PrintedText(Compact, 0, items[0]);
    var texts := ItemTexts(items);
    assert texts[0] == text;
    assert |items| > 1 ==> texts[1..] == ItemTexts(items[1..]);
    hide ItemTexts, Printed, CstText;
    if |items| == 1 {
      assert "" + (text + "") == text;
    } else {
      ItemsTexts(items[1..]);
      var rest := Commas(texts[1..]);
      assert "" + (text + ("" + ("," + rest))) == text + "," + rest;
    }
  }

  lemma {:induction false} MembersTexts(members: seq<Member>)
    requires members != []
    ensures MembersText(PrintedMembers(Compact, 0, members)) == Commas(MemberTexts(members))
    decreases |members|
  {
    var m := members[0];
    CompactDepth(1, m.value);
    var value := PrintedText(Compact, 0, m.value);
    var text := "\"" + Quoted(m.key) + "\":" + value;
    var texts := MemberTexts(members);
    assert texts[0] == text;
    assert |members| > 1 ==> texts[1..] == MemberTexts(members[1..]);
    hide MemberTexts, Printed, CstText, Quoted;
    if |members| == 1 {
      KeyText(Quoted(m.key), value, "");
    } else {
      MembersTexts(members[1..]);
      var rest := Commas(texts[1..]);
      KeyText(Quoted(m.key), value, "" + ("," + rest));
      assert text + ("" + ("," + rest)) == text + "," + rest;
    }
  }

  lemma {:induction false} KeyText(key: string, b: string, rest: string)
    ensures "" + (QuotedText(key) + ("" + (":" + ("" + (b + rest))))) == ("\"" + key + "\":" + b) + rest
  {
  }
}
