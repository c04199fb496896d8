/**
 What JSON text means, member by member: which of equal keys counts, in which order items
 stand, and which text stands for which value.
 */
module JsonMeaning {
  import opened Options
  import opened JsonStrings
  import opened JsonTokens
  import opened JsonSyntax

  // ---------------------------------------------------------------- members and items

  /** The decoded keys of the members with the values of their items, as written. */
  function Written(ms: Members): (r: seq<(string, Value)>)
    ensures |r| > 0
  {
    [(DecodedKey(ms.key), Meaning(ms.item))] + (if ms.MoreMembers? then Written(ms.rest) else [])
  }

  /** No member before i has the key of member i. */
  predicate IsFirst(written: seq<(string, Value)>, i: nat)
    requires i < |written|
  {
    forall j :: 0 <= j < i ==> written[j].0 != written[i].0
  }

  lemma {:induction false} MembersOver(ms: Members, acc: map<string, Value>)
    ensures var written := Written(ms);
            var m := MembersMeaning(ms, acc);
            && (forall k :: k in m <==> k in acc || exists i :: 0 <= i < |written| && written[i].0 == k)
            && (forall k :: k in acc ==> m[k] == acc[k])
            && forall i :: 0 <= i < |written| && IsFirst(written, i) && written[i].0 !in acc ==>
                 m[written[i].0] == written[i].1
    decreases ms
  {
    var written := Written(ms);
    var key, value := DecodedKey(ms.key), Meaning(ms.item);
    var now := Emplace(acc, key, value);
    var m := MembersMeaning(ms, acc);
    hide Meaning, DecodedKey;
    if ms.MoreMembers? {
      var rest := Written(ms.rest);
      MembersOver(ms.rest, now);
      assert written == [(key, value)] + rest;
      forall k ensures k in m <==> k in acc || exists i :: 0 <= i < |written| && written[i].0 == k {
        if i :| 0 <= i < |rest| && rest[i].0 == k {
          assert written[i + 1].0 == k;
        }
        if i :| 0 <= i < |written| && written[i].0 == k {
          assert i > 0 ==> rest[i - 1].0 == k;
        }
        assert written[0].0 == key;
      }
      forall i | 0 <= i < |written| && IsFirst(written, i) && written[i].0 !in acc
        ensures m[written[i].0] == written[i].1
      {
        if i > 0 {
          FirstInRest(written, rest, i);
        }
      }
    } else {
      assert written == [(key, value)];
      assert written[0].0 == key;
    }
  }

  lemma {:induction false} FirstInRest(written: seq<(string, Value)>, rest: seq<(string, Value)>, i: nat)
    requires |written| > 0 && written[1..] == rest && 0 < i < |written| && IsFirst(written, i)
    ensures IsFirst(rest, i - 1) && rest[i - 1] == written[i] && written[i].0 != written[0].0
  {
    forall j | 0 <= j < i - 1 ensures rest[j].0 != rest[i - 1].0 {
      assert written[j + 1] == rest[j];
    }
  }

  /** An object has exactly the keys written, and under each the value written first. */
  lemma {:induction false} FirstKeyWins(ms: Members)
    ensures var written := Written(ms);
            var m := MembersMeaning(ms, map[]);
            && (forall k :: k in m <==> exists i :: 0 <= i < |written| && written[i].0 == k)
            && forall i :: 0 <= i < |written| && IsFirst(written, i) ==>
                 written[i].0 in m && m[written[i].0] == written[i].1
  {
    MembersOver(ms, map[]);
  }

  /** A key is what it denotes, and empty if it cannot be decoded. */
  lemma {:induction false} KeyExactly(raw: string, key: string)
    requires Denotes(raw, key)
    ensures DecodedKey(raw) == if HasOpaqueEscape(raw) then "" else key
  {
    DecodedDenoted(raw);
  }

  function WrittenItems(xs: Items): (r: seq<Cst>)
    ensures |r| > 0
  {
    [xs.item] + (if xs.MoreItems? then WrittenItems(xs.rest) else [])
  }

  /** An array has the values of its items in the order written. */
  lemma {:induction false} ItemsInOrder(xs: Items)
    ensures |ItemsMeaning(xs)| == |WrittenItems(xs)|
    ensures forall i :: 0 <= i < |WrittenItems(xs)| ==> ItemsMeaning(xs)[i] == Meaning(WrittenItems(xs)[i])
    decreases xs
  {
    hide Meaning;
    if xs.MoreItems? {
      ItemsInOrder(xs.rest);
    }
  }

  // ---------------------------------------------------------------- which text stands for which value

  /** The texts of the scalars. */
  ghost predicate Stands(text: string, v: Value) {
    || (text == "null" && v == Null)
    || (text == "true" && v == Boolean(true))
    || (text == "false" && v == Boolean(false))
    || (IsNumber(text) && v == Number(text))
    || exists raw :: ValidRaw(raw) && text == "\"" + raw + "\"" && v == String(raw)
  }

  lemma {:induction false} StandsScalar(text: string, v: Value)
    requires Stands(text, v)
    ensures ValidCst(Scalar(v)) && CstText(Scalar(v)) == text && Meaning(Scalar(v)) == v
  {
  }

  lemma {:induction false} Reads(text: string, c: Cst)
    requires ValidCst(c) && !c.Scalar? && CstText(c) == text
    ensures ReadDocument(text) == Some(Meaning(c))
  {
    hide CstText, ValidCst, Meaning;
    assert text == "" + (text + ("" + ""));
    assert IsDocument(text, "", c, "", "") by {
      assert AllWs("");
    }
    ReadDocumentComplete(text, "", c, "", "");
  }

  lemma {:induction false} EmptyReads()
    ensures ReadDocument("[]") == Some(Array([]))
    ensures ReadDocument("{}") == Some(Object(map[]))
  {
    assert CstText(EmptyArray("")) == "[]" && CstText(EmptyObject("")) == "{}";
    Reads("[]", EmptyArray(""));
    Reads("{}", EmptyObject(""));
  }

  /** Brackets and a comma around two scalars make an array of them, in order. */
  lemma {:induction false} ArrayReads(s: string, v: Value, t: string, w: Value)
    requires Stands(s, v) && Stands(t, w)
    ensures ReadDocument("[" + s + "," + t + "]") == Some(Array([v, w]))
  {
    StandsScalar(s, v);
    StandsScalar(t, w);
    hide Stands, ReadDocument, ValidCst, CstText;
    var last := LastItem("", Scalar(w), "");
    var items := MoreItems("", Scalar(v), "", last);
    ArrayText(s, v, t, w);
    Reads("[" + s + "," + t + "]", ArrayOf(items));
    assert ItemsMeaning(last) == [w] && ItemsMeaning(items) == [v] + [w] == [v, w];
  }

  lemma {:induction false} ArrayText(s: string, v: Value, t: string, w: Value)
    requires ValidCst(Scalar(v)) && ValidCst(Scalar(w)) && CstText(Scalar(v)) == s && CstText(Scalar(w)) == t
    ensures var c := ArrayOf(MoreItems("", Scalar(v), "", LastItem("", Scalar(w), "")));
            ValidCst(c) && CstText(c) == "[" + s + "," + t + "]"
  {
    hide ScalarText, IsScalar, ValidValue;
    var last := LastItem("", Scalar(w), "");
    var items := MoreItems("", Scalar(v), "", last);
    assert ItemsText(last) == t;
    assert ItemsText(items) == s + ("," + t);
    assert AllWs("") && ValidItems(last) && ValidItems(items);
    assert "[" + ((s + ("," + t)) + "]") == "[" + s + "," + t + "]";
  }

  /** A quoted key, a colon and the text of a value. */
  function MemberOf(raw: string, text: string): string {
    "\"" + raw + "\":" + text
  }

  /** Braces around members make an object; of two equal keys the first counts. */
  lemma {:induction false} ObjectReads(raw: string, key: string, s: string, v: Value, t: string, w: Value)
    requires ValidRaw(raw) && Denotes(raw, key) && !HasOpaqueEscape(raw) && Stands(s, v) && Stands(t, w)
    ensures ReadDocument("{" + MemberOf(raw, s) + "}") == Some(Object(map[key := v]))
    ensures ReadDocument("{" + MemberOf(raw, s) + "," + MemberOf(raw, t) + "}") == Some(Object(map[key := v]))
  {
    StandsScalar(s, v);
    StandsScalar(t, w);
    KeyExactly(raw, key);
    hide Stands, ReadDocument, ValidCst, CstText, DecodedKey, Denotes, HasOpaqueEscape;
    var one := LastMember("", raw, "", "", Scalar(v), "");
    var last := LastMember("", raw, "", "", Scalar(w), "");
    var two := MoreMembers("", raw, "", "", Scalar(v), "", last);
    OneMember(raw, s, v);
    OneMember(raw, t, w);
    TwoMembers(raw, s, v, last);
    Reads("{" + MemberOf(raw, s) + "}", ObjectOf(one));
    Reads("{" + MemberOf(raw, s) + "," + MemberOf(raw, t) + "}", ObjectOf(two));
    assert MembersMeaning(one, map[]) == map[key := v];
    assert MembersMeaning(two, map[]) == MembersMeaning(last, map[key := v]) == map[key := v];
  }

  lemma {:induction false} KeyColon(raw: string, s: string, rest: string)
    ensures "" + (QuotedText(raw) + ("" + (":" + ("" + (s + rest))))) == MemberOf(raw, s) + rest
  {
  }

  lemma {:induction false} Braces(a: string)
    ensures "{" + (a + "}") == "{" + a + "}"
  {
  }

  lemma {:induction false} OneMember(raw: string, s: string, v: Value)
    requires ValidRaw(raw) && ValidCst(Scalar(v)) && CstText(Scalar(v)) == s
    ensures var one := LastMember("", raw, "", "", Scalar(v), "");
            && ValidMembers(one) && MembersText(one) == MemberOf(raw, s)
            && ValidCst(ObjectOf(one)) && CstText(ObjectOf(one)) == "{" + MemberOf(raw, s) + "}"
  {
    hide ScalarText, IsScalar, ValidValue, QuotedText, MemberOf;
    KeyColon(raw, s, "");
    assert MemberOf(raw, s) + "" == MemberOf(raw, s);
    Braces(MemberOf(raw, s));
    assert AllWs("");
  }

  lemma {:induction false} TwoMembers(raw: string, s: string, v: Value, last: Members)
    requires ValidRaw(raw) && ValidCst(Scalar(v)) && CstText(Scalar(v)) == s && ValidMembers(last)
    ensures var c := ObjectOf(MoreMembers("", raw, "", "", Scalar(v), "", last));
            ValidCst(c) && CstText(c) == "{" + MemberOf(raw, s) + "," + MembersText(last) + "}"
  {
    hide ScalarText, IsScalar, ValidValue, QuotedText, MemberOf;
    var rest := "," + MembersText(last);
    KeyColon(raw, s, rest);
    assert "" + rest == rest;
    var m := MemberOf(raw, s);
    assert m + rest == m + "," + MembersText(last);
    Braces(m + rest);
    assert "{" + (m + rest) == "{" + m + "," + MembersText(last);
    assert AllWs("");
  }
}
