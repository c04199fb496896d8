/**
 `meojson::parser`: a cursor over the text, advanced by mutually recursive methods.
 Every method is proved to compute the reading function of its grammar rule, to end, to
 keep the cursor inside the text on success and failure, and to advance it on success.
 A `None` result is the source's `invalid_value()` or `std::nullopt`.
 */
module JsonParser {
  import opened Options
  import opened Texts
  import opened JsonStrings
  import opened JsonTokens
  import opened JsonSyntax

  // ---------------------------------------------------------------- steps of the loops

  /** Items already collected, in front of a reading result. */
  function After(done: seq<Value>, r: Option<(seq<Value>, nat)>): Option<(seq<Value>, nat)> {
    if r.Some? then Some((done + r.value.0, r.value.1)) else None
  }

  /** One round of the loop over array items. */
  lemma {:induction false} ItemsRound(text: string, i: nat, done: seq<Value>)
    requires i <= |text|
    ensures var j := SkipWs(text, i);
            var result := After(done, ReadItems(text, i));
            if !Readable(text, j) || ReadValue(text, j).None? then result.None?
            else
              var (v, e) := ReadValue(text, j).value;
              var k := SkipWs(text, e);
              if !Readable(text, k) then result.None?
              else if text[k] == ',' then result == After(done + [v], ReadItems(text, k + 1))
              else result == Some((done + [v], k)) && SkipWs(text, k) == k
  {
    hide ReadValue, SkipWs;
    var j := SkipWs(text, i);
    if Readable(text, j) && ReadValue(text, j).Some? {
      var (v, e) := ReadValue(text, j).value;
      SkipWsTwice(text, e);
      var k := SkipWs(text, e);
      if Readable(text, k) && text[k] == ',' && ReadItems(text, k + 1).Some? {
        var vs := ReadItems(text, k + 1).value.0;
        assert done + ([v] + vs) == (done + [v]) + vs;
      }
    }
  }

  /** One round of the loop over object members, after the key. */
  lemma {:induction false} MembersRound(text: string, i: nat, acc: map<string, Value>)
    requires i <= |text|
    ensures var result := ReadMembers(text, i, acc);
            if ReadKey(text, i).None? then result.None?
            else
              var (raw, p) := ReadKey(text, i).value;
              if ReadValue(text, p).None? then result.None?
              else
                var (v, e) := ReadValue(text, p).value;
                var k := SkipWs(text, e);
                var now := Emplace(acc, DecodedKey(raw), v);
                if !Readable(text, k) then result.None?
                else if text[k] == ',' then result == ReadMembers(text, k + 1, now)
                else result == Some((now, k)) && SkipWs(text, k) == k
  {
    hide ReadValue, ReadKey, SkipWs, Emplace, DecodedKey;
    if ReadKey(text, i).Some? && ReadValue(text, ReadKey(text, i).value.1).Some? {
      SkipWsTwice(text, ReadValue(text, ReadKey(text, i).value.1).value.1);
    }
  }

  lemma {:induction false} SkipWsTwice(text: string, i: nat)
    requires i <= |text|
    ensures SkipWs(text, SkipWs(text, i)) == SkipWs(text, i)
  {
    SkipWhileTwice(IsWs, text, i);
  }

  /** Skipping white space first makes no difference to the lists. */
  lemma {:induction false} ListsSkip(text: string, i: nat)
    requires i <= |text|
    ensures ReadItems(text, SkipWs(text, i)) == ReadItems(text, i)
    ensures ReadMembers(text, SkipWs(text, i), map[]) == ReadMembers(text, i, map[])
  {
    hide ReadValue, SkipWs, ReadString;
    SkipWsTwice(text, i);
    assert ReadKey(text, SkipWs(text, i)) == ReadKey(text, i);
  }

  /** How an array's result comes from the list of its items. */
  lemma {:induction false} ArrayParts(text: string, i: nat)
    requires i < |text| && text[i] == '['
    ensures var j := SkipWs(text, i + 1);
            var list := After([], ReadItems(text, j));
            if !Readable(text, j) then ReadValue(text, i).None?
            else if text[j] == ']' then ReadValue(text, i) == Some((Array([]), j + 1))
            else if list.None? || text[list.value.1] != ']' then ReadValue(text, i).None?
            else ReadValue(text, i) == Some((Array(list.value.0), list.value.1 + 1))
  {
    hide ReadItems, ReadMembers, SkipWs;
    ListsSkip(text, i + 1);
    if ReadItems(text, i + 1).Some? {
      assert [] + ReadItems(text, i + 1).value.0 == ReadItems(text, i + 1).value.0;
    }
  }

  /** How an object's result comes from the list of its members. */
  lemma {:induction false} ObjectParts(text: string, i: nat)
    requires i < |text| && text[i] == '{'
    ensures var j := SkipWs(text, i + 1);
            var list := ReadMembers(text, j, map[]);
            if !Readable(text, j) then ReadValue(text, i).None?
            else if text[j] == '}' then ReadValue(text, i) == Some((Object(map[]), j + 1))
            else if list.None? || text[list.value.1] != '}' then ReadValue(text, i).None?
            else ReadValue(text, i) == Some((Object(list.value.0), list.value.1 + 1))
  {
    hide ReadItems, ReadMembers, SkipWs;
    ListsSkip(text, i + 1);
  }

  lemma {:induction false} DecodedKeyOf(raw: string)
    ensures DecodedKey(raw) == if Unquoted(raw).Some? then Unquoted(raw).value else ""
  {
  }

  lemma {:induction false} NumberScalar(text: string, i: nat)
    requires i < |text| && (text[i] == '-' || IsDigit(text[i]))
    ensures ReadScalar(text, i) ==
            match NumberEnd(text, i)
            case None => None
            case Some(k) => Some((Number(text[i..k]), k))
  {
  }

  lemma {:induction false} NotAt(text: string, i: nat, word: string, k: nat)
    requires k < |word| && (i + k >= |text| || text[i + k] != word[k])
    ensures !At(text, i, word)
  {
    if i + |word| <= |text| {
      assert text[i..i + |word|][k] == text[i + k];
    }
  }

  // ---------------------------------------------------------------- the parser class

  class Parser {
    const text: string
    var cur: nat

    ghost predicate Valid()
      reads this
    {
      cur <= |text|
    }

    constructor (text: string)
      ensures Valid() && this.text == text && cur == 0
    {
      this.text := text;
      cur := 0;
    }

    /** The character at the cursor; at the end of the text it is NUL. */
    function Current(): char
      reads this
    {
      if cur < |text| then text[cur] else '\0'
    }

    /** Parses a whole text. */
    static method ParseText(content: string) returns (r: Option<Value>)
      ensures r == ReadDocument(content)
    {
      var parser := new Parser(content);
      r := parser.Parse();
    }

    method Parse() returns (r: Option<Value>)
      requires Valid() && cur == 0
      modifies this`cur
      ensures Valid()
      ensures r == ReadDocument(text)
    {
      var ok := SkipWhitespace();
      if !ok {
        return None;
      }
      match Current() {
        case '[' => r := ParseArray();
        case '{' => r := ParseObject();
        case _ => return None;
      }
      if r.None? {
        return None;
      }
      ok := SkipWhitespace();
      if ok {
        return None;
      }
    }

    method SkipWhitespace() returns (ok: bool)
      requires Valid()
      modifies this`cur
      ensures Valid() && cur == SkipWs(text, old(cur)) && (ok <==> Readable(text, cur))
      ensures ok ==> cur < |text|
    {
      while cur < |text|
        invariant Valid() && SkipWs(text, cur) == SkipWs(text, old(cur))
        decreases |text| - cur
      {
        match text[cur] {
          case ' ' => cur := cur + 1;
          case '\t' => cur := cur + 1;
          case '\r' => cur := cur + 1;
          case '\n' => cur := cur + 1;
          case '\0' => return false;
          case _ => return true;
        }
      }
      return false;
    }

    method SkipDigit() returns (ok: bool)
      requires Valid()
      modifies this`cur
      ensures Valid() && old(cur) <= cur
      ensures ok <==> SkipDigits(text, old(cur)).Some?
      ensures ok ==> cur == SkipDigits(text, old(cur)).value
    {
      if cur < |text| && IsDigit(text[cur]) {
        cur := cur + 1;
      } else {
        return false;
      }
      while cur < |text| && IsDigit(text[cur])
        invariant Valid() && old(cur) < cur
        invariant SkipWhile(IsDigit, text, cur) == SkipWhile(IsDigit, text, old(cur))
        decreases |text| - cur
      {
        cur := cur + 1;
      }
      return cur < |text|;
    }

    method ParseValue() returns (r: Option<Value>)
      requires Valid()
      modifies this`cur
      ensures Valid() && old(cur) <= cur
      ensures r.Some? <==> ReadValue(text, old(cur)).Some?
      ensures r.Some? ==> old(cur) < cur && ReadValue(text, old(cur)) == Some((r.value, cur))
      decreases |text| - cur, 1
    {
      match Current() {
        case 'n' => r := ParseNull();
        case 't' => r := ParseBoolean();
        case 'f' => r := ParseBoolean();
        case '\"' => r := ParseString();
        case '[' => r := ParseArray();
        case '{' => r := ParseObject();
        case c =>
          if c == '-' || IsDigit(c) {
            r := ParseNumber();
          } else {
            r := None;
          }
      }
    }

    /** Compares a word character by character, advancing over the part that agrees. */
    method MatchWord(word: string) returns (ok: bool)
      requires Valid() && forall i :: 0 <= i < |word| ==> word[i] != '\0'
      modifies this`cur
      ensures Valid() && old(cur) <= cur
      ensures ok <==> At(text, old(cur), word)
      ensures ok ==> cur == old(cur) + |word|
    {
      for i := 0 to |word|
        invariant Valid() && cur == old(cur) + i
        invariant At(text, old(cur), word[..i])
      {
        if Current() != word[i] {
          NotAt(text, old(cur), word, i);
          return false;
        }
        cur := cur + 1;
        assert text[old(cur)..cur] == text[old(cur)..cur - 1] + [text[cur - 1]];
        assert word[..i + 1] == word[..i] + [word[i]];
      }
      assert word[..|word|] == word;
      return true;
    }

    method ParseNull() returns (r: Option<Value>)
      requires Valid() && Current() == 'n'
      modifies this`cur
      ensures Valid() && old(cur) <= cur
      ensures r.Some? <==> ReadScalar(text, old(cur)).Some?
      ensures r.Some? ==> ReadScalar(text, old(cur)) == Some((r.value, cur))
    {
      var ok := MatchWord("null");
      r := if ok then Some(Null) else None;
    }

    method ParseBoolean() returns (r: Option<Value>)
      requires Valid() && (Current() == 't' || Current() == 'f')
      modifies this`cur
      ensures Valid() && old(cur) <= cur
      ensures r.Some? <==> ReadScalar(text, old(cur)).Some?
      ensures r.Some? ==> ReadScalar(text, old(cur)) == Some((r.value, cur))
    {
      if Current() == 't' {
        var ok := MatchWord("true");
        r := if ok then Some(Boolean(true)) else None;
      } else {
        var ok := MatchWord("false");
        r := if ok then Some(Boolean(false)) else None;
      }
    }

    method ParseNumber() returns (r: Option<Value>)
      requires Valid() && cur < |text| && (text[cur] == '-' || IsDigit(text[cur]))
      modifies this`cur
      ensures Valid() && old(cur) <= cur
      ensures r.Some? <==> ReadScalar(text, old(cur)).Some?
      ensures r.Some? ==> ReadScalar(text, old(cur)) == Some((r.value, cur))
    {
      hide SkipDigits, ReadScalar, FracEnd, ExpEnd;
      NumberScalar(text, cur);
      var first := cur;
      if Current() == '-' {
        cur := cur + 1;
      }
      // no leading zeroes
      if cur < |text| && text[cur] == '0' && cur + 1 < |text| && IsDigit(text[cur + 1]) {
        return None;
      }
      var ok := SkipDigit();
      if !ok {
        return None;
      }
      ok := SkipFraction();
      if !ok {
        return None;
      }
      ok := SkipExponent();
      if !ok {
        return None;
      }
      return Some(Number(text[first..cur]));
    }

    method SkipFraction() returns (ok: bool)
      requires Valid() && cur < |text|
      modifies this`cur
      ensures Valid() && old(cur) <= cur
      ensures ok <==> FracEnd(text, old(cur)).Some?
      ensures ok ==> FracEnd(text, old(cur)) == Some(cur)
    {
      hide SkipDigits;
      if Current() == '.' {
        cur := cur + 1;
        ok := SkipDigit();
      } else {
        ok := true;
      }
    }

    method SkipExponent() returns (ok: bool)
      requires Valid() && cur < |text|
      modifies this`cur
      ensures Valid() && old(cur) <= cur
      ensures ok <==> ExpEnd(text, old(cur)).Some?
      ensures ok ==> ExpEnd(text, old(cur)) == Some(cur)
    {
      hide SkipDigits;
      if Current() == 'e' || Current() == 'E' {
        cur := cur + 1;
        if cur == |text| {
          return false;
        }
        if Current() == '+' || Current() == '-' {
          cur := cur + 1;
        }
        ok := SkipDigit();
      } else {
        ok := true;
      }
    }

    method ParseString() returns (r: Option<Value>)
      requires Valid() && Current() == '\"'
      modifies this`cur
      ensures Valid() && old(cur) <= cur
      ensures r.Some? <==> ReadScalar(text, old(cur)).Some?
      ensures r.Some? ==> ReadScalar(text, old(cur)) == Some((r.value, cur))
    {
      var raw := ParseStdstring();
      r := if raw.Some? then Some(String(raw.value)) else None;
    }

    /** A quoted string in stored form. */
    method ParseStdstring() returns (r: Option<string>)
      requires Valid()
      modifies this`cur
      ensures Valid() && old(cur) <= cur
      ensures r.Some? <==> ReadString(text, old(cur)).Some?
      ensures r.Some? ==> old(cur) < cur && ReadString(text, old(cur)) == Some((r.value, cur))
    {
      if Current() == '\"' {
        cur := cur + 1;
      } else {
        return None;
      }
      var first, last := cur, cur;
      var isStringEnd := false;
      while !isStringEnd && cur < |text|
        invariant Valid() && old(cur) < cur && first <= last <= |text|
        invariant !isStringEnd ==> StringEnd(text, cur) == StringEnd(text, first)
        invariant isStringEnd ==> StringEnd(text, first) == Some(last) && cur == last + 1
        decreases !isStringEnd, |text| - cur
      {
        match text[cur] {
          case '\t' => return None;
          case '\r' => return None;
          case '\n' => return None;
          case '\\' =>
            cur := cur + 1;
            if cur == |text| || !IsEscapeLetter(text[cur]) {
              return None;
            }
            cur := cur + 1;
          case '\"' =>
            last := cur;
            cur := cur + 1;
            isStringEnd := true;
          case _ => cur := cur + 1;
        }
      }
      if cur == |text| {
        return None;
      }
      return Some(text[first..last]);
    }

    method ParseArray() returns (r: Option<Value>)
      requires Valid() && Current() == '['
      modifies this`cur
      ensures Valid() && old(cur) <= cur
      ensures r.Some? <==> ReadValue(text, old(cur)).Some?
      ensures r.Some? ==> old(cur) < cur && ReadValue(text, old(cur)) == Some((r.value, cur))
      decreases |text| - cur, 0
    {
      hide ReadValue, ReadItems, SkipWs;
      ArrayParts(text, cur);
      cur := cur + 1;
      var ok := SkipWhitespace();
      if !ok {
        return None;
      }
      if Current() == ']' {
        cur := cur + 1;
        return Some(Array([]));
      }
      var result: seq<Value> := [];
      ghost var list := After([], ReadItems(text, cur));
      while true
        invariant Valid() && old(cur) < cur
        invariant list == After(result, ReadItems(text, cur))
        decreases |text| - cur
      {
        ItemsRound(text, cur, result);
        ok := SkipWhitespace();
        if !ok {
          return None;
        }
        var val := ParseValue();
        if val.None? {
          return None;
        }
        ok := SkipWhitespace();
        if !ok {
          return None;
        }
        result := result + [val.value];
        if Current() == ',' {
          cur := cur + 1;
        } else {
          break;
        }
      }
      ok := SkipWhitespace();
      if ok && Current() == ']' {
        cur := cur + 1;
      } else {
        return None;
      }
      return Some(Array(result));
    }

    /** The part of a member before its value: a string and a colon. */
    method ParseKey() returns (r: Option<string>)
      requires Valid()
      modifies this`cur
      ensures Valid() && old(cur) <= cur
      ensures r.Some? <==> ReadKey(text, old(cur)).Some?
      ensures r.Some? ==> old(cur) < cur && ReadKey(text, old(cur)) == Some((r.value, cur))
    {
      hide StringEnd, SkipWs;
      var ok := SkipWhitespace();
      if !ok {
        return None;
      }
      r := ParseStdstring();
      if r.None? {
        return None;
      }
      ok := SkipWhitespace();
      if !ok || Current() != ':' {
        return None;
      }
      cur := cur + 1;
      ok := SkipWhitespace();
      if !ok {
        return None;
      }
    }

    method ParseObject() returns (r: Option<Value>)
      requires Valid() && Current() == '{'
      modifies this`cur
      ensures Valid() && old(cur) <= cur
      ensures r.Some? <==> ReadValue(text, old(cur)).Some?
      ensures r.Some? ==> old(cur) < cur && ReadValue(text, old(cur)) == Some((r.value, cur))
      decreases |text| - cur, 0
    {
      hide ReadValue, ReadMembers, ReadKey, SkipWs, Emplace, DecodedKey, Unquoted;
      ObjectParts(text, cur);
      cur := cur + 1;
      var ok := SkipWhitespace();
      if !ok {
        return None;
      }
      if Current() == '}' {
        cur := cur + 1;
        return Some(Object(map[]));
      }
      var result: map<string, Value> := map[];
      ghost var list := ReadMembers(text, cur, map[]);
      while true
        invariant Valid() && old(cur) < cur
        invariant list == ReadMembers(text, cur, result)
        decreases |text| - cur
      {
        MembersRound(text, cur, result);
        var keyOpt := ParseKey();
        if keyOpt.None? {
          return None;
        }
        var val := ParseValue();
        if val.None? {
          return None;
        }
        ok := SkipWhitespace();
        if !ok {
          return None;
        }
        var key := EscapeString(keyOpt.value);
        DecodedKeyOf(keyOpt.value);
        result := Emplace(result, key, val.value);
        if Current() == ',' {
          cur := cur + 1;
        } else {
          break;
        }
      }
      ok := SkipWhitespace();
      if ok && Current() == '}' {
        cur := cur + 1;
      } else {
        return None;
      }
      return Some(Object(result));
    }
  }
}
