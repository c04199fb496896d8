/**
 The string layer of meojson. Strings are stored in the form in which they stand
 between quotes in JSON text. The names are the source's own and swapped:
 `unescape_string` adds backslashes and `escape_string` removes them.
 */
module JsonStrings {
  import opened Options

  /** The letter after the backslash for a character that is never stored as itself. */
  function EscapeLetter(c: char): Option<char> {
    match c
    case '\"' => Some('\"')
    case '\\' => Some('\\')
    case '\U{08}' => Some('b')
    case '\U{0C}' => Some('f')
    case '\n' => Some('n')
    case '\r' => Some('r')
    case '\t' => Some('t')
    case _ => None
  }

  /** The character that a letter after the backslash stands for. */
  function EscapedChar(letter: char): Option<char> {
    match letter
    case '\"' => Some('\"')
    case '\\' => Some('\\')
    case 'b' => Some('\U{08}')
    case 'f' => Some('\U{0C}')
    case 'n' => Some('\n')
    case 'r' => Some('\r')
    case 't' => Some('\t')
    case _ => None
  }

  /** The letters that the parser lets follow a backslash. */
  predicate IsEscapeLetter(c: char) {
    EscapedChar(c).Some? || c == '/' || c == 'u'
  }

  /** The stored form of a string. */
  function Quoted(s: string): (q: string)
    ensures |q| >= |s|
  {
    if s == "" then ""
    else
      (match EscapeLetter(s[0])
       case None => [s[0]]
       case Some(letter) => ['\\', letter])
      + Quoted(s[1..])
  }

  /** The string behind a stored form; `None` if a backslash is followed by any but the
      seven letters above. A lone backslash at the end stands for itself. */
  function Unquoted(s: string): Option<string> {
    if |s| < 2 then Some(s)
    else if s[0] != '\\' then Prefixed(s[0], Unquoted(s[1..]))
    else
      match EscapedChar(s[1])
      case None => None
      case Some(c) => Prefixed(c, Unquoted(s[2..]))
  }

  function Prefixed(c: char, s: Option<string>): Option<string> {
    if s.Some? then Some([c] + s.value) else None
  }

  /** What the parser accepts between quotes. */
  predicate ValidRaw(s: string) {
    if s == "" then true
    else if s[0] == '\t' || s[0] == '\r' || s[0] == '\n' || s[0] == '\"' then false
    else if s[0] == '\\' then |s| > 1 && IsEscapeLetter(s[1]) && ValidRaw(s[2..])
    else ValidRaw(s[1..])
  }

  /** Removing the backslashes undoes adding them, for every string. */
  lemma {:induction false} QuotedRoundTrip(s: string)
    ensures Unquoted(Quoted(s)) == Some(s)
  {
    if s != "" {
      QuotedRoundTrip(s[1..]);
      var tail := Quoted(s[1..]);
      match EscapeLetter(s[0])
      case None =>
        assert Quoted(s) == [s[0]] + tail && Quoted(s)[1..] == tail;
        assert s == [s[0]] + s[1..];
      case Some(letter) =>
        assert Quoted(s) == ['\\', letter] + tail && Quoted(s)[2..] == tail;
        assert s == [s[0]] + s[1..];
    }
  }

  /** Stored forms are always acceptable between quotes. */
  lemma {:induction false} QuotedValid(s: string)
    ensures ValidRaw(Quoted(s))
  {
    if s != "" {
      QuotedValid(s[1..]);
      var tail := Quoted(s[1..]);
      match EscapeLetter(s[0])
      case None =>
        assert Quoted(s) == [s[0]] + tail && Quoted(s)[1..] == tail;
      case Some(letter) =>
        assert Quoted(s) == ['\\', letter] + tail && Quoted(s)[2..] == tail;
    }
  }

  /** The text holds an escape `\/` or `\u`. */
  predicate HasOpaqueEscape(s: string) {
    if |s| < 2 then false
    else if s[0] != '\\' then HasOpaqueEscape(s[1..])
    else s[1] == '/' || s[1] == 'u' || HasOpaqueEscape(s[2..])
  }

  /** The parser lets `\/` and `\u` through, but such a string cannot be decoded: decoding
      gives the empty string exactly when the stored form is empty or holds one of them. */
  lemma {:induction false} DecodesExactly(s: string)
    requires ValidRaw(s)
    ensures Unquoted(s).None? <==> HasOpaqueEscape(s)
    ensures Unquoted(s) == Some("") <==> s == ""
  {
    if |s| >= 2 {
      if s[0] != '\\' {
        DecodesExactly(s[1..]);
      } else {
        DecodesExactly(s[2..]);
      }
    }
  }

  /** The shortest such forms: accepted between quotes, not decodable. */
  lemma {:induction false} OpaqueEscapesFail(letter: char)
    requires letter == '/' || letter == 'u'
    ensures var s := ['\\', letter]; ValidRaw(s) && Unquoted(s).None?
  {
    var s := ['\\', letter];
    assert s[2..] == "";
  }

  /** The stored form is the one the library itself would produce: no `\/`, no `\u`, and
      no backspace or form feed standing for itself. */
  predicate IsCanonical(s: string) {
    if s == "" then true
    else if s[0] == '\\' then |s| > 1 && EscapedChar(s[1]).Some? && IsCanonical(s[2..])
    else EscapeLetter(s[0]).None? && IsCanonical(s[1..])
  }

  /** Decoding and storing again gives the same form exactly for canonical forms. */
  lemma {:induction false} RequotedExactly(s: string)
    requires ValidRaw(s)
    ensures (Unquoted(s).Some? && Quoted(Unquoted(s).value) == s) <==> IsCanonical(s)
  {
    if |s| >= 2 {
      if s[0] != '\\' {
        RequotedExactly(s[1..]);
        if Unquoted(s[1..]).Some? {
          RequotedChar(s[0], s[1..]);
        }
      } else {
        RequotedExactly(s[2..]);
        if EscapedChar(s[1]).Some? && Unquoted(s[2..]).Some? {
          RequotedEscape(s[1], s[2..]);
        }
        assert s == ['\\', s[1]] + s[2..];
      }
    } else if |s| == 1 {
      assert s[1..] == "";
      assert Quoted(s[1..]) == "";
    }
  }

  lemma {:induction false} RequotedChar(c: char, tail: string)
    requires c != '\\' && tail != "" && Unquoted(tail).Some?
    ensures Unquoted([c] + tail) == Some([c] + Unquoted(tail).value)
    ensures Quoted(Unquoted([c] + tail).value) == [c] + tail
            <==> EscapeLetter(c).None? && Quoted(Unquoted(tail).value) == tail
  {
    var u := Unquoted(tail).value;
    assert ([c] + tail)[1..] == tail && ([c] + u)[1..] == u;
    var q := Quoted([c] + u);
    if EscapeLetter(c).None? {
      assert q == [c] + Quoted(u) && q[1..] == Quoted(u);
    } else {
      assert q[0] == '\\';
    }
  }

  lemma {:induction false} RequotedEscape(letter: char, tail: string)
    requires EscapedChar(letter).Some? && Unquoted(tail).Some?
    ensures var s := ['\\', letter] + tail;
            && Unquoted(s) == Some([EscapedChar(letter).value] + Unquoted(tail).value)
            && (Quoted(Unquoted(s).value) == s <==> Quoted(Unquoted(tail).value) == tail)
  {
    var s := ['\\', letter] + tail;
    var u := Unquoted(tail).value;
    var c := EscapedChar(letter).value;
    assert s[2..] == tail && ([c] + u)[1..] == u;
    var q := Quoted([c] + u);
    assert q == ['\\', letter] + Quoted(u) && q[2..] == Quoted(u);
  }

  // ---------------------------------------------------------------- section 7 of RFC 8259

  predicate IsHexDigit(c: char) {
    '0' <= c <= '9' || 'a' <= c <= 'f' || 'A' <= c <= 'F'
  }

  /** Four hexadecimal digits stand at the front. */
  predicate FourHex(s: string) {
    |s| >= 4 && IsHexDigit(s[0]) && IsHexDigit(s[1]) && IsHexDigit(s[2]) && IsHexDigit(s[3])
  }

  /** A string of the standard, between its quotes. */
  predicate IsChars(s: string) {
    if s == "" then true
    else if s[0] == '\\' then
      |s| > 1
      && if s[1] == 'u' then FourHex(s[2..]) && IsChars(s[6..])
         else s[1] in "\"\\/bfnrt" && IsChars(s[2..])
    else s[0] >= ' ' && s[0] != '\"' && IsChars(s[1..])
  }

  /** No control character stands for itself. */
  predicate NoControls(s: string) {
    forall i :: 0 <= i < |s| ==> s[i] >= ' '
  }

  /** Four hexadecimal digits follow every `\u`. */
  predicate CodesComplete(s: string) {
    if |s| < 2 then true
    else if s[0] != '\\' then CodesComplete(s[1..])
    else (s[1] == 'u' ==> FourHex(s[2..])) && CodesComplete(s[2..])
  }

  /** Hexadecimal digits stand for themselves. */
  lemma {:induction false} SkipHex(s: string)
    requires FourHex(s)
    ensures ValidRaw(s) <==> ValidRaw(s[4..])
    ensures CodesComplete(s) <==> CodesComplete(s[4..])
    ensures NoControls(s) <==> NoControls(s[4..])
  {
    SkipPlain(s);
    SkipPlain(s[1..]);
    SkipPlain(s[2..]);
    SkipPlain(s[3..]);
    assert s[1..][1..] == s[2..] && s[2..][1..] == s[3..] && s[3..][1..] == s[4..];
  }

  lemma {:induction false} SkipPlain(s: string)
    requires s != "" && IsHexDigit(s[0])
    ensures ValidRaw(s) <==> ValidRaw(s[1..])
    ensures CodesComplete(s) <==> CodesComplete(s[1..])
    ensures NoControls(s) <==> NoControls(s[1..])
  {
    NoControlsAfter(s, 1);
  }

  lemma {:induction false} NoControlsAfter(s: string, n: nat)
    requires n <= |s| && forall i :: 0 <= i < n ==> s[i] >= ' '
    ensures NoControls(s) <==> NoControls(s[n..])
  {
    if NoControls(s[n..]) {
      forall i | 0 <= i < |s| ensures s[i] >= ' ' {
        if i >= n {
          assert s[i] == s[n..][i - n];
        }
      }
    }
  }

  /** What the parser accepts is a string of the standard exactly if no control character
      stands for itself and every `\u` has its four digits; and it accepts them all. */
  lemma {:induction false} StandardExactly(s: string)
    ensures IsChars(s) <==> ValidRaw(s) && NoControls(s) && CodesComplete(s)
    decreases |s|
  {
    if s == "" {
    } else if s[0] == '\\' {
      if |s| > 1 {
        if s[1] == 'u' {
          StandardCode(s);
        } else {
          StandardExactly(s[2..]);
          StandardEscape(s);
        }
      }
    } else {
      StandardExactly(s[1..]);
      if s[0] >= ' ' {
        NoControlsAfter(s, 1);
      }
    }
  }

  lemma {:induction false} StandardCode(s: string)
    requires |s| > 1 && s[0] == '\\' && s[1] == 'u'
    ensures IsChars(s) <==> ValidRaw(s) && NoControls(s) && CodesComplete(s)
    decreases |s|, 0
  {
    NoControlsAfter(s, 2);
    if FourHex(s[2..]) {
      SkipHex(s[2..]);
      assert s[2..][4..] == s[6..];
      StandardExactly(s[6..]);
    }
  }

  lemma {:induction false} StandardEscape(s: string)
    requires |s| > 1 && s[0] == '\\' && s[1] != 'u'
    ensures NoControls(s) && IsEscapeLetter(s[1]) <==> NoControls(s[2..]) && IsEscapeLetter(s[1])
  {
    if IsEscapeLetter(s[1]) {
      NoControlsAfter(s, 2);
    }
  }

  /** The shortest accepted strings that are none of the standard. */
  lemma {:induction false} NotStandard()
    ensures ValidRaw("\\u") && !IsChars("\\u")
    ensures ValidRaw("\U{1F}") && !IsChars("\U{1F}")
  {
    assert "\\u"[2..] == "" && "\U{1F}"[1..] == "";
  }

  // ---------------------------------------------------------------- what stored forms denote

  /** The letters after a backslash in section 7 of RFC 8259 and the code points they stand
      for, except `u`. */
  const ESCAPES: map<char, int> :=
    map['\"' := 0x22, '\\' := 0x5C, '/' := 0x2F, 'b' := 0x08, 'f' := 0x0C, 'n' := 0x0A, 'r' := 0x0D, 't' := 0x09]

  /** By that section, s denotes t: escapes stand for their code points, other characters for
      themselves. */
  predicate Denotes(s: string, t: string) {
    if s == "" then t == ""
    else if s[0] as int != 0x5C then t != "" && t[0] == s[0] && Denotes(s[1..], t[1..])
    else
      |s| > 1 && t != "" && s[1] in ESCAPES && t[0] as int == ESCAPES[s[1]] && Denotes(s[2..], t[1..])
  }

  /** Likewise but for a lone backslash at the end of both. */
  predicate DenotesDangling(s: string, t: string) {
    && s != "" && t != "" && s[|s| - 1] as int == 0x5C && t[|t| - 1] as int == 0x5C
    && Denotes(s[..|s| - 1], t[..|t| - 1])
  }

  lemma {:induction false} EscapedCode(letter: char, c: char)
    ensures EscapedChar(letter) == Some(c) <==> letter != '/' && letter in ESCAPES && c as int == ESCAPES[letter]
  {
  }

  /** Decoding gives exactly what the stored form denotes, and fails exactly on `\/`, `\u` and
      unknown letters; only a lone backslash at the end is let pass. */
  lemma {:induction false} DecodedExactly(s: string, t: string)
    ensures Unquoted(s) == Some(t) <==>
            !HasOpaqueEscape(s) && (Denotes(s, t) || DenotesDangling(s, t))
    decreases |s|
  {
    if |s| < 2 {
      DecodedShort(s, t);
    } else if s[0] != '\\' {
      if t != "" {
        DecodedExactly(s[1..], t[1..]);
      }
      DecodedPlain(s, t);
    } else {
      if t != "" {
        DecodedExactly(s[2..], t[1..]);
      }
      DecodedEscape(s, t);
    }
  }

  lemma {:induction false} DecodedPlain(s: string, t: string)
    requires |s| >= 2 && s[0] != '\\'
    requires t != "" ==>
               (Unquoted(s[1..]) == Some(t[1..]) <==>
                !HasOpaqueEscape(s[1..]) && (Denotes(s[1..], t[1..]) || DenotesDangling(s[1..], t[1..])))
    ensures Unquoted(s) == Some(t) <==>
            !HasOpaqueEscape(s) && (Denotes(s, t) || DenotesDangling(s, t))
  {
    PrefixedIs(s[0], Unquoted(s[1..]), t);
    if t != "" {
      DanglingNext(s, t, 1);
    }
    NotDangling(t);
    hide EscapedChar, DenotesDangling, Prefixed;
  }

  lemma {:induction false} DecodedEscape(s: string, t: string)
    requires |s| >= 2 && s[0] == '\\'
    requires t != "" ==>
               (Unquoted(s[2..]) == Some(t[1..]) <==>
                !HasOpaqueEscape(s[2..]) && (Denotes(s[2..], t[1..]) || DenotesDangling(s[2..], t[1..])))
    ensures Unquoted(s) == Some(t) <==>
            !HasOpaqueEscape(s) && (Denotes(s, t) || DenotesDangling(s, t))
  {
    if t != "" {
      DanglingNext(s, t, 2);
      EscapedCode(s[1], t[0]);
    }
    if EscapedChar(s[1]).Some? {
      EscapedCode(s[1], EscapedChar(s[1]).value);
      PrefixedIs(EscapedChar(s[1]).value, Unquoted(s[2..]), t);
    }
    NotDangling(t);
    hide EscapedChar, Prefixed, DenotesDangling;
  }

  lemma {:induction false} NotDangling(t: string)
    ensures t == "" ==> forall s :: !DenotesDangling(s, t)
  {
  }

  lemma {:induction false} DecodedDenoted(s: string)
    ensures forall t :: Denotes(s, t) ==> if HasOpaqueEscape(s) then Unquoted(s).None? else Unquoted(s) == Some(t)
  {
    forall t | Denotes(s, t)
      ensures if HasOpaqueEscape(s) then Unquoted(s).None? else Unquoted(s) == Some(t)
    {
      DecodedExactly(s, t);
      if Unquoted(s).Some? {
        DecodedExactly(s, Unquoted(s).value);
      }
    }
  }

  lemma {:induction false} DecodedShort(s: string, t: string)
    requires |s| < 2
    ensures s == t <==> Denotes(s, t) || DenotesDangling(s, t)
  {
    if s == "" {
      NotDanglingAt("", t);
    } else {
      assert s == [s[0]] && s[1..] == "" && s[..0] == "";
      if t != "" {
        assert t == [t[0]] + t[1..] && t == t[..|t| - 1] + [t[|t| - 1]];
        DenotesNothing(t[1..]);
        DenotesNothing(t[..|t| - 1]);
        assert s == t <==> t[0] == s[0] && t[1..] == "";
        assert t[1..] == "" <==> t[..|t| - 1] == "";
        assert t[1..] == "" ==> t[|t| - 1] == t[0];
      }
    }
  }

  lemma {:induction false} DenotesNothing(t: string)
    ensures Denotes("", t) <==> t == ""
  {
  }

  lemma {:induction false} NotDanglingAt(s: string, t: string)
    ensures s == "" ==> !DenotesDangling(s, t) && (Denotes(s, t) <==> t == "")
  {
  }

  lemma {:induction false} PrefixedIs(c: char, u: Option<string>, t: string)
    ensures Prefixed(c, u) == Some(t) <==> t != "" && t[0] == c && u == Some(t[1..])
  {
    if t != "" {
      assert t == [t[0]] + t[1..];
    }
    if u.Some? {
      assert ([c] + u.value)[1..] == u.value;
    }
  }

  /** A dangling backslash is one of what follows the first n characters. */
  lemma {:induction false} DanglingNext(s: string, t: string, n: nat)
    requires |s| >= 2 && t != "" && (if s[0] == '\\' then n == 2 else n == 1)
    ensures DenotesDangling(s, t) <==>
            && DenotesDangling(s[n..], t[1..])
            && if n == 1 then t[0] == s[0] else s[1] in ESCAPES && t[0] as int == ESCAPES[s[1]]
  {
    var s', t' := s[..|s| - 1], t[..|t| - 1];
    if n < |s| && |t| > 1 {
      assert s'[n..] == s[n..][..|s| - n - 1];
      assert t'[1..] == t[1..][..|t| - 2];
    }
  }

  /** The seven code points that are never stored as themselves. */
  const ESCAPED: set<int> := {0x08, 0x09, 0x0A, 0x0C, 0x0D, 0x22, 0x5C}

  /** None of them stands for itself, and nothing else is escaped. */
  predicate IsMinimal(q: string) {
    if q == "" then true
    else if q[0] as int == 0x5C then
      |q| > 1 && q[1] in ESCAPES && ESCAPES[q[1]] in ESCAPED && IsMinimal(q[2..])
    else q[0] as int !in ESCAPED && IsMinimal(q[1..])
  }

  /** The stored form of a string is the one that denotes it and escapes just those seven. */
  lemma {:induction false} StoredExactly(s: string, q: string)
    ensures q == Quoted(s) <==> Denotes(q, s) && IsMinimal(q)
    decreases |s|
  {
    hide EscapeLetter;
    if s != "" {
      StoredNext(s, q);
      EscapeCode(s[0]);
      if EscapeLetter(s[0]).Some? {
        if |q| >= 2 {
          StoredExactly(s[1..], q[2..]);
        }
      } else if |q| >= 1 {
        StoredExactly(s[1..], q[1..]);
      }
    }
  }

  lemma {:induction false} EscapeCode(c: char)
    ensures EscapeLetter(c).Some? <==> c as int in ESCAPED
    ensures EscapeLetter(c).Some? ==>
              EscapeLetter(c).value in ESCAPES && ESCAPES[EscapeLetter(c).value] == c as int
    ensures forall letter :: letter in ESCAPES && c as int in ESCAPED ==>
              (ESCAPES[letter] == c as int <==> EscapeLetter(c) == Some(letter))
  {
  }

  lemma {:induction false} StoredNext(s: string, q: string)
    requires s != ""
    ensures q == Quoted(s) <==>
            match EscapeLetter(s[0])
            case None => q != "" && q[0] == s[0] && q[1..] == Quoted(s[1..])
            case Some(letter) => |q| >= 2 && q[0] == '\\' && q[1] == letter && q[2..] == Quoted(s[1..])
  {
    var tail := Quoted(s[1..]);
    match EscapeLetter(s[0])
    case None =>
      assert ([s[0]] + tail)[1..] == tail;
      assert q != "" ==> q == [q[0]] + q[1..];
    case Some(letter) =>
      assert (['\\', letter] + tail)[2..] == tail;
      assert |q| >= 2 ==> q == [q[0], q[1]] + q[2..];
  }

  // ---------------------------------------------------------------- the in-place loops

  /** Adds backslashes, replacing characters in the string the loop runs over. */
  method UnescapeString(s: string) returns (str: string)
    ensures str == Quoted(s)
    ensures Denotes(str, s) && IsMinimal(str)
  {
    hide Quoted, Denotes, IsMinimal;
    str := s;
    var pos := 0;
    assert str[..0] + Quoted(str[0..]) == Quoted(s);
    while pos < |str|
      invariant 0 <= pos <= |str|
      invariant Quoted(s) == str[..pos] + Quoted(str[pos..])
      decreases |str| - pos
    {
      var letter := EscapeLetter(str[pos]);
      ghost var rest := str[pos + 1..];
      assert str[pos..] == [str[pos]] + rest;
      QuotedStep(str[..pos], str[pos], rest);
      if letter.Some? {
        ghost var done := str[..pos] + ['\\', letter.value];
        str := str[..pos] + ['\\', letter.value] + str[pos + 1..];
        pos := pos + 1;
        assert str[..pos + 1] == done && str[pos + 1..] == rest;
      } else {
        assert str[..pos + 1] == str[..pos] + [str[pos]];
      }
      pos := pos + 1;
    }
    QuotedEmpty(str[pos..]);
    assert str[..pos] == str;
    StoredExactly(s, str);
  }

  lemma {:induction false} QuotedEmpty(s: string)
    ensures s == "" ==> Quoted(s) == ""
  {
  }

  lemma {:induction false} QuotedStep(a: string, c: char, rest: string)
    ensures a + Quoted([c] + rest) ==
            (if EscapeLetter(c).Some? then a + ['\\', EscapeLetter(c).value] else a + [c]) + Quoted(rest)
  {
    assert ([c] + rest)[1..] == rest;
  }

  /** Removes backslashes likewise; an unknown escape makes the whole result empty. */
  method EscapeString(s: string) returns (str: string)
    ensures str == if Unquoted(s).Some? then Unquoted(s).value else ""
    ensures forall t :: Denotes(s, t) ==> str == if HasOpaqueEscape(s) then "" else t
  {
    DecodedDenoted(s);
    hide Denotes, HasOpaqueEscape;
    str := s;
    var pos := 0;
    assert str[..0] == "" && str[0..] == s;
    AppendedNothing(Unquoted(s));
    while pos + 1 < |str|
      invariant 0 <= pos <= |str|
      invariant Unquoted(s) == Appended(str[..pos], Unquoted(str[pos..]))
      decreases |str| - pos
    {
      if str[pos] != '\\' {
        assert str[pos..][1..] == str[pos + 1..];
        assert str[..pos + 1] == str[..pos] + [str[pos]];
        AppendedPrefixed(str[..pos], str[pos], Unquoted(str[pos + 1..]));
        pos := pos + 1;
        continue;
      }
      var c := EscapedChar(str[pos + 1]);
      assert str[pos..][2..] == str[pos + 2..];
      if c.None? {
        return "";
      }
      AppendedPrefixed(str[..pos], c.value, Unquoted(str[pos + 2..]));
      ghost var rest := str[pos + 2..];
      ghost var done := str[..pos] + [c.value];
      str := str[..pos] + [c.value] + str[pos + 2..];
      pos := pos + 1;
      assert str[..pos] == done && str[pos..] == rest;
    }
    assert str[..pos] + str[pos..] == str;
  }

  function Appended(a: string, b: Option<string>): Option<string> {
    if b.Some? then Some(a + b.value) else None
  }

  lemma {:induction false} AppendedNothing(b: Option<string>)
    ensures Appended("", b) == b
  {
    if b.Some? {
      assert "" + b.value == b.value;
    }
  }

  lemma {:induction false} AppendedPrefixed(a: string, c: char, b: Option<string>)
    ensures Appended(a, Prefixed(c, b)) == Appended(a + [c], b)
  {
    if b.Some? {
      assert a + ([c] + b.value) == (a + [c]) + b.value;
    }
  }

  /** `escape_string(unescape_string(s))` gives back every string. */
  method EscapeUnescape(s: string) returns (t: string)
    ensures t == s
  {
    var q := UnescapeString(s);
    QuotedRoundTrip(s);
    t := EscapeString(q);
  }
}
