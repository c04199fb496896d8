/**
 `convert_lf`: a link may rewrite every line feed as carriage return and line feed; the
 buffer is repaired in place with two cursors.
 */
module ControllerLf {
  /** `"\r\n"` stands at k. */
  predicate PairAt(s: seq<char>, k: int) {
    0 <= k < |s| - 1 && s[k] == '\r' && s[k + 1] == '\n'
  }

  ghost predicate HasPair(s: seq<char>) {
    exists k :: PairAt(s, k)
  }

  /** s without each `\r` that stands directly before a `\n`. */
  function RemoveCr(s: seq<char>): seq<char> {
    if s == [] then []
    else if PairAt(s, 0) then RemoveCr(s[1..])
    else [s[0]] + RemoveCr(s[1..])
  }

  /** What the link makes of s. */
  function Rewritten(s: seq<char>): seq<char> {
    if s == [] then []
    else (if s[0] == '\n' then "\r\n" else [s[0]]) + Rewritten(s[1..])
  }

  // ---------------------------------------------------------------- what is removed

  /** The repair undoes the link's rewriting on every text, pairs of its own included. */
  lemma {:induction false} RepairUndoesRewriting(s: seq<char>)
    ensures RemoveCr(Rewritten(s)) == s
    ensures HasPair(Rewritten(s)) <==> '\n' in s
    ensures |s| <= |Rewritten(s)|
  {
    if s != [] {
      var rest := s[1..];
      var r := Rewritten(rest);
      RepairUndoesRewriting(rest);
      var t := Rewritten(s);
      if s[0] == '\n' {
        assert t == ['\r'] + (['\n'] + r);
        assert PairAt(t, 0);
        assert t[1..] == ['\n'] + r && (['\n'] + r)[1..] == r;
      } else {
        assert t == [s[0]] + r;
        assert t[1..] == r;
        assert r != [] ==> r[0] != '\n';
        PairCons(s[0], r);
      }
    }
  }

  lemma {:induction false} PairCons(c: char, s: seq<char>)
    ensures HasPair([c] + s) <==> HasPair(s) || PairAt([c] + s, 0)
  {
    var t := [c] + s;
    if HasPair(s) {
      var k :| PairAt(s, k);
      assert PairAt(t, k + 1);
    }
    if HasPair(t) {
      var k :| PairAt(t, k);
      if k != 0 {
        assert PairAt(s, k - 1);
      }
    }
  }

  /** Nothing changes exactly when there is nothing to remove. */
  lemma {:induction false} RepairChangesPairs(s: seq<char>)
    ensures RemoveCr(s) == s <==> !HasPair(s)
    ensures |RemoveCr(s)| <= |s|
  {
    if s != [] {
      RepairChangesPairs(s[1..]);
      assert s == [s[0]] + s[1..];
      PairCons(s[0], s[1..]);
    }
  }

  /** `"\r\r\n"` stands at k. */
  predicate DoubledAt(s: seq<char>, k: int) {
    0 <= k < |s| - 2 && s[k] == '\r' && s[k + 1] == '\r' && s[k + 2] == '\n'
  }

  ghost predicate HasDoubled(s: seq<char>) {
    exists k :: DoubledAt(s, k)
  }

  lemma {:induction false} DoubledCons(c: char, s: seq<char>)
    ensures HasDoubled([c] + s) <==> HasDoubled(s) || DoubledAt([c] + s, 0)
  {
    var t := [c] + s;
    if HasDoubled(s) {
      var k :| DoubledAt(s, k);
      assert DoubledAt(t, k + 1);
    }
    if HasDoubled(t) {
      var k :| DoubledAt(t, k);
      if k != 0 {
        assert DoubledAt(s, k - 1);
      }
    }
  }

  lemma {:induction false} RepairedPair(s: seq<char>)
    ensures HasPair(RemoveCr(s)) <==> HasDoubled(s)
    ensures RemoveCr(s) != [] && RemoveCr(s)[0] == '\n' <==> s != [] && (s[0] == '\n' || PairAt(s, 0))
  {
    if s != [] {
      var rest := s[1..];
      RepairedPair(rest);
      assert s == [s[0]] + rest;
      DoubledCons(s[0], rest);
      if PairAt(s, 0) {
        assert !DoubledAt(s, 0);
      } else {
        PairCons(s[0], RemoveCr(rest));
        assert DoubledAt(s, 0) <==> s[0] == '\r' && PairAt(rest, 0);
      }
    }
  }

  /** A second repair changes nothing exactly for the texts without two `\r` before a `\n`. */
  lemma {:induction false} RepairTwice(s: seq<char>)
    ensures RemoveCr(RemoveCr(s)) == RemoveCr(s) <==> !HasDoubled(s)
  {
    RepairChangesPairs(RemoveCr(s));
    RepairedPair(s);
  }

  /** The shortest such text. */
  lemma {:induction false} RepairTwiceFails()
    ensures RemoveCr("\r\r\n") == "\r\n" && RemoveCr("\r\n") == "\n"
  {
    assert "\r\r\n"[1..] == "\r\n" && "\r\n"[1..] == "\n" && "\n"[1..] == "";
    assert PairAt("\r\n", 0) && !PairAt("\r\r\n", 0) && !PairAt("\n", 0);
    assert RemoveCr("\n") == "\n";
    assert RemoveCr("\r\n") == "\n";
  }

  // ---------------------------------------------------------------- in place

  /** What the characters before i leave. */
  ghost function Kept(s: seq<char>, i: nat): seq<char>
    requires i <= |s|
  {
    if i == 0 then [] else Kept(s, i - 1) + (if PairAt(s, i - 1) then [] else [s[i - 1]])
  }

  lemma {:induction false} KeptIsRemove(s: seq<char>, i: nat)
    requires i <= |s|
    ensures RemoveCr(s) == Kept(s, i) + RemoveCr(s[i..])
  {
    if i > 0 {
      KeptIsRemove(s, i - 1);
      assert s[i - 1..][1..] == s[i..];
    } else {
      assert s[0..] == s;
    }
  }

  lemma {:induction false} KeptAll(s: seq<char>)
    ensures Kept(s, |s|) == RemoveCr(s)
  {
    KeptIsRemove(s, |s|);
  }

  lemma {:induction false} KeptPrefix(s: seq<char>, i: nat)
    requires i <= |s| && forall k :: 0 <= k < i ==> !PairAt(s, k)
    ensures Kept(s, i) == s[..i]
  {
    if i > 0 {
      KeptPrefix(s, i - 1);
      assert s[..i] == s[..i - 1] + [s[i - 1]];
    }
  }

  /** The first pair, or the last index when there is none. */
  method FindPair(data: array<char>) returns (first: nat)
    requires data.Length >= 2
    ensures first < data.Length && forall k :: 0 <= k < first ==> !PairAt(data[..], k)
    ensures first < data.Length - 1 <==> PairAt(data[..], first)
  {
    first := 0;
    while first < data.Length - 1 && !(data[first] == '\r' && data[first + 1] == '\n')
      invariant first < data.Length
      invariant forall k :: 0 <= k < first ==> !PairAt(data[..], k)
    {
      first := first + 1;
    }
  }

  /** Copies c to the write cursor. */
  method Put(data: array<char>, next: nat, c: char)
    requires next < data.Length
    modifies data
    ensures data[..next + 1] == old(data[..next]) + [c]
    ensures forall k :: next < k < data.Length ==> data[k] == old(data[k])
  {
    data[next] := c;
  }

  /** Moves forward what is kept after a first pair. */
  method Compact(data: array<char>, start: nat) returns (next: nat)
    requires start < data.Length - 1 && PairAt(data[..], start)
    requires forall k :: 0 <= k < start ==> !PairAt(data[..], k)
    modifies data
    ensures next < data.Length - 1
    ensures data[..next] == Kept(old(data[..]), data.Length - 1)
    ensures data[data.Length - 1] == old(data[data.Length - 1])
  {
    ghost var s := data[..];
    KeptPrefix(s, start);
    var first := start + 1;
    next := start;
    while first != data.Length - 1
      invariant next < first < data.Length
      invariant |s| == data.Length && forall k :: first <= k < data.Length ==> data[k] == s[k]
      invariant data[..next] == Kept(s, first)
      decreases data.Length - first
    {
      if !(data[first] == '\r' && data[first + 1] == '\n') {
        Put(data, next, data[first]);
        next := next + 1;
      }
      first := first + 1;
    }
  }

  /** Repairs the text in place; the first `len` characters are what is left of it. */
  method ConvertLf(data: array<char>) returns (found: bool, len: nat)
    modifies data
    ensures found <==> HasPair(old(data[..]))
    ensures len <= data.Length && data[..len] == RemoveCr(old(data[..]))
    ensures !found ==> len == data.Length && data[..] == old(data[..])
    ensures found ==> 0 < len < data.Length
  {
    ghost var s := data[..];
    RepairChangesPairs(s);
    assert data[..data.Length] == s;
    if data.Length < 2 {
      return false, data.Length;
    }
    var first := FindPair(data);
    if first == data.Length - 1 {
      return false, data.Length;
    }
    var last := data.Length - 1;
    var next := Compact(data, first);
    Put(data, next, data[last]);
    KeptAll(s);
    found, len := true, next + 1;
  }
}
