/**
 String helpers with the meaning of the Python `str` operations the core uses:
 slicing `s[:n]`, `s.lower()`, `key in s`, `s.strip()`, `s.splitlines()` and
 `"\n".join(lines)`. Characters are Unicode scalar values; lower-casing covers
 the ASCII and Latin-1 upper-case letters, and the whitespace and line-break
 sets are Python's.
 */
module Text {

  /** The first `n` characters of `s`, or all of `s` when it is shorter (`s[:n]`). */
  function Take(s: string, n: nat): (r: string)
    ensures |r| == if |s| <= n then |s| else n
    ensures r == s[..|r|]
  {
    if |s| <= n then s else s[..n]
  }

  // ---------------------------------------------------------------------------
  // Lower-casing
  // ---------------------------------------------------------------------------

  /** Upper-case letters of ASCII and Latin-1 (the multiplication sign excepted). */
  predicate IsUpper(c: char) {
    ('A' <= c <= 'Z') || ('\U{C0}' <= c <= '\U{DE}' && c != '\U{D7}')
  }

  /** `c.lower()` for the letters `IsUpper` names; every other character is its own lower case. */
  function LowerChar(c: char): (r: char)
    ensures IsUpper(c) ==> r as int == c as int + 32
    ensures !IsUpper(c) ==> r == c
  {
    if IsUpper(c) then (c as int + 32) as char else c
  }

  /** `s.lower()`, character by character. */
  function Lower(s: string): (r: string)
    ensures |r| == |s|
    ensures forall i :: 0 <= i < |s| ==> r[i] == LowerChar(s[i])
  {
    seq(|s|, i requires 0 <= i < |s| => LowerChar(s[i]))
  }

  lemma LowerSlice(s: string, i: nat, j: nat)
    requires i <= j <= |s|
    ensures Lower(s[i..j]) == Lower(s)[i..j]
  {
  }

  lemma LowerAroundNewline(a: string, b: string)
    ensures Lower(a + "\n" + b) == Lower(a) + "\n" + Lower(b)
  {
    assert LowerChar('\n') == '\n';
  }

  // ---------------------------------------------------------------------------
  // Substring search (`key in s`)
  // ---------------------------------------------------------------------------

  /** `key` sits in `s` starting at index `i`. */
  ghost predicate OccursAt(key: string, s: string, i: int) {
    0 <= i && i + |key| <= |s| && s[i..i + |key|] == key
  }

  /** Reference meaning of `key in s`: some index where `key` starts. */
  ghost predicate Occurs(key: string, s: string) {
    exists i :: OccursAt(key, s, i)
  }

  /** Python's `key in s`, computed by trying every starting position in turn. */
  function Contains(s: string, key: string): bool
    decreases |s|
  {
    if |key| > |s| then false
    else if s[..|key|] == key then true
    else Contains(s[1..], key)
  }

  /** An occurrence in the tail is an occurrence one position further on. */
  lemma OccursAtTail(key: string, s: string, i: int)
    requires |s| > 0 && 0 <= i
    ensures OccursAt(key, s[1..], i) <==> OccursAt(key, s, i + 1)
  {
    if i + 1 + |key| <= |s| {
      assert s[1..][i..i + |key|] == s[i + 1..i + 1 + |key|];
    }
  }

  /** The search agrees with the reference meaning for every input. */
  lemma {:induction false} ContainsIsOccurs(s: string, key: string)
    ensures Contains(s, key) <==> Occurs(key, s)
    decreases |s|
  {
    if |key| > |s| {
      assert forall i :: !OccursAt(key, s, i);
    } else if s[..|key|] == key {
      assert OccursAt(key, s, 0);
    } else {
      ContainsIsOccurs(s[1..], key);
      if Contains(s[1..], key) {
        var i :| OccursAt(key, s[1..], i);
        OccursAtTail(key, s, i);
      }
      if Occurs(key, s) {
        var i :| OccursAt(key, s, i);
        assert i != 0;
        OccursAtTail(key, s, i - 1);
      }
    }
  }

  lemma OccursInSlice(key: string, s: string, i: nat, j: nat)
    requires i <= j <= |s|
    requires Occurs(key, s[i..j])
    ensures Occurs(key, s)
  {
    var w := s[i..j];
    var k :| OccursAt(key, w, k);
    assert forall t :: 0 <= t < |key| ==> s[i + k + t] == w[k + t] == key[t];
    assert s[i + k..i + k + |key|] == key;
    assert OccursAt(key, s, i + k);
  }

  lemma NewlineInside(key: string, a: string, b: string, i: int)
    requires OccursAt(key, a + "\n" + b, i)
    requires i <= |a| < i + |key|
    ensures key[|a| - i] == '\n'
  {
    var s := a + "\n" + b;
    assert key[|a| - i] == s[i..i + |key|][|a| - i] == s[|a|];
  }

  /** A key without a newline that occurs around a newline occurs on one side of it. */
  lemma OccursAroundNewline(key: string, a: string, b: string)
    requires forall t :: 0 <= t < |key| ==> key[t] != '\n'
    requires Occurs(key, a + "\n" + b)
    ensures Occurs(key, a) || Occurs(key, b)
  {
    var s := a + "\n" + b;
    var i :| OccursAt(key, s, i);
    if i + |key| <= |a| {
      assert s[i..i + |key|] == a[i..i + |key|];
      assert OccursAt(key, a, i);
    } else if i > |a| {
      assert s[i..i + |key|] == b[i - |a| - 1..i - |a| - 1 + |key|];
      assert OccursAt(key, b, i - |a| - 1);
    } else {
      NewlineInside(key, a, b, i);
      assert false;
    }
  }

  // ---------------------------------------------------------------------------
  // Stripping whitespace (`s.strip()`)
  // ---------------------------------------------------------------------------

  /** Python's `str.isspace()` characters. */
  predicate IsSpace(c: char) {
    || c == ' ' || ('\t' <= c <= '\r') || ('\U{1C}' <= c <= '\U{1F}')
    || c == '\U{85}' || c == '\U{A0}' || c == '\U{1680}'
    || ('\U{2000}' <= c <= '\U{200A}') || c == '\U{2028}' || c == '\U{2029}'
    || c == '\U{202F}' || c == '\U{205F}' || c == '\U{3000}'
  }

  /** Number of whitespace characters at the start of `s`. */
  function LeadingSpaces(s: string): (n: nat)
    ensures n <= |s|
    ensures forall k :: 0 <= k < n ==> IsSpace(s[k])
    ensures n < |s| ==> !IsSpace(s[n])
  {
    if |s| > 0 && IsSpace(s[0]) then 1 + LeadingSpaces(s[1..]) else 0
  }

  /** Number of whitespace characters at the end of `s`. */
  function TrailingSpaces(s: string): (n: nat)
    ensures n <= |s|
    ensures forall k :: |s| - n <= k < |s| ==> IsSpace(s[k])
    ensures n < |s| ==> !IsSpace(s[|s| - n - 1])
  {
    if |s| > 0 && IsSpace(s[|s| - 1]) then 1 + TrailingSpaces(s[..|s| - 1]) else 0
  }

  /**
   The slice `s[i..j]` that `strip` keeps: everything before `i` and from `j`
   on is whitespace, and a non-empty kept slice neither starts nor ends with it.
   */
  function StripBounds(s: string): (b: (nat, nat))
    ensures b.0 <= b.1 <= |s|
    ensures forall k :: 0 <= k < b.0 ==> IsSpace(s[k])
    ensures forall k :: b.1 <= k < |s| ==> IsSpace(s[k])
    ensures b.0 < b.1 ==> !IsSpace(s[b.0]) && !IsSpace(s[b.1 - 1])
  {
    var i := LeadingSpaces(s);
    var t := s[i..];
    var n := TrailingSpaces(t);
    assert forall k :: i + |t| - n <= k < |s| ==> s[k] == t[k - i];
    (i, |s| - n)
  }

  /** `s.strip()`. */
  function Strip(s: string): string {
    s[StripBounds(s).0..StripBounds(s).1]
  }

  /** Neither empty nor starting or ending with whitespace: what `strip` leaves behind. */
  predicate Trimmed(s: string) {
    s == "" || (!IsSpace(s[0]) && !IsSpace(s[|s| - 1]))
  }

  /** `strip` removes whitespace only at the ends and leaves a trimmed text, which it then keeps. */
  lemma StripTrims(s: string)
    ensures Trimmed(Strip(s))
    ensures Trimmed(s) ==> Strip(s) == s
  {
    var b := StripBounds(s);
    assert Trimmed(s) && s != "" ==> b.0 == 0 && b.1 == |s|;
  }

  // ---------------------------------------------------------------------------
  // Lines (`s.splitlines()` and `"\n".join(lines)`)
  // ---------------------------------------------------------------------------

  /** The line boundaries of Python's `str.splitlines()`. */
  predicate IsLineBreak(c: char) {
    || ('\n' <= c <= '\r') || ('\U{1C}' <= c <= '\U{1E}')
    || c == '\U{85}' || c == '\U{2028}' || c == '\U{2029}'
  }

  predicate NoLineBreak(line: string) {
    forall k :: 0 <= k < |line| ==> !IsLineBreak(line[k])
  }

  /** Index of the first line-break character of `s`, or `|s|` if there is none. */
  function FirstBreak(s: string): (i: nat)
    ensures i <= |s|
    ensures forall k :: 0 <= k < i ==> !IsLineBreak(s[k])
    ensures i < |s| ==> IsLineBreak(s[i])
  {
    if |s| == 0 || IsLineBreak(s[0]) then 0 else 1 + FirstBreak(s[1..])
  }

  /**
   `s.splitlines()`: the pieces between line breaks, a "\r\n" pair counting as
   one break, with no empty piece after a final break.
   */
  function SplitLines(s: string): (lines: seq<string>)
    ensures forall j :: 0 <= j < |lines| ==> NoLineBreak(lines[j])
    ensures s != "" ==> |lines| > 0
    decreases |s|
  {
    if s == "" then []
    else
      var i := FirstBreak(s);
      if i == |s| then [s]
      else
        var width := if s[i] == '\r' && i + 1 < |s| && s[i + 1] == '\n' then 2 else 1;
        [s[..i]] + SplitLines(s[i + width..])
  }

  /** `"\n".join(lines)`. */
  function JoinLines(lines: seq<string>): string {
    if |lines| == 0 then ""
    else if |lines| == 1 then lines[0]
    else lines[0] + "\n" + JoinLines(lines[1..])
  }

  /** "\n" is the only line-break character of `s`. */
  ghost predicate OnlyNewlineBreaks(s: string) {
    forall k :: 0 <= k < |s| && IsLineBreak(s[k]) ==> s[k] == '\n'
  }

  lemma OnlyNewlineBreaksSuffix(s: string, k: nat)
    requires OnlyNewlineBreaks(s) && k <= |s|
    ensures OnlyNewlineBreaks(s[k..])
  {
    assert forall t :: 0 <= t < |s| - k ==> s[k..][t] == s[k + t];
  }

  lemma OnlyNewlineBreaksSlice(s: string, i: nat, j: nat)
    requires OnlyNewlineBreaks(s) && i <= j <= |s|
    ensures OnlyNewlineBreaks(s[i..j])
  {
    assert forall t :: 0 <= t < j - i ==> s[i..j][t] == s[i + t];
  }

  /** Lines free of breaks, joined with "\n", have "\n" as their only break. */
  lemma {:induction false} JoinedLinesBreaks(lines: seq<string>)
    requires forall j :: 0 <= j < |lines| ==> NoLineBreak(lines[j])
    ensures OnlyNewlineBreaks(JoinLines(lines))
    decreases |lines|
  {
    if |lines| > 1 {
      JoinedLinesBreaks(lines[1..]);
      var a, b := lines[0], JoinLines(lines[1..]);
      var s := a + "\n" + b;
      forall k | 0 <= k < |s| ensures IsLineBreak(s[k]) ==> s[k] == '\n' {
        if k < |a| {
          assert s[k] == a[k];
        } else if k > |a| {
          assert s[k] == b[k - |a| - 1];
        }
      }
    }
  }

  /** How many characters the break at `i` spans: two for "\r\n", one otherwise. */
  function BreakWidth(s: string, i: nat): (w: nat)
    requires i < |s|
    ensures 1 <= w <= 2 && i + w <= |s|
  {
    if s[i] == '\r' && i + 1 < |s| && s[i + 1] == '\n' then 2 else 1
  }

  lemma {:induction false} SplitAtBreak(s: string)
    requires FirstBreak(s) < |s|
    ensures SplitLines(s)
            == [s[..FirstBreak(s)]] + SplitLines(s[FirstBreak(s) + BreakWidth(s, FirstBreak(s))..])
  {
  }

  lemma JoinCons(line: string, rest: seq<string>)
    requires |rest| > 0
    ensures JoinLines([line] + rest) == line + "\n" + JoinLines(rest)
  {
    assert ([line] + rest)[1..] == rest;
  }

  /** `s` with every line break, a "\r\n" pair counting as one, replaced by "\n". */
  function NormalizeBreaks(s: string): (r: string)
    ensures |r| <= |s|
    decreases |s|
  {
    if s == "" then ""
    else
      var i := FirstBreak(s);
      if i == |s| then s else s[..i] + "\n" + NormalizeBreaks(s[i + BreakWidth(s, i)..])
  }

  predicate EndsInBreak(s: string) {
    s != "" && IsLineBreak(s[|s| - 1])
  }

  /**
   `splitlines` followed by `"\n".join` replaces every kind of break by "\n"
   and drops one final break: together with the pieces being break-free, this
   says what every piece of `SplitLines` holds.
   */
  lemma {:induction false} JoinSplitLinesNormalizes(s: string)
    ensures !EndsInBreak(s) ==> JoinLines(SplitLines(s)) == NormalizeBreaks(s)
    ensures EndsInBreak(s) ==> JoinLines(SplitLines(s)) + "\n" == NormalizeBreaks(s)
    decreases |s|
  {
    if s != "" {
      var i := FirstBreak(s);
      if i == |s| {
        assert !EndsInBreak(s);
        assert SplitLines(s) == [s];
      } else {
        var w := BreakWidth(s, i);
        var rest := s[i + w..];
        var head := s[..i];
        assert NormalizeBreaks(s) == head + "\n" + NormalizeBreaks(rest);
        if rest == "" {
          assert EndsInBreak(s) by {
            assert s[|s| - 1] == s[i] || s[|s| - 1] == '\n';
          }
          assert JoinLines(SplitLines(s)) == head by {
            SplitAtBreak(s);
          }
        } else {
          assert EndsInBreak(s) == EndsInBreak(rest) by {
            assert rest[|rest| - 1] == s[|s| - 1];
          }
          assert JoinLines(SplitLines(s)) == head + "\n" + JoinLines(SplitLines(rest)) by {
            SplitAtBreak(s);
            JoinCons(head, SplitLines(rest));
          }
          JoinSplitLinesNormalizes(rest);
          JoinAfterHead(head, JoinLines(SplitLines(rest)), NormalizeBreaks(rest), EndsInBreak(rest));
        }
      }
    }
  }

  lemma JoinAfterHead(head: string, joined: string, normal: string, ends: bool)
    requires !ends ==> joined == normal
    requires ends ==> joined + "\n" == normal
    ensures !ends ==> head + "\n" + joined == head + "\n" + normal
    ensures ends ==> head + "\n" + joined + "\n" == head + "\n" + normal
  {
    assert head + "\n" + joined + "\n" == head + "\n" + (joined + "\n");
  }

  /** A text whose only break is "\n" is its own normal form. */
  lemma {:induction false} NormalizeNewlineOnly(s: string)
    requires OnlyNewlineBreaks(s)
    ensures NormalizeBreaks(s) == s
    decreases |s|
  {
    if s != "" {
      var i := FirstBreak(s);
      if i < |s| {
        var rest := s[i + 1..];
        assert NormalizeBreaks(s) == s[..i] + "\n" + NormalizeBreaks(rest) by {
          assert s[i] == '\n' && BreakWidth(s, i) == 1;
        }
        assert NormalizeBreaks(rest) == rest by {
          OnlyNewlineBreaksSuffix(s, i + 1);
          NormalizeNewlineOnly(rest);
        }
        assert s == s[..i] + "\n" + rest by {
          assert s[i] == '\n';
        }
      }
    }
  }

  /**
   Splitting and re-joining with "\n" gives the text back when "\n" is its only
   line break and it does not end with one.
   */
  lemma JoinSplitLines(s: string)
    requires OnlyNewlineBreaks(s)
    requires s == "" || s[|s| - 1] != '\n'
    ensures JoinLines(SplitLines(s)) == s
  {
    assert s != "" ==> !IsLineBreak(s[|s| - 1]);
    JoinSplitLinesNormalizes(s);
    NormalizeNewlineOnly(s);
  }

  /** Every character of a joined text comes from a line or is the separator. */
  lemma {:induction false} OccursInJoinedLines(key: string, lines: seq<string>)
    requires |key| > 0 && forall t :: 0 <= t < |key| ==> key[t] != '\n'
    requires Occurs(key, Lower(JoinLines(lines)))
    ensures exists j :: 0 <= j < |lines| && Occurs(key, Lower(lines[j]))
    decreases |lines|
  {
    if |lines| == 0 {
      assert false;
    } else if |lines| == 1 {
      assert Occurs(key, Lower(lines[0]));
    } else {
      LowerAroundNewline(lines[0], JoinLines(lines[1..]));
      OccursAroundNewline(key, Lower(lines[0]), Lower(JoinLines(lines[1..])));
      if Occurs(key, Lower(lines[0])) {
      } else {
        OccursInJoinedLines(key, lines[1..]);
        var j :| 0 <= j < |lines[1..]| && Occurs(key, Lower(lines[1..][j]));
        assert lines[1..][j] == lines[j + 1];
      }
    }
  }

  lemma OccursInLowerPrefix(key: string, s: string, i: nat)
    requires i <= |s| && Occurs(key, Lower(s[..i]))
    ensures Occurs(key, Lower(s))
  {
    assert s[..i] == s[0..i];
    LowerSlice(s, 0, i);
    OccursInSlice(key, Lower(s), 0, i);
  }

  lemma OccursInLowerSuffix(key: string, s: string, i: nat)
    requires i <= |s| && Occurs(key, Lower(s[i..]))
    ensures Occurs(key, Lower(s))
  {
    assert s[i..] == s[i..|s|];
    LowerSlice(s, i, |s|);
    OccursInSlice(key, Lower(s), i, |s|);
  }

  /** Every line `splitlines` produces is a piece of its input, so a key in a line is a key in the input. */
  lemma {:induction false} OccursInSplitLine(key: string, s: string, j: nat)
    requires j < |SplitLines(s)|
    requires Occurs(key, Lower(SplitLines(s)[j]))
    ensures Occurs(key, Lower(s))
    decreases |s|
  {
    var i := FirstBreak(s);
    if i < |s| {
      var rest := s[i + BreakWidth(s, i)..];
      SplitAtBreak(s);
      if j == 0 {
        OccursInLowerPrefix(key, s, i);
      } else {
        OccursInSplitLine(key, rest, j - 1);
        OccursInLowerSuffix(key, s, i + BreakWidth(s, i));
      }
    }
  }
}
