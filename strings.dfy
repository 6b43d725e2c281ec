/** Character and string operations the dashboards rely on: the whitespace
    class, ASCII case, substring search (Python `in`, JavaScript `includes`),
    trimming, and the split / join / replace-all of a non-empty separator. */
module Strings {

  /** The ASCII whitespace set: regex `\s` as under `re.ASCII`
      (`[ \t\n\r\f\v]`), and what `String.prototype.trim` removes from
      ASCII text. */
  predicate IsSpace(c: char) {
    c == ' ' || c == '\t' || c == '\n' || c == '\r' || c == '\U{B}' || c == '\U{C}'
  }

  predicate IsUpper(c: char) { 'A' <= c <= 'Z' }

  predicate IsAsciiLetter(c: char) { IsUpper(c) || 'a' <= c <= 'z' }

  /** ASCII lower-casing of one character. */
  function LowerChar(c: char): (r: char)
    ensures !IsUpper(r)
    ensures !IsUpper(c) ==> r == c
    ensures IsUpper(c) ==> r as int == c as int + 32
  {
    if IsUpper(c) then (c as int + 32) as char else c
  }

  /** `toLowerCase()` restricted to ASCII. */
  function ToLower(s: string): (r: string)
    ensures |r| == |s|
    ensures forall i :: 0 <= i < |s| ==> r[i] == LowerChar(s[i])
  {
    seq(|s|, i requires 0 <= i < |s| => LowerChar(s[i]))
  }

  // ---------------------------------------------------------------------
  // Substrings

  predicate StartsWith(s: string, prefix: string) {
    |prefix| <= |s| && s[..|prefix|] == prefix
  }

  /** `sub` occurs in `s` starting at index `i`. */
  predicate OccursAt(s: string, sub: string, i: int) {
    0 <= i && i + |sub| <= |s| && s[i..i + |sub|] == sub
  }

  /** Substring containment: `sub in s` in Python, `s.includes(sub)` in JavaScript. */
  predicate Contains(s: string, sub: string)
    decreases |s|
  {
    StartsWith(s, sub) || (s != [] && Contains(s[1..], sub))
  }

  lemma {:induction false} ContainsIff(s: string, sub: string)
    ensures Contains(s, sub) <==> exists i :: OccursAt(s, sub, i)
    decreases |s|
  {
    if s == [] {
      if exists i :: OccursAt(s, sub, i) {
        var i :| OccursAt(s, sub, i);
        assert sub == [];
        assert StartsWith(s, sub);
      }
      if Contains(s, sub) {
        assert OccursAt(s, sub, 0);
      }
    } else {
      ContainsIff(s[1..], sub);
      if StartsWith(s, sub) {
        assert OccursAt(s, sub, 0);
      }
      if Contains(s[1..], sub) {
        var i :| OccursAt(s[1..], sub, i);
        assert s[1..][i..i + |sub|] == s[i + 1..i + 1 + |sub|];
        assert OccursAt(s, sub, i + 1);
      }
      if exists i :: OccursAt(s, sub, i) {
        var i :| OccursAt(s, sub, i);
        if i == 0 {
          assert StartsWith(s, sub);
        } else {
          assert s[1..][i - 1..i - 1 + |sub|] == s[i..i + |sub|];
          assert OccursAt(s[1..], sub, i - 1);
        }
      }
    }
  }

  /** A string contains whatever ends it. */
  lemma ContainsAppended(p: string, x: string)
    ensures Contains(p + x, x)
  {
    assert OccursAt(p + x, x, |p|);
    ContainsIff(p + x, x);
  }

  /** A string shorter than `sub` does not contain it. */
  lemma {:induction false} ShorterLacks(s: string, sub: string)
    requires |s| < |sub|
    ensures !Contains(s, sub)
    decreases |s|
  {
    if s != [] {
      ShorterLacks(s[1..], sub);
    }
  }

  // ---------------------------------------------------------------------
  // Trimming

  predicate IsTrimmed(s: string) {
    s == [] || (!IsSpace(s[0]) && !IsSpace(s[|s| - 1]))
  }

  function TrimStart(s: string): (r: string)
    ensures |r| <= |s| && r == s[|s| - |r|..]
    ensures r == [] || !IsSpace(r[0])
    ensures forall i :: 0 <= i < |s| - |r| ==> IsSpace(s[i])
  {
    if s != [] && IsSpace(s[0]) then TrimStart(s[1..]) else s
  }

  function TrimEnd(s: string): (r: string)
    ensures |r| <= |s| && r == s[..|r|]
    ensures r == [] || !IsSpace(r[|r| - 1])
    ensures forall i :: |r| <= i < |s| ==> IsSpace(s[i])
  {
    if s != [] && IsSpace(s[|s| - 1]) then TrimEnd(s[..|s| - 1]) else s
  }

  /** Everything of `s` outside the index range `[i, j)` is whitespace. */
  predicate SpaceOutside(s: string, i: int, j: int) {
    0 <= i <= j <= |s|
    && (forall k :: 0 <= k < i ==> IsSpace(s[k]))
    && (forall k :: j <= k < |s| ==> IsSpace(s[k]))
  }

  // The three facts behind `Trim`, one lemma each.

  lemma TrimmedEnds(s: string)
    ensures IsTrimmed(TrimEnd(TrimStart(s)))
  {
    var t := TrimStart(s);
    var r := TrimEnd(t);
    if r != [] {
      assert r[0] == t[0];
    }
  }

  lemma PrefixOfSuffix(s: string, t: string, r: string, i: int)
    requires 0 <= i <= |s| && t == s[i..] && |r| <= |t| && r == t[..|r|]
    ensures OccursAt(s, r, i)
  {
    assert s[i..i + |r|] == t[..|r|];
  }

  lemma TrimmedPiece(s: string)
    ensures OccursAt(s, TrimEnd(TrimStart(s)), |s| - |TrimStart(s)|)
  {
    var t := TrimStart(s);
    PrefixOfSuffix(s, t, TrimEnd(t), |s| - |t|);
  }

  lemma TrimmedSpaceAfter(s: string)
    ensures forall k :: |s| - |TrimStart(s)| + |TrimEnd(TrimStart(s))| <= k < |s| ==> IsSpace(s[k])
  {
    var t := TrimStart(s);
    var r := TrimEnd(t);
    var i := |s| - |t|;
    forall k | i + |r| <= k < |s| ensures IsSpace(s[k]) {
      assert s[k] == t[k - i];
    }
  }

  /** `String.prototype.trim`: the longest piece of `s` that neither starts
      nor ends with whitespace, obtained by removing whitespace at both ends. */
  function Trim(s: string): (r: string)
    ensures IsTrimmed(r)
    ensures OccursAt(s, r, |s| - |TrimStart(s)|)
    ensures SpaceOutside(s, |s| - |TrimStart(s)|, |s| - |TrimStart(s)| + |r|)
  {
    TrimmedEnds(s);
    TrimmedPiece(s);
    TrimmedSpaceAfter(s);
    TrimEnd(TrimStart(s))
  }

  // ---------------------------------------------------------------------
  // Split, join and replace-all of a non-empty separator, scanning left to
  // right for non-overlapping occurrences (Python `str.split(sep)` and
  // `str.replace`, JavaScript `split(sep)`).

  /** Number of non-overlapping occurrences of `sep`, leftmost first. */
  function Occurrences(s: string, sep: string): nat
    requires |sep| > 0
    decreases |s|
  {
    if |s| < |sep| then 0
    else if s[..|sep|] == sep then 1 + Occurrences(s[|sep|..], sep)
    else Occurrences(s[1..], sep)
  }

  /** The pieces between the occurrences of `sep`. */
  function Split(s: string, sep: string): (r: seq<string>)
    requires |sep| > 0
    ensures |r| == Occurrences(s, sep) + 1
    decreases |s|
  {
    if |s| < |sep| then [s]
    else if s[..|sep|] == sep then [[]] + Split(s[|sep|..], sep)
    else
      var rest := Split(s[1..], sep);
      [[s[0]] + rest[0]] + rest[1..]
  }

  /** The pieces with `sep` between consecutive ones. */
  function Join(parts: seq<string>, sep: string): string {
    if |parts| == 0 then []
    else if |parts| == 1 then parts[0]
    else parts[0] + sep + Join(parts[1..], sep)
  }

  /** Every occurrence of `pat` replaced by `rep`. */
  function ReplaceAll(s: string, pat: string, rep: string): string
    requires |pat| > 0
    decreases |s|
  {
    if |s| < |pat| then s
    else if s[..|pat|] == pat then rep + ReplaceAll(s[|pat|..], pat, rep)
    else [s[0]] + ReplaceAll(s[1..], pat, rep)
  }

  lemma JoinPrependToFirst(c: char, parts: seq<string>, sep: string)
    requires |parts| >= 1
    ensures Join([[c] + parts[0]] + parts[1..], sep) == [c] + Join(parts, sep)
  {
    var q := [[c] + parts[0]] + parts[1..];
    if |parts| > 1 {
      assert q[1..] == parts[1..];
    }
  }

  /** Joining the pieces of a split with the same separator gives the string back. */
  lemma {:induction false} JoinSplit(s: string, sep: string)
    requires |sep| > 0
    ensures Join(Split(s, sep), sep) == s
    decreases |s|
  {
    if |s| < |sep| {
    } else if s[..|sep|] == sep {
      var rest := Split(s[|sep|..], sep);
      JoinSplit(s[|sep|..], sep);
      var parts := [[]] + rest;
      assert parts[1..] == rest;
      assert Join(parts, sep) == [] + sep + Join(rest, sep);
      assert s == s[..|sep|] + s[|sep|..];
    } else {
      var rest := Split(s[1..], sep);
      JoinSplit(s[1..], sep);
      JoinPrependToFirst(s[0], rest, sep);
      assert s == [s[0]] + s[1..];
    }
  }

  /** Replacing every occurrence is splitting on it and joining with the replacement. */
  lemma {:induction false} ReplaceAllIsSplitJoin(s: string, pat: string, rep: string)
    requires |pat| > 0
    ensures ReplaceAll(s, pat, rep) == Join(Split(s, pat), rep)
    decreases |s|
  {
    if |s| < |pat| {
    } else if s[..|pat|] == pat {
      var rest := Split(s[|pat|..], pat);
      ReplaceAllIsSplitJoin(s[|pat|..], pat, rep);
      var parts := [[]] + rest;
      assert parts[1..] == rest;
      assert Join(parts, rep) == [] + rep + Join(rest, rep);
    } else {
      var rest := Split(s[1..], pat);
      ReplaceAllIsSplitJoin(s[1..], pat, rep);
      JoinPrependToFirst(s[0], rest, rep);
    }
  }

  /** Replacing a single character distributes over concatenation. */
  lemma {:induction false} ReplaceCharAppend(a: string, b: string, c: char, rep: string)
    ensures ReplaceAll(a + b, [c], rep) == ReplaceAll(a, [c], rep) + ReplaceAll(b, [c], rep)
    decreases |a|
  {
    if a == [] {
      assert a + b == b;
    } else {
      ReplaceCharAppend(a[1..], b, c, rep);
      assert (a + b)[..1] == [a[0]] && a[..1] == [a[0]];
      assert (a + b)[1..] == a[1..] + b;
    }
  }

  /** Replacing a character that does not occur changes nothing. */
  lemma {:induction false} ReplaceAbsentChar(s: string, c: char, rep: string)
    requires c !in s
    ensures ReplaceAll(s, [c], rep) == s
    decreases |s|
  {
    if s != [] {
      assert s[..1] == [s[0]];
      ReplaceAbsentChar(s[1..], c, rep);
      assert s == [s[0]] + s[1..];
    }
  }
}
