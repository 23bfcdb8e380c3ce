/** The JavaScript string operations the application relies on, over Dafny
    strings (sequences of Unicode scalar values): `trim`, `toLowerCase`,
    `split`, `startsWith`, `endsWith` and the UTF-16 `length`. */
module Text {

  /** The code points ECMAScript's `String.prototype.trim` strips: the
      WhiteSpace and LineTerminator productions of the language. */
  predicate IsSpace(c: char) {
    var n := c as int;
    n == 0x09 || n == 0x0A || n == 0x0B || n == 0x0C || n == 0x0D || n == 0x20
    || n == 0xA0 || n == 0x1680 || (0x2000 <= n <= 0x200A)
    || n == 0x2028 || n == 0x2029 || n == 0x202F || n == 0x205F
    || n == 0x3000 || n == 0xFEFF
  }

  predicate AllSpace(s: string) {
    forall i :: 0 <= i < |s| ==> IsSpace(s[i])
  }

  /** A string `trim` leaves alone: empty, or with a non-space at both ends. */
  predicate Trimmed(s: string) {
    s == [] || (!IsSpace(s[0]) && !IsSpace(s[|s| - 1]))
  }

  /** Every position before `n` holds white space when `s[..n]` is all
      white space, and likewise every position from `n` on for `s[n..]`. */
  lemma AllSpaceAt(s: string, n: nat)
    requires n <= |s|
    ensures AllSpace(s[..n]) ==> forall k :: 0 <= k < n ==> IsSpace(s[k])
    ensures AllSpace(s[n..]) ==> forall k :: n <= k < |s| ==> IsSpace(s[k])
  {
    assert forall k :: 0 <= k < n ==> s[..n][k] == s[k];
    assert forall k :: n <= k < |s| ==> s[n..][k - n] == s[k];
  }

  /** How many white-space code points `s` starts with: all of them up to
      the first code point that is not white space. */
  function LeadingSpace(s: string): (n: nat)
    ensures n <= |s| && AllSpace(s[..n])
    ensures n < |s| ==> !IsSpace(s[n])
  {
    if s != [] && IsSpace(s[0]) then
      var n := 1 + LeadingSpace(s[1..]);
      assert s[..n] == [s[0]] + s[1..][..n - 1];
      n
    else 0
  }

  /** How many white-space code points `s` ends with, symmetric to
      `LeadingSpace`. */
  function TrailingSpace(s: string): (n: nat)
    ensures n <= |s| && AllSpace(s[|s| - n..])
    ensures n < |s| ==> !IsSpace(s[|s| - 1 - n])
  {
    if s != [] && IsSpace(s[|s| - 1]) then
      var n := 1 + TrailingSpace(s[..|s| - 1]);
      assert s[|s| - n..] == s[..|s| - 1][|s| - n..] + [s[|s| - 1]];
      n
    else 0
  }

  /** JavaScript `s.trim()`: the infix of `s` left once the white space at
      both ends is cut off. It is trimmed, and it is empty exactly when the
      whole input is white space; `TrimCharacterised` shows that these facts
      fix the result. */
  function Trim(s: string): (r: string)
    ensures |r| <= |s|
    ensures Trimmed(r)
    ensures r == [] <==> AllSpace(s)
    ensures exists i, j :: 0 <= i <= j <= |s| && r == s[i..j] && AllSpace(s[..i]) && AllSpace(s[j..])
  {
    var i := LeadingSpace(s);
    if i == |s| then
      assert s[..i] == s && s[i..i] == [];
      []
    else
      var j := |s| - TrailingSpace(s);
      AllSpaceAt(s, j);
      assert !IsSpace(s[i]) && i < j;
      assert s[i..j][0] == s[i] && s[i..j][j - i - 1] == s[j - 1];
      s[i..j]
  }

  /** The converse: an infix of `s` with white space on both sides that is
      itself trimmed, and empty only for an all-white-space `s`, is
      `Trim(s)`. */
  lemma TrimCharacterised(s: string, i: nat, j: nat)
    requires i <= j <= |s|
    requires AllSpace(s[..i]) && AllSpace(s[j..]) && Trimmed(s[i..j])
    requires s[i..j] == [] ==> AllSpace(s)
    ensures Trim(s) == s[i..j]
  {
    var n, m := LeadingSpace(s), |s| - TrailingSpace(s);
    AllSpaceAt(s, i);
    AllSpaceAt(s, j);
    AllSpaceAt(s, n);
    AllSpaceAt(s, m);
    // When not empty, the infix starts at the first non-space of `s` and
    // ends after its last one.
    assert i < j ==> s[i..j][0] == s[i] && s[i..j][j - i - 1] == s[j - 1];
  }

  /** `trim` leaves an already trimmed string unchanged. */
  lemma TrimFixed(s: string)
    requires Trimmed(s)
    ensures Trim(s) == s
  {
  }

  /** `trim` is idempotent. */
  lemma TrimIdempotent(s: string)
    ensures Trim(Trim(s)) == Trim(s)
  {
    TrimFixed(Trim(s));
  }

  /** JavaScript `toLowerCase` restricted to the ASCII letters. */
  function LowerChar(c: char): (d: char)
    ensures IsSpace(d) <==> IsSpace(c)
    ensures d == c || ('A' <= c <= 'Z')
    ensures 'A' <= c <= 'Z' ==> d as int == c as int + 32
  {
    if 'A' <= c <= 'Z' then (c as int + 32) as char else c
  }

  function Lower(s: string): (r: string)
    ensures |r| == |s|
    ensures forall i :: 0 <= i < |s| ==> r[i] == LowerChar(s[i])
  {
    seq(|s|, i requires 0 <= i < |s| => LowerChar(s[i]))
  }

  /** Lowering twice is lowering once. */
  lemma LowerIdempotent(s: string)
    ensures Lower(Lower(s)) == Lower(s)
  {
    assert forall i :: 0 <= i < |s| ==> LowerChar(LowerChar(s[i])) == LowerChar(s[i]);
  }

  /** Lowering touches no white space, so it keeps a trimmed string trimmed. */
  lemma LowerKeepsTrimmed(s: string)
    requires Trimmed(s)
    ensures Trimmed(Lower(s))
  {
    if s != [] {
      assert Lower(s)[0] == LowerChar(s[0]);
      assert Lower(s)[|s| - 1] == LowerChar(s[|s| - 1]);
    }
  }

  /** Index of the first occurrence of `c`. */
  function IndexOf(s: string, c: char): (i: nat)
    requires c in s
    ensures i < |s| && s[i] == c && c !in s[..i]
  {
    if s[0] == c then 0
    else
      var i := 1 + IndexOf(s[1..], c);
      assert s[..i] == [s[0]] + s[1..][..i - 1];
      i
  }

  /** The first occurrence is the only one with no earlier occurrence. */
  lemma IndexOfFirst(s: string, c: char, j: nat)
    requires j < |s| && s[j] == c && c !in s[..j]
    ensures IndexOf(s, c) == j
  {
    var i := IndexOf(s, c);
    assert forall k :: 0 <= k < j ==> s[k] != c by {
      forall k | 0 <= k < j ensures s[k] != c { assert s[..j][k] == s[k]; }
    }
    assert forall k :: 0 <= k < i ==> s[k] != c by {
      forall k | 0 <= k < i ensures s[k] != c { assert s[..i][k] == s[k]; }
    }
  }

  /** JavaScript `s.split(sep)` for a one-character separator: the fields
      between separators, at least one, none containing the separator. */
  function Split(s: string, sep: char): (parts: seq<string>)
    ensures |parts| >= 1
    ensures forall i :: 0 <= i < |parts| ==> sep !in parts[i]
    decreases |s|
  {
    if sep !in s then [s]
    else
      var i := IndexOf(s, sep);
      [s[..i]] + Split(s[i + 1..], sep)
  }

  /** JavaScript `parts.join(sep)`. */
  function Join(parts: seq<string>, sep: char): string
    requires |parts| >= 1
  {
    if |parts| == 1 then parts[0] else parts[0] + [sep] + Join(parts[1..], sep)
  }

  /** Joining the fields of a split gives back the input. */
  lemma {:induction false} JoinSplit(s: string, sep: char)
    ensures Join(Split(s, sep), sep) == s
    decreases |s|
  {
    if sep in s {
      var i := IndexOf(s, sep);
      var rest := Split(s[i + 1..], sep);
      assert Split(s, sep) == [s[..i]] + rest;
      JoinSplit(s[i + 1..], sep);
      assert ([s[..i]] + rest)[1..] == rest;
      assert s == s[..i] + [sep] + s[i + 1..];
    }
  }

  /** Splitting a join of separator-free fields gives back the fields. */
  lemma {:induction false} SplitJoin(parts: seq<string>, sep: char)
    requires |parts| >= 1
    requires forall i :: 0 <= i < |parts| ==> sep !in parts[i]
    ensures Split(Join(parts, sep), sep) == parts
  {
    if |parts| > 1 {
      var p := parts[0];
      var rest := Join(parts[1..], sep);
      var s := p + [sep] + rest;
      assert s[|p|] == sep;
      var i := IndexOf(s, sep);
      assert s[..|p|] == p;
      IndexOfFirst(s, sep, |p|);
      assert s[..i] == p;
      assert s[i + 1..] == rest;
      SplitJoin(parts[1..], sep);
      assert parts == [p] + parts[1..];
    }
  }

  predicate StartsWith(s: string, prefix: string) {
    |prefix| <= |s| && s[..|prefix|] == prefix
  }

  predicate EndsWith(s: string, suffix: string) {
    |suffix| <= |s| && s[|s| - |suffix|..] == suffix
  }

  /** Number of UTF-16 code units of one code point. */
  function Utf16Units(c: char): nat {
    if c as int > 0xFFFF then 2 else 1
  }

  /** The positions of the code points outside the Basic Multilingual
      Plane, each of which UTF-16 writes as a surrogate pair. */
  ghost function AstralPositions(s: string): set<int> {
    set i | 0 <= i < |s| && s[i] as int > 0xFFFF
  }

  /** The astral positions of `s` are those of all but its last code point,
      plus the last position when that code point is astral. */
  lemma AstralPositionsSnoc(s: string)
    requires s != []
    ensures |AstralPositions(s)| == |AstralPositions(s[..|s| - 1])| + Utf16Units(s[|s| - 1]) - 1
  {
    var n := |s| - 1;
    var front := AstralPositions(s[..n]);
    var last: set<int> := if s[n] as int > 0xFFFF then {n} else {};
    assert forall i :: 0 <= i < n ==> s[..n][i] == s[i];
    assert AstralPositions(s) == front + last;
    assert n !in front;
  }

  /** JavaScript `s.length`: the number of UTF-16 code units, that is, one
      per code point plus one more for every code point above U+FFFF. */
  function Utf16Length(s: string): (n: nat)
    ensures n == |s| + |AstralPositions(s)|
    ensures |s| <= n <= 2 * |s|
    ensures n == |s| <==> forall i :: 0 <= i < |s| ==> s[i] as int <= 0xFFFF
  {
    if s == [] then
      assert AstralPositions(s) == {};
      0
    else
      var n := Utf16Length(s[..|s| - 1]) + Utf16Units(s[|s| - 1]);
      assert forall i :: 0 <= i < |s| - 1 ==> s[i] == s[..|s| - 1][i];
      AstralPositionsSnoc(s);
      n
  }
}
