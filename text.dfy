/** String helpers shared by the SVG scripts and the front-end pages: the
    handful of Python `str` and JavaScript `String` operations the source
    calls, written out on `seq<char>`. */
module Text {

  /** The whitespace class used for `\s` and `trim()`: space, tab, line feed,
      carriage return, form feed and vertical tab. */
  predicate IsSpace(c: char) {
    c == ' ' || c == '\t' || c == '\n' || c == '\r' || c == '\U{C}' || c == '\U{B}'
  }

  predicate IsDigit(c: char) { '0' <= c <= '9' }

  predicate IsAsciiUpper(c: char) { 'A' <= c <= 'Z' }

  predicate IsAsciiLower(c: char) { 'a' <= c <= 'z' }

  predicate IsAsciiLetter(c: char) { IsAsciiUpper(c) || IsAsciiLower(c) }

  /** The character class `[a-zA-Z0-9]`. */
  predicate IsAsciiAlnum(c: char) { IsAsciiLetter(c) || IsDigit(c) }

  /** ASCII lower-casing of one character; every other character is kept. */
  function LowerChar(c: char): (d: char)
    ensures IsAsciiUpper(c) ==> IsAsciiLower(d)
    ensures !IsAsciiUpper(c) ==> d == c
  {
    if IsAsciiUpper(c) then (c as int + 32) as char else c
  }

  /** `s.lower()` / `s.toLowerCase()` restricted to ASCII letters. */
  function Lower(s: string): (r: string)
    ensures |r| == |s|
    ensures forall i :: 0 <= i < |s| ==> r[i] == LowerChar(s[i])
  {
    seq(|s|, i requires 0 <= i < |s| => LowerChar(s[i]))
  }

  predicate StartsWith(s: string, prefix: string) {
    |prefix| <= |s| && s[..|prefix|] == prefix
  }

  /** `pat` occurs in `s` at index `i`. */
  predicate IsAt(s: string, pat: string, i: nat) {
    i + |pat| <= |s| && s[i..i + |pat|] == pat
  }

  lemma IsAtSuffix(s: string, pat: string, i: nat)
    requires i <= |s|
    ensures IsAt(s, pat, i) <==> StartsWith(s[i..], pat)
  {
    if i + |pat| <= |s| {
      assert s[i..][..|pat|] == s[i..i + |pat|];
    }
  }

  /** Python's `s.find(pat, start)` and JavaScript's `s.indexOf(pat, start)`
      for a non-negative start: the least index at or after `from` where
      `pat` occurs, or -1. */
  function Find(s: string, pat: string, from: nat): (r: int)
    ensures r == -1 || (from <= r && IsAt(s, pat, r))
    ensures forall k: nat :: from <= k && (r == -1 || k < r) ==> !IsAt(s, pat, k)
    decreases |s| - from
  {
    if from + |pat| > |s| then -1
    else if IsAt(s, pat, from) then from
    else Find(s, pat, from + 1)
  }

  /** Python's `s.find(pat, start)` for any integer start: a negative start
      counts from the end of the string, clamped at 0. */
  function PyFind(s: string, pat: string, start: int): (r: int)
    ensures start >= 0 ==> r == Find(s, pat, start)
  {
    if start >= 0 then Find(s, pat, start)
    else if |s| + start >= 0 then Find(s, pat, |s| + start)
    else Find(s, pat, 0)
  }

  /** The first occurrence, if any, is found from 0 exactly when `pat` occurs. */
  lemma FindFromZero(s: string, pat: string, k: nat)
    requires IsAt(s, pat, k)
    ensures 0 <= Find(s, pat, 0) <= k
  {
  }

  /** An occurrence at `i` with none between `from` and `i` is the one found. */
  lemma FindIs(s: string, pat: string, from: nat, i: nat)
    requires from <= i && IsAt(s, pat, i)
    requires forall k: nat :: from <= k < i ==> !IsAt(s, pat, k)
    ensures Find(s, pat, from) == i
  {
    var r := Find(s, pat, from);
    assert r != -1 by { assert !(from <= i && r == -1 && !IsAt(s, pat, i)); }
    assert !(r < i) by { assert from <= r; }
    assert !(i < r) by { assert from <= i && i < r ==> !IsAt(s, pat, i); }
  }

  /** Searching past a prefix `a` is searching the rest, shifted by `|a|`. */
  lemma {:induction false} FindShift(a: string, b: string, pat: string, j: nat)
    requires j <= |b|
    ensures Find(a + b, pat, |a| + j) == if Find(b, pat, j) < 0 then -1 else |a| + Find(b, pat, j)
    decreases |b| - j
  {
    if j + |pat| <= |b| {
      assert (a + b)[|a| + j..|a| + j + |pat|] == b[j..j + |pat|];
      if !IsAt(b, pat, j) {
        FindShift(a, b, pat, j + 1);
      }
    }
  }

  /** Text appended after a found occurrence does not change the result. */
  lemma FindExtend(u: string, v: string, pat: string, from: nat)
    requires Find(u, pat, from) >= 0
    ensures Find(u + v, pat, from) == Find(u, pat, from)
  {
    var i := Find(u, pat, from);
    assert (u + v)[i..i + |pat|] == u[i..i + |pat|];
    forall k: nat | from <= k < i ensures !IsAt(u + v, pat, k) {
      assert !IsAt(u, pat, k);
      assert (u + v)[k..k + |pat|] == u[k..k + |pat|];
    }
    FindIs(u + v, pat, from, i);
  }

  /** `pat in s` for strings. */
  predicate Contains(s: string, pat: string) {
    Find(s, pat, 0) >= 0
  }

  /** `s.replace(pat, rep, 1)`: only the first occurrence of `pat` is
      replaced by `rep`; nothing changes when `pat` does not occur. */
  function ReplaceFirst(s: string, pat: string, rep: string): (r: string)
    ensures Find(s, pat, 0) < 0 ==> r == s
    ensures Find(s, pat, 0) >= 0 ==>
      var i := Find(s, pat, 0);
      r == s[..i] + rep + s[i + |pat|..] && r[..i] == s[..i] && r[i..i + |rep|] == rep
  {
    var i := Find(s, pat, 0);
    if i < 0 then s else s[..i] + rep + s[i + |pat|..]
  }

  /** `s.replace(c, "")` for one character. */
  function RemoveChar(s: string, c: char): (r: string)
    ensures c !in r
    ensures |r| <= |s|
    ensures forall d :: d != c ==> multiset(r)[d] == multiset(s)[d]
  {
    if s == [] then []
    else
      assert s == [s[0]] + s[1..];
      (if s[0] == c then [] else [s[0]]) + RemoveChar(s[1..], c)
  }

  /** Removal works character by character: it distributes over
      concatenation, so the kept characters stay in their order. */
  lemma {:induction false} RemoveCharAppend(a: string, b: string, c: char)
    ensures RemoveChar(a + b, c) == RemoveChar(a, c) + RemoveChar(b, c)
    decreases |a|
  {
    if a != [] {
      assert (a + b)[1..] == a[1..] + b;
      RemoveCharAppend(a[1..], b, c);
    } else {
      assert a + b == b;
    }
  }

  /** Text without the character is left exactly as it is. */
  lemma {:induction false} RemoveCharKeepsClean(s: string, c: char)
    requires c !in s
    ensures RemoveChar(s, c) == s
    decreases |s|
  {
    if s != [] {
      assert s == [s[0]] + s[1..];
      assert c !in s[1..] by {
        forall i | 0 <= i < |s| - 1 ensures s[1..][i] != c { assert s[1..][i] == s[i + 1]; }
      }
      RemoveCharKeepsClean(s[1..], c);
    }
  }

  /** A run made only of the character disappears entirely. */
  lemma {:induction false} RemoveCharOfRun(s: string, n: nat, c: char)
    requires n <= |s| && forall i :: 0 <= i < n ==> s[i] == c
    ensures RemoveChar(s[..n], c) == []
    decreases n
  {
    if n > 0 {
      assert s[..n][1..] == s[1..][..n - 1];
      RemoveCharOfRun(s[1..], n - 1, c);
    }
  }

  /** One occurrence between two pieces without it is dropped, and the
      pieces are kept as they are. */
  lemma RemoveCharBetween(a: string, b: string, c: char)
    requires c !in a && c !in b
    ensures RemoveChar(a + [c] + b, c) == a + b
  {
    var x := a + [c];
    RemoveCharAppend(x, b, c);
    RemoveCharAppend(a, [c], c);
    RemoveCharOfRun([c], 1, c);
    assert [c][..1] == [c];
    RemoveCharKeepsClean(a, c);
    RemoveCharKeepsClean(b, c);
    assert RemoveChar(x, c) == a;
  }

  /** Number of leading characters of `s` that are whitespace. */
  function LeadingSpaces(s: string): (n: nat)
    ensures n <= |s|
    ensures forall i :: 0 <= i < n ==> IsSpace(s[i])
    ensures n < |s| ==> !IsSpace(s[n])
  {
    if s != [] && IsSpace(s[0]) then 1 + LeadingSpaces(s[1..]) else 0
  }

  /** A whitespace run followed by text that does not start with whitespace. */
  lemma {:induction false} LeadingSpacesOf(ws: string, rest: string)
    requires forall i :: 0 <= i < |ws| ==> IsSpace(ws[i])
    requires rest == [] || !IsSpace(rest[0])
    ensures LeadingSpaces(ws + rest) == |ws|
    decreases |ws|
  {
    if ws == [] {
      assert ws + rest == rest;
    } else {
      assert (ws + rest)[1..] == ws[1..] + rest;
      LeadingSpacesOf(ws[1..], rest);
    }
  }

  /** Number of trailing characters of `s` that are whitespace. */
  function TrailingSpaces(s: string): (n: nat)
    ensures n <= |s|
    ensures forall i :: |s| - n <= i < |s| ==> IsSpace(s[i])
    ensures n < |s| ==> !IsSpace(s[|s| - n - 1])
  {
    if s != [] && IsSpace(s[|s| - 1]) then 1 + TrailingSpaces(s[..|s| - 1]) else 0
  }

  /** JavaScript's `s.trim()`. */
  function Trim(s: string): string {
    var t := s[LeadingSpaces(s)..];
    t[..|t| - TrailingSpaces(t)]
  }

  /** A trimmed string is empty exactly when the string is all whitespace, and
      otherwise begins and ends with non-whitespace. */
  lemma TrimFacts(s: string)
    ensures Trim(s) == [] <==> forall i :: 0 <= i < |s| ==> IsSpace(s[i])
    ensures Trim(s) != [] ==> !IsSpace(Trim(s)[0]) && !IsSpace(Trim(s)[|Trim(s)| - 1])
  {
    var n := LeadingSpaces(s);
    var t := s[n..];
    if n < |s| {
      assert !IsSpace(t[0]);
      assert TrailingSpaces(t) < |t|;
      assert Trim(s)[0] == t[0];
    }
  }

  /** The string is empty or all whitespace. */
  predicate Blank(s: string) {
    forall i :: 0 <= i < |s| ==> IsSpace(s[i])
  }

  /** `!s.trim()` in JavaScript holds exactly of the blank strings. */
  lemma BlankIffTrimEmpty(s: string)
    ensures Blank(s) <==> Trim(s) == []
  {
    TrimFacts(s);
  }

  /** A JavaScript string is truthy when it is not empty. */
  predicate Truthy(s: string) {
    s != []
  }

  /** Decimal rendering of a natural number, as `str(n)` and template literals give it. */
  function NatToString(n: nat): (r: string)
    ensures |r| >= 1
    ensures forall i :: 0 <= i < |r| ==> IsDigit(r[i])
    ensures n >= 10 ==> |r| >= 2
    decreases n
  {
    var d := ['0' + (n % 10) as char];
    if n < 10 then d else NatToString(n / 10) + d
  }

  /** Distinct numbers have distinct decimal renderings. */
  lemma {:induction false} NatToStringInjective(a: nat, b: nat)
    requires NatToString(a) == NatToString(b)
    ensures a == b
    decreases a
  {
    var ra, rb := NatToString(a), NatToString(b);
    if a < 10 && b < 10 {
      assert ra[0] == rb[0];
    } else if a >= 10 && b >= 10 {
      assert ra[|ra| - 1] == rb[|rb| - 1];
      assert a % 10 == b % 10;
      assert NatToString(a / 10) == ra[..|ra| - 1];
      assert NatToString(b / 10) == rb[..|rb| - 1];
      NatToStringInjective(a / 10, b / 10);
    }
  }

  /** JavaScript's `s.split(sep)` for a one-character separator: never
      empty, and no piece contains the separator. */
  function Split(s: string, sep: char): (parts: seq<string>)
    ensures |parts| >= 1
    ensures forall i :: 0 <= i < |parts| ==> sep !in parts[i]
    decreases |s|
  {
    var k := Find(s, [sep], 0);
    if k < 0 then
      assert forall i :: 0 <= i < |s| ==> s[i] != sep by {
        forall i | 0 <= i < |s| ensures s[i] != sep {
          assert !IsAt(s, [sep], i);
          assert s[i..i + 1] == [s[i]];
        }
      }
      [s]
    else
      assert forall i :: 0 <= i < k ==> s[i] != sep by {
        forall i | 0 <= i < k ensures s[i] != sep {
          assert !IsAt(s, [sep], i);
          assert s[i..i + 1] == [s[i]];
        }
      }
      [s[..k]] + Split(s[k + 1..], sep)
  }

  /** JavaScript's `parts.join(sep)`. */
  function Join(parts: seq<string>, sep: char): string {
    if parts == [] then []
    else if |parts| == 1 then parts[0]
    else parts[0] + [sep] + Join(parts[1..], sep)
  }

  /** Splitting and joining again gives back the original text. */
  lemma {:induction false} JoinSplit(s: string, sep: char)
    ensures Join(Split(s, sep), sep) == s
    decreases |s|
  {
    var k := Find(s, [sep], 0);
    if k >= 0 {
      assert s[k..k + 1] == [sep];
      JoinSplit(s[k + 1..], sep);
      assert s == s[..k] + [sep] + s[k + 1..];
    }
  }

  /** Joining pieces free of the separator and splitting again gives back the pieces. */
  lemma {:induction false} SplitJoin(parts: seq<string>, sep: char)
    requires |parts| >= 1
    requires forall i :: 0 <= i < |parts| ==> sep !in parts[i]
    ensures Split(Join(parts, sep), sep) == parts
    decreases |parts|
  {
    var s := Join(parts, sep);
    var p := parts[0];
    if |parts| == 1 {
      NoCharNotFound(p, sep);
    } else {
      var rest := Join(parts[1..], sep);
      assert s == p + [sep] + rest;
      assert IsAt(s, [sep], |p|) by { assert s[|p|..|p| + 1] == [sep]; }
      forall i: nat | i < |p| ensures !IsAt(s, [sep], i) {
        assert s[i] == p[i] && s[i] != sep;
      }
      assert Find(s, [sep], 0) == |p|;
      assert s[..|p|] == p;
      assert s[|p| + 1..] == rest;
      SplitJoin(parts[1..], sep);
    }
  }

  /** A string without `c` has no occurrence of `[c]`. */
  lemma NoCharNotFound(s: string, c: char)
    requires c !in s
    ensures Find(s, [c], 0) == -1
  {
    forall k: nat | k < |s| ensures !IsAt(s, [c], k) {
      assert s[k] != c;
    }
  }

  /** Splitting after a first piece that holds no separator peels that piece off. */
  lemma SplitFirst(pre: string, rest: string, sep: char)
    requires sep !in pre
    ensures Split(pre + [sep] + rest, sep) == [pre] + Split(rest, sep)
  {
    var s := pre + [sep] + rest;
    assert IsAt(s, [sep], |pre|) by { assert s[|pre|..|pre| + 1] == [sep]; }
    forall k: nat | k < |pre| ensures !IsAt(s, [sep], k) {
      assert s[k..k + 1] == [pre[k]];
    }
    FindIs(s, [sep], 0, |pre|);
    assert s[..|pre|] == pre;
    assert s[|pre| + 1..] == rest;
  }

  /** A text without the separator splits into itself alone. */
  lemma SplitNone(s: string, sep: char)
    requires sep !in s
    ensures Split(s, sep) == [s]
  {
    NoCharNotFound(s, sep);
  }

  /** Text that neither begins nor ends with whitespace is its own trim. */
  lemma TrimClean(s: string)
    requires s != [] && !IsSpace(s[0]) && !IsSpace(s[|s| - 1])
    ensures Trim(s) == s
  {
    assert LeadingSpaces(s) == 0;
    assert s[0..] == s;
    assert TrailingSpaces(s) == 0;
  }

  /** Trimming keeps a contiguous slice of the text. */
  lemma TrimSlice(s: string)
    ensures exists a, b :: 0 <= a <= b <= |s| && Trim(s) == s[a..b]
  {
    var a := LeadingSpaces(s);
    var t := s[a..];
    var b := a + |t| - TrailingSpaces(t);
    assert t[..|t| - TrailingSpaces(t)] == s[a..b];
  }
}
