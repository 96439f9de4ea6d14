/** The regular expressions the SVG scripts hand to `re.sub`, each with a
    hand-written matcher, and the left-to-right, non-overlapping
    substitution that `re.sub` performs with them. */
module SvgScan {
  import opened Text

  /** One pattern per regular-expression shape the scripts use. */
  datatype Pattern =
      /** `open.*?close`, optionally followed by `\s*`, with `re.DOTALL`. */
    | Block(open: string, close: string, trailingSpace: bool)
      /** `prefix[^"]*"` where `prefix` ends with `="`. */
    | QuotedValue(prefix: string)
      /** `xml:[a-zA-Z]+="[^"]*"`. */
    | XmlPrefixed
      /** A literal text. */
    | Literal(text: string)
      /** `  +`: two or more U+0020 spaces. */
    | SpaceRun
      /** `fill:\s*color`. */
    | StyleFill(color: string)
      // `<path[^>]*fill:\s*color[^>]*/>`
    | FilledPath(color: string)

  /** Number of leading U+0020 characters. */
  function LeadingBlanks(t: string): (n: nat)
    ensures n <= |t|
    ensures forall i :: 0 <= i < n ==> t[i] == ' '
    ensures n < |t| ==> t[n] != ' '
  {
    if t != [] && t[0] == ' ' then 1 + LeadingBlanks(t[1..]) else 0
  }

  /** Number of leading ASCII letters. */
  function LetterRunLen(t: string): (n: nat)
    ensures n <= |t|
    ensures forall i :: 0 <= i < n ==> IsAsciiLetter(t[i])
    ensures n < |t| ==> !IsAsciiLetter(t[n])
  {
    if t != [] && IsAsciiLetter(t[0]) then 1 + LetterRunLen(t[1..]) else 0
  }

  /** Length of a `fill:\s*color` match at the start of `t`, or 0. */
  function StyleFillLen(t: string, color: string): (n: nat)
    ensures n <= |t|
    ensures n > 0 ==> StartsWith(t, "fill:") && n == 5 + LeadingSpaces(t[5..]) + |color|
  {
    if !StartsWith(t, "fill:") then 0
    else
      var w := LeadingSpaces(t[5..]);
      if StartsWith(t[5 + w..], color) then 5 + w + |color| else 0
  }

  /** `fill:\s*color` occurs somewhere inside `u`. */
  predicate HasStyleFill(u: string, color: string)
    decreases |u|
  {
    u != [] && (StyleFillLen(u, color) > 0 || HasStyleFill(u[1..], color))
  }

  /** Length of the match of `p` at the start of `t`, 0 when there is none.
      No pattern here matches the empty string, so 0 always means "no match". */
  function MatchLen(p: Pattern, t: string): (n: nat)
    ensures n <= |t|
  {
    match p
    case Block(open, close, trailing) =>
      if open == [] || !StartsWith(t, open) then 0
      else
        var c := Find(t, close, |open|);
        if c < 0 then 0
        else
          var e := c + |close|;
          if trailing then e + LeadingSpaces(t[e..]) else e
    case QuotedValue(prefix) =>
      if prefix == [] || !StartsWith(t, prefix) then 0
      else
        var q := Find(t, "\"", |prefix|);
        if q < 0 then 0 else q + 1
    case XmlPrefixed =>
      if !StartsWith(t, "xml:") then 0
      else
        var l := LetterRunLen(t[4..]);
        if l == 0 || !StartsWith(t[4 + l..], "=\"") then 0
        else
          var q := Find(t, "\"", 4 + l + 2);
          if q < 0 then 0 else q + 1
    case Literal(text) =>
      if text != [] && StartsWith(t, text) then |text| else 0
    case SpaceRun =>
      if |t| >= 2 && t[0] == ' ' && t[1] == ' ' then LeadingBlanks(t) else 0
    case StyleFill(color) =>
      StyleFillLen(t, color)
    case FilledPath(color) =>
      if !StartsWith(t, "<path") then 0
      else
        var g := Find(t, ">", 5);
        if g < 6 || t[g - 1] != '/' then 0
        else if HasStyleFill(t[5..g - 1], color) then g + 1
        else 0
  }

  /** A lower bound on the length of every match of `p`. */
  function MinLen(p: Pattern): nat {
    match p
    case Block(open, close, _) => |open| + |close|
    case QuotedValue(prefix) => |prefix| + 1
    case XmlPrefixed => 8
    case Literal(text) => |text|
    case SpaceRun => 2
    case StyleFill(color) => 5 + |color|
    case FilledPath(color) => 7
  }

  lemma MatchLenAtLeastMin(p: Pattern, t: string)
    requires MatchLen(p, t) > 0
    ensures MatchLen(p, t) >= MinLen(p)
  {
    match p
    case Block(open, close, trailing) =>
      var c := Find(t, close, |open|);
    case QuotedValue(prefix) =>
    case XmlPrefixed =>
    case Literal(text) =>
    case SpaceRun =>
    case StyleFill(color) =>
    case FilledPath(color) =>
  }

  /** The text every match of `p` begins with. */
  function Key(p: Pattern): string {
    match p
    case Block(open, _, _) => open
    case QuotedValue(prefix) => prefix
    case XmlPrefixed => "xml:"
    case Literal(text) => text
    case SpaceRun => "  "
    case StyleFill(_) => "fill:"
    case FilledPath(_) => "<path"
  }

  lemma MatchStartsWithKey(p: Pattern, t: string)
    requires MatchLen(p, t) > 0
    ensures StartsWith(t, Key(p))
  {
    if p.SpaceRun? {
      assert t[..2] == [t[0], t[1]];
    }
  }

  /** A match anywhere means the key occurs. */
  lemma MatchMeansKey(p: Pattern, s: string, k: nat)
    requires k < |s| && MatchLen(p, s[k..]) > 0
    ensures Contains(s, Key(p))
  {
    MatchStartsWithKey(p, s[k..]);
    IsAtSuffix(s, Key(p), k);
    FindFromZero(s, Key(p), k);
  }

  /** The matcher of `p` as a function value, as the scanner takes it. */
  function Matcher(p: Pattern): (m: string -> nat)
    ensures forall t :: m(t) == MatchLen(p, t)
  {
    t => MatchLen(p, t)
  }

  /** `m` reports a match at the start of `t`. */
  predicate Matches(m: string -> nat, t: string) {
    0 < m(t) <= |t|
  }

  /** `re.sub(pattern, rep, s)` for a pattern with matcher `m`: scan from the
      left; at a match, emit `rep` and continue after the match; otherwise
      keep one character and move on. */
  function Sub(s: string, m: string -> nat, rep: string): string
    decreases |s|
  {
    if s == [] then []
    else if Matches(m, s) then rep + Sub(s[m(s)..], m, rep)
    else [s[0]] + Sub(s[1..], m, rep)
  }

  /** The least index at or after `from` where `m` matches, or -1. */
  function FirstMatchFrom(s: string, m: string -> nat, from: nat): (r: int)
    requires from <= |s|
    ensures r == -1 || (from <= r < |s| && Matches(m, s[r..]))
    ensures forall k :: from <= k < |s| && (r == -1 || k < r) ==> !Matches(m, s[k..])
    decreases |s| - from
  {
    if from == |s| then -1
    else if Matches(m, s[from..]) then from
    else FirstMatchFrom(s, m, from + 1)
  }

  function FirstMatch(s: string, m: string -> nat): int {
    FirstMatchFrom(s, m, 0)
  }

  /** `m` matches nowhere in `s`. */
  ghost predicate NoMatch(s: string, m: string -> nat) {
    forall k :: 0 <= k < |s| ==> !Matches(m, s[k..])
  }

  lemma NoMatchIffNoFirst(s: string, m: string -> nat)
    ensures NoMatch(s, m) <==> FirstMatch(s, m) == -1
  {
  }

  /** Text in which no match starts is copied unchanged. */
  lemma {:induction false} SubSkip(u: string, v: string, m: string -> nat, rep: string)
    requires forall k :: 0 <= k < |u| ==> !Matches(m, (u + v)[k..])
    ensures Sub(u + v, m, rep) == u + Sub(v, m, rep)
    decreases |u|
  {
    if u != [] {
      assert (u + v)[0..] == u + v;
      assert !Matches(m, u + v);
      assert (u + v)[1..] == u[1..] + v;
      assert Sub(u + v, m, rep) == [(u + v)[0]] + Sub((u + v)[1..], m, rep);
      forall k | 0 <= k < |u[1..]| ensures !Matches(m, (u[1..] + v)[k..]) {
        assert (u[1..] + v)[k..] == (u + v)[k + 1..];
      }
      SubSkip(u[1..], v, m, rep);
      calc {
        Sub(u + v, m, rep);
        [u[0]] + Sub(u[1..] + v, m, rep);
        [u[0]] + (u[1..] + Sub(v, m, rep));
        { assert u == [u[0]] + u[1..]; }
        u + Sub(v, m, rep);
      }
    } else {
      assert u + v == v;
    }
  }

  /** A match is replaced by `rep` and scanning resumes right after it. */
  lemma SubAtMatch(x: string, v: string, m: string -> nat, rep: string)
    requires m(x + v) == |x| > 0
    ensures Sub(x + v, m, rep) == rep + Sub(v, m, rep)
  {
    assert (x + v)[|x|..] == v;
  }

  /** The output is the text before the first match, then `rep`, then the
      substitution applied to what follows the match. */
  lemma SubAtFirstMatch(s: string, m: string -> nat, rep: string)
    requires FirstMatch(s, m) >= 0
    ensures var i := FirstMatch(s, m);
      var n := m(s[i..]);
      i + n <= |s| &&
      Sub(s, m, rep) == s[..i] + rep + Sub(s[i + n..], m, rep)
  {
    var i := FirstMatch(s, m);
    var n := m(s[i..]);
    assert s == s[..i] + s[i..];
    forall k | 0 <= k < |s[..i]| ensures !Matches(m, (s[..i] + s[i..])[k..]) {
      assert (s[..i] + s[i..])[k..] == s[k..];
    }
    SubSkip(s[..i], s[i..], m, rep);
    assert s[i..] == s[i..][..n] + s[i + n..];
    SubAtMatch(s[i..][..n], s[i + n..], m, rep);
  }

  /** Text without a match is left unchanged. */
  lemma SubNoMatch(s: string, m: string -> nat, rep: string)
    requires NoMatch(s, m)
    ensures Sub(s, m, rep) == s
  {
    assert s + [] == s;
    forall k | 0 <= k < |s| ensures !Matches(m, (s + [])[k..]) {
    }
    SubSkip(s, [], m, rep);
  }

  /** A replacement no longer than every match never lengthens the text. */
  lemma {:induction false} SubNotLonger(s: string, m: string -> nat, rep: string, min: nat)
    requires |rep| <= min
    requires forall t :: Matches(m, t) ==> m(t) >= min
    ensures |Sub(s, m, rep)| <= |s|
    decreases |s|
  {
    if s != [] {
      if Matches(m, s) {
        SubNotLonger(s[m(s)..], m, rep, min);
      } else {
        SubNotLonger(s[1..], m, rep, min);
      }
    }
  }

  /** `re.sub(p, rep, s)` with one of the patterns above never lengthens the
      text when `rep` is no longer than the pattern's shortest match. */
  lemma PatternSubNotLonger(s: string, p: Pattern, rep: string)
    requires |rep| <= MinLen(p)
    ensures |Sub(s, Matcher(p), rep)| <= |s|
  {
    forall t | Matches(Matcher(p), t) ensures Matcher(p)(t) >= MinLen(p) {
      MatchLenAtLeastMin(p, t);
    }
    SubNotLonger(s, Matcher(p), rep, MinLen(p));
  }

  /** A match of `m` on `x` is also a match, of the same length, on every
      text `y` that begins with the matched characters. */
  ghost predicate LocalOn(m: string -> nat, x: string, y: string) {
    Matches(m, x) && StartsWith(y, x[..m(x)]) ==> m(y) == m(x)
  }

  /** Whether `m` matches at a position depends only on the matched characters. */
  ghost predicate Local(m: string -> nat) {
    forall x: string, y: string :: LocalOn(m, x, y)
  }

  /** No match starts at offset `q` of `rep` when `t` follows it. */
  ghost predicate NoMatchInsideOn(m: string -> nat, rep: string, q: nat, t: string) {
    q < |rep| ==> !Matches(m, rep[q..] + t)
  }

  /** No match starts inside `rep`, whatever follows it. */
  ghost predicate NoMatchInside(m: string -> nat, rep: string) {
    forall q: nat, t: string :: NoMatchInsideOn(m, rep, q, t)
  }

  /** Every match begins with `c`. */
  ghost predicate StartsWithOn(m: string -> nat, c: char, t: string) {
    Matches(m, t) ==> t[0] == c
  }

  /** A match that starts in `x` and reaches into `rep` stops at its first character. */
  ghost predicate OverlapOn(m: string -> nat, rep: string, x: string, y: string) {
    x != [] && Matches(m, x + rep + y) && m(x + rep + y) > |x| ==> m(x + rep + y) == |x| + 1
  }

  /** Every match begins with the first character of `rep`, and a match that
      starts before `rep` and reaches into it stops at that character. */
  ghost predicate OverlapStopsAtFirst(m: string -> nat, rep: string) {
    && rep != []
    && (forall t: string :: StartsWithOn(m, rep[0], t))
    && (forall x: string, y: string :: OverlapOn(m, rep, x, y))
  }

  /** A match in the output that starts in the copied text before a
      replacement was already a match in the input at the same place. */
  lemma MatchBeforeReplacement(s: string, m: string -> nat, rep: string, i: nat, b: string, k: nat)
    requires Local(m) && OverlapStopsAtFirst(m, rep)
    requires k < i < |s| && Matches(m, s[i..])
    requires Matches(m, (s[..i] + rep + b)[k..])
    ensures Matches(m, s[k..])
  {
    var out := s[..i] + rep + b;
    var x := s[k..i];
    assert out[k..] == x + rep + b;
    assert s[k..] == x + s[i..];
    var l := m(out[k..]);
    if l <= |x| {
      assert out[k..][..l] == x[..l] == s[k..][..l];
      assert LocalOn(m, out[k..], s[k..]);
    } else {
      assert OverlapOn(m, rep, x, b);
      assert l == |x| + 1;
      assert StartsWithOn(m, rep[0], s[i..]);
      assert s[i..][0] == rep[0];
      assert LocalOn(m, out[k..], s[k..]);
      assert out[k..][..l] == x + [rep[0]];
      assert s[k..][..l] == x + [s[i..][0]];
    }
  }

  /** Under the three conditions above, no match is left after the substitution. */
  lemma {:induction false} NoMatchRemains(s: string, m: string -> nat, rep: string)
    requires Local(m) && NoMatchInside(m, rep) && OverlapStopsAtFirst(m, rep)
    ensures NoMatch(Sub(s, m, rep), m)
    decreases |s|
  {
    var out := Sub(s, m, rep);
    var i := FirstMatch(s, m);
    if i < 0 {
      NoMatchIffNoFirst(s, m);
      SubNoMatch(s, m, rep);
    } else {
      var n := m(s[i..]);
      SubAtFirstMatch(s, m, rep);
      var a, b := s[..i], Sub(s[i + n..], m, rep);
      assert out == a + rep + b;
      NoMatchRemains(s[i + n..], m, rep);
      forall k | 0 <= k < |out| ensures !Matches(m, out[k..]) {
        if k >= |a| + |rep| {
          assert out[k..] == b[k - |a| - |rep|..];
        } else if k >= |a| {
          assert out[k..] == rep[k - |a|..] + b;
          assert NoMatchInsideOn(m, rep, k - |a|, b);
        } else if Matches(m, out[k..]) {
          MatchBeforeReplacement(s, m, rep, i, b, k);
          assert false;
        }
      }
    }
  }

  /** Text in which the key of `p` does not occur is left unchanged. */
  lemma SubWithoutKey(s: string, p: Pattern, rep: string)
    requires !Contains(s, Key(p))
    ensures Sub(s, Matcher(p), rep) == s
  {
    forall k | 0 <= k < |s| ensures !Matches(Matcher(p), s[k..]) {
      if MatchLen(p, s[k..]) > 0 {
        MatchMeansKey(p, s, k);
      }
    }
    SubNoMatch(s, Matcher(p), rep);
  }

  lemma BlockFind(open: string, body: string, close: string, rest: string)
    requires Find(body + close, close, 0) == |body|
    ensures Find(open + body + close + rest, close, |open|) == |open| + |body|
  {
    var x := body + close + rest;
    assert open + body + close + rest == open + x;
    assert x == (body + close) + rest;
    FindExtend(body + close, rest, close, 0);
    FindShift(open, x, close, 0);
  }

  /** A block at the start of the text ends at the first `close` after
      `open`, followed by the whitespace run when `trailing` is set. */
  lemma BlockMatch(open: string, body: string, close: string, ws: string, rest: string)
    requires open != [] && close != []
    requires Find(body + close, close, 0) == |body|
    requires forall i :: 0 <= i < |ws| ==> IsSpace(ws[i])
    requires rest == [] || !IsSpace(rest[0])
    ensures MatchLen(Block(open, close, true), open + body + close + ws + rest) == |open| + |body| + |close| + |ws|
  {
    var t := open + body + close + ws + rest;
    assert t == open + body + close + (ws + rest);
    BlockFind(open, body, close, ws + rest);
    var e := |open| + |body| + |close|;
    assert t[e..] == ws + rest;
    LeadingSpacesOf(ws, rest);
    assert StartsWith(t, open) by { assert t[..|open|] == open; }
  }

  /** The first `>` in `u + "/>"`, when `u` holds none, is the last character. */
  lemma CloseAfter(u: string)
    requires '>' !in u
    ensures Find(u + "/>", ">", 0) == |u| + 1
  {
    var t := u + "/>";
    forall k: nat | k < |u| + 1 ensures !IsAt(t, ">", k) {
      assert t[k..k + 1][0] == t[k];
      if k < |u| { assert t[k] == u[k]; }
    }
    assert t[|u| + 1..|u| + 2] == ">";
    FindIs(t, ">", 0, |u| + 1);
  }

  /** A self-closing `<path` element whose attributes hold the fill and no
      `>` is matched as a whole. */
  lemma FilledPathMatch(u: string, color: string)
    requires '>' !in u && HasStyleFill(u, color)
    ensures MatchLen(FilledPath(color), "<path" + u + "/>") == |u| + 7
  {
    var t := "<path" + u + "/>";
    assert t == "<path" + (u + "/>");
    CloseAfter(u);
    FindShift("<path", u + "/>", ">", 0);
    assert StartsWith(t, "<path") by { assert t[..5] == "<path"; }
    assert t[5..|t| - 2] == u;
    assert t[|t| - 2] == '/';
  }
}
