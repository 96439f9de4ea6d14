/** `fix_white_fill`: recolour white fills to light gray, in the CSS style
    spelling `fill:\s*#ffffff` and then in the attribute spelling
    `fill="#ffffff"`. Matching is exact and case-sensitive. */
module WhiteFillFilter {
  import opened Text
  import opened SvgScan

  const White := "#ffffff"
  const StyleGray := "fill: #d3d3d3"
  const AttrWhite := "fill=\"#ffffff\""
  const AttrGray := "fill=\"#d3d3d3\""

  /** First pass: every `fill:\s*#ffffff` becomes `fill: #d3d3d3`. */
  function StylePass(content: string): string {
    Sub(content, Matcher(StyleFill(White)), StyleGray)
  }

  /** Second pass: every `fill="#ffffff"` becomes `fill="#d3d3d3"`. */
  function AttrPass(content: string): string {
    Sub(content, Matcher(Literal(AttrWhite)), AttrGray)
  }

  /** The whole transform, with the file reading and writing left to the caller. */
  function FixWhiteFill(content: string): string {
    AttrPass(StylePass(content))
  }

  /** When `t[..w]` is whitespace and `t[w]` is not, the leading run has length `w`. */
  lemma {:induction false} LeadingSpacesExact(t: string, w: nat)
    requires w < |t| && !IsSpace(t[w])
    requires forall i :: 0 <= i < w ==> IsSpace(t[i])
    ensures LeadingSpaces(t) == w
    decreases w
  {
    if w > 0 {
      LeadingSpacesExact(t[1..], w - 1);
    }
  }

  /** `fill:\s*color` matches by its own characters only. */
  lemma StyleFillLocal(color: string)
    requires color != [] && !IsSpace(color[0])
    ensures Local(Matcher(StyleFill(color)))
  {
    var m := Matcher(StyleFill(color));
    forall x: string, y: string ensures LocalOn(m, x, y) {
      if Matches(m, x) && StartsWith(y, x[..m(x)]) {
        StyleFillLenLocal(color, x, y);
      }
    }
  }

  /** A text that starts with the characters of a `fill:\s*color` match
      matches it with the same length. */
  lemma StyleFillLenLocal(color: string, x: string, y: string)
    requires color != [] && !IsSpace(color[0])
    requires StyleFillLen(x, color) > 0 && StartsWith(y, x[..StyleFillLen(x, color)])
    ensures StyleFillLen(y, color) == StyleFillLen(x, color)
  {
    var n := StyleFillLen(x, color);
    var w := LeadingSpaces(x[5..]);
    var xs, ys := x[5..], y[5..];
    assert x[5 + w..][..|color|] == color;
    assert y[..n] == x[..n];
    assert y[..5] == x[..5];
    forall i | 0 <= i < w ensures IsSpace(ys[i]) {
      assert ys[i] == y[5 + i] == x[5 + i] == xs[i];
    }
    assert ys[w] == y[5 + w] == x[5 + w] == color[0];
    LeadingSpacesExact(ys, w);
    var xc, yc := x[5 + w..][..|color|], y[5 + w..][..|color|];
    forall i | 0 <= i < |color| ensures yc[i] == xc[i] {
      assert yc[i] == y[5 + w + i] == x[5 + w + i] == xc[i];
    }
    assert yc == xc;
  }

  /** No `fill:\s*#ffffff` starts inside `fill: #d3d3d3`, whatever follows. */
  lemma StyleGrayHasNoWhite()
    ensures NoMatchInside(Matcher(StyleFill(White)), StyleGray)
  {
    var m := Matcher(StyleFill(White));
    forall q: nat, t: string ensures NoMatchInsideOn(m, StyleGray, q, t) {
      if q < |StyleGray| {
        var z := StyleGray[q..] + t;
        if q == 0 {
          assert z[5..][0] == ' ' && z[5..][1] == '#';
          LeadingSpacesExact(z[5..], 1);
          assert z[6] == '#' && z[7] == 'd';
          assert !StartsWith(z[6..], White) by { assert z[6..][1] == 'd'; }
        } else {
          assert z[0] == StyleGray[q] != 'f';
          assert !StartsWith(z, "fill:") by { assert z[0] != "fill:"[0]; }
        }
      }
    }
  }

  /** Inside a `fill:\s*#ffffff` match, no `f` after the first character is
      followed by `i` before the last one. */
  lemma StyleWhiteShape(z: string)
    requires Matches(Matcher(StyleFill(White)), z)
    ensures forall j :: 1 <= j < 11 + LeadingSpaces(z[5..]) ==> z[j] != 'f' || z[j + 1] != 'i'
  {
    var w := LeadingSpaces(z[5..]);
    assert z[..5] == "fill:";
    assert z[5 + w..][..7] == White;
    forall j | 1 <= j < 11 + w ensures z[j] != 'f' || z[j + 1] != 'i' {
      if j < 5 {
        assert z[j] == z[..5][j];
      } else if j < 5 + w {
        assert z[j] == z[5..][j - 5];
      } else {
        assert z[j + 1] == z[5 + w..][..7][j + 1 - 5 - w];
      }
    }
  }

  /** A `fill:\s*#ffffff` match that reaches into a following `fill: #d3d3d3`
      can only end on its first character. */
  lemma StyleWhiteOverlap()
    ensures OverlapStopsAtFirst(Matcher(StyleFill(White)), StyleGray)
  {
    var m := Matcher(StyleFill(White));
    forall t: string ensures StartsWithOn(m, StyleGray[0], t) {
      if Matches(m, t) { assert t[..5][0] == t[0]; }
    }
    forall x: string, y: string ensures OverlapOn(m, StyleGray, x, y) {
      var z := x + StyleGray + y;
      if x != [] && Matches(m, z) && m(z) > |x| {
        assert m(z) == 12 + LeadingSpaces(z[5..]);
        assert z[|x|] == 'f' && z[|x| + 1] == 'i';
        StyleWhiteShape(z);
      }
    }
  }

  /** After the first pass no `fill:\s*#ffffff` is left. */
  lemma StylePassLeavesNoWhite(content: string)
    ensures NoMatch(StylePass(content), Matcher(StyleFill(White)))
  {
    StyleFillLocal(White);
    StyleGrayHasNoWhite();
    StyleWhiteOverlap();
    NoMatchRemains(content, Matcher(StyleFill(White)), StyleGray);
  }

  /** A literal pattern matches by its own characters only. */
  lemma LiteralLocal(text: string)
    ensures Local(Matcher(Literal(text)))
  {
    var m := Matcher(Literal(text));
    forall x: string, y: string ensures LocalOn(m, x, y) {
      if Matches(m, x) && StartsWith(y, x[..m(x)]) {
        assert x[..|text|] == text;
      }
    }
  }

  lemma AttrGrayHasNoWhite()
    ensures NoMatchInside(Matcher(Literal(AttrWhite)), AttrGray)
  {
    var m := Matcher(Literal(AttrWhite));
    forall q: nat, t: string ensures NoMatchInsideOn(m, AttrGray, q, t) {
      if q < |AttrGray| {
        var z := AttrGray[q..] + t;
        if q == 0 {
          assert !StartsWith(z, AttrWhite) by { assert z[7] != AttrWhite[7]; }
        } else {
          assert !StartsWith(z, AttrWhite) by { assert z[0] == AttrGray[q] != AttrWhite[0]; }
        }
      }
    }
  }

  /** In `fill="#ffffff"` no `f` after the first character is followed by `i`. */
  lemma AttrWhiteShape()
    ensures forall j :: 1 <= j < 13 ==> AttrWhite[j] != 'f' || AttrWhite[j + 1] != 'i'
    ensures AttrWhite[13] != 'f'
  {
  }

  /** No `fill="#ffffff"` can reach into a following `fill="#d3d3d3"`. */
  lemma AttrWhiteNoOverlap(x: string, y: string)
    requires x != []
    ensures !StartsWith(x + AttrGray + y, AttrWhite) || |AttrWhite| <= |x|
  {
    var z := x + AttrGray + y;
    assert z[|x|] == 'f' && z[|x| + 1] == 'i';
    AttrWhiteShape();
  }

  lemma AttrWhiteOverlap()
    ensures OverlapStopsAtFirst(Matcher(Literal(AttrWhite)), AttrGray)
  {
    var m := Matcher(Literal(AttrWhite));
    forall t: string ensures StartsWithOn(m, AttrGray[0], t) {
      if Matches(m, t) { assert t[..14][0] == t[0]; }
    }
    forall x: string, y: string ensures OverlapOn(m, AttrGray, x, y) {
      if x != [] {
        AttrWhiteNoOverlap(x, y);
      }
    }
  }

  /** After the second pass no `fill="#ffffff"` is left. */
  lemma AttrPassLeavesNoWhite(content: string)
    ensures NoMatch(FixWhiteFill(content), Matcher(Literal(AttrWhite)))
  {
    LiteralLocal(AttrWhite);
    AttrGrayHasNoWhite();
    AttrWhiteOverlap();
    NoMatchRemains(StylePass(content), Matcher(Literal(AttrWhite)), AttrGray);
  }

  /** Every match of either white pattern contains `#ffffff`. */
  lemma WhiteMatchContainsWhite(s: string, k: nat)
    requires k < |s|
    requires Matches(Matcher(StyleFill(White)), s[k..]) || Matches(Matcher(Literal(AttrWhite)), s[k..])
    ensures Contains(s, White)
  {
    var t := s[k..];
    if Matches(Matcher(StyleFill(White)), t) {
      var w := LeadingSpaces(t[5..]);
      assert t[5 + w..][..7] == White;
      assert s[k + 5 + w..k + 5 + w + 7] == White;
      FindFromZero(s, White, k + 5 + w);
    } else {
      assert t[..14] == AttrWhite;
      assert AttrWhite[6..13] == White;
      assert s[k + 6..k + 13] == t[..14][6..13];
      FindFromZero(s, White, k + 6);
    }
  }

  /** Text without `#ffffff` (for example `#FFFFFF` or other colours only) is
      returned unchanged. */
  lemma UnchangedWithoutWhite(content: string)
    requires !Contains(content, White)
    ensures FixWhiteFill(content) == content
  {
    forall k | 0 <= k < |content| ensures !Matches(Matcher(StyleFill(White)), content[k..]) {
      if Matches(Matcher(StyleFill(White)), content[k..]) {
        WhiteMatchContainsWhite(content, k);
      }
    }
    SubNoMatch(content, Matcher(StyleFill(White)), StyleGray);
    forall k | 0 <= k < |content| ensures !Matches(Matcher(Literal(AttrWhite)), content[k..]) {
      if Matches(Matcher(Literal(AttrWhite)), content[k..]) {
        WhiteMatchContainsWhite(content, k);
      }
    }
    SubNoMatch(content, Matcher(Literal(AttrWhite)), AttrGray);
  }

  /** The style pass can lengthen the text: `fill:#ffffff` (12 characters)
      becomes `fill: #d3d3d3` (13 characters). */
  lemma StylePassCanLengthen()
    ensures StylePass("fill:#ffffff") == StyleGray
    ensures |StylePass("fill:#ffffff")| > |"fill:#ffffff"|
  {
    var s := "fill:#ffffff";
    assert s[5..][0] == '#';
    LeadingSpacesExact(s[5..], 0);
    assert s[5..][..7] == White;
    assert MatchLen(StyleFill(White), s + []) == |s|;
    SubAtMatch(s, [], Matcher(StyleFill(White)), StyleGray);
    assert s + [] == s;
  }
}
