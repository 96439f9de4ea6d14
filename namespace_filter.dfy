/** `fix_svg_for_react`: strip the XML namespaces React cannot take. Eight
    `re.sub` passes, in this order: four namespace declarations, the
    `<metadata>` block, `xml:` attributes, the `xlink:` prefix of `href`, and
    finally runs of two or more spaces. */
module NamespaceFilter {
  import opened Text
  import opened SvgScan

  /** `xmlns:xlink="[^"]*"` and its three siblings. */
  const XlinkNs := QuotedValue("xmlns:xlink=\"")
  const DcNs := QuotedValue("xmlns:dc=\"")
  const CcNs := QuotedValue("xmlns:cc=\"")
  const RdfNs := QuotedValue("xmlns:rdf=\"")
  /** `<metadata>.*?</metadata>` with `re.DOTALL`. */
  const Metadata := Block("<metadata>", "</metadata>", false)
  const XlinkHref := Literal("xlink:href=")

  function RemoveNamespaces(content: string): string {
    var a := Sub(content, Matcher(XlinkNs), "");
    var b := Sub(a, Matcher(DcNs), "");
    var c := Sub(b, Matcher(CcNs), "");
    Sub(c, Matcher(RdfNs), "")
  }

  function RemoveMetadata(content: string): string { Sub(content, Matcher(Metadata), "") }
  function RemoveXmlAttrs(content: string): string { Sub(content, Matcher(XmlPrefixed), "") }
  function UnprefixHref(content: string): string { Sub(content, Matcher(XlinkHref), "href=") }
  function CollapseSpaces(content: string): string { Sub(content, Matcher(SpaceRun), " ") }

  /** The whole transform, with the file reading and writing left to the caller. */
  function FixSvgForReact(content: string): string {
    CollapseSpaces(UnprefixHref(RemoveXmlAttrs(RemoveMetadata(RemoveNamespaces(content)))))
  }

  // ---------------------------------------------------------------------------
  // Length
  // ---------------------------------------------------------------------------

  /** No pass lengthens the text, so neither does the whole transform. */
  lemma FixSvgNotLonger(content: string)
    ensures |RemoveNamespaces(content)| <= |content|
    ensures |FixSvgForReact(content)| <= |content|
  {
    var a := Sub(content, Matcher(XlinkNs), "");
    var b := Sub(a, Matcher(DcNs), "");
    var c := Sub(b, Matcher(CcNs), "");
    var d := RemoveNamespaces(content);
    var e := RemoveMetadata(d);
    var f := RemoveXmlAttrs(e);
    var g := UnprefixHref(f);
    PatternSubNotLonger(content, XlinkNs, "");
    PatternSubNotLonger(a, DcNs, "");
    PatternSubNotLonger(b, CcNs, "");
    PatternSubNotLonger(c, RdfNs, "");
    PatternSubNotLonger(d, Metadata, "");
    PatternSubNotLonger(e, XmlPrefixed, "");
    PatternSubNotLonger(f, XlinkHref, "href=");
    PatternSubNotLonger(g, SpaceRun, " ");
  }

  /** Text holding none of the keys the passes look for is left unchanged. */
  lemma UntouchedWithoutKeys(content: string)
    requires !Contains(content, "xmlns:") && !Contains(content, "<metadata>")
    requires !Contains(content, "xml:") && !Contains(content, "xlink:href=")
    requires !Contains(content, "  ")
    ensures FixSvgForReact(content) == content
  {
    NoKeyFromPrefix(content, "xmlns:", "xmlns:xlink=\"");
    NoKeyFromPrefix(content, "xmlns:", "xmlns:dc=\"");
    NoKeyFromPrefix(content, "xmlns:", "xmlns:cc=\"");
    NoKeyFromPrefix(content, "xmlns:", "xmlns:rdf=\"");
    SubWithoutKey(content, XlinkNs, "");
    SubWithoutKey(content, DcNs, "");
    SubWithoutKey(content, CcNs, "");
    SubWithoutKey(content, RdfNs, "");
    SubWithoutKey(content, Metadata, "");
    SubWithoutKey(content, XmlPrefixed, "");
    SubWithoutKey(content, XlinkHref, "href=");
    SubWithoutKey(content, SpaceRun, " ");
  }

  /** A text that lacks `p` lacks every text beginning with `p`. */
  lemma NoKeyFromPrefix(s: string, p: string, key: string)
    requires !Contains(s, p) && StartsWith(key, p)
    ensures !Contains(s, key)
  {
    if Contains(s, key) {
      var k := Find(s, key, 0);
      assert s[k..k + |p|] == s[k..k + |key|][..|p|];
      FindFromZero(s, p, k);
      assert false;
    }
  }

  // ---------------------------------------------------------------------------
  // What each deletion pass removes
  // ---------------------------------------------------------------------------

  /** A text free of `"` followed by `"` is found to end at that quote. */
  lemma QuoteEnds(v: string, rest: string)
    requires '"' !in v
    ensures Find(v + "\"" + rest, "\"", 0) == |v|
  {
    var t := v + "\"" + rest;
    assert t[|v|..|v| + 1] == "\"";
    forall k: nat | k < |v| ensures !IsAt(t, "\"", k) {
      assert t[k..k + 1][0] == v[k];
    }
    FindIs(t, "\"", 0, |v|);
  }

  /** `prefix[^"]*"` at the start of the text ends at the first `"` after the prefix. */
  lemma QuotedMatch(prefix: string, v: string, rest: string)
    requires prefix != [] && '"' !in v
    ensures MatchLen(QuotedValue(prefix), prefix + v + "\"" + rest) == |prefix| + |v| + 1
  {
    var t := prefix + v + "\"" + rest;
    assert t == prefix + (v + "\"" + rest);
    QuoteEnds(v, rest);
    FindShift(prefix, v + "\"" + rest, "\"", 0);
    assert t[..|prefix|] == prefix;
  }

  /** A double-quoted attribute opened by `prefix` is deleted whole, and
      scanning resumes right after its closing quote. */
  lemma QuotedCut(prefix: string, v: string, rest: string)
    requires prefix != [] && '"' !in v
    ensures Sub(prefix + v + "\"" + rest, Matcher(QuotedValue(prefix)), "")
         == Sub(rest, Matcher(QuotedValue(prefix)), "")
  {
    QuotedMatch(prefix, v, rest);
    assert prefix + v + "\"" + rest == (prefix + v + "\"") + rest;
    SubAtMatch(prefix + v + "\"", rest, Matcher(QuotedValue(prefix)), "");
  }

  /** `xmlns:xlink="…"` is deleted by the first pass. */
  lemma XlinkNsCut(v: string, rest: string)
    requires '"' !in v
    ensures Sub("xmlns:xlink=\"" + v + "\"" + rest, Matcher(XlinkNs), "") == Sub(rest, Matcher(XlinkNs), "")
  {
    QuotedCut("xmlns:xlink=\"", v, rest);
  }

  /** The plain `xmlns="…"` declaration starts no match of any pass. */
  lemma PlainXmlnsKept(t: string)
    requires StartsWith(t, "xmlns=\"")
    ensures MatchLen(XlinkNs, t) == 0 && MatchLen(DcNs, t) == 0
    ensures MatchLen(CcNs, t) == 0 && MatchLen(RdfNs, t) == 0
    ensures MatchLen(Metadata, t) == 0 && MatchLen(XmlPrefixed, t) == 0
    ensures MatchLen(XlinkHref, t) == 0 && MatchLen(SpaceRun, t) == 0
  {
    assert t[..7] == "xmlns=\"";
    assert t[5] == '=' && t[3] == 'n' && t[0] == 'x' && t[1] == 'm';
    assert !StartsWith(t, "xmlns:xlink=\"") by { assert "xmlns:xlink=\""[5] == ':'; }
    assert !StartsWith(t, "xmlns:dc=\"") by { assert "xmlns:dc=\""[5] == ':'; }
    assert !StartsWith(t, "xmlns:cc=\"") by { assert "xmlns:cc=\""[5] == ':'; }
    assert !StartsWith(t, "xmlns:rdf=\"") by { assert "xmlns:rdf=\""[5] == ':'; }
    assert !StartsWith(t, "xml:") by { assert "xml:"[3] == ':'; }
    assert !StartsWith(t, "<metadata>") by { assert "<metadata>"[0] == '<'; }
    assert !StartsWith(t, "xlink:href=") by { assert "xlink:href="[1] == 'l'; }
  }

  /** `<metadata>.*?</metadata>` at the start ends at the first closing tag. */
  lemma MetadataMatch(body: string, rest: string)
    requires Find(body + "</metadata>", "</metadata>", 0) == |body|
    ensures MatchLen(Metadata, "<metadata>" + body + "</metadata>" + rest) == 10 + |body| + 11
  {
    var t := "<metadata>" + body + "</metadata>" + rest;
    BlockFind("<metadata>", body, "</metadata>", rest);
    assert t[..10] == "<metadata>";
  }

  /** A metadata block is deleted up to the first `</metadata>` after its
      opening tag, whatever lies between (newlines included), and nothing
      after it is touched by that cut. */
  lemma MetadataCut(body: string, rest: string)
    requires Find(body + "</metadata>", "</metadata>", 0) == |body|
    ensures RemoveMetadata("<metadata>" + body + "</metadata>" + rest) == RemoveMetadata(rest)
  {
    MetadataMatch(body, rest);
    assert "<metadata>" + body + "</metadata>" + rest == ("<metadata>" + body + "</metadata>") + rest;
    SubAtMatch("<metadata>" + body + "</metadata>", rest, Matcher(Metadata), "");
  }

  /** The letter run of `name` stops at the `=` after it. */
  lemma {:induction false} LetterRunOf(name: string, rest: string)
    requires forall i :: 0 <= i < |name| ==> IsAsciiLetter(name[i])
    ensures LetterRunLen(name + "=" + rest) == |name|
    decreases |name|
  {
    if name != [] {
      assert (name + "=" + rest)[1..] == name[1..] + "=" + rest;
      LetterRunOf(name[1..], rest);
    }
  }

  /** `xml:name="…"` at the start of the text is matched whole. */
  lemma XmlAttrMatch(name: string, v: string, rest: string)
    requires name != [] && forall i :: 0 <= i < |name| ==> IsAsciiLetter(name[i])
    requires '"' !in v
    ensures MatchLen(XmlPrefixed, "xml:" + name + "=\"" + v + "\"" + rest) == 4 + |name| + 2 + |v| + 1
  {
    var head := "xml:" + name + "=\"";
    var t := "xml:" + name + "=\"" + v + "\"" + rest;
    assert t == head + (v + "\"" + rest);
    assert t[..4] == "xml:";
    assert t[4..] == name + "=" + ("\"" + v + "\"" + rest);
    LetterRunOf(name, "\"" + v + "\"" + rest);
    assert t[4 + |name|..][..2] == "=\"";
    QuoteEnds(v, rest);
    FindShift(head, v + "\"" + rest, "\"", 0);
  }

  /** An `xml:` attribute such as `xml:space="preserve"` is deleted whole. */
  lemma XmlAttrCut(name: string, v: string, rest: string)
    requires name != [] && forall i :: 0 <= i < |name| ==> IsAsciiLetter(name[i])
    requires '"' !in v
    ensures RemoveXmlAttrs("xml:" + name + "=\"" + v + "\"" + rest) == RemoveXmlAttrs(rest)
  {
    XmlAttrMatch(name, v, rest);
    var x := "xml:" + name + "=\"" + v + "\"";
    assert x + rest == "xml:" + name + "=\"" + v + "\"" + rest;
    SubAtMatch(x, rest, Matcher(XmlPrefixed), "");
  }

  // ---------------------------------------------------------------------------
  // xlink:href
  // ---------------------------------------------------------------------------

  /** Each `xlink:href=` met by the scan becomes `href=`. */
  lemma HrefRewritten(rest: string)
    ensures UnprefixHref("xlink:href=" + rest) == "href=" + UnprefixHref(rest)
  {
    assert ("xlink:href=" + rest)[..11] == "xlink:href=";
    SubAtMatch("xlink:href=", rest, Matcher(XlinkHref), "href=");
  }

  lemma NoHrefMatchInPrefix()
    ensures forall k :: 0 <= k < 6 ==> !Matches(Matcher(XlinkHref), ("xlink:" + "xlink:href=")[k..])
  {
    var t := "xlink:" + "xlink:href=";
    forall k | 0 <= k < 6 ensures !StartsWith(t[k..], "xlink:href=") {
      if k == 0 {
        assert t[k..][6] != "xlink:href="[6];
      } else {
        assert t[k..][0] != "xlink:href="[0];
      }
    }
  }

  /** The rewrite can itself form a new `xlink:href=`: one pass does not
      guarantee that none remain. */
  lemma HrefCanRemain()
    ensures UnprefixHref("xlink:" + "xlink:href=") == "xlink:" + "href="
  {
    NoHrefMatchInPrefix();
    SubSkip("xlink:", "xlink:href=", Matcher(XlinkHref), "href=");
    HrefRewritten([]);
    assert "xlink:href=" + [] == "xlink:href=";
  }

  // ---------------------------------------------------------------------------
  // Collapsing spaces
  // ---------------------------------------------------------------------------

  /** No two adjacent U+0020 characters. */
  predicate NoDoubleSpace(s: string) {
    forall i :: 0 < i < |s| ==> !(s[i - 1] == ' ' && s[i] == ' ')
  }

  /** A run of two or more spaces matches exactly when the text begins with two spaces. */
  lemma SpaceRunMatches(t: string)
    ensures Matches(Matcher(SpaceRun), t) <==> |t| >= 2 && t[0] == ' ' && t[1] == ' '
  {
  }

  /** The collapsed text begins with the same character as the input. */
  lemma CollapseFirst(t: string)
    requires t != []
    ensures CollapseSpaces(t) != [] && CollapseSpaces(t)[0] == t[0]
  {
  }

  /** After the last pass no two spaces stand side by side. */
  lemma {:induction false} CollapseLeavesNoDouble(s: string)
    ensures NoDoubleSpace(CollapseSpaces(s))
    decreases |s|
  {
    var m := Matcher(SpaceRun);
    var out := CollapseSpaces(s);
    if s != [] {
      if Matches(m, s) {
        var n := m(s);
        var tail := s[n..];
        CollapseLeavesNoDouble(tail);
        assert out == " " + CollapseSpaces(tail);
        if tail != [] {
          assert tail[0] == s[n] != ' ';
          CollapseFirst(tail);
        }
        forall i | 0 < i < |out| ensures !(out[i - 1] == ' ' && out[i] == ' ') {
          if i > 1 {
            assert out[i - 1] == CollapseSpaces(tail)[i - 2];
          }
        }
      } else {
        var tail := s[1..];
        CollapseLeavesNoDouble(tail);
        assert out == [s[0]] + CollapseSpaces(tail);
        if tail != [] {
          CollapseFirst(tail);
          SpaceRunMatches(s);
        }
        forall i | 0 < i < |out| ensures !(out[i - 1] == ' ' && out[i] == ' ') {
          if i > 1 {
            assert out[i - 1] == CollapseSpaces(tail)[i - 2];
          }
        }
      }
    }
  }

  /** Text with no double space holds no match of the collapse pattern. */
  lemma NoDoubleNoMatch(s: string)
    requires NoDoubleSpace(s)
    ensures NoMatch(s, Matcher(SpaceRun))
  {
    forall k | 0 <= k < |s| ensures !Matches(Matcher(SpaceRun), s[k..]) {
      SpaceRunMatches(s[k..]);
      if k + 1 < |s| {
        assert s[k..][1] == s[k + 1];
      }
    }
  }

  /** Collapsing twice is collapsing once. */
  lemma CollapseIdempotent(s: string)
    ensures CollapseSpaces(CollapseSpaces(s)) == CollapseSpaces(s)
  {
    CollapseLeavesNoDouble(s);
    NoDoubleNoMatch(CollapseSpaces(s));
    SubNoMatch(CollapseSpaces(s), Matcher(SpaceRun), " ");
  }

  /** Only spaces are touched: with every U+0020 taken out, input and output
      agree, so tabs, newlines and every other character stay, in order. */
  lemma {:induction false} CollapseKeepsNonSpaces(s: string)
    ensures RemoveChar(CollapseSpaces(s), ' ') == RemoveChar(s, ' ')
    decreases |s|
  {
    var m := Matcher(SpaceRun);
    if s != [] {
      if Matches(m, s) {
        var n := m(s);
        CollapseKeepsNonSpaces(s[n..]);
        RemoveCharAppend(" ", CollapseSpaces(s[n..]), ' ');
        assert s == s[..n] + s[n..];
        RemoveCharAppend(s[..n], s[n..], ' ');
        RemoveCharOfRun(s, n, ' ');
      } else {
        CollapseKeepsNonSpaces(s[1..]);
        RemoveCharAppend([s[0]], CollapseSpaces(s[1..]), ' ');
        assert s == [s[0]] + s[1..];
        RemoveCharAppend([s[0]], s[1..], ' ');
      }
    }
  }

  /** The whole transform ends with no double space. */
  lemma FixSvgLeavesNoDouble(content: string)
    ensures NoDoubleSpace(FixSvgForReact(content))
  {
    CollapseLeavesNoDouble(UnprefixHref(RemoveXmlAttrs(RemoveMetadata(RemoveNamespaces(content)))));
  }
}
