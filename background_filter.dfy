/** `remove_background`: delete the two background groups of the map and any
    self-closing path filled with the dark background colours. Four `re.sub`
    passes with an empty replacement, in this order. */
module BackgroundFilter {
  import opened Text
  import opened SvgScan
  import DistrictAnnotator

  const Patch1Open := "<g id=\"patch_1\">"
  const Patch2Open := "<g id=\"patch_2\">"

  /** `<g id="patch_1">.*?</g>\s*` with `re.DOTALL`. */
  const Patch1Group := Block(Patch1Open, "</g>", true)
  /** `<g id="patch_2">.*?</g>\s*` with `re.DOTALL`. */
  const Patch2Group := Block(Patch2Open, "</g>", true)
  // `<path[^>]*fill:\s*#212830[^>]*/>`
  const DarkPath := FilledPath("#212830")
  // `<path[^>]*fill:\s*#000000[^>]*/>`
  const BlackPath := FilledPath("#000000")

  function RemovePatch1(content: string): string { Sub(content, Matcher(Patch1Group), "") }
  function RemovePatch2(content: string): string { Sub(content, Matcher(Patch2Group), "") }
  function RemoveDarkPaths(content: string): string { Sub(content, Matcher(DarkPath), "") }
  function RemoveBlackPaths(content: string): string { Sub(content, Matcher(BlackPath), "") }

  /** The whole transform, with the file reading and writing left to the caller. */
  function RemoveBackground(content: string): string {
    RemoveBlackPaths(RemoveDarkPaths(RemovePatch2(RemovePatch1(content))))
  }

  /** No pass lengthens the text, so neither does the whole transform. */
  lemma RemoveBackgroundNotLonger(content: string)
    ensures |RemovePatch1(content)| <= |content|
    ensures |RemoveBackground(content)| <= |content|
  {
    var a := RemovePatch1(content);
    var b := RemovePatch2(a);
    var c := RemoveDarkPaths(b);
    PatternSubNotLonger(content, Patch1Group, "");
    PatternSubNotLonger(a, Patch2Group, "");
    PatternSubNotLonger(b, DarkPath, "");
    PatternSubNotLonger(c, BlackPath, "");
  }

  /** Text without either background tag and without `<path` is unchanged. */
  lemma UntouchedWithoutTargets(content: string)
    requires !Contains(content, Patch1Open) && !Contains(content, Patch2Open)
    requires !Contains(content, "<path")
    ensures RemoveBackground(content) == content
  {
    SubWithoutKey(content, Patch1Group, "");
    SubWithoutKey(content, Patch2Group, "");
    SubWithoutKey(content, DarkPath, "");
    SubWithoutKey(content, BlackPath, "");
  }

  /** A group tag of any other patch number starts no background match: the
      tag's closing `">` keeps `patch_1` from matching `patch_10`. */
  lemma OtherGroupsNotMatched(t: string, k: nat)
    requires k != 1 && k != 2
    requires StartsWith(t, DistrictAnnotator.GroupTag(DistrictAnnotator.PatchLabel(k)))
    ensures MatchLen(Patch1Group, t) == 0 && MatchLen(Patch2Group, t) == 0
  {
    assert Patch1Open == DistrictAnnotator.GroupTag(DistrictAnnotator.PatchLabel(1));
    assert Patch2Open == DistrictAnnotator.GroupTag(DistrictAnnotator.PatchLabel(2));
    IsAtSuffix(t, DistrictAnnotator.GroupTag(DistrictAnnotator.PatchLabel(k)), 0);
    assert t[0..] == t;
    if StartsWith(t, Patch1Open) {
      IsAtSuffix(t, Patch1Open, 0);
      DistrictAnnotator.TagsUnambiguous(t, 1, k, 0);
    }
    if StartsWith(t, Patch2Open) {
      IsAtSuffix(t, Patch2Open, 0);
      DistrictAnnotator.TagsUnambiguous(t, 2, k, 0);
    }
  }

  /** A `patch_1` group at the start of the text is cut up to the first
      `</g>` after its tag, whatever the body holds (nested `<g>` tags,
      newlines), together with the whitespace after it; scanning resumes
      behind the cut. */
  lemma GroupCut(body: string, ws: string, rest: string)
    requires Find(body + "</g>", "</g>", 0) == |body|
    requires forall i :: 0 <= i < |ws| ==> IsSpace(ws[i])
    requires rest == [] || !IsSpace(rest[0])
    ensures RemovePatch1(Patch1Open + body + "</g>" + ws + rest) == RemovePatch1(rest)
  {
    var t := Patch1Open + body + "</g>" + ws + rest;
    BlockMatch(Patch1Open, body, "</g>", ws, rest);
    var n := |Patch1Open| + |body| + 4 + |ws|;
    assert t == (Patch1Open + body + "</g>" + ws) + rest;
    SubAtMatch(Patch1Open + body + "</g>" + ws, rest, Matcher(Patch1Group), "");
  }

  /** The cut is non-greedy and crosses lines: it ends at the first `</g>`
      after the tag, here the one closing a nested group, and takes the
      newline after it, so the outer `</g>` is left behind. */
  lemma NestedGroupCut()
    ensures RemovePatch1("<g id=\"patch_1\">\n<g></g>\n</g>") == "</g>"
  {
    NestedGroupText();
    NestedGroupCutParts();
    NestedGroupTail();
  }

  lemma NestedGroupText()
    ensures Patch1Open + "\n<g>" + "</g>" + "\n" + "</g>" == "<g id=\"patch_1\">\n<g></g>\n</g>"
  {
  }

  lemma NestedGroupTail()
    ensures RemovePatch1("</g>") == "</g>"
  {
    SubWithoutKey("</g>", Patch1Group, "");
  }

  lemma NestedGroupCutParts()
    ensures RemovePatch1(Patch1Open + "\n<g>" + "</g>" + "\n" + "</g>") == RemovePatch1("</g>")
  {
    NestedBodyFind();
    GroupCut("\n<g>", "\n", "</g>");
  }

  /** The first `</g>` in the nested body is the inner one. */
  lemma NestedBodyFind()
    ensures Find("\n<g>" + "</g>", "</g>", 0) == 4
  {
    var b := "\n<g>" + "</g>";
    assert IsAt(b, "</g>", 4) by { assert b[4..8] == "</g>"; }
    forall k: nat | k < 4 ensures !IsAt(b, "</g>", k) {
      assert b[k] != '<' || b[k + 1] != '/';
    }
    FindIs(b, "</g>", 0, 4);
  }

  /** A self-closing path whose attributes carry the fill is deleted. */
  lemma PathDeleted(u: string, color: string)
    requires '>' !in u && HasStyleFill(u, color)
    ensures Sub("<path" + u + "/>", Matcher(FilledPath(color)), "") == ""
  {
    FilledPathMatch(u, color);
    var s := "<path" + u + "/>";
    assert s + [] == s;
    SubAtMatch(s, [], Matcher(FilledPath(color)), "");
  }

  /** A self-closing path carrying the dark fill is deleted. */
  lemma DarkPathDeleted()
    ensures RemoveDarkPaths("<path style=\"fill:#212830\"/>") == ""
  {
    DarkPathDeletedParts();
    DarkPathSpelled();
  }

  lemma DarkPathDeletedParts()
    ensures RemoveDarkPaths("<path" + (" style=\"" + ("fill:" + "#212830" + "\"")) + "/>") == ""
  {
    var u := " style=\"" + ("fill:" + "#212830" + "\"");
    DarkStyle();
    DarkStyleNoClose();
    PathDeleted(u, "#212830");
  }

  lemma DarkStyleNoClose()
    ensures '>' !in " style=\"" + ("fill:" + "#212830" + "\"")
  {
  }

  lemma DarkPathSpelled()
    ensures "<path" + (" style=\"" + ("fill:" + "#212830" + "\"")) + "/>" == "<path style=\"fill:#212830\"/>"
  {
  }

  lemma DarkStyle()
    ensures HasStyleFill(" style=\"" + ("fill:" + "#212830" + "\""), "#212830")
  {
    var f := "fill:" + "#212830" + "\"";
    var u := " style=\"" + f;
    assert f[..5] == "fill:";
    assert f[5..] == "#212830" + "\"";
    LeadingSpacesOf([], f[5..]);
    assert f[5..][..7] == "#212830";
    assert u[8..] == f;
    HasStyleFillAt(u, "#212830", 8);
  }

  /** A style fill found at offset `k` means `HasStyleFill`. */
  lemma {:induction false} HasStyleFillAt(u: string, color: string, k: nat)
    requires k < |u| && StyleFillLen(u[k..], color) > 0
    ensures HasStyleFill(u, color)
    decreases k
  {
    if k > 0 {
      assert u[1..][k - 1..] == u[k..];
      HasStyleFillAt(u[1..], color, k - 1);
    } else {
      assert u[0..] == u;
    }
  }

  /** No `patch_1` group starts inside `x` when `x` is shorter than the tag,
      none of the tag's characters after the first that `x` would have to
      cover is `<`, and a `<` follows `x`. */
  lemma NoGroupBefore(x: string, v: string)
    requires |x| < |Patch1Open| && v != [] && v[0] == '<'
    requires forall j :: 0 < j <= |x| ==> Patch1Open[j] != '<'
    ensures forall k :: 0 <= k < |x| ==> !Matches(Matcher(Patch1Group), (x + v)[k..])
  {
    forall k | 0 <= k < |x| ensures !StartsWith((x + v)[k..], Patch1Open) {
      var t := (x + v)[k..];
      if |Patch1Open| <= |t| {
        assert t[..|Patch1Open|][|x| - k] == t[|x| - k] == v[0];
      }
    }
  }

  /** An empty group behind a short prefix is cut, and the text it
      separated is joined. */
  lemma EmptyGroupCutBetween(x: string, y: string)
    requires |x| < |Patch1Open| && forall j :: 0 < j <= |x| ==> Patch1Open[j] != '<'
    requires !Contains(y, Patch1Open) && (y == [] || !IsSpace(y[0]))
    ensures RemovePatch1(x + (Patch1Open + "</g>" + y)) == x + y
  {
    var mid := Patch1Open + "</g>";
    EmptyBodyFind();
    GroupCut("", "", y);
    assert Patch1Open + "" + "</g>" + "" + y == mid + y;
    SubWithoutKey(y, Patch1Group, "");
    NoGroupBefore(x, mid + y);
    SubSkip(x, mid + y, Matcher(Patch1Group), "");
  }

  /** The inner group is cut, leaving the two halves of a new tag side by side. */
  lemma ExposedParts()
    ensures RemovePatch1("<g id=\"pa" + (Patch1Open + "</g>" + "tch_1\"></g>")) == "<g id=\"pa" + "tch_1\"></g>"
  {
    NoPatch1InTail();
    PrefixHasNoAngle();
    EmptyGroupCutBetween("<g id=\"pa", "tch_1\"></g>");
  }

  lemma PrefixHasNoAngle()
    ensures forall j :: 0 < j <= |"<g id=\"pa"| ==> Patch1Open[j] != '<'
  {
  }

  lemma EmptyBodyFind()
    ensures Find("" + "</g>", "</g>", 0) == 0
  {
    assert IsAt("" + "</g>", "</g>", 0) by { assert ("" + "</g>")[0..4] == "</g>"; }
    FindIs("" + "</g>", "</g>", 0, 0);
  }

  lemma NoPatch1InTail()
    ensures !Contains("tch_1\"></g>", Patch1Open)
  {
  }

  /** A lone empty `patch_1` group is deleted. */
  lemma EmptyGroupDeleted()
    ensures RemovePatch1(Patch1Open + "</g>") == ""
  {
    EmptyBodyFind();
    GroupCut("", "", "");
    assert Patch1Open + "" + "</g>" + "" + "" == Patch1Open + "</g>";
  }

  lemma ExposedSpelled()
    ensures "<g id=\"pa" + (Patch1Open + "</g>" + "tch_1\"></g>") == "<g id=\"pa<g id=\"patch_1\"></g>tch_1\"></g>"
    ensures "<g id=\"pa" + "tch_1\"></g>" == Patch1Open + "</g>" == "<g id=\"patch_1\"></g>"
  {
  }

  /** Deleting a group can join the text around it into a new group, so one
      pass does not guarantee that no `patch_1` group is left: a second pass
      would delete more. */
  lemma RemovalCanExposeAGroup()
    ensures RemovePatch1("<g id=\"pa<g id=\"patch_1\"></g>tch_1\"></g>") == "<g id=\"patch_1\"></g>"
    ensures RemovePatch1("<g id=\"patch_1\"></g>") == ""
  {
    ExposedParts();
    EmptyGroupDeleted();
    ExposedSpelled();
  }
}
