/** `add_district_names_to_svg.py`: rename the map's `<g id="patch_k">` groups
    after the districts, in list order starting at `patch_3`, and give the
    first path of each renamed group an `id` attribute. The district list and
    the SVG text are inputs; reading and writing the files is not modelled. */
module DistrictAnnotator {
  import opened Text

  // ---------------------------------------------------------------------------
  // normalize
  // ---------------------------------------------------------------------------

  /** The transliteration table, in the order the loop applies it. */
  const Table: seq<(char, char)> := [
    ('ı', 'i'), ('İ', 'I'),
    ('ş', 's'), ('Ş', 'S'),
    ('ğ', 'g'), ('Ğ', 'G'),
    ('ü', 'u'), ('Ü', 'U'),
    ('ö', 'o'), ('Ö', 'O'),
    ('ç', 'c'), ('Ç', 'C')
  ]

  /** What becomes of one character after the first `k` table entries. */
  function Translit(c: char, k: nat): char
    requires k <= |Table|
  {
    if k == 0 then c
    else
      var d := Translit(c, k - 1);
      if d == Table[k - 1].0 then Table[k - 1].1 else d
  }

  /** Independent reference for the table: each Turkish letter goes to its
      ASCII base letter with the same case; every other character is kept. */
  function Fold(c: char): char {
    match c
    case 'ı' => 'i'
    case 'İ' => 'I'
    case 'ş' => 's'
    case 'Ş' => 'S'
    case 'ğ' => 'g'
    case 'Ğ' => 'G'
    case 'ü' => 'u'
    case 'Ü' => 'U'
    case 'ö' => 'o'
    case 'Ö' => 'O'
    case 'ç' => 'c'
    case 'Ç' => 'C'
    case _ => c
  }

  /** Applying the whole table, in order, is the per-character fold. */
  lemma TranslitIsFold(c: char)
    ensures Translit(c, |Table|) == Fold(c)
  {
    for k := 0 to 12
      invariant Translit(c, k) == (if exists j :: 0 <= j < k && Table[j].0 == c then Fold(c) else c)
    {
    }
    if !exists j :: 0 <= j < 12 && Table[j].0 == c {
      assert Table[0].0 != c && Table[1].0 != c && Table[2].0 != c && Table[3].0 != c;
      assert Table[4].0 != c && Table[5].0 != c && Table[6].0 != c && Table[7].0 != c;
      assert Table[8].0 != c && Table[9].0 != c && Table[10].0 != c && Table[11].0 != c;
    }
  }

  /** `s.replace(a, b)` for single characters: every `a` becomes `b`. */
  function ReplaceChar(s: string, a: char, b: char): (r: string)
    ensures |r| == |s|
    ensures forall i :: 0 <= i < |s| ==> r[i] == (if s[i] == a then b else s[i])
  {
    seq(|s|, i requires 0 <= i < |s| => if s[i] == a then b else s[i])
  }

  /** `re.sub(r'[^a-zA-Z0-9]', '', s)`: keep the ASCII letters and digits, in order. */
  function KeepAlnum(s: string): (r: string)
    ensures |r| <= |s|
    ensures forall i :: 0 <= i < |r| ==> IsAsciiAlnum(r[i])
  {
    if s == [] then []
    else if IsAsciiAlnum(s[0]) then [s[0]] + KeepAlnum(s[1..])
    else KeepAlnum(s[1..])
  }

  lemma {:induction false} KeepAlnumAppend(a: string, b: string)
    ensures KeepAlnum(a + b) == KeepAlnum(a) + KeepAlnum(b)
    decreases |a|
  {
    if a != [] {
      var ab := a + b;
      assert ab != [] && ab[0] == a[0];
      assert ab[1..] == a[1..] + b;
      KeepAlnumAppend(a[1..], b);
      if IsAsciiAlnum(a[0]) {
        assert KeepAlnum(ab) == [a[0]] + KeepAlnum(a[1..] + b);
        assert KeepAlnum(a) == [a[0]] + KeepAlnum(a[1..]);
      } else {
        assert KeepAlnum(ab) == KeepAlnum(a[1..] + b);
      }
    } else {
      assert a + b == b;
    }
  }

  /** Text made of ASCII letters and digits is kept whole. */
  lemma {:induction false} KeepAlnumAll(s: string)
    requires forall i :: 0 <= i < |s| ==> IsAsciiAlnum(s[i])
    ensures KeepAlnum(s) == s
    decreases |s|
  {
    if s != [] {
      KeepAlnumAll(s[1..]);
    }
  }

  /** Every character transliterated by the table. */
  function FoldText(s: string): (r: string)
    ensures |r| == |s|
  {
    seq(|s|, i requires 0 <= i < |s| => Translit(s[i], |Table|))
  }

  /** The id `normalize` derives from a district name. */
  function NormalizedId(text: string): string {
    Lower(KeepAlnum(FoldText(text)))
  }

  /** `normalize(text)`: the table loop rebinds the text once per entry, then
      non-alphanumerics are deleted and the rest lower-cased. */
  method Normalize(text: string) returns (r: string)
    ensures r == NormalizedId(text)
  {
    var result := text;
    var k := 0;
    while k < |Table|
      invariant 0 <= k <= |Table|
      invariant |result| == |text|
      invariant forall i :: 0 <= i < |text| ==> result[i] == Translit(text[i], k)
    {
      result := ReplaceChar(result, Table[k].0, Table[k].1);
      k := k + 1;
    }
    assert result == FoldText(text);
    r := Lower(KeepAlnum(result));
  }

  predicate IsIdChar(c: char) { IsAsciiLower(c) || IsDigit(c) }

  /** The id holds only lower-case ASCII letters and digits. */
  lemma NormalizedIdChars(text: string)
    ensures forall i :: 0 <= i < |NormalizedId(text)| ==> IsIdChar(NormalizedId(text)[i])
  {
  }

  /** Normalising works character by character. */
  lemma NormalizedIdAppend(a: string, b: string)
    ensures NormalizedId(a + b) == NormalizedId(a) + NormalizedId(b)
  {
    assert FoldText(a + b) == FoldText(a) + FoldText(b);
    KeepAlnumAppend(FoldText(a), FoldText(b));
  }

  /** One character's contribution: its fold if that is alphanumeric, lower-cased. */
  lemma NormalizedIdChar(c: char)
    ensures NormalizedId([c]) == if IsAsciiAlnum(Fold(c)) then [LowerChar(Fold(c))] else []
  {
    TranslitIsFold(c);
    assert FoldText([c]) == [Fold(c)];
  }

  /** A character outside both the table and `[a-zA-Z0-9]` (a space, a
      punctuation mark, `â`) is deleted, not transliterated. */
  lemma DroppedChar(a: string, c: char, b: string)
    requires Fold(c) == c && !IsAsciiAlnum(c)
    ensures NormalizedId(a + [c] + b) == NormalizedId(a + b)
  {
    NormalizedIdAppend(a + [c], b);
    NormalizedIdAppend(a, [c]);
    NormalizedIdChar(c);
    NormalizedIdAppend(a, b);
  }

  lemma SampleDroppedChars()
    ensures NormalizedId(" ") == [] && NormalizedId("-") == [] && NormalizedId("â") == []
  {
    NormalizedIdChar(' ');
    NormalizedIdChar('-');
    NormalizedIdChar('â');
  }

  /** Lower-case letters and digits are left as they are. */
  lemma {:induction false} NormalizedIdOfId(s: string)
    requires forall i :: 0 <= i < |s| ==> IsIdChar(s[i])
    ensures NormalizedId(s) == s
  {
    forall i | 0 <= i < |s| ensures FoldText(s)[i] == s[i] {
      TranslitIsFold(s[i]);
    }
    assert FoldText(s) == s;
    KeepAlnumAll(s);
  }

  /** Normalising an id again changes nothing. */
  lemma NormalizeIdempotent(text: string)
    ensures NormalizedId(NormalizedId(text)) == NormalizedId(text)
  {
    NormalizedIdChars(text);
    NormalizedIdOfId(NormalizedId(text));
  }

  /** What one character contributes to the id. */
  function CharId(c: char): string {
    if IsAsciiAlnum(Fold(c)) then [LowerChar(Fold(c))] else []
  }

  /** Reference definition of the id, one character at a time. */
  function IdByChars(s: string): string {
    if s == [] then [] else CharId(s[0]) + IdByChars(s[1..])
  }

  /** `normalize` agrees with the character-by-character reference. */
  lemma {:induction false} NormalizedIdByChars(s: string)
    ensures NormalizedId(s) == IdByChars(s)
    decreases |s|
  {
    if s != [] {
      assert s == [s[0]] + s[1..];
      NormalizedIdAppend([s[0]], s[1..]);
      NormalizedIdChar(s[0]);
      NormalizedIdByChars(s[1..]);
    } else {
      assert FoldText(s) == [];
    }
  }

  lemma SampleKtas()
    ensures IdByChars("ktaş") == "ktas"
  {
    assert CharId('ş') == "s" && CharId('a') == "a" && CharId('t') == "t" && CharId('k') == "k";
    assert IdByChars("ş") == "s" by { assert "ş"[1..] == []; }
    assert IdByChars("aş") == "as" by { assert "aş"[1..] == "ş"; }
    assert IdByChars("taş") == "tas" by { assert "taş"[1..] == "aş"; }
    assert IdByChars("ktaş") == "ktas" by { assert "ktaş"[1..] == "taş"; }
  }

  lemma SampleSiktas()
    ensures IdByChars("şiktaş") == "siktas"
  {
    SampleKtas();
    assert CharId('i') == "i" && CharId('ş') == "s";
    assert IdByChars("iktaş") == "iktas" by { assert "iktaş"[1..] == "ktaş"; }
    assert IdByChars("şiktaş") == "siktas" by { assert "şiktaş"[1..] == "iktaş"; }
  }

  lemma SampleEsiktas()
    ensures IdByChars("eşiktaş") == "esiktas"
  {
    SampleSiktas();
    assert CharId('e') == "e";
    assert "eşiktaş"[1..] == "şiktaş";
  }

  lemma SampleBesiktasChars()
    ensures IdByChars("Beşiktaş") == "besiktas"
  {
    SampleEsiktas();
    assert CharId('B') == "b";
    assert "Beşiktaş"[1..] == "eşiktaş";
  }

  /** Worked example: `ş` becomes `s` and the capital is lowered. */
  lemma SampleBesiktas()
    ensures NormalizedId("Beşiktaş") == "besiktas"
  {
    SampleBesiktasChars();
    NormalizedIdByChars("Beşiktaş");
  }

  /** Worked example: both `Ş` and `ş` become `s`. */
  lemma SampleSisli()
    ensures NormalizedId("Şişli") == "sisli"
  {
    assert CharId('i') == "i" && CharId('l') == "l" && CharId('ş') == "s" && CharId('Ş') == "s";
    assert IdByChars("i") == "i" by { assert "i"[1..] == []; }
    assert IdByChars("li") == "li" by { assert "li"[1..] == "i"; }
    assert IdByChars("şli") == "sli" by { assert "şli"[1..] == "li"; }
    assert IdByChars("işli") == "isli" by { assert "işli"[1..] == "şli"; }
    assert IdByChars("Şişli") == "sisli" by { assert "Şişli"[1..] == "işli"; }
    NormalizedIdByChars("Şişli");
  }

  /** Worked example: `İ` becomes `I`, then `i`. */
  lemma SampleDottedCapitalI()
    ensures NormalizedId("İ") == "i"
  {
    assert CharId('İ') == "i";
    assert IdByChars("İ") == "i" by { assert "İ"[1..] == []; }
    NormalizedIdByChars("İ");
  }

  // ---------------------------------------------------------------------------
  // Patch mapping
  // ---------------------------------------------------------------------------

  /** `patch_{k}`. */
  function PatchLabel(k: nat): string {
    "patch_" + NatToString(k)
  }

  /** Distinct numbers give distinct labels. */
  lemma PatchLabelInjective(a: nat, b: nat)
    requires PatchLabel(a) == PatchLabel(b)
    ensures a == b
  {
    assert NatToString(a) == PatchLabel(a)[6..];
    assert NatToString(b) == PatchLabel(b)[6..];
    NatToStringInjective(a, b);
  }

  /** The mapping loop: district `i` goes to `patch_{i+3}`, kept in list
      order (a Python dict iterates in insertion order). */
  method BuildMapping(districts: seq<string>) returns (mapping: seq<(string, string)>)
    ensures |mapping| == |districts|
    ensures forall i :: 0 <= i < |districts| ==> mapping[i] == (PatchLabel(i + 3), districts[i])
  {
    mapping := [];
    for i := 0 to |districts|
      invariant |mapping| == i
      invariant forall j :: 0 <= j < i ==> mapping[j] == (PatchLabel(j + 3), districts[j])
    {
      mapping := mapping + [(PatchLabel(i + 3), districts[i])];
    }
  }

  /** The labels of the mapping are pairwise distinct, so no entry of the dict
      is overwritten, and the two background patches are never targeted. */
  lemma MappingLabels(n: nat)
    ensures forall a, b :: 3 <= a < b < n + 3 ==> PatchLabel(a) != PatchLabel(b)
    ensures forall a :: 3 <= a < n + 3 ==> PatchLabel(a) != PatchLabel(1) && PatchLabel(a) != PatchLabel(2)
  {
    forall a, b | 3 <= a < b < n + 3 ensures PatchLabel(a) != PatchLabel(b) {
      if PatchLabel(a) == PatchLabel(b) { PatchLabelInjective(a, b); }
    }
    forall a | 3 <= a < n + 3 ensures PatchLabel(a) != PatchLabel(1) && PatchLabel(a) != PatchLabel(2) {
      if PatchLabel(a) == PatchLabel(1) { PatchLabelInjective(a, 1); }
      if PatchLabel(a) == PatchLabel(2) { PatchLabelInjective(a, 2); }
    }
  }

  // ---------------------------------------------------------------------------
  // Annotation
  // ---------------------------------------------------------------------------

  /** `<g id="{patch}">`, the tag looked for. */
  function GroupTag(patch: string): string {
    "<g id=\"" + patch + "\">"
  }

  /** `<g id="{normalized}" data-district="{district}">`, the tag put in its place. */
  function NewGroup(district: string): string {
    "<g id=\"" + NormalizedId(district) + "\" data-district=\"" + district + "\">"
  }

  /** `path{district with spaces removed}`; every other character, Turkish
      letters included, is kept. */
  function PathId(district: string): (r: string)
    ensures |r| >= 4 && r[..4] == "path" && ' ' !in r[4..]
    ensures forall c :: c != ' ' ==> multiset(r[4..])[c] == multiset(district)[c]
  {
    "path" + RemoveChar(district, ' ')
  }

  /** A name without spaces is kept whole: "Beşiktaş" gives "pathBeşiktaş". */
  lemma PathIdOfSpaceFree(district: string)
    requires ' ' !in district
    ensures PathId(district) == "path" + district
  {
    RemoveCharKeepsClean(district, ' ');
  }

  /** The id of a name is built piece by piece: the characters after `path`
      keep the order they have in the name. */
  lemma PathIdAppend(a: string, b: string)
    ensures PathId(a + b) == PathId(a) + RemoveChar(b, ' ')
  {
    RemoveCharAppend(a, b, ' ');
  }

  /** A space between two words is dropped and both words are kept as they
      are: "Kadıköy Merkez" gives "pathKadıköyMerkez". */
  lemma PathIdJoin(a: string, b: string)
    requires ' ' !in a && ' ' !in b
    ensures PathId(a + " " + b) == "path" + a + b
  {
    assert a + " " + b == a + [' '] + b;
    RemoveCharBetween(a, b, ' ');
  }



  /** The attribute spliced in front of `d="`: `id="{path_id}" `. */
  function PathAttr(district: string): string {
    "id=\"" + PathId(district) + "\" "
  }

  /** The positions the loop body computes on the text `u` its replacement
      produced: where the new tag `g` is, the next `<path`, the next `d="`. */
  datatype Positions = Positions(patchStart: int, pathStart: int, pathEnd: int)

  function Locate(u: string, g: string): Positions {
    var patchStart := Find(u, g, 0);
    var pathStart := PyFind(u, "<path", patchStart);
    var pathEnd := PyFind(u, "d=\"", pathStart);
    Positions(patchStart, pathStart, pathEnd)
  }

  /** Insert `attr` in front of the located `d="`, when both searches gave a
      positive index. */
  function SplicePathId(u: string, g: string, attr: string): string {
    var pos := Locate(u, g);
    if pos.pathStart > 0 && pos.pathEnd > 0 then u[..pos.pathEnd] + attr + u[pos.pathEnd..]
    else u
  }

  /** One iteration of the loop for `patch` and `district`. */
  function AnnotateStep(svg: string, patch: string, district: string): string {
    var tag := GroupTag(patch);
    if !Contains(svg, tag) then svg
    else SplicePathId(ReplaceFirst(svg, tag, NewGroup(district)), NewGroup(district), PathAttr(district))
  }

  /** The text after the first `n` iterations. */
  function Annotated(svg: string, districts: seq<string>, n: nat): string
    requires n <= |districts|
  {
    if n == 0 then svg
    else AnnotateStep(Annotated(svg, districts, n - 1), PatchLabel(n + 2), districts[n - 1])
  }

  /** The loop body: rewrite the first tag of `patch`, then splice the path id. */
  method AnnotateOne(svg: string, patch: string, district: string) returns (result: string)
    ensures result == AnnotateStep(svg, patch, district)
  {
    result := svg;
    var tag := GroupTag(patch);
    if Contains(result, tag) {
      var newGroup := NewGroup(district);
      result := ReplaceFirst(result, tag, newGroup);
      var patchStart := Find(result, newGroup, 0);
      var pathStart := PyFind(result, "<path", patchStart);
      var pathEnd := PyFind(result, "d=\"", pathStart);
      if pathStart > 0 && pathEnd > 0 {
        result := result[..pathEnd] + PathAttr(district) + result[pathEnd..];
      }
    }
  }

  /** The annotation loop, over the mapping in order. */
  method AnnotateSvg(svg: string, districts: seq<string>) returns (result: string)
    ensures result == Annotated(svg, districts, |districts|)
  {
    var mapping := BuildMapping(districts);
    result := svg;
    for i := 0 to |mapping|
      invariant result == Annotated(svg, districts, i)
    {
      var (patch, district) := mapping[i];
      result := AnnotateOne(result, patch, district);
    }
  }

  /** A missing tag leaves the text as it is for that district. */
  lemma AbsentTagUnchanged(svg: string, patch: string, district: string)
    requires !Contains(svg, GroupTag(patch))
    ensures AnnotateStep(svg, patch, district) == svg
  {
  }

  /** When no patch tag of the list occurs, the whole loop changes nothing. */
  lemma {:induction false} NoTagsUnchanged(svg: string, districts: seq<string>, n: nat)
    requires n <= |districts|
    requires forall i :: 3 <= i < n + 3 ==> !Contains(svg, GroupTag(PatchLabel(i)))
    ensures Annotated(svg, districts, n) == svg
  {
    if n > 0 {
      NoTagsUnchanged(svg, districts, n - 1);
      assert !Contains(svg, GroupTag(PatchLabel(n + 2)));
    }
  }

  /** Two digit strings each followed by `"` at the start of one text are equal. */
  lemma {:induction false} DigitsThenQuote(t: string, d: string, e: string)
    requires forall i :: 0 <= i < |d| ==> IsDigit(d[i])
    requires forall i :: 0 <= i < |e| ==> IsDigit(e[i])
    requires StartsWith(t, d + "\"") && StartsWith(t, e + "\"")
    ensures d == e
    decreases |d|
  {
    assert t[0] == (d + "\"")[0] == (e + "\"")[0];
    if d != [] && e != [] {
      assert (d + "\"")[1..] == d[1..] + "\"";
      assert (e + "\"")[1..] == e[1..] + "\"";
      assert t[1..][..|d[1..] + "\""|] == (d + "\"")[1..];
      assert t[1..][..|e[1..] + "\""|] == (e + "\"")[1..];
      DigitsThenQuote(t[1..], d[1..], e[1..]);
    }
  }

  /** The digits and quote of a tag found at `k` start the text at `k + 13`. */
  lemma TagDigits(s: string, k: nat, tag: string, d: string)
    requires IsAt(s, tag, k) && |tag| == 15 + |d|
    requires tag[13..14 + |d|] == d + "\""
    ensures StartsWith(s[k + 13..], d + "\"")
  {
    var t := s[k + 13..];
    assert t[..|d| + 1] == s[k + 13..k + 14 + |d|];
    var x, y := s[k + 13..k + 14 + |d|], tag[13..14 + |d|];
    forall i | 0 <= i < |x|
      ensures x[i] == y[i]
    {
      assert s[k + 13 + i] == s[k..k + |tag|][13 + i];
    }
    assert x == y;
  }

  /** The two tags of different patch numbers never both start at one
      position: the closing `">` stops `patch_3` from matching `patch_30`. */
  lemma TagsUnambiguous(s: string, a: nat, b: nat, k: nat)
    requires IsAt(s, GroupTag(PatchLabel(a)), k) && IsAt(s, GroupTag(PatchLabel(b)), k)
    ensures a == b
  {
    var da, db := NatToString(a), NatToString(b);
    var ta, tb := GroupTag(PatchLabel(a)), GroupTag(PatchLabel(b));
    assert ta == "<g id=\"patch_" + (da + "\"") + ">";
    assert tb == "<g id=\"patch_" + (db + "\"") + ">";
    assert ta[13..14 + |da|] == da + "\"";
    assert tb[13..14 + |db|] == db + "\"";
    var t := s[k + 13..];
    TagDigits(s, k, ta, da);
    TagDigits(s, k, tb, db);
    DigitsThenQuote(t, da, db);
    NatToStringInjective(a, b);
  }

  lemma TagsUnambiguousExample()
    ensures !StartsWith(GroupTag("patch_30"), GroupTag("patch_3"))
  {
    assert GroupTag("patch_30")[14] == '0' != GroupTag("patch_3")[14];
  }

  /** `<` occurs in the new tag only at its start when the name has none. */
  lemma NewGroupOneAngle(district: string)
    requires '<' !in district
    ensures NewGroup(district)[0] == '<' && NewGroup(district)[1] == 'g'
    ensures forall j :: 1 <= j < |NewGroup(district)| ==> NewGroup(district)[j] != '<'
  {
    var norm := NormalizedId(district);
    NormalizedIdChars(district);
    var g := NewGroup(district);
    var tail := "\" data-district=\"" + district + "\">";
    assert g == "<g id=\"" + norm + tail;
    forall j | 1 <= j < |g| ensures g[j] != '<' {
      if j < 7 {
      } else if j < 7 + |norm| {
        assert g[j] == norm[j - 7];
      } else {
        assert g[j] == tail[j - 7 - |norm|];
        if 17 <= j - 7 - |norm| < 17 + |district| {
          assert tail[j - 7 - |norm|] == district[j - 7 - |norm| - 17];
        }
      }
    }
  }

  /** A tag that opens with its only `<`, inserted at `i` into text that does
      not contain it, is first found at `i`. */
  lemma FreshTagFirstAt(svg: string, i: nat, drop: nat, g: string)
    requires i + drop <= |svg| && |g| >= 1
    requires !Contains(svg, g)
    requires g[0] == '<' && forall j :: 1 <= j < |g| ==> g[j] != '<'
    ensures Find(svg[..i] + g + svg[i + drop..], g, 0) == i
  {
    var u := svg[..i] + g + svg[i + drop..];
    assert u[i..i + |g|] == g;
    forall k: nat | k < i ensures !IsAt(u, g, k) {
      FreshTagNotBefore(svg, i, drop, g, k);
    }
    FindIs(u, g, 0, i);
  }

  lemma FreshTagNotBefore(svg: string, i: nat, drop: nat, g: string, k: nat)
    requires i + drop <= |svg| && |g| >= 1 && k < i
    requires !Contains(svg, g)
    requires g[0] == '<' && forall j :: 1 <= j < |g| ==> g[j] != '<'
    ensures !IsAt(svg[..i] + g + svg[i + drop..], g, k)
  {
    var u := svg[..i] + g + svg[i + drop..];
    if k + |g| <= i {
      assert u[k..k + |g|] == svg[k..k + |g|];
      assert !IsAt(svg, g, k);
    } else {
      assert u[i] == '<';
      assert g[i - k] != '<';
      assert k + |g| > |u| || u[k..k + |g|][i - k] == u[i];
    }
  }

  /** After a tag `<g…` whose only `<` is its first character, the next
      `<path` lies past the tag, and the next `d="` past that `<path`. */
  lemma PathAfterTag(u: string, i: nat, g: string)
    requires IsAt(u, g, i) && |g| >= 2
    requires g[0] == '<' && g[1] == 'g' && forall j :: 1 <= j < |g| ==> g[j] != '<'
    ensures var p := Find(u, "<path", i);
            p >= 0 ==> p >= i + |g| && (Find(u, "d=\"", p) == -1 || Find(u, "d=\"", p) > p)
  {
    assert u[i..i + |g|] == g;
    forall q: nat | i <= q < i + |g| ensures !IsAt(u, "<path", q) {
      if q == i {
        assert u[i + 1] == g[1] == 'g';
        assert q + 5 > |u| || u[q..q + 5][1] == u[i + 1];
      } else {
        assert u[q] == g[q - i] != '<';
        assert q + 5 > |u| || u[q..q + 5][0] == u[q];
      }
    }
    var p := Find(u, "<path", i);
    if p >= 0 {
      assert u[p..p + 5] == "<path";
      assert !IsAt(u, "d=\"", p) by { assert u[p] == '<'; }
    }
  }

  /** Where the splice goes, when the tag `g` is first found at `i`: in front
      of the first `d="` after the first `<path` after the tag, and only when
      both exist; the text up to the end of the tag is untouched. */
  lemma SpliceAfterTag(u: string, g: string, attr: string, i: nat)
    requires IsAt(u, g, i) && Find(u, g, 0) == i && |g| >= 2
    requires g[0] == '<' && g[1] == 'g' && forall j :: 1 <= j < |g| ==> g[j] != '<'
    ensures var pos := Locate(u, g);
            var r := SplicePathId(u, g, attr);
            (pos.pathStart >= 0 ==> i + |g| <= pos.pathStart) &&
            (pos.pathStart >= 0 && pos.pathEnd >= 0 ==>
               pos.pathStart < pos.pathEnd && IsAt(u, "<path", pos.pathStart) && IsAt(u, "d=\"", pos.pathEnd) &&
               r == u[..pos.pathEnd] + attr + u[pos.pathEnd..]) &&
            (pos.pathStart < 0 || pos.pathEnd < 0 ==> r == u) &&
            r[..i + |g|] == u[..i + |g|]
  {
    PathAfterTag(u, i, g);
    var pos := Locate(u, g);
    if pos.pathStart < 0 {
      assert pos.pathEnd == Find(u, "d=\"", |u| - 1) == -1;
    }
  }

  /** The splice never touches the text up to the end of the tag. */
  lemma SplicePrefixKept(u: string, g: string, attr: string, i: nat)
    requires IsAt(u, g, i) && Find(u, g, 0) == i && |g| >= 2
    requires g[0] == '<' && g[1] == 'g' && forall j :: 1 <= j < |g| ==> g[j] != '<'
    ensures SplicePathId(u, g, attr)[..i + |g|] == u[..i + |g|]
  {
    SpliceAfterTag(u, g, attr, i);
  }

  lemma ReplacedPrefix(svg: string, i: nat, drop: nat, g: string)
    requires i + drop <= |svg|
    ensures (svg[..i] + g + svg[i + drop..])[..i + |g|] == svg[..i] + g
  {
  }

  /** When some district's tag is present, its first occurrence `i` is
      rewritten into `u`, and the path id is spliced into `u`. For a name that
      is new to the text and has no `<`, the new tag is found at `i`. */
  lemma AnnotateStepFound(svg: string, patch: string, district: string, i: nat, u: string)
    requires Contains(svg, GroupTag(patch))
    requires !Contains(svg, NewGroup(district)) && '<' !in district
    requires i == Find(svg, GroupTag(patch), 0)
    requires u == svg[..i] + NewGroup(district) + svg[i + |GroupTag(patch)|..]
    ensures AnnotateStep(svg, patch, district) == SplicePathId(u, NewGroup(district), PathAttr(district))
    ensures Locate(u, NewGroup(district)).patchStart == i
    ensures Find(u, NewGroup(district), 0) == i
  {
    var g := NewGroup(district);
    NewGroupOneAngle(district);
    ReplaceFreshFirst(svg, GroupTag(patch), g, i, u);
  }

  /** Replacing the first `tag` by a tag `g` new to the text puts `g` first
      at the place of `tag`. */
  lemma ReplaceFreshFirst(svg: string, tag: string, g: string, i: nat, u: string)
    requires Contains(svg, tag) && i == Find(svg, tag, 0)
    requires !Contains(svg, g) && |g| >= 1
    requires g[0] == '<' && forall j :: 1 <= j < |g| ==> g[j] != '<'
    requires u == svg[..i] + g + svg[i + |tag|..]
    ensures ReplaceFirst(svg, tag, g) == u
    ensures Find(u, g, 0) == i
  {
    FreshTagFirstAt(svg, i, |tag|, g);
  }

  /** Under the same conditions the splice lands after the new tag: the text
      up to the end of the new tag is the old text followed by that tag. */
  lemma AnnotateStepKeepsPrefix(svg: string, patch: string, district: string, i: nat, u: string)
    requires Contains(svg, GroupTag(patch))
    requires !Contains(svg, NewGroup(district)) && '<' !in district
    requires i == Find(svg, GroupTag(patch), 0)
    requires u == svg[..i] + NewGroup(district) + svg[i + |GroupTag(patch)|..]
    ensures AnnotateStep(svg, patch, district)[..i + |NewGroup(district)|] == svg[..i] + NewGroup(district)
  {
    AnnotateStepFound(svg, patch, district, i, u);
    NewGroupOneAngle(district);
    SpliceKeepsReplacedPrefix(svg, i, |GroupTag(patch)|, NewGroup(district), PathAttr(district), u);
  }

  /** A splice after a tag `g` that replaced `drop` characters at `i` keeps
      the text before `i` and the tag itself. */
  lemma SpliceKeepsReplacedPrefix(svg: string, i: nat, drop: nat, g: string, attr: string, u: string)
    requires i + drop <= |svg| && u == svg[..i] + g + svg[i + drop..]
    requires Find(u, g, 0) == i && |g| >= 2
    requires g[0] == '<' && g[1] == 'g' && forall j :: 1 <= j < |g| ==> g[j] != '<'
    ensures SplicePathId(u, g, attr)[..i + |g|] == svg[..i] + g
  {
    assert IsAt(u, g, i) by { assert u[i..i + |g|] == g; }
    SplicePrefixKept(u, g, attr, i);
    ReplacedPrefix(svg, i, drop, g);
  }

  /** The guard `path_start > 0 and path_end > 0` holds exactly when both
      searches found something. */
  lemma GuardMeansFound(u: string, g: string)
    requires Contains(u, g) && |g| >= 2 && g[1] == 'g'
    ensures var pos := Locate(u, g);
            (pos.pathStart > 0 && pos.pathEnd > 0) <==> (pos.pathStart >= 0 && pos.pathEnd >= 0)
  {
    var pos := Locate(u, g);
    var h := u[pos.patchStart..pos.patchStart + |g|];
    assert h == g;
    assert u[pos.patchStart + 1] == h[1] == 'g';
    if pos.pathStart >= 0 {
      var p := pos.pathStart;
      var w := u[p..p + 5];
      assert w == "<path";
      assert u[p + 1] == w[1] == 'p';
      assert u[p] == w[0] == '<';
      assert p != pos.patchStart;
      assert !IsAt(u, "d=\"", p);
    } else {
      assert pos.pathEnd == Find(u, "d=\"", |u| - 1);
    }
  }

  // ---------------------------------------------------------------------------
  // What the whole loop leaves behind
  // ---------------------------------------------------------------------------

  /** `data-district="{district}"`, the attribute each new tag carries. */
  function DistrictAttr(district: string): string {
    "data-district=\"" + district + "\""
  }

  /** Text that neither a group tag nor a splice can cut into: no `<`, no
      `d=` inside, it starts with `da` and does not end in `d`. */
  predicate Sturdy(w: string) {
    |w| >= 2 && w[0] == 'd' && w[1] == 'a' && w[|w| - 1] != 'd'
    && (forall j :: 0 <= j < |w| ==> w[j] != '<')
    && (forall j :: 0 <= j < |w| - 1 ==> !(w[j] == 'd' && w[j + 1] == '='))
  }

  /** The shape of a `<g id="patch_k">` tag that matters here: it opens
      with `<`, its only `d` is the one of `id`, followed by `=`. */
  predicate TagShape(tag: string) {
    |tag| >= 6 && tag[0] == '<' && tag[5] == '='
    && forall j :: 0 <= j < |tag| && tag[j] == 'd' ==> j == 4
  }

  lemma GroupTagShape(k: nat)
    ensures TagShape(GroupTag(PatchLabel(k)))
  {
    var n := NatToString(k);
    var tag := GroupTag(PatchLabel(k));
    assert tag == "<g id=\"patch_" + n + "\">";
    forall j | 13 <= j < 13 + |n| ensures IsDigit(tag[j]) {
      assert tag[j] == n[j - 13];
    }
  }

  /** The attribute of a name without `<` or `=` is sturdy. */
  lemma DistrictAttrSturdy(district: string)
    requires '<' !in district && '=' !in district
    ensures Sturdy(DistrictAttr(district))
  {
    var w := DistrictAttr(district);
    var head := "data-district=\"";
    assert w == head + district + "\"";
    forall j | 0 <= j < |w| ensures w[j] != '<' {
      if 15 <= j < 15 + |district| {
        assert w[j] == district[j - 15];
      }
    }
    forall j | 0 <= j < |w| - 1 ensures !(w[j] == 'd' && w[j + 1] == '=') {
      if 14 <= j && j + 1 < 15 + |district| {
        assert w[j + 1] == district[j + 1 - 15];
      }
    }
  }

  /** The new tag holds the attribute after `<g id="{id}" `. */
  lemma NewGroupHoldsAttr(district: string)
    ensures Contains(NewGroup(district), DistrictAttr(district))
  {
    var norm := NormalizedId(district);
    var g := NewGroup(district);
    var k := 9 + |norm|;
    assert g == "<g id=\"" + norm + "\" " + DistrictAttr(district) + ">";
    assert g[k..k + |DistrictAttr(district)|] == DistrictAttr(district);
    FindFromZero(g, DistrictAttr(district), k);
  }

  /** A group tag and a sturdy text found in one string do not overlap. */
  lemma TagMissesSturdy(s: string, tag: string, q: nat, w: string, p: nat)
    requires TagShape(tag) && Sturdy(w)
    requires IsAt(s, tag, q) && IsAt(s, w, p)
    ensures q + |tag| <= p || p + |w| <= q
  {
    var x, y := s[q..q + |tag|], s[p..p + |w|];
    assert x == tag && y == w;
    assert s[q] == x[0] == '<' && s[q + 5] == x[5] == '=';
    assert s[p] == y[0] == 'd' && s[p + 1] == y[1] == 'a';
    forall j | p <= j < p + |w| ensures s[j] != '<' {
      assert s[j] == y[j - p];
    }
    forall j | q <= j < q + |tag| && s[j] == 'd' ensures j == q + 4 {
      assert s[j] == x[j - q];
    }
  }

  /** A `d="` found in a string never starts strictly inside a sturdy text. */
  lemma SpliceMissesSturdy(s: string, e: nat, w: string, p: nat)
    requires Sturdy(w) && IsAt(s, "d=\"", e) && IsAt(s, w, p)
    ensures !(p < e < p + |w|)
  {
    var x, y := s[e..e + 3], s[p..p + |w|];
    assert x == "d=\"" && y == w;
    assert s[e] == x[0] == 'd' && s[e + 1] == x[1] == '=';
    assert s[p + |w| - 1] == y[|w| - 1] != 'd';
    forall j | p <= j < p + |w| - 1 ensures !(s[j] == 'd' && s[j + 1] == '=') {
      assert s[j] == y[j - p] && s[j + 1] == y[j + 1 - p];
    }
  }

  /** Inserting text anywhere but strictly inside an occurrence keeps it. */
  lemma InsertKeeps(s: string, x: string, e: nat, w: string, p: nat)
    requires e <= |s| && IsAt(s, w, p) && !(p < e < p + |w|)
    ensures Contains(s[..e] + x + s[e..], w)
  {
    var r := s[..e] + x + s[e..];
    if p + |w| <= e {
      assert r[p..p + |w|] == s[p..p + |w|];
      FindFromZero(r, w, p);
    } else {
      var q := p + |x|;
      assert r[q..q + |w|] == s[p..p + |w|];
      FindFromZero(r, w, q);
    }
  }

  /** Replacing a stretch that does not overlap an occurrence keeps it. */
  lemma ReplaceKeeps(s: string, i: nat, len: nat, x: string, r: string, w: string, p: nat)
    requires i + len <= |s| && r == s[..i] + x + s[i + len..] && IsAt(s, w, p)
    requires i + len <= p || p + |w| <= i
    ensures Contains(r, w)
  {
    if p + |w| <= i {
      assert r[p..p + |w|] == s[p..p + |w|];
      FindFromZero(r, w, p);
    } else {
      var q := p - len + |x|;
      assert r[q..q + |w|] == s[p..p + |w|];
      FindFromZero(r, w, q);
    }
  }

  /** The splice keeps every sturdy text of the string. */
  lemma SpliceKeepsSturdy(u: string, g: string, attr: string, w: string)
    requires Sturdy(w) && Contains(u, w)
    ensures Contains(SplicePathId(u, g, attr), w)
  {
    var pos := Locate(u, g);
    if pos.pathStart > 0 && pos.pathEnd > 0 {
      var e := pos.pathEnd;
      assert e == Find(u, "d=\"", pos.pathStart);
      var p := Find(u, w, 0);
      SpliceMissesSturdy(u, e, w, p);
      InsertKeeps(u, attr, e, w, p);
    }
  }

  /** Rewriting the first `tag` into a `g` that holds a sturdy text, then
      splicing, leaves that text in the result. */
  lemma RewriteAddsSturdy(s: string, tag: string, g: string, attr: string, w: string)
    requires Contains(s, tag) && Contains(g, w) && Sturdy(w)
    ensures Contains(SplicePathId(ReplaceFirst(s, tag, g), g, attr), w)
  {
    var i := Find(s, tag, 0);
    var u := ReplaceFirst(s, tag, g);
    var k := Find(g, w, 0);
    assert u[i..i + |g|] == g;
    assert u[i + k..i + k + |w|] == g[k..k + |w|];
    FindFromZero(u, w, i + k);
    SpliceKeepsSturdy(u, g, attr, w);
  }

  /** Rewriting the first occurrence of a group tag, then splicing, keeps
      every sturdy text of the string. */
  lemma RewriteKeepsSturdy(s: string, tag: string, g: string, attr: string, w: string)
    requires Contains(s, tag) && Contains(s, w) && TagShape(tag) && Sturdy(w)
    ensures Contains(SplicePathId(ReplaceFirst(s, tag, g), g, attr), w)
  {
    ReplaceFirstKeepsSturdy(s, tag, g, w);
    SpliceKeepsSturdy(ReplaceFirst(s, tag, g), g, attr, w);
  }

  lemma ReplaceFirstKeepsSturdy(s: string, tag: string, g: string, w: string)
    requires Contains(s, tag) && Contains(s, w) && TagShape(tag) && Sturdy(w)
    ensures Contains(ReplaceFirst(s, tag, g), w)
  {
    var i := Find(s, tag, 0);
    var p := Find(s, w, 0);
    TagMissesSturdy(s, tag, i, w, p);
    ReplaceKeeps(s, i, |tag|, g, ReplaceFirst(s, tag, g), w, p);
  }

  /** An iteration whose tag is found leaves its district's attribute in
      the text. */
  lemma StepAddsAttr(s: string, patch: string, district: string)
    requires Contains(s, GroupTag(patch)) && '<' !in district && '=' !in district
    ensures Contains(AnnotateStep(s, patch, district), DistrictAttr(district))
  {
    NewGroupHoldsAttr(district);
    DistrictAttrSturdy(district);
    RewriteAddsSturdy(s, GroupTag(patch), NewGroup(district), PathAttr(district), DistrictAttr(district));
  }

  /** Any iteration keeps an attribute already in the text. */
  lemma StepKeepsAttr(s: string, k: nat, other: string, district: string)
    requires Contains(s, DistrictAttr(district)) && '<' !in district && '=' !in district
    ensures Contains(AnnotateStep(s, PatchLabel(k), other), DistrictAttr(district))
  {
    if Contains(s, GroupTag(PatchLabel(k))) {
      DistrictAttrSturdy(district);
      GroupTagShape(k);
      RewriteKeepsSturdy(s, GroupTag(PatchLabel(k)), NewGroup(other), PathAttr(other), DistrictAttr(district));
    }
  }

  /** Iteration `i` names the group it finds. */
  lemma IterationAddsAttr(svg: string, districts: seq<string>, i: nat)
    requires i < |districts| && '<' !in districts[i] && '=' !in districts[i]
    requires Contains(Annotated(svg, districts, i), GroupTag(PatchLabel(i + 3)))
    ensures Contains(Annotated(svg, districts, i + 1), DistrictAttr(districts[i]))
  {
    StepAddsAttr(Annotated(svg, districts, i), PatchLabel(i + 3), districts[i]);
  }

  /** Iteration `n - 1` keeps every attribute already in the text. */
  lemma IterationKeepsAttr(svg: string, districts: seq<string>, n: nat, district: string)
    requires 0 < n <= |districts| && '<' !in district && '=' !in district
    requires Contains(Annotated(svg, districts, n - 1), DistrictAttr(district))
    ensures Contains(Annotated(svg, districts, n), DistrictAttr(district))
  {
    StepKeepsAttr(Annotated(svg, districts, n - 1), n + 2, districts[n - 1], district);
  }

  /** Every group the loop finds ends up named: when the tag of
      `patch_{i+3}` is in the text the loop reaches at entry `i`, the text
      after `n > i` iterations holds `data-district="{districts[i]}"`,
      whatever the later iterations rewrite or splice. */
  lemma {:induction false} FoundGroupNamed(svg: string, districts: seq<string>, i: nat, n: nat)
    requires i < n <= |districts|
    requires '<' !in districts[i] && '=' !in districts[i]
    requires Contains(Annotated(svg, districts, i), GroupTag(PatchLabel(i + 3)))
    ensures Contains(Annotated(svg, districts, n), DistrictAttr(districts[i]))
    decreases n
  {
    if n == i + 1 {
      IterationAddsAttr(svg, districts, i);
    } else {
      FoundGroupNamed(svg, districts, i, n - 1);
      IterationKeepsAttr(svg, districts, n, districts[i]);
    }
  }

  // ---------------------------------------------------------------------------
  // A group the loop never finds
  // ---------------------------------------------------------------------------

  /** A pattern holding a character the text lacks does not occur in it. */
  lemma MissingCharNoMatch(s: string, pat: string, c: char)
    requires c in pat && c !in s
    ensures !Contains(s, pat)
  {
    var j :| 0 <= j < |pat| && pat[j] == c;
    forall k: nat | k + |pat| <= |s| ensures !IsAt(s, pat, k) {
      assert s[k..k + |pat|][j] == s[k + j];
    }
  }

  lemma SampleLabels()
    ensures PatchLabel(3) == "patch_3" && PatchLabel(4) == "patch_4"
  {
    assert NatToString(3) == "3" && NatToString(4) == "4";
  }

  lemma SampleGroupA()
    ensures NewGroup("a") == "<g id=\"a\" data-district=\"a\">"
    ensures PathAttr("a") == "id=\"patha\" "
  {
    NormalizedIdOfId("a");
    assert RemoveChar("a", ' ') == "a" by { assert "a"[1..] == []; }
  }

  // The sample: a `patch_3` group whose `<path/>` has no `d="`, followed by a
  // `patch_4` group, annotated with the districts "a" and "b".
  const SampleSvg := "<g id=\"patch_3\">" + "<path/>" + "<g id=\"patch_4\">"
  const SampleGroup := "<g id=\"a\" data-district=\"a\">"
  const SampleRenamed := SampleGroup + "<path/>" + "<g id=\"patch_4\">"
  const SampleSpliced := SampleGroup + "<path/><g i" + "id=\"patha\" " + "d=\"patch_" + "4\">"

  lemma SampleRenamedFound()
    ensures Find(SampleRenamed, SampleGroup, 0) == 0
    ensures Find(SampleRenamed, "<path", 0) == 28
  {
    var u := SampleRenamed;
    assert u[0..28] == SampleGroup;
    FindFromZero(u, SampleGroup, 0);
    SampleGroupA();
    NewGroupOneAngle("a");
    PathAfterTag(u, 0, SampleGroup);
    assert u[28..33] == "<path";
    FindFromZero(u, "<path", 28);
  }

  lemma SampleRenamedEnd()
    ensures Find(SampleRenamed, "d=\"", 28) == 39
  {
    var u := SampleRenamed;
    var mid := "<path/><g i";
    assert u[28..39] == mid;
    assert u[39..42] == "d=\"";
    forall k: nat | 28 <= k < 39 ensures !IsAt(u, "d=\"", k) {
      assert u[k] == mid[k - 28] != 'd';
      assert u[k..k + 3][0] == u[k];
    }
    FindIs(u, "d=\"", 28, 39);
  }

  /** The splice lands in the `id="` of the `patch_4` tag. */
  lemma SampleSplice()
    ensures SplicePathId(SampleRenamed, NewGroup("a"), PathAttr("a")) == SampleSpliced
  {
    SampleGroupA();
    SampleRenamedFound();
    SampleRenamedEnd();
    var u := SampleRenamed;
    assert Locate(u, SampleGroup) == Positions(0, 28, 39);
    assert u[..39] == SampleGroup + "<path/><g i";
    assert u[39..] == "d=\"patch_" + "4\">";
  }

  lemma SampleRenaming()
    ensures Find(SampleSvg, GroupTag("patch_3"), 0) == 0
    ensures SampleRenamed == SampleSvg[..0] + NewGroup("a") + SampleSvg[0 + |GroupTag("patch_3")|..]
  {
    var tag := GroupTag("patch_3");
    SampleGroupA();
    assert SampleSvg[0..16] == tag;
    FindIs(SampleSvg, tag, 0, 0);
    assert SampleSvg[16..] == "<path/>" + "<g id=\"patch_4\">";
  }

  lemma SampleNoGroup()
    ensures !Contains(SampleSvg, NewGroup("a"))
  {
    SampleGroupA();
    assert '-' !in "<g id=\"patch_3\">" && '-' !in "<path/>" && '-' !in "<g id=\"patch_4\">";
    MissingCharNoMatch(SampleSvg, NewGroup("a"), '-');
  }

  /** The first iteration renames the `patch_3` group, then splices. */
  lemma SampleFirstStep()
    ensures AnnotateStep(SampleSvg, "patch_3", "a") == SampleSpliced
  {
    SampleRenaming();
    SampleNoGroup();
    SampleSplice();
    FirstStepOf(SampleSvg, "patch_3", "a", SampleRenamed, SampleSpliced);
  }

  lemma FirstStepOf(svg: string, patch: string, district: string, u: string, r: string)
    requires Find(svg, GroupTag(patch), 0) == 0
    requires !Contains(svg, NewGroup(district)) && '<' !in district
    requires u == svg[..0] + NewGroup(district) + svg[0 + |GroupTag(patch)|..]
    requires SplicePathId(u, NewGroup(district), PathAttr(district)) == r
    ensures AnnotateStep(svg, patch, district) == r
  {
    AnnotateStepFound(svg, patch, district, 0, u);
  }

  /** After that splice the `patch_4` tag is gone. */
  lemma SampleTagGone()
    ensures !Contains(SampleSpliced, GroupTag(PatchLabel(4)))
  {
    var r := SampleSpliced;
    var tag := GroupTag(PatchLabel(4));
    SampleLabels();
    assert tag == "<g id=\"patch_4\">";
    var head := SampleGroup + "<path/><g i" + "id=\"patha\" " + "d=\"patch_";
    assert r == head + "4\">";
    assert '4' !in SampleGroup && '4' !in "<path/><g i" && '4' !in "id=\"patha\" " && '4' !in "d=\"patch_";
    forall k: nat | k + 16 <= |r| ensures !IsAt(r, tag, k) {
      if k < 46 {
        assert r[k + 13] == head[k + 13] != '4';
        assert r[k..k + 16][13] == r[k + 13];
      } else {
        assert r[49] == ' ';
        assert r[k..k + 16][3] == r[49];
      }
    }
  }

  lemma SampleInput()
    ensures GroupTag(PatchLabel(3)) + "<path/>" + GroupTag(PatchLabel(4)) == SampleSvg
    ensures Contains(SampleSvg, GroupTag(PatchLabel(4)))
  {
    SampleLabels();
    assert SampleSvg[23..39] == GroupTag("patch_4");
    FindFromZero(SampleSvg, GroupTag("patch_4"), 23);
  }

  lemma SampleNeverNamedB()
    ensures !Contains(SampleSpliced, DistrictAttr("b"))
  {
    assert 'b' !in SampleGroup && 'b' !in "<path/><g i" && 'b' !in "id=\"patha\" " && 'b' !in "d=\"patch_" + "4\">";
    MissingCharNoMatch(SampleSpliced, DistrictAttr("b"), 'b');
  }

  lemma TwoIterations(svg: string, districts: seq<string>, r: string)
    requires |districts| == 2
    requires AnnotateStep(svg, PatchLabel(3), districts[0]) == r
    requires !Contains(r, GroupTag(PatchLabel(4)))
    ensures Annotated(svg, districts, 1) == r && Annotated(svg, districts, 2) == r
  {
    AbsentTagUnchanged(r, PatchLabel(4), districts[1]);
  }

  lemma SampleRun(svg: string)
    requires svg == SampleSvg
    ensures Annotated(svg, ["a", "b"], 1) == SampleSpliced
    ensures Annotated(svg, ["a", "b"], 2) == SampleSpliced
  {
    SampleLabels();
    SampleFirstStep();
    SampleTagGone();
    TwoIterations(svg, ["a", "b"], SampleSpliced);
  }

  /** A tag in the input is not always found: a group without its own `d="`
      hands the splice to the next tag, which then no longer matches, and
      its district is never written. */
  lemma SpliceCanHideLaterTag(svg: string)
    requires svg == GroupTag(PatchLabel(3)) + "<path/>" + GroupTag(PatchLabel(4))
    ensures Contains(svg, GroupTag(PatchLabel(4)))
    ensures !Contains(Annotated(svg, ["a", "b"], 1), GroupTag(PatchLabel(4)))
    ensures !Contains(Annotated(svg, ["a", "b"], 2), DistrictAttr("b"))
  {
    SampleInput();
    SampleRun(svg);
    SampleLabels();
    SampleTagGone();
    SampleNeverNamedB();
  }
}
