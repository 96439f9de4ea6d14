# saha-frontend core, modelled in Dafny

This project models the parts of the saha-frontend repository that compute
something, and proves properties of them. The repository is the React front
end of an Istanbul district site, plus four Python scripts that prepare its
SVG map.

- **The map scripts.**
  - `add_district_names_to_svg.py` renames the `<g id="patch_k">` groups after the districts. It also gives each group's first path an id.
  - `remove_svg_background.py` deletes the background groups and the dark paths.
  - `fix_svg_namespaces.py` strips XML namespaces for React.
  - `fix_white_fill.py` recolours white fills to light gray.
  - Each `re.sub` is a hand-written matcher for its pattern. The matchers feed one scanner, `SvgScan.Sub`, which does the leftmost, non-overlapping substitution that `re.sub` performs.
- **The profile pages.** `ProfilePage` and the older `EditProfilePage` have:
  - the field validators, built up one field at a time as the code does;
  - the input handlers, which spread the record;
  - the cascading city / ilçe / mahalle cache;
  - the submit handlers.
- **The CSRF helpers.**
  - The axios client reads the `csrftoken` cookie. Its request interceptor sets `X-CSRFToken` on state-changing requests.
  - `src/utils/csrf.js` reads the token from the page or from the cookie.
- **The two feed pages.**
  - The members' news feed has posting, deleting, relative dates and the delete permission.
  - The articles page has the administrator role, posting, deleting, the one-article-at-a-time expansion and the "read more" threshold.

Page state is a class whose fields the handlers replace, as React's setters do.
Server calls, the confirmation dialog, the DOM and `decodeURIComponent` are not
executed. Their results are parameters of the handlers.

Two details of the annotation script are modelled as the code has them:

- The path id removes only U+0020 spaces from the district name, not all whitespace (`add_district_names_to_svg.py:68`).
- The `d="` search after a renamed group is not bounded by that group (`add_district_names_to_svg.py:82`).

## Model

| member | source | states |
|---|---|---|
| SvgScan.FirstMatchFrom | remove_svg_background.py:18-49 | the result is the leftmost position at or after `from` where the pattern matches, or -1 when it matches nowhere there |
| SvgScan.NoMatchIffNoFirst | fix_svg_namespaces.py:18-33 | the pattern matches nowhere exactly when the leftmost-match search reports none |
| SvgScan.SubAtFirstMatch | fix_svg_namespaces.py:18-33 | `re.sub` keeps the text before the leftmost match, puts the replacement in its place and continues after the match |
| SvgScan.SubNoMatch | fix_svg_namespaces.py:18-33 | text in which the pattern matches nowhere is returned unchanged |
| SvgScan.SubNotLonger | remove_svg_background.py:18-49 | a replacement no longer than every match never lengthens the text |
| SvgScan.PatternSubNotLonger | fix_svg_namespaces.py:18-33 | every deletion pattern of the scripts, replaced by a text no longer than its shortest match, never lengthens the text |
| SvgScan.NoMatchRemains | fix_white_fill.py:23-34 | when matching is local, no match starts inside the replacement and overlaps stop at its first character, no match is left after the substitution |
| SvgScan.SubWithoutKey | fix_svg_namespaces.py:18-33 | text that lacks the literal start of a pattern is left unchanged |
| SvgScan.BlockMatch | remove_svg_background.py:18-23 | `open.*?close\s*` with DOTALL ends at the first `close` after `open` and takes the whitespace after it |
| SvgScan.FilledPathMatch | remove_svg_background.py:38-42 | a self-closing `<path …/>` whose attributes hold `fill:\s*color` and no `>` is matched up to its `/>` |
| DistrictAnnotator.TranslitIsFold | add_district_names_to_svg.py:16-26 | applying the twelve replacements in the table's order maps each character by the Turkish-to-ASCII fold (ı→i, İ→I, ş→s, …) |
| DistrictAnnotator.ReplaceChar | add_district_names_to_svg.py:26 | every occurrence of the one character is replaced and the length is kept |
| DistrictAnnotator.KeepAlnum | add_district_names_to_svg.py:28 | the result holds only ASCII letters and digits and is no longer than the input |
| DistrictAnnotator.KeepAlnumAppend | add_district_names_to_svg.py:28 | the filter works character by character: it distributes over concatenation |
| DistrictAnnotator.Normalize | add_district_names_to_svg.py:14-29 | the replacement loop followed by the filter and lower-casing computes the district id |
| DistrictAnnotator.NormalizedIdChars | add_district_names_to_svg.py:28 | an id holds only lower-case ASCII letters and digits |
| DistrictAnnotator.NormalizedIdAppend | add_district_names_to_svg.py:14-29 | normalising distributes over concatenation |
| DistrictAnnotator.DroppedChar | add_district_names_to_svg.py:28 | a character outside the table and outside `[a-zA-Z0-9]`, such as a space, contributes nothing to the id |
| DistrictAnnotator.NormalizedIdOfId | add_district_names_to_svg.py:28 | text made of lower-case letters and digits is its own id |
| DistrictAnnotator.NormalizeIdempotent | add_district_names_to_svg.py:14-29 | normalising an id again changes nothing |
| DistrictAnnotator.NormalizedIdByChars | add_district_names_to_svg.py:14-29 | `normalize` equals an independent character-by-character definition |
| DistrictAnnotator.SampleBesiktas | add_district_names_to_svg.py:16-28 | "Beşiktaş" normalises to "besiktas" |
| DistrictAnnotator.SampleSisli | add_district_names_to_svg.py:16-28 | "Şişli" normalises to "sisli" |
| DistrictAnnotator.SampleDottedCapitalI | add_district_names_to_svg.py:16-28 | "İ" normalises to "i" |
| DistrictAnnotator.PatchLabelInjective | add_district_names_to_svg.py:56-57 | distinct patch numbers give distinct `patch_k` labels |
| DistrictAnnotator.BuildMapping | add_district_names_to_svg.py:54-57 | district i, in list order, is mapped to `patch_{i+3}` |
| DistrictAnnotator.MappingLabels | add_district_names_to_svg.py:52-57 | the mapping's labels are pairwise distinct, so no dict entry overwrites another, and none is `patch_1` or `patch_2` |
| DistrictAnnotator.PathId | add_district_names_to_svg.py:68 | the path id is `path` followed by text without U+0020 that holds every other character of the name, Turkish letters included, as often as the name does; the three lemmas below fix their order |
| DistrictAnnotator.PathIdOfSpaceFree | add_district_names_to_svg.py:68 | a name without spaces is kept whole after `path` |
| DistrictAnnotator.PathIdAppend | add_district_names_to_svg.py:68 | the id is built piece by piece, so the kept characters keep the order they have in the name |
| DistrictAnnotator.PathIdJoin | add_district_names_to_svg.py:68 | a space between two space-free words is dropped and both words follow `path` in order |
| Text.RemoveCharAppend | add_district_names_to_svg.py:68 | removing one character distributes over concatenation |
| Text.RemoveCharKeepsClean | add_district_names_to_svg.py:68 | text without the character is returned unchanged |
| Text.RemoveCharBetween | add_district_names_to_svg.py:68 | one occurrence between two pieces without it is dropped and the pieces are joined as they are |
| DistrictAnnotator.AnnotateOne | add_district_names_to_svg.py:70-88 | one loop iteration equals the rewrite-then-splice step function |
| DistrictAnnotator.AnnotateSvg | add_district_names_to_svg.py:64-88 | the loop over the mapping equals the step function applied in mapping order |
| DistrictAnnotator.AbsentTagUnchanged | add_district_names_to_svg.py:74-88 | a patch whose tag is missing leaves the text unchanged |
| DistrictAnnotator.NoTagsUnchanged | add_district_names_to_svg.py:64-88 | when none of the mapped tags occurs, the whole loop leaves the SVG unchanged |
| DistrictAnnotator.TagsUnambiguous | add_district_names_to_svg.py:71-75 | tags of different patch numbers never match at the same position, so `patch_3` never rewrites `patch_30` |
| DistrictAnnotator.NewGroupOneAngle | add_district_names_to_svg.py:72 | a new group tag built from a name without `<` holds `<` only at its start |
| DistrictAnnotator.FreshTagFirstAt | add_district_names_to_svg.py:75-80 | when the new tag did not occur before, searching for it from the start finds the place it was just written |
| DistrictAnnotator.PathAfterTag | add_district_names_to_svg.py:81 | the `<path` search from the new tag finds a position after the tag's text |
| DistrictAnnotator.SpliceAfterTag | add_district_names_to_svg.py:80-86 | the id attribute is inserted at the located `d="`, after the new tag |
| DistrictAnnotator.SplicePrefixKept | add_district_names_to_svg.py:80-86 | the splice leaves the text up to the end of the new tag unchanged |
| DistrictAnnotator.AnnotateStepFound | add_district_names_to_svg.py:74-82 | with the tag present and the new tag fresh, the step is the splice applied to the rewritten text, located at the rewritten tag |
| DistrictAnnotator.AnnotateStepKeepsPrefix | add_district_names_to_svg.py:75-86 | the step's output begins with the text before the tag followed by the new tag |
| DistrictAnnotator.GuardMeansFound | add_district_names_to_svg.py:84 | `path_start > 0 and path_end > 0` holds exactly when both searches found something |
| DistrictAnnotator.GroupTagShape | add_district_names_to_svg.py:71 | a `<g id="patch_k">` tag holds its only `d` at offset 4, right before `=` |
| DistrictAnnotator.DistrictAttrSturdy | add_district_names_to_svg.py:72 | for a name without `<` or `=`, the `data-district` attribute holds no `<` and no `d=`, starts with `da` and does not end in `d` |
| DistrictAnnotator.NewGroupHoldsAttr | add_district_names_to_svg.py:72 | the new group tag carries `data-district="name"` |
| DistrictAnnotator.TagMissesSturdy | add_district_names_to_svg.py:74-75 | an occurrence of a patch tag and one of such an attribute never overlap |
| DistrictAnnotator.SpliceMissesSturdy | add_district_names_to_svg.py:82-86 | a `d="` never starts strictly inside such an attribute, so the splice cannot cut it |
| DistrictAnnotator.StepAddsAttr | add_district_names_to_svg.py:74-86 | an iteration that finds its tag leaves `data-district="name"` in the text |
| DistrictAnnotator.StepKeepsAttr | add_district_names_to_svg.py:74-86 | any later iteration keeps an existing `data-district="name"`: neither the tag replacement nor the splice destroys it |
| DistrictAnnotator.FoundGroupNamed | add_district_names_to_svg.py:66-86 | every group the loop finds, for a name without `<` or `=`, carries `data-district="name"` in the final SVG |
| DistrictAnnotator.SampleFirstStep | add_district_names_to_svg.py:74-86 | on a `patch_3` group whose `<path/>` has no `d="`, the splice lands in the `id="` of the following `patch_4` tag |
| DistrictAnnotator.SampleTagGone | add_district_names_to_svg.py:71-74 | after that splice the `patch_4` tag no longer occurs |
| DistrictAnnotator.SpliceCanHideLaterTag | add_district_names_to_svg.py:66-88 | a `patch_4` tag present in the input is not found by its iteration, and its district is never written |
| BackgroundFilter.RemoveBackgroundNotLonger | remove_svg_background.py:18-49 | none of the four deletions, and so not the whole transform, lengthens the text |
| BackgroundFilter.UntouchedWithoutTargets | remove_svg_background.py:18-49 | text without either background group tag and without `<path` is unchanged |
| BackgroundFilter.OtherGroupsNotMatched | remove_svg_background.py:19-29 | the tag of any other patch number starts no background match |
| BackgroundFilter.GroupCut | remove_svg_background.py:18-23 | a `patch_1` group is cut up to the first `</g>` after it, together with the whitespace that follows |
| BackgroundFilter.NestedGroupCut | remove_svg_background.py:18-23 | the cut is non-greedy and crosses lines: with a nested group, the outer `</g>` stays |
| BackgroundFilter.PathDeleted | remove_svg_background.py:38-49 | a self-closing path whose attributes carry the fill is deleted whole |
| BackgroundFilter.DarkPathDeleted | remove_svg_background.py:38-42 | `<path style="fill:#212830"/>` is deleted |
| BackgroundFilter.EmptyGroupDeleted | remove_svg_background.py:18-23 | a lone empty `patch_1` group is deleted |
| BackgroundFilter.EmptyGroupCutBetween | remove_svg_background.py:18-23 | an empty group behind a short prefix is cut, and the text around it is joined |
| BackgroundFilter.RemovalCanExposeAGroup | remove_svg_background.py:18-23 | one pass can leave a `patch_1` group behind: deleting an inner group can join the text around it into a new one |
| WhiteFillFilter.StyleGrayHasNoWhite | fix_white_fill.py:23-27 | no white style match starts inside the gray replacement |
| WhiteFillFilter.StyleWhiteOverlap | fix_white_fill.py:23-27 | a white style match that reaches into a following gray replacement stops at its first character |
| WhiteFillFilter.StylePassLeavesNoWhite | fix_white_fill.py:23-27 | after the first pass no `fill:\s*#ffffff` is left |
| WhiteFillFilter.AttrWhiteNoOverlap | fix_white_fill.py:30-34 | no `fill="#ffffff"` can reach into a following `fill="#d3d3d3"` |
| WhiteFillFilter.AttrPassLeavesNoWhite | fix_white_fill.py:23-34 | after both passes no `fill="#ffffff"` is left |
| WhiteFillFilter.WhiteMatchContainsWhite | fix_white_fill.py:24-31 | every match of either white pattern contains `#ffffff` |
| WhiteFillFilter.UnchangedWithoutWhite | fix_white_fill.py:23-34 | text without `#ffffff` (upper-case `#FFFFFF` included) is unchanged |
| WhiteFillFilter.StylePassCanLengthen | fix_white_fill.py:23-27 | the style pass can lengthen the text: `fill:#ffffff` becomes the longer `fill: #d3d3d3` |
| NamespaceFilter.FixSvgNotLonger | fix_svg_namespaces.py:18-33 | none of the eight passes, and so not the whole transform, lengthens the text |
| NamespaceFilter.UntouchedWithoutKeys | fix_svg_namespaces.py:18-33 | text holding none of the passes' keys is unchanged |
| NamespaceFilter.QuotedCut | fix_svg_namespaces.py:18-21 | a double-quoted namespace declaration is deleted up to its closing quote |
| NamespaceFilter.XlinkNsCut | fix_svg_namespaces.py:18 | `xmlns:xlink="…"` is deleted by the first pass |
| NamespaceFilter.PlainXmlnsKept | fix_svg_namespaces.py:17-33 | the plain `xmlns="…"` declaration starts no match of any pass, so it is kept |
| NamespaceFilter.MetadataCut | fix_svg_namespaces.py:24 | a metadata block is deleted up to the first `</metadata>` after it |
| NamespaceFilter.XmlAttrCut | fix_svg_namespaces.py:27 | an attribute such as `xml:space="preserve"` is deleted whole |
| NamespaceFilter.HrefRewritten | fix_svg_namespaces.py:30 | each `xlink:href=` the scan meets becomes `href=` |
| NamespaceFilter.HrefCanRemain | fix_svg_namespaces.py:30 | one pass can form a new `xlink:href=`: `xlink:xlink:href=` becomes `xlink:href=` |
| NamespaceFilter.SpaceRunMatches | fix_svg_namespaces.py:33 | `  +` matches exactly where two spaces begin |
| NamespaceFilter.CollapseLeavesNoDouble | fix_svg_namespaces.py:33 | after the collapse no two spaces stand side by side |
| NamespaceFilter.CollapseIdempotent | fix_svg_namespaces.py:33 | collapsing twice is collapsing once |
| NamespaceFilter.CollapseKeepsNonSpaces | fix_svg_namespaces.py:33 | the collapse touches only spaces: with the spaces removed, input and output are equal |
| NamespaceFilter.FixSvgLeavesNoDouble | fix_svg_namespaces.py:18-33 | the whole transform ends with no double space |
| Text.BlankIffTrimEmpty | src/pages/UyelerdenHaberlerPage.js:54 | `!s.trim()` holds exactly when every character of `s` is whitespace |
| FormRules.Spread | src/pages/ProfilePage.js:232-237 | the edited key takes the new value and every other key keeps its presence and value |
| FormRules.ClearError | src/pages/ProfilePage.js:239-245 | the edited field's error becomes falsy and the other errors are kept |
| FormRules.NameCheckMeaning | src/pages/ProfilePage.js:251-263 | a name passes exactly when it has a non-space character and at least 2 characters; a blank name gets "required", otherwise the failure is "too short" |
| FormRules.NameLengthIsRaw | src/pages/ProfilePage.js:254 | the length rule counts the untrimmed text: " a" passes although it trims to one letter |
| FormRules.StripPhoneFacts | src/pages/ProfilePage.js:275 | the stripped number holds no whitespace or dash and keeps every other character |
| FormRules.PhoneIgnoresFiller | src/pages/ProfilePage.js:275 | a whitespace or dash anywhere in the number does not change the check |
| FormRules.PhoneMatchesIff | src/pages/ProfilePage.js:274 | the matcher accepts exactly `+90` or `0` or nothing, then `5`, then nine digits |
| FormRules.PhoneCheckMeaning | src/pages/ProfilePage.js:270-279 | a phone passes exactly when, stripped, it has that shape; blank is "required", otherwise the failure is the page's "invalid" text |
| FormRules.EmailMatchesIff | src/pages/ProfilePage.js:281 | the matcher accepts exactly the texts of `^[^\s@]+@[^\s@]+\.[^\s@]+$` |
| FormRules.EmailCheckMeaning | src/pages/ProfilePage.js:280-286 | an address passes exactly when it has that shape; blank is "required", otherwise "invalid" |
| FormRules.NameStep | src/pages/ProfilePage.js:251-256 | the name branch adds exactly the name rule's error |
| FormRules.SelectedStep | src/pages/ProfilePage.js:265-268 | a select left empty adds its "please choose" error, and nothing is added otherwise |
| FormRules.PhoneStep | src/pages/ProfilePage.js:270-279 | the phone branch adds exactly the phone rule's error |
| FormRules.EmailStep | src/pages/ProfilePage.js:280-286 | the e-mail branch adds exactly the e-mail rule's error |
| FormRules.CommonCheckNone | src/pages/ProfilePage.js:248-286 | all five shared rules pass exactly when the shared fields are acceptable |
| FormRules.ValidatePasswordForm | src/pages/ProfilePage.js:301-329 | the errors are the per-field rule results, only on the three password fields, and there are none exactly when the form is acceptable |
| FormRules.PasswordErrorsEmpty | src/pages/ProfilePage.js:301-329 | the password form reports nothing exactly when it is acceptable: current given, new at least 8 long and different from current, confirmation equal |
| FormRules.MustDifferOverridesLength | src/pages/ProfilePage.js:310-327 | a new password equal to the current one is reported as "must differ", even when it is also too short |
| FormRules.FailureErrors | src/pages/ProfilePage.js:358-369 | server errors are shown as given; without them `general` is the server's message or the fallback; a thrown call gives the "unexpected" text |
| ProfilePage.ProfileErrorsKeys | src/pages/ProfilePage.js:248-299 | only the seven form fields can carry an error |
| ProfilePage.ProfileErrorsEmpty | src/pages/ProfilePage.js:248-299 | the form reports no error exactly when every field is acceptable, ilçe and mahalle included |
| ProfilePage.ValidateProfileForm | src/pages/ProfilePage.js:248-299 | the field-by-field fill gives the error map, on form keys only, empty exactly when acceptable |
| ProfilePage.ProfileOf | src/pages/ProfilePage.js:153-165 | the form holds exactly the seven fields, each the user's value or '' |
| ProfilePage.ProfileChange | src/pages/ProfilePage.js:182-222 | the edited field takes the value; a new city blanks ilçe and mahalle; a new ilçe blanks mahalle; nothing else changes |
| ProfilePage.CacheAfter | src/pages/ProfilePage.js:84-130 | after a request settles, the name has an entry, so no refetch; a failure leaves an empty list; other entries are kept |
| ProfilePage.FailedCityNotRefetched | src/pages/ProfilePage.js:84-105 | a city never fetched is fetched, but one whose fetch failed keeps its empty list and is never fetched again |
| ProfilePage.Page.constructor | src/pages/ProfilePage.js:23-50 | the page starts with an empty form and password form, no errors, no message, not loading, empty caches |
| ProfilePage.Page.UserLoaded | src/pages/ProfilePage.js:153-180 | a loaded user fills the form; the districts of their city and the neighbourhoods of their ilçe are requested only when not cached |
| ProfilePage.Page.HandleProfileInputChange | src/pages/ProfilePage.js:182-230 | the form changes by the cascading spread; the field's error is cleared; districts or neighbourhoods are requested only for a new, uncached choice |
| ProfilePage.Page.DistrictsArrived | src/pages/ProfilePage.js:84-105 | the district cache is updated by the settled request and never asks for that city again |
| ProfilePage.Page.NeighborhoodsArrived | src/pages/ProfilePage.js:107-130 | the neighbourhood cache is updated by the settled request and never asks for that ilçe again |
| ProfilePage.Page.HandlePasswordInputChange | src/pages/ProfilePage.js:232-246 | the password form changes by the spread and the field's error is cleared |
| ProfilePage.Page.Settle | src/pages/ProfilePage.js:344-371 | a success shows its message with no errors, a failure shows the failure's errors, and loading ends either way |
| ProfilePage.Page.HandleProfileSubmit | src/pages/ProfilePage.js:332-372 | the update is sent exactly when the form is acceptable; otherwise the validation errors are shown; success and failure as in Settle |
| ProfilePage.Page.HandlePasswordSubmit | src/pages/ProfilePage.js:374-427 | the change is sent exactly when the password form is acceptable; a success also clears the three fields |
| EditProfilePage.EditErrorsKeys | src/pages/EditProfilePage.js:95-136 | only the five shared fields can carry an error |
| EditProfilePage.EditErrorsEmpty | src/pages/EditProfilePage.js:95-136 | the form reports no error exactly when the shared fields are acceptable |
| EditProfilePage.SameRulesAsProfilePage | src/pages/EditProfilePage.js:95-136 | a profile the newer page accepts passes here too, and both pages flag the same shared fields |
| EditProfilePage.ValidateProfileForm | src/pages/EditProfilePage.js:95-136 | the field-by-field fill gives the error map, on the shared keys only, empty exactly when acceptable |
| EditProfilePage.EditFormOf | src/pages/EditProfilePage.js:51-62 | the form holds exactly the five shared fields, each the user's value or '' |
| EditProfilePage.EditPage.constructor | src/pages/EditProfilePage.js:9-26 | the page starts with an empty form, no errors, no message, not loading |
| EditProfilePage.EditPage.UserLoaded | src/pages/EditProfilePage.js:51-62 | a loaded user fills the form and nothing else changes |
| EditProfilePage.EditPage.HandleProfileInputChange | src/pages/EditProfilePage.js:63-77 | the form changes by a plain spread and the field's error is cleared |
| EditProfilePage.EditPage.HandlePasswordInputChange | src/pages/EditProfilePage.js:79-93 | the password form changes by the spread and the field's error is cleared |
| EditProfilePage.EditPage.Settle | src/pages/EditProfilePage.js:181-208 | a success shows its message with no errors, a failure shows the failure's errors, and loading ends either way |
| EditProfilePage.EditPage.HandleProfileSubmit | src/pages/EditProfilePage.js:169-209 | the update is sent exactly when the shared fields are acceptable; otherwise the validation errors are shown |
| EditProfilePage.EditPage.HandlePasswordSubmit | src/pages/EditProfilePage.js:211-259 | the change is sent exactly when the password form is acceptable; a success clears the three fields |
| AxiosClient.TokenIn | src/api/axios.js:8-15 | none is found exactly when no entry, trimmed, starts with `csrftoken=`; otherwise the result is the decoded value of the first such entry |
| AxiosClient.GetCsrfToken | src/api/axios.js:4-18 | the loop with its early `break` returns the first token cookie's decoded value, or null |
| AxiosClient.EmptyGuardRedundant | src/api/axios.js:7 | the guard on the empty cookie string changes nothing |
| AxiosClient.FirstTokenWins | src/api/axios.js:9-14 | a first entry that is a token cookie decides the result; one that is not is skipped |
| AxiosClient.CleanTokenEntry | src/api/axios.js:10-11 | `csrftoken=v`, with `v` free of `;` and not ending in whitespace, is one entry that trims to itself and is a token cookie |
| AxiosClient.ValueKeepsEquals | src/api/axios.js:11-12 | the value is everything after the first `=`, further `=` included, passed through decoding |
| AxiosClient.SpaceBeforeEntry | src/api/axios.js:10 | whitespace before an entry, as browsers write after `;`, is ignored |
| AxiosClient.PrefixedTokenCookie | src/api/axios.js:10 | `csrftoken=` followed by any text, empty or ending in whitespace included, is a token cookie |
| AxiosClient.OtherNamesIgnored | src/api/axios.js:11 | cookies named `csrftoken2` or `xcsrftoken` are not taken |
| AxiosClient.Intercept | src/api/axios.js:29-46 | a refresh is asked for exactly on a state-changing method without a usable cookie token; the header is set exactly when a usable token is found, to that token; the method is kept |
| AxiosClient.SentTokenIsUsable | src/api/axios.js:33-44 | a usable cookie token is sent without a refresh; when the refresh fails with no token, nothing is sent |
| AxiosClient.MethodCase | src/api/axios.js:29 | methods match regardless of case (POST, Delete); GET and a missing method take no token |
| CsrfUtils.FindTokenCookie | src/utils/csrf.js:7 | the result is the first entry whose trimmed text starts with `csrftoken=`, or none when no entry does |
| CsrfUtils.TokenCookieHasEquals | src/utils/csrf.js:7-8 | a token cookie always holds an `=`, so `split('=')[1]` exists |
| CsrfUtils.GetCsrfToken | src/utils/csrf.js:2-11 | a non-empty page token is returned as is; otherwise the result is null exactly when no token cookie exists |
| CsrfUtils.SecondFieldOf | src/utils/csrf.js:8 | the value read from `csrftoken=a=b` is `a` |
| CsrfUtils.SoleTokenCookie | src/utils/csrf.js:6-7 | a jar holding only `csrftoken=v` yields that entry |
| CsrfUtils.StopsAtSecondEquals | src/utils/csrf.js:8 | for `csrftoken=a=b` this reader gives `a`, while the axios client gives the decoded `a=b` |
| CsrfUtils.PlainTokenCookie | src/utils/csrf.js:6-8 | without a second `=`, the token is the rest of the entry: `csrftoken=abc` gives `abc` and `csrftoken=` gives the empty token |
| CsrfUtils.PageTokenFirst | src/utils/csrf.js:3-10 | a non-empty page token wins over any cookie |
| CsrfUtils.EmptyPageTokenIgnored | src/utils/csrf.js:4 | an empty page token falls back to the cookie, as a missing one does |
| Feeds.ErrorMessage | src/pages/UyelerdenHaberlerPage.js:76 | the message shown is never empty: it is the first non-empty of detail, error and message, else "Bilinmeyen hata" |
| Feeds.RemoveById | src/pages/UyelerdenHaberlerPage.js:91 | no item with the id is left and the list does not grow |
| Feeds.RemoveKeepsOthers | src/pages/UyelerdenHaberlerPage.js:91 | every item with another id is kept as often as it occurred, so an item is left exactly when it was there and has another id |
| Feeds.RemoveAppend | src/pages/UyelerdenHaberlerPage.js:91 | the filter distributes over concatenation, so the kept items stay in their order |
| Feeds.RemoveAbsent | src/pages/UyelerdenHaberlerPage.js:91 | deleting an id no item has leaves the list unchanged |
| Feeds.RemoveIdempotent | src/pages/UyelerdenHaberlerPage.js:91 | deleting twice is deleting once |
| Feeds.RemovePrepended | src/pages/UyelerdenHaberlerPage.js:68-91 | deleting a just-prepended post's id removes it again together with any older item of that id |
| NewsPage.SecondsBetweenFloor | src/pages/UyelerdenHaberlerPage.js:100-103 | the age is in whole seconds rounded down, and a date in the future gives a negative age |
| NewsPage.FormatDateBuckets | src/pages/UyelerdenHaberlerPage.js:105-124 | under 60 s, negative included, is "just now"; then minutes under an hour, hours under a day, days under a week, then the date |
| NewsPage.FormatDateCount | src/pages/UyelerdenHaberlerPage.js:107-115 | the number shown is the age in whole units rounded down: 1–59 minutes, 1–23 hours, 1–6 days |
| NewsPage.FormatDateMonotone | src/pages/UyelerdenHaberlerPage.js:105-124 | an older post never reads as younger, by bucket or by count |
| NewsPage.AgoText | src/pages/UyelerdenHaberlerPage.js:105-124 | every bucket but the last has a relative text; the last is the locale date |
| NewsPage.DeleteRights | src/pages/UyelerdenHaberlerPage.js:287 | nobody signed in sees no delete button; a member sees it exactly on their own posts; any other role on every post |
| NewsPage.NewsFeed.constructor | src/pages/UyelerdenHaberlerPage.js:6-11 | the page starts empty and loading, with no error and no user |
| NewsPage.NewsFeed.UserFetched | src/pages/UyelerdenHaberlerPage.js:14-24 | a fetched profile becomes the current user; a failure leaves it as it was |
| NewsPage.NewsFeed.FetchNews | src/pages/UyelerdenHaberlerPage.js:27-44 | the list is replaced on success; a failure keeps it and shows why; loading ends |
| NewsPage.NewsFeed.SetNewPost | src/pages/UyelerdenHaberlerPage.js:173 | the input holds the typed text |
| NewsPage.NewsFeed.HandleSubmit | src/pages/UyelerdenHaberlerPage.js:51-81 | a post is sent exactly when it is not blank; a blank one changes nothing; an accepted post goes on top and the input is cleared; a failure keeps the list and the input and shows why |
| NewsPage.NewsFeed.HandleDelete | src/pages/UyelerdenHaberlerPage.js:84-97 | nothing happens unless confirmed; an accepted delete removes every post with the id; a failure keeps the list and shows the delete error |
| ArticlesPage.AdminsManageNews | src/pages/MakalelerPage.js:22 | an article administrator may also delete every news post, and a member is no administrator |
| ArticlesPage.ReadMoreThreshold | src/pages/MakalelerPage.js:335 | content of up to 200 characters has no "read more" button; one more character gives it one |
| ArticlesPage.ToggleFlips | src/pages/MakalelerPage.js:108-110 | a click flips the clicked article and leaves every other collapsed, so at most one article is expanded |
| ArticlesPage.ToggleTwice | src/pages/MakalelerPage.js:108-110 | two clicks on one article restore the state exactly when nothing or that article was expanded; from nothing expanded they return to nothing |
| ArticlesPage.ArticleFeed.constructor | src/pages/MakalelerPage.js:6-14 | the page starts empty and loading, with no user, no admin controls and nothing expanded |
| ArticlesPage.ArticleFeed.UserFetched | src/pages/MakalelerPage.js:17-28 | a fetched profile becomes the current user and shows the admin controls exactly for admin and superadmin |
| ArticlesPage.ArticleFeed.FetchArticles | src/pages/MakalelerPage.js:31-44 | the list is replaced on success; a failure keeps it and shows why; loading ends |
| ArticlesPage.ArticleFeed.SetNewTitle | src/pages/MakalelerPage.js:160 | the title input holds the typed text |
| ArticlesPage.ArticleFeed.SetNewContent | src/pages/MakalelerPage.js:179 | the content input holds the typed text |
| ArticlesPage.ArticleFeed.HandleSubmit | src/pages/MakalelerPage.js:51-77 | an article is sent exactly when neither title nor content is blank; an accepted one goes on top and both inputs are cleared; a failure keeps everything and shows why |
| ArticlesPage.ArticleFeed.HandleDelete | src/pages/MakalelerPage.js:80-93 | nothing happens unless confirmed; an accepted delete removes every article with the id; a failure shows the delete error |
| ArticlesPage.ArticleFeed.ToggleArticle | src/pages/MakalelerPage.js:108-110 | the expanded article becomes the toggle of the clicked id: nothing exactly when it was the clicked one |

## Left out

- File and JSON reading and writing in the scripts is not modelled; the SVG text and the district list are inputs. The district list is taken in JSON order (`add_district_names_to_svg.py:32-37`).
- `print` output is not modelled. The patch count (`add_district_names_to_svg.py:48`), the gray count (`fix_white_fill.py:37`), the district count (`remove_svg_background.py:59`) and the always-zero "Removed" line (`fix_svg_namespaces.py:36`) are only printed, so no property is stated about them.
- Python `re` and JavaScript `RegExp` are not modelled as general engines. Each pattern the code uses has its own matcher. `\s` and `trim` are restricted to space, tab, line feed, carriage return, form feed and vertical tab.
- Strings are sequences of characters. JavaScript's UTF-16 `length` and Python's code-point length are not told apart.
- `toLowerCase` is ASCII lower-casing. That is exact for the test against post, put, patch and delete, but not for other text.
- The deletion passes do not promise that no target is left. One pass can create a new match (`BackgroundFilter.RemovalCanExposeAGroup`, `NamespaceFilter.HrefCanRemain`). Only the recolouring passes are proved to leave none.
- DistrictAnnotator.AnnotateSvg: the effect of duplicate district names is not characterised. The search for the new tag starts at 0, so a second district with the same name splices into the first group's path. The naming property, DistrictAnnotator.FoundGroupNamed, covers only the groups the loop finds, and only names without `<` or `=`. A name holding `d=` could receive a splice inside its own attribute. The `d="` search is unbounded and can land in a later element. DistrictAnnotator.SpliceCanHideLaterTag shows a group whose `<path/>` has no `d="`. The splice then goes into the next group's `id="`, that group is never found, and its district is never written.
- Network and async code (axios, `fetch`, `updateProfile`, `changePassword`) is not executed. Each call's outcome is a parameter of the handler that awaits it. Stale closures and interleaved requests are not modelled.
- The interceptor's extra GET is not executed. Its effect is the parameter `refreshed`: the cookie jar after the request, or none when it failed.
- `document.cookie`, `document.querySelector` and `document.getElementById('city')` are parameters, not DOM reads.
- `decodeURIComponent` is the total parameter `decode`. The source's call can throw on a malformed escape, and that error path is not modelled.
- `window.confirm` and `alert` are not modelled as dialogs. The confirmation is the `confirmed` parameter, and the alert on a blank post is not modelled.
- The `setTimeout` reload (`ProfilePage`) and the `navigate('/')` redirect (`EditProfilePage`) after a save are not modelled, nor the redirect to `/login`.
- The list-loading flags and `submitting` are modelled only at the end of each handler; the React re-render in between is not.
- `fetchCities` and the fallback city list in `ProfilePage` are not modelled: they only feed the city dropdown.
- ProfilePage.CacheAfter: a success stores the response's list as is. When `data.districts` is missing, JavaScript stores `undefined`, which is not modelled.
- FormRules.Get: a missing key reads as ''. That models `||` defaulting and the falsy `undefined`, and does not tell a missing key from an empty one.
- FormRules.FailureErrors: the server's error map is restricted to the form's keys plus `general`. Keys outside those are not modelled.
- Date parsing, `new Date()` and `toLocaleDateString('tr-TR', …)` are not modelled. `formatDate` is modelled on an integer number of seconds; the locale date is the value `OnDate`; the date formatting of `MakalelerPage` is not modelled.
- The pages only hide the delete and submit controls (`UyelerdenHaberlerPage.js:287`, `MakalelerPage.js:148`, `MakalelerPage.js:301`). Their handlers do not re-check the permission, so neither do the models of the handlers.
- JSX rendering, CSS, routing and the pages outside the core (login, register, map, home, about, navbar, auth contexts) are not modelled.
