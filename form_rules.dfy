/** The field rules the profile forms share: names, phone number, e-mail,
    the password form, and what a failed server call leaves in the error map.
    Form state is a JavaScript object with string values, kept here as a map. */
module FormRules {
  import opened Text
  import opened Wrappers

  /** The keys of the form objects: the `name` of every input of the two
      forms (`first_name`, `last_name`, `email`, `phone`, `city`, `ilce`,
      `mahalle`, `currentPassword`, `newPassword`, `confirmPassword`) and the
      `general` entry of the error object. */
  datatype Key =
    | FirstName | LastName | Email | Phone | City | Ilce | Mahalle
    | CurrentPassword | NewPassword | ConfirmPassword
    | General

  /** A JavaScript object with string values (`profileData`, `passwordData`, `errors`). */
  type Record = map<Key, string>

  /** `obj[key]` as the forms read it; a missing key reads as the falsy ''. */
  function Get(r: Record, k: Key): string {
    if k in r then r[k] else ""
  }

  /** `{...prev, [name]: value}`. */
  function Spread(prev: Record, name: Key, value: string): (r: Record)
    ensures name in r && r[name] == value
    ensures forall k :: k != name ==> (k in r <==> k in prev) && Get(r, k) == Get(prev, k)
  {
    prev[name := value]
  }

  /** `if (errors[name]) setErrors(prev => ({...prev, [name]: ''}))`: an
      existing, non-empty error of the edited field is blanked. */
  function ClearError(errors: Record, name: Key): (r: Record)
    ensures Get(r, name) == ""
    ensures forall k :: k != name ==> (k in r <==> k in errors) && Get(r, k) == Get(errors, k)
    ensures r.Keys == errors.Keys
  {
    if Get(errors, name) != "" then errors[name := ""] else errors
  }

  // ---------------------------------------------------------------------------
  // Names
  // ---------------------------------------------------------------------------

  /** Reference rule for a name: some character is not whitespace and the
      raw text has at least two characters. */
  predicate NameOk(v: string) {
    (exists i :: 0 <= i < |v| && !IsSpace(v[i])) && |v| >= 2
  }

  /** `if (!v.trim()) required; else if (v.length < 2) tooShort`. */
  function NameCheck(v: string, required: string, tooShort: string): Option<string> {
    if Blank(v) then Some(required) else if |v| < 2 then Some(tooShort) else None
  }

  /** A name passes exactly when it is acceptable; an all-whitespace one is
      reported as missing, any other failure as too short. */
  lemma NameCheckMeaning(v: string, required: string, tooShort: string)
    ensures NameCheck(v, required, tooShort).None? <==> NameOk(v)
    ensures Blank(v) ==> NameCheck(v, required, tooShort) == Some(required)
    ensures !Blank(v) && NameCheck(v, required, tooShort).Some? ==> |v| < 2 && NameCheck(v, required, tooShort) == Some(tooShort)
  {
  }

  /** The length rule counts the untrimmed text: " a" passes although only
      one character is left after trimming. */
  lemma NameLengthIsRaw(required: string, tooShort: string)
    ensures NameCheck(" a", required, tooShort) == None
    ensures Trim(" a") == "a"
  {
    var s := " a";
    assert s[1] == 'a' && s[1..] == "a";
    assert LeadingSpaces(s) == 1;
  }

  // ---------------------------------------------------------------------------
  // Phone
  // ---------------------------------------------------------------------------

  /** The class `[\s-]`. */
  predicate IsPhoneFiller(c: char) { IsSpace(c) || c == '-' }

  /** `phone.replace(/[\s-]/g, '')`. */
  function StripPhone(s: string): string {
    if s == [] then []
    else (if IsPhoneFiller(s[0]) then [] else [s[0]]) + StripPhone(s[1..])
  }

  /** The stripped number holds no filler and keeps every other character,
      as often as it occurred. */
  lemma {:induction false} StripPhoneFacts(s: string)
    ensures forall i :: 0 <= i < |StripPhone(s)| ==> !IsPhoneFiller(StripPhone(s)[i])
    ensures forall c :: !IsPhoneFiller(c) ==> multiset(StripPhone(s))[c] == multiset(s)[c]
    ensures |StripPhone(s)| <= |s|
  {
    if s != [] {
      StripPhoneFacts(s[1..]);
      assert s == [s[0]] + s[1..];
    }
  }

  /** Whitespace-only text strips to nothing. */
  lemma {:induction false} StripBlank(s: string)
    requires forall i :: 0 <= i < |s| ==> IsSpace(s[i])
    ensures StripPhone(s) == []
  {
    if s != [] {
      assert IsSpace(s[0]);
      StripBlank(s[1..]);
    }
  }

  /** `5` followed by nine digits. */
  predicate IsMobileBody(p: string) {
    |p| == 10 && p[0] == '5' && forall i :: 1 <= i < 10 ==> IsDigit(p[i])
  }

  /** Hand-written matcher for `^(\+90|0)?[5][0-9]{9}$`: the optional
      prefix is decided by the first character. */
  predicate PhoneMatches(p: string) {
    if StartsWith(p, "+90") then IsMobileBody(p[3..])
    else if StartsWith(p, "0") then IsMobileBody(p[1..])
    else IsMobileBody(p)
  }

  /** The regular expression read as its three alternatives. */
  ghost predicate PhoneShape(p: string) {
    || IsMobileBody(p)
    || (exists q :: IsMobileBody(q) && p == "0" + q)
    || (exists q :: IsMobileBody(q) && p == "+90" + q)
  }

  /** The matcher accepts exactly the texts of the regular expression. */
  lemma PhoneMatchesIff(p: string)
    ensures PhoneMatches(p) <==> PhoneShape(p)
  {
    if PhoneMatches(p) {
      if StartsWith(p, "+90") {
        assert p == "+90" + p[3..];
      } else if StartsWith(p, "0") {
        assert p == "0" + p[1..];
      }
    }
    if PhoneShape(p) {
      if IsMobileBody(p) {
        assert p[0] == '5';
      } else if q :| IsMobileBody(q) && p == "0" + q {
        assert p[1..] == q;
      } else {
        var q :| IsMobileBody(q) && p == "+90" + q;
        assert p[3..] == q;
      }
    }
  }

  const PhoneRequired := "Telefon numarası gereklidir"

  /** The phone rule: blank is required; otherwise the number, with
      whitespace and dashes taken out, must match the pattern. */
  function PhoneCheck(v: string, invalid: string): Option<string> {
    if Blank(v) then Some(PhoneRequired)
    else if !PhoneMatches(StripPhone(v)) then Some(invalid)
    else None
  }

  /** A number passes exactly when, stripped, it has one of the three
      accepted shapes; an all-whitespace one is reported as missing. */
  lemma PhoneCheckMeaning(v: string, invalid: string)
    ensures PhoneCheck(v, invalid).None? <==> PhoneShape(StripPhone(v))
    ensures Blank(v) ==> PhoneCheck(v, invalid) == Some(PhoneRequired)
    ensures !Blank(v) && PhoneCheck(v, invalid).Some? ==> PhoneCheck(v, invalid) == Some(invalid)
  {
    PhoneMatchesIff(StripPhone(v));
    if Blank(v) {
      StripBlank(v);
    }
  }

  /** A space, tab or dash inside the number is ignored. */
  lemma PhoneIgnoresFiller(a: string, c: char, b: string)
    requires IsPhoneFiller(c)
    ensures StripPhone(a + [c] + b) == StripPhone(a + b)
  {
    var t := [c] + b;
    assert t[0] == c && t[1..] == b;
    StripAppend(a, t);
    StripAppend(a, b);
    calc {
      StripPhone(a + [c] + b);
      { assert a + [c] + b == a + t; }
      StripPhone(a + t);
      StripPhone(a) + StripPhone(t);
      StripPhone(a) + ([] + StripPhone(b));
      { assert [] + StripPhone(b) == StripPhone(b); }
      StripPhone(a + b);
    }
  }

  lemma {:induction false} StripAppend(a: string, b: string)
    ensures StripPhone(a + b) == StripPhone(a) + StripPhone(b)
    decreases |a|
  {
    if a != [] {
      assert (a + b)[1..] == a[1..] + b;
      StripAppend(a[1..], b);
    } else {
      assert a + b == b;
    }
  }

  // ---------------------------------------------------------------------------
  // E-mail
  // ---------------------------------------------------------------------------

  /** The class `[^\s@]`. */
  predicate IsEmailChar(c: char) { !IsSpace(c) && c != '@' }

  predicate AllEmailChars(s: string) {
    forall i :: 0 <= i < |s| ==> IsEmailChar(s[i])
  }

  /** Hand-written matcher for `^[^\s@]+@[^\s@]+\.[^\s@]+$`: the only `@`
      has something before it, and after it comes text without whitespace
      or `@` holding a `.` that is neither its first nor its last character. */
  predicate EmailMatches(s: string) {
    var at := Find(s, "@", 0);
    && at > 0
    && AllEmailChars(s[..at])
    && AllEmailChars(s[at + 1..])
    && var dot := Find(s[at + 1..], ".", 1);
       0 <= dot < |s[at + 1..]| - 1
  }

  /** The regular expression read directly: three non-empty runs of
      `[^\s@]`, the first two joined by `@`, the last two by `.`. */
  ghost predicate EmailShape(s: string) {
    exists i, j :: 0 < i && i + 1 < j && j + 1 < |s| && s[i] == '@' && s[j] == '.' &&
      AllEmailChars(s[..i]) && AllEmailChars(s[i + 1..j]) && AllEmailChars(s[j + 1..])
  }

  /** A text without `@` before `i` and `@` at `i` has its first `@` at `i`. */
  lemma FirstAt(s: string, i: nat)
    requires i < |s| && s[i] == '@' && AllEmailChars(s[..i])
    ensures Find(s, "@", 0) == i
  {
    assert s[i..i + 1] == "@";
    forall k: nat | k < i ensures !IsAt(s, "@", k) {
      assert s[..i][k] == s[k];
      assert s[k..k + 1][0] == s[k];
    }
    FindIs(s, "@", 0, i);
  }

  /** The matcher accepts exactly the texts of the regular expression. */
  lemma EmailMatchesIff(s: string)
    ensures EmailMatches(s) <==> EmailShape(s)
  {
    if EmailMatches(s) {
      EmailMatchesShape(s);
    }
    if EmailShape(s) {
      EmailShapeMatches(s);
    }
  }

  lemma EmailMatchesShape(s: string)
    requires EmailMatches(s)
    ensures EmailShape(s)
  {
    var at := Find(s, "@", 0);
    var r := s[at + 1..];
    var dot := Find(r, ".", 1);
    var j := at + 1 + dot;
    assert s[at] == s[at..at + 1][0] == '@';
    assert s[j] == r[dot] == r[dot..dot + 1][0] == '.';
    var x := s[at + 1..j];
    forall k | 0 <= k < |x| ensures IsEmailChar(x[k]) {
      assert x[k] == r[k];
    }
    var y := s[j + 1..];
    forall k | 0 <= k < |y| ensures IsEmailChar(y[k]) {
      assert y[k] == r[dot + 1 + k];
    }
    assert 0 < at && at + 1 < j && j + 1 < |s|;
    assert AllEmailChars(s[..at]) && AllEmailChars(x) && AllEmailChars(y);
  }

  lemma EmailShapeMatches(s: string)
    requires EmailShape(s)
    ensures EmailMatches(s)
  {
    var i, j :| 0 < i && i + 1 < j && j + 1 < |s| && s[i] == '@' && s[j] == '.' &&
      AllEmailChars(s[..i]) && AllEmailChars(s[i + 1..j]) && AllEmailChars(s[j + 1..]);
    FirstAt(s, i);
    var r := s[i + 1..];
    EmailTailChars(s, i, j);
    var d := j - i - 1;
    assert IsAt(r, ".", d) by { assert r[d..d + 1] == [s[j]]; }
    FindFromZeroAfter(r, ".", 1, d);
  }

  /** The part after the `@` is made of e-mail characters, its `.` included. */
  lemma EmailTailChars(s: string, i: nat, j: nat)
    requires i < j < |s| && s[j] == '.'
    requires AllEmailChars(s[i + 1..j]) && AllEmailChars(s[j + 1..])
    ensures AllEmailChars(s[i + 1..])
  {
    var r := s[i + 1..];
    var x, y := s[i + 1..j], s[j + 1..];
    forall k | 0 <= k < |r| ensures IsEmailChar(r[k]) {
      if i + 1 + k < j {
        assert r[k] == x[k];
      } else if i + 1 + k > j {
        assert r[k] == y[k - |x| - 1];
      }
    }
  }

  /** An occurrence at `k >= from` means the search from `from` finds one no later. */
  lemma FindFromZeroAfter(s: string, pat: string, from: nat, k: nat)
    requires from <= k && IsAt(s, pat, k)
    ensures from <= Find(s, pat, from) <= k
  {
  }

  const EmailRequired := "E-posta gereklidir"
  const EmailInvalid := "Lütfen geçerli bir e-posta adresi giriniz"

  /** The e-mail rule: blank is required; otherwise the untrimmed text must
      match the pattern. */
  function EmailCheck(v: string): Option<string> {
    if Blank(v) then Some(EmailRequired)
    else if !EmailMatches(v) then Some(EmailInvalid)
    else None
  }

  /** An address passes exactly when it has the accepted shape; an
      all-whitespace one is reported as missing. */
  lemma EmailCheckMeaning(v: string)
    ensures EmailCheck(v).None? <==> EmailShape(v)
    ensures Blank(v) ==> EmailCheck(v) == Some(EmailRequired)
    ensures !Blank(v) && EmailCheck(v).Some? ==> EmailCheck(v) == Some(EmailInvalid)
  {
    EmailMatchesIff(v);
    if Blank(v) {
      assert !EmailShape(v);
    }
  }

  // ---------------------------------------------------------------------------
  // The fields both profile forms check
  // ---------------------------------------------------------------------------

  const FirstNameRequired := "Ad gereklidir"
  const FirstNameShort := "Ad en az 2 karakter olmalıdır"
  const LastNameRequired := "Soyad gereklidir"
  const LastNameShort := "Soyad en az 2 karakter olmalıdır"
  const CityRequired := "Lütfen şehir seçiniz"

  const CommonKeys: set<Key> := {FirstName, LastName, City, Phone, Email}

  /** The rule for field `k` of the profile form; `phoneInvalid` is the
      page's own wording of the phone error. */
  function CommonCheck(p: Record, k: Key, phoneInvalid: string): Option<string> {
    if k == FirstName then NameCheck(Get(p, FirstName), FirstNameRequired, FirstNameShort)
    else if k == LastName then NameCheck(Get(p, LastName), LastNameRequired, LastNameShort)
    else if k == City then (if Get(p, City) == "" then Some(CityRequired) else None)
    else if k == Phone then PhoneCheck(Get(p, Phone), phoneInvalid)
    else if k == Email then EmailCheck(Get(p, Email))
    else None
  }

  /** `m` with the entry of field `k` added when its check fails. */
  function Put(m: Record, k: Key, check: Option<string>): Record {
    if check.Some? then m[k := check.value] else m
  }

  /** The name rule as the forms write it: a blank name is required, a
      shorter than two characters one is too short. */
  method NameStep(m: Record, k: Key, v: string, required: string, tooShort: string) returns (r: Record)
    ensures r == Put(m, k, NameCheck(v, required, tooShort))
  {
    r := m;
    if Blank(v) {
      r := r[k := required];
    } else if |v| < 2 {
      r := r[k := tooShort];
    }
  }

  /** A select that must not be left at its empty option. */
  method SelectedStep(m: Record, k: Key, v: string, required: string) returns (r: Record)
    ensures r == Put(m, k, if v == "" then Some(required) else None)
  {
    r := m;
    if v == "" {
      r := r[k := required];
    }
  }

  /** The phone rule: blank is required, otherwise the number stripped of
      whitespace and dashes must match the pattern. */
  method PhoneStep(m: Record, v: string, invalid: string) returns (r: Record)
    ensures r == Put(m, Phone, PhoneCheck(v, invalid))
  {
    r := m;
    if Blank(v) {
      r := r[Phone := PhoneRequired];
    } else if !PhoneMatches(StripPhone(v)) {
      r := r[Phone := invalid];
    }
  }

  /** The e-mail rule: blank is required, otherwise the text must match. */
  method EmailStep(m: Record, v: string) returns (r: Record)
    ensures r == Put(m, Email, EmailCheck(v))
  {
    r := m;
    if Blank(v) {
      r := r[Email := EmailRequired];
    } else if !EmailMatches(v) {
      r := r[Email := EmailInvalid];
    }
  }

  /** What the shared fields must satisfy for no error to be reported. */
  ghost predicate CommonAcceptable(p: Record) {
    && NameOk(Get(p, FirstName))
    && NameOk(Get(p, LastName))
    && Get(p, City) != ""
    && PhoneShape(StripPhone(Get(p, Phone)))
    && EmailShape(Get(p, Email))
  }

  lemma CommonCheckNone(p: Record, phoneInvalid: string)
    ensures (forall k :: k in CommonKeys ==> CommonCheck(p, k, phoneInvalid).None?) <==> CommonAcceptable(p)
  {
    NameCheckMeaning(Get(p, FirstName), FirstNameRequired, FirstNameShort);
    NameCheckMeaning(Get(p, LastName), LastNameRequired, LastNameShort);
    PhoneCheckMeaning(Get(p, Phone), phoneInvalid);
    EmailCheckMeaning(Get(p, Email));
    var each :=
      && CommonCheck(p, FirstName, phoneInvalid).None?
      && CommonCheck(p, LastName, phoneInvalid).None?
      && CommonCheck(p, City, phoneInvalid).None?
      && CommonCheck(p, Phone, phoneInvalid).None?
      && CommonCheck(p, Email, phoneInvalid).None?;
    assert each <==> CommonAcceptable(p);
    assert (forall k :: k in CommonKeys ==> CommonCheck(p, k, phoneInvalid).None?) <==> each;
  }

  // ---------------------------------------------------------------------------
  // Password form
  // ---------------------------------------------------------------------------

  const CurrentRequired := "Mevcut şifrenizi giriniz"
  const NewRequired := "Yeni şifre gereklidir"
  const NewShort := "Yeni şifre en az 8 karakter olmalıdır"
  const ConfirmRequired := "Yeni şifreyi tekrar giriniz"
  const Mismatch := "Şifreler eşleşmiyor"
  const MustDiffer := "Yeni şifre mevcut şifreden farklı olmalıdır"

  const PasswordKeys: set<Key> := {CurrentPassword, NewPassword, ConfirmPassword}

  /** The final error of password field `k`, the "must differ" check having
      the last word on `newPassword`. */
  function PasswordCheck(p: Record, k: Key): Option<string> {
    var current, next, confirm := Get(p, CurrentPassword), Get(p, NewPassword), Get(p, ConfirmPassword);
    match k
    case CurrentPassword =>
      if current == "" then Some(CurrentRequired) else None
    case NewPassword =>
      if current != "" && next != "" && current == next then Some(MustDiffer)
      else if next == "" then Some(NewRequired)
      else if |next| < 8 then Some(NewShort)
      else None
    case ConfirmPassword =>
      if confirm == "" then Some(ConfirmRequired)
      else if next != confirm then Some(Mismatch)
      else None
    case _ => None
  }

  /** The error map the password form produces. */
  function PasswordErrors(p: Record): Record {
    map k | k in PasswordKeys && PasswordCheck(p, k).Some? :: PasswordCheck(p, k).value
  }

  /** What the password form must satisfy for no error to be reported. */
  predicate PasswordAcceptable(p: Record) {
    var current, next, confirm := Get(p, CurrentPassword), Get(p, NewPassword), Get(p, ConfirmPassword);
    current != "" && |next| >= 8 && confirm == next && current != next
  }

  /** `validatePasswordForm`: fills `newErrors` one rule at a time; the
      "must differ" rule runs last and overwrites the `newPassword` entry. */
  method ValidatePasswordForm(passwordData: Record) returns (newErrors: Record)
    ensures newErrors == PasswordErrors(passwordData)
    ensures newErrors.Keys <= PasswordKeys
    ensures newErrors == map[] <==> PasswordAcceptable(passwordData)
  {
    var current := Get(passwordData, CurrentPassword);
    var next := Get(passwordData, NewPassword);
    var confirm := Get(passwordData, ConfirmPassword);
    newErrors := map[];
    if current == "" {
      newErrors := newErrors[CurrentPassword := CurrentRequired];
    }
    if next == "" {
      newErrors := newErrors[NewPassword := NewRequired];
    } else if |next| < 8 {
      newErrors := newErrors[NewPassword := NewShort];
    }
    if confirm == "" {
      newErrors := newErrors[ConfirmPassword := ConfirmRequired];
    } else if next != confirm {
      newErrors := newErrors[ConfirmPassword := Mismatch];
    }
    if current != "" && next != "" && current == next {
      newErrors := newErrors[NewPassword := MustDiffer];
    }
    forall k | k in PasswordKeys
      ensures (k in newErrors) == PasswordCheck(passwordData, k).Some?
      ensures k in newErrors ==> newErrors[k] == PasswordCheck(passwordData, k).value
    {
    }
    assert newErrors.Keys <= PasswordKeys;
    PasswordErrorsEmpty(passwordData);
  }

  lemma PasswordErrorsEmpty(p: Record)
    ensures PasswordErrors(p) == map[] <==> PasswordAcceptable(p)
  {
    if PasswordErrors(p) == map[] {
      assert CurrentPassword !in PasswordErrors(p);
      assert NewPassword !in PasswordErrors(p);
      assert ConfirmPassword !in PasswordErrors(p);
    }
  }

  /** The "must differ" error replaces the length error: a short new password
      equal to the current one reports only that it must differ. */
  lemma MustDifferOverridesLength(p: Record)
    requires Get(p, CurrentPassword) == Get(p, NewPassword) != ""
    ensures PasswordErrors(p)[NewPassword] == MustDiffer
  {
  }

  // ---------------------------------------------------------------------------
  // After the server call
  // ---------------------------------------------------------------------------

  /** What `updateProfile` / `changePassword` resolve to, or that they threw. */
  datatype ServerResult =
    | Succeeded
      /** `{success: false, errors?, error?}`; an absent `error` is the falsy ''. */
    | Failed(errors: Option<Record>, error: string)
    | Threw

  const Unexpected := "Beklenmeyen bir hata oluştu"

  /** The error map set after a call that did not succeed: the server's
      field errors, else its message or `fallback` under `general`. */
  function FailureErrors(res: ServerResult, fallback: string): (r: Record)
    requires !res.Succeeded?
    ensures res.Failed? && res.errors.Some? ==> r == res.errors.value
    ensures res.Failed? && res.errors.None? ==> r.Keys == {General} && r[General] == (if res.error != "" then res.error else fallback)
    ensures res.Threw? ==> r == map[General := Unexpected]
  {
    match res
    case Failed(errors, error) =>
      if errors.Some? then errors.value
      else map[General := if error != "" then error else fallback]
    case Threw => map[General := Unexpected]
  }

  const ProfileFailed := "Profil güncellenirken bir hata oluştu"
  const PasswordChanged := "Şifreniz başarıyla değiştirildi!"
  const PasswordFailed := "Şifre değiştirilirken bir hata oluştu"

  /** The password form after a successful change. */
  const PasswordCleared: Record := map[CurrentPassword := "", NewPassword := "", ConfirmPassword := ""]
}
