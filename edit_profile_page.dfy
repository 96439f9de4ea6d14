/** `EditProfilePage`: the older profile editor. It checks the five shared
    fields (no ilçe / mahalle, no location cache), words the phone error with
    an example number, and leaves the page after a saved profile. The server
    calls are not made here: their outcomes are parameters of the handlers. */
module EditProfilePage {
  import opened Wrappers
  import opened FormRules
  import ProfilePage

  const PhoneInvalid := "Lütfen geçerli bir Türk telefon numarası giriniz. (Örn: 05XXXXXXXXX)"
  const ProfileSaved := "Profil bilgileriniz başarıyla güncellendi! Ana sayfaya yönlendiriliyorsunuz..."

  /** The error map this page's profile form produces: each field's error is
      added in the form's order when its rule fails. */
  function EditErrors(p: Record): Record {
    var e1 := Put(map[], FirstName, NameCheck(Get(p, FirstName), FirstNameRequired, FirstNameShort));
    var e2 := Put(e1, LastName, NameCheck(Get(p, LastName), LastNameRequired, LastNameShort));
    var e3 := Put(e2, City, if Get(p, City) == "" then Some(CityRequired) else None);
    var e4 := Put(e3, Phone, PhoneCheck(Get(p, Phone), PhoneInvalid));
    Put(e4, Email, EmailCheck(Get(p, Email)))
  }

  /** Only the five shared fields can carry an error. */
  lemma EditErrorsKeys(p: Record)
    ensures EditErrors(p).Keys <= CommonKeys
  {
  }

  /** The form reports no error exactly when the shared fields are acceptable. */
  lemma EditErrorsEmpty(p: Record)
    ensures EditErrors(p) == map[] <==> CommonAcceptable(p)
  {
    NameCheckMeaning(Get(p, FirstName), FirstNameRequired, FirstNameShort);
    NameCheckMeaning(Get(p, LastName), LastNameRequired, LastNameShort);
    PhoneCheckMeaning(Get(p, Phone), PhoneInvalid);
    EmailCheckMeaning(Get(p, Email));
    var r := EditErrors(p);
    if r == map[] {
      assert FirstName !in r && LastName !in r && City !in r && Phone !in r && Email !in r;
    }
  }

  /** The two pages differ on the shared fields only in the wording of the
      phone error: a profile the newer page accepts passes here too, and both
      report an error on the same shared fields. */
  lemma SameRulesAsProfilePage(p: Record)
    ensures ProfilePage.ProfileErrors(p) == map[] ==> EditErrors(p) == map[]
    ensures forall k :: k in CommonKeys ==> (k in EditErrors(p) <==> k in ProfilePage.ProfileErrors(p))
  {
    ProfilePage.ProfileErrorsEmpty(p);
    EditErrorsEmpty(p);
  }

  /** `validateProfileForm` of this page. */
  method ValidateProfileForm(profileData: Record) returns (newErrors: Record)
    ensures newErrors == EditErrors(profileData)
    ensures newErrors.Keys <= CommonKeys
    ensures newErrors == map[] <==> CommonAcceptable(profileData)
  {
    newErrors := NameStep(map[], FirstName, Get(profileData, FirstName), FirstNameRequired, FirstNameShort);
    newErrors := NameStep(newErrors, LastName, Get(profileData, LastName), LastNameRequired, LastNameShort);
    newErrors := SelectedStep(newErrors, City, Get(profileData, City), CityRequired);
    newErrors := PhoneStep(newErrors, Get(profileData, Phone), PhoneInvalid);
    newErrors := EmailStep(newErrors, Get(profileData, Email));
    EditErrorsKeys(profileData);
    EditErrorsEmpty(profileData);
  }

  /** The form fields a new user record fills in, a missing value becoming ''. */
  function EditFormOf(user: Record): (r: Record)
    ensures r.Keys == CommonKeys
    ensures forall k :: k in CommonKeys ==> r[k] == Get(user, k)
  {
    map k | k in CommonKeys :: Get(user, k)
  }

  /** The page's state and its handlers. */
  class EditPage {
    var profileData: Record
    var passwordData: Record
    var errors: Record
    var successMessage: string
    var loading: bool

    constructor ()
      ensures profileData == EditFormOf(map[])
      ensures passwordData == PasswordCleared
      ensures errors == map[] && successMessage == "" && !loading
    {
      profileData := map k | k in CommonKeys :: "";
      passwordData := PasswordCleared;
      errors := map[];
      successMessage := "";
      loading := false;
    }

    /** The effect that runs when the signed-in `user` changes. */
    method UserLoaded(user: Record)
      modifies this
      ensures profileData == EditFormOf(user)
      ensures passwordData == old(passwordData) && errors == old(errors)
      ensures successMessage == old(successMessage) && loading == old(loading)
    {
      profileData := map k | k in CommonKeys :: Get(user, k);
    }

    /** `handleProfileInputChange`: a plain spread, no field depends on another. */
    method HandleProfileInputChange(name: Key, value: string)
      modifies this
      ensures profileData == Spread(old(profileData), name, value)
      ensures errors == ClearError(old(errors), name)
      ensures passwordData == old(passwordData) && successMessage == old(successMessage) && loading == old(loading)
    {
      profileData := profileData[name := value];
      if Get(errors, name) != "" {
        errors := errors[name := ""];
      }
    }

    /** `handlePasswordInputChange`. */
    method HandlePasswordInputChange(name: Key, value: string)
      modifies this
      ensures passwordData == Spread(old(passwordData), name, value)
      ensures errors == ClearError(old(errors), name)
      ensures profileData == old(profileData) && successMessage == old(successMessage) && loading == old(loading)
    {
      passwordData := passwordData[name := value];
      if Get(errors, name) != "" {
        errors := errors[name := ""];
      }
    }

    /** The `try`/`finally` after a server call: a success shows `saved`
        and clears the errors, a failure shows the server's errors (or
        `failed`), and loading ends either way. */
    method Settle(result: ServerResult, saved: string, failed: string)
      modifies this
      ensures !loading
      ensures result.Succeeded? ==> errors == map[] && successMessage == saved
      ensures !result.Succeeded? ==> errors == FailureErrors(result, failed) && successMessage == old(successMessage)
      ensures profileData == old(profileData) && passwordData == old(passwordData)
    {
      loading := true;
      if result.Succeeded? {
        successMessage := saved;
        errors := map[];
      } else {
        errors := FailureErrors(result, failed);
      }
      loading := false;
    }

    /** `handleProfileSubmit`: `updateProfile` is called only when the form
        has no error; `result` is what that call gave. */
    method HandleProfileSubmit(result: ServerResult) returns (called: bool)
      modifies this
      ensures called <==> CommonAcceptable(old(profileData))
      ensures !called ==> errors == EditErrors(old(profileData)) && errors != map[] && loading == old(loading)
      ensures called ==> !loading
      ensures called && result.Succeeded? ==> errors == map[] && successMessage == ProfileSaved
      ensures called && !result.Succeeded? ==> errors == FailureErrors(result, ProfileFailed)
      ensures !(called && result.Succeeded?) ==> successMessage == ""
      ensures profileData == old(profileData) && passwordData == old(passwordData)
    {
      errors := map[];
      successMessage := "";
      var validationErrors := ValidateProfileForm(profileData);
      called := validationErrors == map[];
      if !called {
        errors := validationErrors;
      } else {
        Settle(result, ProfileSaved, ProfileFailed);
      }
    }

    /** `handlePasswordSubmit`: `changePassword` is called only when the
        password form has no error; a success clears the three fields. */
    method HandlePasswordSubmit(result: ServerResult) returns (called: bool)
      modifies this
      ensures called <==> PasswordAcceptable(old(passwordData))
      ensures !called ==> errors == PasswordErrors(old(passwordData)) && errors != map[] && loading == old(loading)
      ensures called ==> !loading
      ensures called && result.Succeeded? ==>
        passwordData == PasswordCleared && errors == map[] && successMessage == PasswordChanged
      ensures called && !result.Succeeded? ==> errors == FailureErrors(result, PasswordFailed)
      ensures !(called && result.Succeeded?) ==> passwordData == old(passwordData) && successMessage == ""
      ensures profileData == old(profileData)
    {
      errors := map[];
      successMessage := "";
      var validationErrors := ValidatePasswordForm(passwordData);
      called := validationErrors == map[];
      if !called {
        errors := validationErrors;
      } else {
        Settle(result, PasswordChanged, PasswordFailed);
        if result.Succeeded? {
          passwordData := PasswordCleared;
        }
      }
    }
  }
}
