/** `ProfilePage`: the profile form with cascading city / ilçe / mahalle
    selects, the password form, and the per-city districts cache. The server
    calls are not made here: their outcomes are parameters of the handlers. */
module ProfilePage {
  import opened Text
  import opened Wrappers
  import opened FormRules

  const PhoneInvalid := "Lütfen geçerli bir Türk telefon numarası giriniz"
  const IlceRequired := "Lütfen ilçe seçiniz"
  const MahalleRequired := "Lütfen mahalle seçiniz"
  const ProfileSaved := "Profil bilgileriniz başarıyla güncellendi!"

  /** The fields this page checks: the shared ones plus ilçe and mahalle. */
  const ProfileKeys: set<Key> := CommonKeys + {Ilce, Mahalle}

  /** The error map the profile form produces: each field's error is added
      in the form's order when its rule fails. */
  function ProfileErrors(p: Record): Record {
    var e1 := Put(map[], FirstName, NameCheck(Get(p, FirstName), FirstNameRequired, FirstNameShort));
    var e2 := Put(e1, LastName, NameCheck(Get(p, LastName), LastNameRequired, LastNameShort));
    var e3 := Put(e2, City, if Get(p, City) == "" then Some(CityRequired) else None);
    var e4 := Put(e3, Phone, PhoneCheck(Get(p, Phone), PhoneInvalid));
    var e5 := Put(e4, Email, EmailCheck(Get(p, Email)));
    var e6 := Put(e5, Ilce, if Get(p, Ilce) == "" then Some(IlceRequired) else None);
    Put(e6, Mahalle, if Get(p, Mahalle) == "" then Some(MahalleRequired) else None)
  }

  ghost predicate ProfileAcceptable(p: Record) {
    CommonAcceptable(p) && Get(p, Ilce) != "" && Get(p, Mahalle) != ""
  }

  /** Only the form's fields can carry an error. */
  lemma ProfileErrorsKeys(p: Record)
    ensures ProfileErrors(p).Keys <= ProfileKeys
  {
  }

  /** The form reports no error exactly when every field is acceptable. */
  lemma ProfileErrorsEmpty(p: Record)
    ensures ProfileErrors(p) == map[] <==> ProfileAcceptable(p)
  {
    NameCheckMeaning(Get(p, FirstName), FirstNameRequired, FirstNameShort);
    NameCheckMeaning(Get(p, LastName), LastNameRequired, LastNameShort);
    PhoneCheckMeaning(Get(p, Phone), PhoneInvalid);
    EmailCheckMeaning(Get(p, Email));
    var r := ProfileErrors(p);
    if r == map[] {
      assert FirstName !in r && LastName !in r && City !in r && Phone !in r;
      assert Email !in r && Ilce !in r && Mahalle !in r;
    }
  }

  /** `validateProfileForm`: fills `newErrors` field by field. */
  method ValidateProfileForm(profileData: Record) returns (newErrors: Record)
    ensures newErrors == ProfileErrors(profileData)
    ensures newErrors.Keys <= ProfileKeys
    ensures newErrors == map[] <==> ProfileAcceptable(profileData)
  {
    newErrors := NameStep(map[], FirstName, Get(profileData, FirstName), FirstNameRequired, FirstNameShort);
    newErrors := NameStep(newErrors, LastName, Get(profileData, LastName), LastNameRequired, LastNameShort);
    newErrors := SelectedStep(newErrors, City, Get(profileData, City), CityRequired);
    newErrors := PhoneStep(newErrors, Get(profileData, Phone), PhoneInvalid);
    newErrors := EmailStep(newErrors, Get(profileData, Email));
    newErrors := SelectedStep(newErrors, Ilce, Get(profileData, Ilce), IlceRequired);
    newErrors := SelectedStep(newErrors, Mahalle, Get(profileData, Mahalle), MahalleRequired);
    ProfileErrorsKeys(profileData);
    ProfileErrorsEmpty(profileData);
  }

  /** The form fields a new user record fills in, a missing value becoming ''. */
  function ProfileOf(user: Record): (r: Record)
    ensures r.Keys == ProfileKeys
    ensures forall k :: k in ProfileKeys ==> Get(r, k) == Get(user, k)
  {
    map k | k in ProfileKeys :: Get(user, k)
  }

  /** The fields `handleProfileInputChange` blanks besides the edited one. */
  function Resets(name: Key): set<Key> {
    match name
    case City => {Ilce, Mahalle}
    case Ilce => {Mahalle}
    case _ => {}
  }

  /** The record spread of `handleProfileInputChange`: the edited field takes
      the value; a new city blanks ilçe and mahalle, a new ilçe blanks
      mahalle; every other field is kept. */
  function ProfileChange(prev: Record, name: Key, value: string): (r: Record)
    ensures Get(r, name) == value
    ensures forall k :: k in Resets(name) ==> k in r && r[k] == ""
    ensures forall k :: k != name && k !in Resets(name) ==> (k in r <==> k in prev) && Get(r, k) == Get(prev, k)
  {
    match name
    case City => prev[name := value][Ilce := ""][Mahalle := ""]
    case Ilce => prev[name := value][Mahalle := ""]
    case _ => prev[name := value]
  }

  /** A per-name cache of lists (`districtsByCity`, `neighborhoodsByDistrict`). */
  type Cache = map<string, seq<string>>

  /** `value && !cache[value]`: an entry, even an empty list, counts as
      loaded, so only a name never requested is fetched. */
  predicate ShouldFetch(cache: Cache, name: string) {
    name != "" && name !in cache
  }

  /** What a districts or neighbourhoods request came back with: the list of
      a `success` reply, a reply without `success`, or a failure. */
  datatype ListResponse = Loaded(items: seq<string>) | NotSuccess | FetchFailed

  /** The cache after the request for `city` settles, the empty entry having
      been stored before the request went out. */
  function CacheAfter(cache: Cache, city: string, response: ListResponse): (r: Cache)
    requires city in cache
    ensures city in r && !ShouldFetch(r, city)
    ensures r.Keys == cache.Keys
    ensures response.FetchFailed? ==> r[city] == []
    ensures forall c :: c in cache && c != city ==> r[c] == cache[c]
  {
    match response
    case Loaded(ds) => cache[city := ds]
    case NotSuccess => cache
    case FetchFailed => cache[city := []]
  }

  /** A city whose fetch failed is never fetched again, while one never
      fetched is. */
  lemma FailedCityNotRefetched(cache: Cache, city: string)
    requires city != ""
    ensures ShouldFetch(cache - {city}, city)
    ensures !ShouldFetch(CacheAfter(cache[city := []], city, FetchFailed), city)
  {
  }

  /** The page's state and its handlers. */
  class Page {
    var profileData: Record
    var passwordData: Record
    var errors: Record
    var successMessage: string
    var loading: bool
    var districtsByCity: Cache
    var neighborhoodsByDistrict: Cache

    constructor ()
      ensures profileData == ProfileOf(map[])
      ensures passwordData == PasswordCleared
      ensures errors == map[] && successMessage == "" && !loading
      ensures districtsByCity == map[] && neighborhoodsByDistrict == map[]
    {
      profileData := map k | k in ProfileKeys :: "";
      passwordData := PasswordCleared;
      errors := map[];
      successMessage := "";
      loading := false;
      districtsByCity := map[];
      neighborhoodsByDistrict := map[];
    }

    /** The two effects that run when the signed-in `user` changes: the form
        takes the user's fields, and the districts of the user's city and the
        neighbourhoods of the user's ilçe are requested unless cached. */
    method UserLoaded(user: Record) returns (fetchDistricts: bool, fetchNeighborhoods: bool)
      modifies this
      ensures profileData == ProfileOf(user)
      ensures fetchDistricts <==> ShouldFetch(old(districtsByCity), Get(user, City))
      ensures fetchNeighborhoods <==> Get(user, City) != "" && ShouldFetch(old(neighborhoodsByDistrict), Get(user, Ilce))
      ensures districtsByCity == if fetchDistricts then old(districtsByCity)[Get(user, City) := []] else old(districtsByCity)
      ensures neighborhoodsByDistrict ==
        if fetchNeighborhoods then old(neighborhoodsByDistrict)[Get(user, Ilce) := []] else old(neighborhoodsByDistrict)
      ensures passwordData == old(passwordData) && errors == old(errors)
      ensures successMessage == old(successMessage) && loading == old(loading)
    {
      profileData := map k | k in ProfileKeys :: Get(user, k);
      fetchDistricts, fetchNeighborhoods := false, false;
      var city, ilce := Get(user, City), Get(user, Ilce);
      if city != "" {
        if city !in districtsByCity {
          fetchDistricts := true;
          districtsByCity := districtsByCity[city := []];
        }
        if ilce != "" && ilce !in neighborhoodsByDistrict {
          fetchNeighborhoods := true;
          neighborhoodsByDistrict := neighborhoodsByDistrict[ilce := []];
        }
      }
    }

    /** `handleProfileInputChange`. A new city requests its districts, a new
        ilçe its neighbourhoods (in the city the `city` select shows, else
        the stored one), unless cached; the empty entry is stored at once. */
    method HandleProfileInputChange(name: Key, value: string, selectedCity: string)
      returns (fetchDistricts: bool, fetchNeighborhoods: bool)
      modifies this
      ensures profileData == ProfileChange(old(profileData), name, value)
      ensures errors == ClearError(old(errors), name)
      ensures fetchDistricts <==> name == City && ShouldFetch(old(districtsByCity), value)
      ensures fetchNeighborhoods <==>
        name == Ilce && (selectedCity != "" || Get(old(profileData), City) != "")
        && ShouldFetch(old(neighborhoodsByDistrict), value)
      ensures districtsByCity == if fetchDistricts then old(districtsByCity)[value := []] else old(districtsByCity)
      ensures neighborhoodsByDistrict ==
        if fetchNeighborhoods then old(neighborhoodsByDistrict)[value := []] else old(neighborhoodsByDistrict)
      ensures passwordData == old(passwordData) && successMessage == old(successMessage) && loading == old(loading)
    {
      fetchDistricts, fetchNeighborhoods := false, false;
      var currentCity := if selectedCity != "" then selectedCity else Get(profileData, City);
      profileData := ProfileChange(profileData, name, value);
      if name == City {
        if value != "" && value !in districtsByCity {
          fetchDistricts := true;
          districtsByCity := districtsByCity[value := []];
        }
      } else if name == Ilce {
        if value != "" && currentCity != "" && value !in neighborhoodsByDistrict {
          fetchNeighborhoods := true;
          neighborhoodsByDistrict := neighborhoodsByDistrict[value := []];
        }
      }
      errors := ClearError(errors, name);
    }

    /** The rest of `fetchDistricts(city)` once the request settles. */
    method DistrictsArrived(city: string, response: ListResponse)
      requires city in districtsByCity
      modifies this
      ensures districtsByCity == CacheAfter(old(districtsByCity), city, response)
      ensures !ShouldFetch(districtsByCity, city)
      ensures profileData == old(profileData) && passwordData == old(passwordData) && errors == old(errors)
      ensures neighborhoodsByDistrict == old(neighborhoodsByDistrict)
      ensures successMessage == old(successMessage) && loading == old(loading)
    {
      match response {
        case Loaded(ds) => districtsByCity := districtsByCity[city := ds];
        case NotSuccess =>
        case FetchFailed => districtsByCity := districtsByCity[city := []];
      }
    }

    /** The rest of `fetchNeighborhoods(city, district)` once the request settles. */
    method NeighborhoodsArrived(district: string, response: ListResponse)
      requires district in neighborhoodsByDistrict
      modifies this
      ensures neighborhoodsByDistrict == CacheAfter(old(neighborhoodsByDistrict), district, response)
      ensures !ShouldFetch(neighborhoodsByDistrict, district)
      ensures profileData == old(profileData) && passwordData == old(passwordData) && errors == old(errors)
      ensures districtsByCity == old(districtsByCity)
      ensures successMessage == old(successMessage) && loading == old(loading)
    {
      match response {
        case Loaded(ns) => neighborhoodsByDistrict := neighborhoodsByDistrict[district := ns];
        case NotSuccess =>
        case FetchFailed => neighborhoodsByDistrict := neighborhoodsByDistrict[district := []];
      }
    }

    /** `handlePasswordInputChange`. */
    method HandlePasswordInputChange(name: Key, value: string)
      modifies this
      ensures passwordData == Spread(old(passwordData), name, value)
      ensures errors == ClearError(old(errors), name)
      ensures profileData == old(profileData) && districtsByCity == old(districtsByCity)
      ensures neighborhoodsByDistrict == old(neighborhoodsByDistrict)
      ensures successMessage == old(successMessage) && loading == old(loading)
    {
      passwordData := passwordData[name := value];
      if Get(errors, name) != "" {
        errors := errors[name := ""];
      }
    }

    /** The `try`/`finally` after a server call: a success shows `saved`
        and clears the errors, a failure shows the server's errors (or
        `failed`), and loading ends either way. */
    method Settle(result: ServerResult, saved: string, failed: string)
      modifies this
      ensures !loading
      ensures result.Succeeded? ==> errors == map[] && successMessage == saved
      ensures !result.Succeeded? ==> errors == FailureErrors(result, failed) && successMessage == old(successMessage)
      ensures profileData == old(profileData) && passwordData == old(passwordData)
      ensures districtsByCity == old(districtsByCity) && neighborhoodsByDistrict == old(neighborhoodsByDistrict)
    {
      loading := true;
      if result.Succeeded? {
        successMessage := saved;
        errors := map[];
      } else {
        errors := FailureErrors(result, failed);
      }
      loading := false;
    }

    /** `handleProfileSubmit`: `updateProfile` is called only when the form
        has no error; `result` is what that call gave. */
    method HandleProfileSubmit(result: ServerResult) returns (called: bool)
      modifies this
      ensures called <==> ProfileAcceptable(old(profileData))
      ensures !called ==> errors == ProfileErrors(old(profileData)) && errors != map[] && loading == old(loading)
      ensures called ==> !loading
      ensures called && result.Succeeded? ==> errors == map[] && successMessage == ProfileSaved
      ensures called && !result.Succeeded? ==> errors == FailureErrors(result, ProfileFailed)
      ensures !(called && result.Succeeded?) ==> successMessage == ""
      ensures profileData == old(profileData) && passwordData == old(passwordData)
      ensures districtsByCity == old(districtsByCity) && neighborhoodsByDistrict == old(neighborhoodsByDistrict)
    {
      errors := map[];
      successMessage := "";
      var validationErrors := ValidateProfileForm(profileData);
      called := validationErrors == map[];
      if !called {
        errors := validationErrors;
      } else {
        Settle(result, ProfileSaved, ProfileFailed);
      }
    }

    /** `handlePasswordSubmit`: `changePassword` is called only when the
        password form has no error; a success clears the three fields. */
    method HandlePasswordSubmit(result: ServerResult) returns (called: bool)
      modifies this
      ensures called <==> PasswordAcceptable(old(passwordData))
      ensures !called ==> errors == PasswordErrors(old(passwordData)) && errors != map[] && loading == old(loading)
      ensures called ==> !loading
      ensures called && result.Succeeded? ==>
        passwordData == PasswordCleared && errors == map[] && successMessage == PasswordChanged
      ensures called && !result.Succeeded? ==> errors == FailureErrors(result, PasswordFailed)
      ensures !(called && result.Succeeded?) ==> passwordData == old(passwordData) && successMessage == ""
      ensures profileData == old(profileData) && districtsByCity == old(districtsByCity)
      ensures neighborhoodsByDistrict == old(neighborhoodsByDistrict)
    {
      errors := map[];
      successMessage := "";
      var validationErrors := ValidatePasswordForm(passwordData);
      called := validationErrors == map[];
      if !called {
        errors := validationErrors;
      } else {
        Settle(result, PasswordChanged, PasswordFailed);
        if result.Succeeded? {
          passwordData := PasswordCleared;
        }
      }
    }
  }
}
