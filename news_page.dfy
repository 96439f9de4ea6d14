/** `UyelerdenHaberlerPage`: the members' news feed. Members post short
    texts, which appear on top of the list; a post can be deleted by its
    author or by anyone whose role is not `member`. The server calls are not
    made here: what each call returned is a parameter of its handler, and so
    is the answer to the confirmation dialog. */
module NewsPage {
  import opened Text
  import opened Wrappers
  import opened Feeds

  const LoadFailedPrefix := "Haberler yüklenirken bir hata oluştu: "
  const SubmitFailedPrefix := "Haber gönderilirken bir hata oluştu: "
  const DeleteFailed := "Haber silinirken bir hata oluştu."

  // ---------------------------------------------------------------------------
  // Relative dates
  // ---------------------------------------------------------------------------

  /** How `formatDate` words the age of a post. `OnDate` is the locale
      date the page falls back to after a week. */
  datatype Ago = JustNow | MinutesAgo(minutes: nat) | HoursAgo(hours: nat) | DaysAgo(days: nat) | OnDate

  /** `Math.floor((now - date) / 1000)` for two instants in milliseconds;
      division by a positive number rounds down here as `Math.floor` does. */
  function SecondsBetween(nowMs: int, dateMs: int): int {
    (nowMs - dateMs) / 1000
  }

  /** The seconds are whole seconds rounded down, also for a date in the
      future. */
  lemma SecondsBetweenFloor(nowMs: int, dateMs: int)
    ensures SecondsBetween(nowMs, dateMs) * 1000 <= nowMs - dateMs < (SecondsBetween(nowMs, dateMs) + 1) * 1000
    ensures nowMs < dateMs ==> SecondsBetween(nowMs, dateMs) < 0
  {
  }

  /** The bucket chain of `formatDate` on the age `d` in seconds. */
  function FormatDate(d: int): Ago {
    if d < 60 then JustNow
    else if d < 3600 then MinutesAgo(d / 60)
    else if d < 86400 then HoursAgo(d / 3600)
    else if d < 604800 then DaysAgo(d / 86400)
    else OnDate
  }

  /** Each age falls in exactly one bucket, fixed by its bounds; a date in
      the future reads as just now. */
  lemma FormatDateBuckets(d: int)
    ensures FormatDate(d).JustNow? <==> d < 60
    ensures FormatDate(d).MinutesAgo? <==> 60 <= d < 3600
    ensures FormatDate(d).HoursAgo? <==> 3600 <= d < 86400
    ensures FormatDate(d).DaysAgo? <==> 86400 <= d < 604800
    ensures FormatDate(d).OnDate? <==> 604800 <= d
  {
  }

  /** The number shown is the age in whole units, rounded down, and never
      reaches the next unit: 1..59 minutes, 1..23 hours, 1..6 days. */
  lemma FormatDateCount(d: int)
    ensures FormatDate(d).MinutesAgo? ==>
      var n := FormatDate(d).minutes; 1 <= n <= 59 && n * 60 <= d < (n + 1) * 60
    ensures FormatDate(d).HoursAgo? ==>
      var n := FormatDate(d).hours; 1 <= n <= 23 && n * 3600 <= d < (n + 1) * 3600
    ensures FormatDate(d).DaysAgo? ==>
      var n := FormatDate(d).days; 1 <= n <= 6 && n * 86400 <= d < (n + 1) * 86400
  {
  }

  /** The order of the buckets. */
  function Rank(a: Ago): nat {
    match a
    case JustNow => 0
    case MinutesAgo(_) => 1
    case HoursAgo(_) => 2
    case DaysAgo(_) => 3
    case OnDate => 4
  }

  /** An older post never reads as younger: its bucket is not earlier, and
      within one bucket its count is not smaller. */
  lemma FormatDateMonotone(d1: int, d2: int)
    requires d1 <= d2
    ensures Rank(FormatDate(d1)) <= Rank(FormatDate(d2))
    ensures FormatDate(d1).MinutesAgo? && FormatDate(d2).MinutesAgo? ==> FormatDate(d1).minutes <= FormatDate(d2).minutes
    ensures FormatDate(d1).HoursAgo? && FormatDate(d2).HoursAgo? ==> FormatDate(d1).hours <= FormatDate(d2).hours
    ensures FormatDate(d1).DaysAgo? && FormatDate(d2).DaysAgo? ==> FormatDate(d1).days <= FormatDate(d2).days
  {
  }

  /** The text shown for an age; `None` stands for the locale date, whose
      formatting is not part of this model. */
  function AgoText(a: Ago): (r: Option<string>)
    ensures r.None? <==> a.OnDate?
  {
    match a
    case JustNow => Some("Az önce")
    case MinutesAgo(n) => Some(NatToString(n) + " dakika önce")
    case HoursAgo(n) => Some(NatToString(n) + " saat önce")
    case DaysAgo(n) => Some(NatToString(n) + " gün önce")
    case OnDate => None
  }

  // ---------------------------------------------------------------------------
  // Who may delete
  // ---------------------------------------------------------------------------

  /** The condition under which a post shows its delete button. */
  predicate CanDelete(currentUser: Option<User>, item: Item) {
    currentUser.Some? && (currentUser.value.id == item.author || currentUser.value.role != "member")
  }

  /** Nobody signed in deletes nothing; a member deletes exactly their own
      posts; any other role deletes every post. */
  lemma DeleteRights(currentUser: Option<User>, item: Item)
    ensures currentUser.None? ==> !CanDelete(currentUser, item)
    ensures currentUser.Some? && currentUser.value.role == "member" ==>
      (CanDelete(currentUser, item) <==> currentUser.value.id == item.author)
    ensures currentUser.Some? && currentUser.value.role != "member" ==> CanDelete(currentUser, item)
  {
  }

  // ---------------------------------------------------------------------------
  // The page
  // ---------------------------------------------------------------------------

  /** The page's state and its handlers. */
  class NewsFeed {
    var news: seq<Item>
    var newPost: string
    var loading: bool
    var submitting: bool
    var error: Option<string>
    var currentUser: Option<User>

    constructor ()
      ensures news == [] && newPost == "" && loading && !submitting
      ensures error == None && currentUser == None
    {
      news := [];
      newPost := "";
      loading := true;
      submitting := false;
      error := None;
      currentUser := None;
    }

    /** `fetchCurrentUser`: a failure leaves the user unknown. */
    method UserFetched(response: Response<User>)
      modifies this
      ensures response.Ok? ==> currentUser == Some(response.data)
      ensures response.Err? ==> currentUser == old(currentUser)
      ensures news == old(news) && newPost == old(newPost) && error == old(error)
      ensures loading == old(loading) && submitting == old(submitting)
    {
      if response.Ok? {
        currentUser := Some(response.data);
      }
    }

    /** `fetchNews`: the list is replaced on success; a failure keeps it and
        shows why. */
    method FetchNews(response: Response<seq<Item>>)
      modifies this
      ensures !loading
      ensures response.Ok? ==> news == response.data && error == None
      ensures response.Err? ==>
        news == old(news) && error == Some(LoadFailedPrefix + ErrorMessage(response.failure))
      ensures newPost == old(newPost) && submitting == old(submitting) && currentUser == old(currentUser)
    {
      loading := true;
      match response {
        case Ok(data) =>
          news := data;
          error := None;
        case Err(f) =>
          error := Some(LoadFailedPrefix + ErrorMessage(f));
      }
      loading := false;
    }

    /** The text area's `onChange`. */
    method SetNewPost(value: string)
      modifies this
      ensures newPost == value
      ensures news == old(news) && error == old(error) && currentUser == old(currentUser)
      ensures loading == old(loading) && submitting == old(submitting)
    {
      newPost := value;
    }

    /** `handleSubmit`: a blank post is refused before anything is sent; a
        post the server accepted goes on top and the input is cleared; a
        failure keeps list and input and shows why. `sent` says whether the
        post was sent. */
    method HandleSubmit(response: Response<Item>) returns (sent: bool)
      modifies this
      ensures sent <==> !Blank(old(newPost))
      ensures !sent ==> news == old(news) && newPost == old(newPost) && error == old(error) && submitting == old(submitting)
      ensures sent ==> !submitting
      ensures sent && response.Ok? ==> news == [response.data] + old(news) && newPost == "" && error == None
      ensures sent && response.Err? ==>
        news == old(news) && newPost == old(newPost)
        && error == Some(SubmitFailedPrefix + ErrorMessage(response.failure))
      ensures loading == old(loading) && currentUser == old(currentUser)
    {
      BlankIffTrimEmpty(newPost);
      if Trim(newPost) == [] {
        sent := false;
        return;
      }
      sent := true;
      submitting := true;
      match response {
        case Ok(item) =>
          news := [item] + news;
          newPost := "";
          error := None;
        case Err(f) =>
          error := Some(SubmitFailedPrefix + ErrorMessage(f));
      }
      submitting := false;
    }

    /** `handleDelete`: nothing happens unless the user confirms; a delete
        the server accepted drops every post with that id. */
    method HandleDelete(newsId: int, confirmed: bool, deleted: bool)
      modifies this
      ensures !confirmed ==> news == old(news) && error == old(error)
      ensures confirmed && deleted ==> news == RemoveById(old(news), newsId) && error == None
      ensures confirmed && !deleted ==> news == old(news) && error == Some(DeleteFailed)
      ensures newPost == old(newPost) && currentUser == old(currentUser)
      ensures loading == old(loading) && submitting == old(submitting)
    {
      if !confirmed {
        return;
      }
      if deleted {
        news := RemoveById(news, newsId);
        error := None;
      } else {
        error := Some(DeleteFailed);
      }
    }
  }
}
