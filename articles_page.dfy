/** `MakalelerPage`: the articles page. Administrators publish titled
    articles, which appear on top of the list, and may delete them; a long
    article shows a "read more" button that expands it, one article at a
    time. As on the news page, server answers and the confirmation dialog
    are parameters of the handlers. */
module ArticlesPage {
  import opened Text
  import opened Wrappers
  import opened Feeds
  import NewsPage

  const LoadFailedPrefix := "Makaleler yüklenirken bir hata oluştu: "
  const SubmitFailedPrefix := "Makale gönderilirken bir hata oluştu: "
  const DeleteFailed := "Makale silinirken bir hata oluştu."

  /** The roles that may publish and delete articles. */
  predicate IsAdmin(role: string) {
    role == "admin" || role == "superadmin"
  }

  /** Whoever may manage articles may also delete every news post, while a
      plain member is no administrator. */
  lemma AdminsManageNews(u: User, item: Item)
    ensures IsAdmin(u.role) ==> NewsPage.CanDelete(Some(u), item)
    ensures u.role == "member" ==> !IsAdmin(u.role)
  {
    NewsPage.DeleteRights(Some(u), item);
  }

  /** Content longer than this many characters gets a "read more" button. */
  const ReadMoreLimit := 200

  /** Whether an article shows the "Devamını Oku" button. */
  predicate ShowsReadMore(content: string) {
    |content| > ReadMoreLimit
  }

  /** An article of up to 200 characters has no button; one more character
      gives it one. */
  lemma ReadMoreThreshold(content: string, c: char)
    ensures |content| <= 200 ==> !ShowsReadMore(content)
    ensures |content| == 200 ==> ShowsReadMore(content + [c])
  {
  }

  /** `toggleArticle`: the expanded article collapses when clicked again;
      any other click expands the clicked one. */
  function Toggle(expanded: Option<int>, articleId: int): Option<int> {
    if expanded == Some(articleId) then None else Some(articleId)
  }

  /** Whether an article is shown at full height. */
  predicate IsExpanded(expanded: Option<int>, articleId: int) {
    expanded == Some(articleId)
  }

  /** A click flips the clicked article and leaves every other article
      collapsed; so at most one article is ever expanded. */
  lemma ToggleFlips(expanded: Option<int>, articleId: int, other: int)
    ensures IsExpanded(Toggle(expanded, articleId), articleId) <==> !IsExpanded(expanded, articleId)
    ensures other != articleId ==> !IsExpanded(Toggle(expanded, articleId), other)
    ensures Toggle(expanded, articleId) == None <==> IsExpanded(expanded, articleId)
  {
  }

  /** Two clicks on the same article restore the previous state exactly
      when nothing or that article was expanded; in particular two clicks
      from the collapsed page collapse it again. */
  lemma ToggleTwice(expanded: Option<int>, articleId: int)
    ensures Toggle(Toggle(expanded, articleId), articleId) == expanded <==>
      (expanded.None? || expanded == Some(articleId))
    ensures Toggle(Toggle(None, articleId), articleId) == None
  {
  }

  /** The page's state and its handlers. */
  class ArticleFeed {
    var articles: seq<Item>
    var newTitle: string
    var newContent: string
    var loading: bool
    var submitting: bool
    var error: Option<string>
    var currentUser: Option<User>
    var isAdmin: bool
    var expandedArticle: Option<int>

    constructor ()
      ensures articles == [] && newTitle == "" && newContent == ""
      ensures loading && !submitting && error == None
      ensures currentUser == None && !isAdmin && expandedArticle == None
    {
      articles := [];
      newTitle := "";
      newContent := "";
      loading := true;
      submitting := false;
      error := None;
      currentUser := None;
      isAdmin := false;
      expandedArticle := None;
    }

    /** `fetchCurrentUser`: a profile that arrives decides whether the
        administrator's controls are shown; a failure changes nothing. */
    method UserFetched(response: Response<User>)
      modifies this
      ensures response.Ok? ==> currentUser == Some(response.data) && (isAdmin <==> IsAdmin(response.data.role))
      ensures response.Err? ==> currentUser == old(currentUser) && isAdmin == old(isAdmin)
      ensures articles == old(articles) && newTitle == old(newTitle) && newContent == old(newContent)
      ensures error == old(error) && loading == old(loading) && submitting == old(submitting)
      ensures expandedArticle == old(expandedArticle)
    {
      if response.Ok? {
        currentUser := Some(response.data);
        isAdmin := response.data.role == "admin" || response.data.role == "superadmin";
      }
    }

    /** `fetchArticles`. */
    method FetchArticles(response: Response<seq<Item>>)
      modifies this
      ensures !loading
      ensures response.Ok? ==> articles == response.data && error == None
      ensures response.Err? ==>
        articles == old(articles) && error == Some(LoadFailedPrefix + ErrorMessage(response.failure))
      ensures newTitle == old(newTitle) && newContent == old(newContent) && submitting == old(submitting)
      ensures currentUser == old(currentUser) && isAdmin == old(isAdmin) && expandedArticle == old(expandedArticle)
    {
      loading := true;
      match response {
        case Ok(data) =>
          articles := data;
          error := None;
        case Err(f) =>
          error := Some(LoadFailedPrefix + ErrorMessage(f));
      }
      loading := false;
    }

    /** The title input's `onChange`. */
    method SetNewTitle(value: string)
      modifies this
      ensures newTitle == value
      ensures articles == old(articles) && newContent == old(newContent) && error == old(error)
      ensures loading == old(loading) && submitting == old(submitting)
      ensures currentUser == old(currentUser) && isAdmin == old(isAdmin) && expandedArticle == old(expandedArticle)
    {
      newTitle := value;
    }

    /** The content area's `onChange`. */
    method SetNewContent(value: string)
      modifies this
      ensures newContent == value
      ensures articles == old(articles) && newTitle == old(newTitle) && error == old(error)
      ensures loading == old(loading) && submitting == old(submitting)
      ensures currentUser == old(currentUser) && isAdmin == old(isAdmin) && expandedArticle == old(expandedArticle)
    {
      newContent := value;
    }

    /** `handleSubmit`: nothing is sent unless both title and content have
        some non-blank text; an accepted article goes on top and both inputs
        are cleared; a failure keeps list and inputs and shows why. */
    method HandleSubmit(response: Response<Item>) returns (sent: bool)
      modifies this
      ensures sent <==> !Blank(old(newTitle)) && !Blank(old(newContent))
      ensures !sent ==>
        articles == old(articles) && newTitle == old(newTitle) && newContent == old(newContent)
        && error == old(error) && submitting == old(submitting)
      ensures sent ==> !submitting
      ensures sent && response.Ok? ==>
        articles == [response.data] + old(articles) && newTitle == "" && newContent == "" && error == None
      ensures sent && response.Err? ==>
        articles == old(articles) && newTitle == old(newTitle) && newContent == old(newContent)
        && error == Some(SubmitFailedPrefix + ErrorMessage(response.failure))
      ensures loading == old(loading) && currentUser == old(currentUser)
      ensures isAdmin == old(isAdmin) && expandedArticle == old(expandedArticle)
    {
      BlankIffTrimEmpty(newTitle);
      BlankIffTrimEmpty(newContent);
      if Trim(newTitle) == [] || Trim(newContent) == [] {
        sent := false;
        return;
      }
      sent := true;
      submitting := true;
      match response {
        case Ok(article) =>
          articles := [article] + articles;
          newTitle := "";
          newContent := "";
          error := None;
        case Err(f) =>
          error := Some(SubmitFailedPrefix + ErrorMessage(f));
      }
      submitting := false;
    }

    /** `handleDelete`: nothing happens unless the user confirms; a delete
        the server accepted drops every article with that id. */
    method HandleDelete(articleId: int, confirmed: bool, deleted: bool)
      modifies this
      ensures !confirmed ==> articles == old(articles) && error == old(error)
      ensures confirmed && deleted ==> articles == RemoveById(old(articles), articleId) && error == None
      ensures confirmed && !deleted ==> articles == old(articles) && error == Some(DeleteFailed)
      ensures newTitle == old(newTitle) && newContent == old(newContent)
      ensures loading == old(loading) && submitting == old(submitting)
      ensures currentUser == old(currentUser) && isAdmin == old(isAdmin) && expandedArticle == old(expandedArticle)
    {
      if !confirmed {
        return;
      }
      if deleted {
        articles := RemoveById(articles, articleId);
        error := None;
      } else {
        error := Some(DeleteFailed);
      }
    }

    /** `toggleArticle`. */
    method ToggleArticle(articleId: int)
      modifies this
      ensures expandedArticle == Toggle(old(expandedArticle), articleId)
      ensures expandedArticle == None <==> old(expandedArticle) == Some(articleId)
      ensures articles == old(articles) && newTitle == old(newTitle) && newContent == old(newContent)
      ensures error == old(error) && loading == old(loading) && submitting == old(submitting)
      ensures currentUser == old(currentUser) && isAdmin == old(isAdmin)
    {
      expandedArticle := if expandedArticle == Some(articleId) then None else Some(articleId);
    }
  }
}
