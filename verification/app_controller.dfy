/** The web controller: each handled request of an authenticated user,
    what page or redirect it answers with, and what it does to the two
    tables and to the post service's recorded criterion.

    The authorities of the signed-in user are a parameter; the two
    client-form pages require the exact authority `ROLE_ADMIN`, as their
    method-security annotation says, and answer with the access-denied
    page otherwise. */
module AppController {
  import opened Results
  import opened Posts
  import opened ClientRepository
  import ClientService
  import BlogService
  import BlogRepository
  import UserDetails
  import Strs
  import Tables

  /** Everything the handlers read or change: the two tables and the
      post service's last-criterion fields. */
  datatype AppState = AppState(
    clients: Tables.Table<Client>,
    posts: Tables.Table<Blog>,
    search: BlogService.SearchState)

  /** The handled requests, with their bound parameters. */
  datatype Request =
    | Home(keyword: Option<string>)                    // GET /
    | BlogSearch(criteria: BlogService.PostCriteria)   // GET /blog
    | NewPostForm                                      // GET /new_post
    | SavePost(blog: Blog)                             // POST /save_post
    | NewClientForm                                    // GET /new
    | SaveClient(client: Client)                       // POST /save
    | EditClientForm(id: int)                          // GET /edit/{id}
    | DeleteClient(id: int)                            // GET /delete/{id}
    | DeletePost(postId: int)                          // GET /delete_post/{post_id}

  /** The rendered view with its model attributes, or a redirect. */
  datatype Response =
    | Index(listClients: seq<Client>, keyword: Option<string>)
    | BlogPage(listPosts: seq<Blog>, echo: Option<(string, Option<string>)>)
    | NewPostPage(blog: Blog)
    | NewClientPage(client: Client)
    | EditClientPage(client: Client)
    | Redirect(path: string)
    | AccessDenied
    | LookupFailed(error: Tables.LookupError)

  datatype Outcome = Outcome(response: Response, state: AppState)

  const Admin := "ROLE_ADMIN"

  /** The two handlers behind `hasAuthority('ROLE_ADMIN')`. */
  predicate Gated(req: Request) {
    req.NewClientForm? || req.EditClientForm?
  }

  /** `searchBlog`: the posts of the search, and, once some criterion has
      been recorded, an attribute named by its label holding its value.
      Only stored posts are listed, and from a well-formed state the echo
      is one of the six labels with a non-empty value. */
  function SearchBlog(st: AppState, c: BlogService.PostCriteria): (r: Outcome)
    ensures r.state.clients == st.clients && r.state.posts == st.posts
    ensures r.response.BlogPage?
    ensures forall i :: 0 <= i < |r.response.listPosts| ==> r.response.listPosts[i] in st.posts.rows
    ensures multiset(r.response.listPosts) <= multiset(st.posts.rows)
    ensures BlogService.ValidState(st.search) && r.response.echo.Some? ==>
      (exists q :: r.response.echo.value.0 == BlogService.Label(q)) && BlogService.Present(r.response.echo.value.1)
  {
    BlogService.SearchKeepsStateValid(st.posts.rows, st.search, c);
    var out := BlogService.ListByPostCriteria(st.posts.rows, st.search, c);
    var echo := match out.state.keywordName
      case None => None
      case Some(name) => Some((name, out.state.keyword));
    Outcome(BlogPage(out.posts, echo), st.(search := out.state))
  }

  /** One request of a user holding `auths`. */
  function Handle(auths: seq<string>, st: AppState, req: Request): (r: Outcome)
    ensures r.response == AccessDenied <==> Gated(req) && Admin !in auths
    ensures r.response == AccessDenied ==> r.state == st
  {
    if Gated(req) && Admin !in auths then Outcome(AccessDenied, st)
    else
      match req
      case Home(k) => Outcome(Index(ClientService.ListAll(st.clients, k), k), st)
      case BlogSearch(c) => SearchBlog(st, c)
      case NewPostForm => Outcome(NewPostPage(NewBlog()), st)
      case SavePost(b) => Outcome(Redirect("/blog"), st.(posts := BlogService.Save(st.posts, b)))
      case NewClientForm => Outcome(NewClientPage(NewClient()), st)
      case SaveClient(c) => Outcome(Redirect("/"), st.(clients := ClientService.Save(st.clients, c)))
      case EditClientForm(id) =>
        (match ClientService.Get(st.clients, id)
         case Success(c) => Outcome(EditClientPage(c), st)
         case Failure(e) => Outcome(LookupFailed(e), st))
      case DeleteClient(id) => Outcome(Redirect("/"), st.(clients := ClientService.Delete(st.clients, id)))
      case DeletePost(id) => Outcome(Redirect("/blog"), st.(posts := BlogService.Delete(st.posts, id)))
  }

  /** Only the two client-form pages look at the authorities; every other
      handler does the same for every user. */
  lemma OnlyFormsChecked(a: seq<string>, b: seq<string>, st: AppState, req: Request)
    requires !Gated(req)
    ensures Handle(a, st, req) == Handle(b, st, req)
  {
  }

  /** An admin gets the gated pages: the empty client form, or the stored
      client to edit, or the lookup failure for an unknown id. */
  lemma AdminPassesGate(auths: seq<string>, st: AppState, req: Request)
    requires Admin in auths && Gated(req)
    ensures req.NewClientForm? ==> Handle(auths, st, req) == Outcome(NewClientPage(NewClient()), st)
    ensures req.EditClientForm? ==>
      match ClientService.Get(st.clients, req.id)
      case Success(c) => Handle(auths, st, req) == Outcome(EditClientPage(c), st)
      case Failure(e) => Handle(auths, st, req) == Outcome(LookupFailed(e), st)
  {
  }

  /** A user whose roles split into "ROLE_USER" and " ROLE_ADMIN", as
      "ROLE_USER, ROLE_ADMIN" does, holds " ROLE_ADMIN", not `ROLE_ADMIN`,
      and is refused the gated pages. */
  lemma SpacedRolesRefused(users: seq<UserDetails.UserInfo>, i: int, st: AppState, req: Request)
    requires 0 <= i < |users| && UserDetails.Split(users[i].roles) == ["ROLE_USER", " ROLE_ADMIN"]
    requires forall j :: 0 <= j < |users| && j != i ==> users[j].name != users[i].name
    requires Gated(req)
    ensures UserDetails.LoadUserByUsername(users, users[i].name).Success?
    ensures Handle(UserDetails.LoadUserByUsername(users, users[i].name).value.authorities, st, req).response == AccessDenied
  {
    UserDetails.LoadFindsStoredUser(users, i);
    UserDetails.SpacedRolesDetails(users[i]);
  }

  /** The blog page lists exactly what the post search returns and echoes
      the criterion recorded after it, if any. */
  lemma BlogPageEchoesRecorded(auths: seq<string>, st: AppState, c: BlogService.PostCriteria)
    ensures var out := BlogService.ListByPostCriteria(st.posts.rows, st.search, c);
      var r := Handle(auths, st, BlogSearch(c));
      && r.response.BlogPage?
      && r.response.listPosts == out.posts
      && (r.response.echo.Some? <==> out.state.keywordName.Some?)
      && (r.response.echo.Some? ==> r.response.echo.value == (out.state.keywordName.value, out.state.keyword))
      && r.state == st.(search := out.state)
  {
  }

  /** A present criterion is echoed under its own label with its own
      value; here the id criterion, the highest priority. */
  lemma IdCriterionEchoed(auths: seq<string>, st: AppState, c: BlogService.PostCriteria)
    requires BlogService.Present(c.keywordId)
    ensures Handle(auths, st, BlogSearch(c)).response ==
      BlogPage(BlogRepository.SearchPostById(st.posts.rows, c.keywordId.value), Some(("keywordId", c.keywordId)))
  {
  }

  /** Before any criterion has fired nothing is echoed. */
  lemma NoEchoAtFirst(auths: seq<string>, st: AppState, c: BlogService.PostCriteria)
    requires st.search == BlogService.Initial
    requires BlogService.NonePresent(c)
    ensures Handle(auths, st, BlogSearch(c)).response == BlogPage(st.posts.rows, None)
  {
  }

  /** The all-empty search does not reset the recorded criterion, so it
      lists every post and still echoes the criterion of an earlier
      search. */
  lemma StaleEcho(auths: seq<string>, st: AppState, c1: BlogService.PostCriteria, c2: BlogService.PostCriteria, i: int)
    requires BlogService.FiresAt(BlogService.Slots(c1), i)
    requires BlogService.NonePresent(c2)
    ensures var first := Handle(auths, st, BlogSearch(c1));
      var second := Handle(auths, first.state, BlogSearch(c2));
      second.response == BlogPage(st.posts.rows,
        Some((BlogService.Label(BlogService.Slots(c1)[i].0), BlogService.Slots(c1)[i].1)))
  {
    BlogService.FiringSlotDecides(st.posts.rows, st.search, c1, i);
  }

  /** The home page is open to every user, stores nothing and hands the
      keyword back unchanged. Without a keyword it lists every stored
      client; with one, exactly the stored clients whose searched columns
      are non-null and, glued together, contain it. */
  lemma HomeEchoesKeyword(auths: seq<string>, st: AppState, k: Option<string>)
    ensures var r := Handle(auths, st, Home(k));
      && r.state == st && r.response.Index? && r.response.keyword == k
      && (k.None? ==> r.response.listClients == st.clients.rows)
      && (k.Some? ==> forall c :: c in r.response.listClients <==>
            c in st.clients.rows && SearchableNonNull(c) && Strs.Contains(SearchText(c), k.value))
  {
    var r := Handle(auths, st, Home(k));
    if k.Some? {
      forall c ensures c in r.response.listClients <==>
        c in st.clients.rows && SearchableNonNull(c) && Strs.Contains(SearchText(c), k.value)
      {
        if c in r.response.listClients {
          var i :| 0 <= i < |r.response.listClients| && r.response.listClients[i] == c;
        }
        if c in st.clients.rows {
          var i :| 0 <= i < |st.clients.rows| && st.clients.rows[i] == c;
        }
      }
    }
  }

  /** The tables and the recorded criterion stay well formed whatever is
      handled. */
  ghost predicate ValidApp(st: AppState) {
    && Tables.Valid(st.clients, ClientRepository.IdOf)
    && Tables.Valid(st.posts, Posts.IdOf)
    && BlogService.ValidState(st.search)
  }

  /** The application starts with both tables empty, both counters at 1
      and no criterion recorded, which is well formed. */
  lemma InitialValid()
    ensures ValidApp(AppState(Tables.Table([], 1), Tables.Table([], 1), BlogService.Initial))
  {
  }

  lemma HandlePreservesValid(auths: seq<string>, st: AppState, req: Request)
    requires ValidApp(st)
    ensures ValidApp(Handle(auths, st, req).state)
  {
    match req
    case BlogSearch(c) =>
      BlogService.SearchKeepsStateValid(st.posts.rows, st.search, c);
    case DeleteClient(id) =>
      Tables.DeletePreservesValid(st.clients, ClientRepository.IdOf, id);
    case DeletePost(id) =>
      Tables.DeletePreservesValid(st.posts, Posts.IdOf, id);
    case _ =>
  }
}
