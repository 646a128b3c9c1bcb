# Barbershop web app: searches, stores, role parsing and controller

A Dafny model of the decision logic of a small Spring barbershop site.
The site keeps clients and blog posts. It searches both with SQL `LIKE '%k%'` queries.
It turns a user's comma-separated roles string into authorities, and refuses a blank one.
It routes each page request to the services.

The model is functional:

- Every entity is an immutable datatype. Every nullable Java field is an `Option`.
- The database is a `Table` holding a sequence of rows plus an identity counter.
- The post service's two "last criterion" fields are an explicit `SearchState`. It is passed into each search and returned with the result.
- The controller is one function from (authorities, state, request) to (response, state).

Modules, in dependency order:

- `Results` holds `Option` and `Result`.
- `Strs` holds the string semantics the queries rely on:
  - substring matching, with a recursive definition and an index-based one proved equal;
  - the decimal rendering of a `Long` id, with its parse round trip;
  - SQL `CONCAT`, which is NULL as soon as one argument is NULL;
  - Java's `"null"` rendering of a null reference.
- `Seqs` holds an order-preserving `Filter` and its facts.
- `Tables` holds the repository operations `findById(..).get()`, `deleteById` and `save`.
- `Posts` holds the post entity, its accessors and `toString`.
- `BlogRepository` holds the six post queries.
- `BlogService` holds the priority-ordered search and the post CRUD pass-throughs.
- `ClientRepository` holds the client entity and its one query.
- `ClientService` holds `listAll` and the client CRUD pass-throughs.
- `UserDetails` holds `split(",")`, the security view of a user with its refusal of blank authorities, and the lookup by name.
- `AppController` holds the request handlers and the `ROLE_ADMIN` gate.

## Model

Three predicates are helpers without a row of their own; what they model is stated through the members that use them:

- `BlogService.Present` is `!StringUtil.isNullOrEmpty` (BlogService.java:84-109). `BlogService.NullIfEmpty` and `BlogService.EmptyIsAbsent` state it.
- `Strs.Contains` is the `LIKE '%k%'` test of the repository queries. `Strs.ContainsIffOccurs` states it.
- `BlogService.ValidState` states what the service's two fields can hold. `BlogService.SearchKeepsStateValid` keeps it.

| member | source | states |
|---|---|---|
| BlogService.ListByPostCriteria | demo00/src/main/java/com/example/blog/BlogService.java:81-115 | Only stored posts are listed, each at most as often as it is stored. When any criterion is present, one of the six labels is recorded with a non-empty value. With every criterion null or empty, every post is listed and the recorded criterion stays as it was. |
| BlogService.ChainIsDispatch | demo00/src/main/java/com/example/blog/BlogService.java:84-114 | The chain of tests equals a first match over the table of (query, parameter) slots in the order id, post name, date, text, client name, keyword. The matched query runs on its value and its label is recorded. With no match, every post is listed and the state is kept. |
| BlogService.FiringSlotDecides | demo00/src/main/java/com/example/blog/BlogService.java:84-113 | When slot `i` is the first slot with a present parameter, the result is that slot's query run on its value, with its label and value recorded. |
| BlogService.FirstPresent | demo00/src/main/java/com/example/blog/BlogService.java:84-114 | The first-match dispatch returns nothing exactly when no slot's argument is present. Otherwise it returns the query and value of a slot whose argument is present and all of whose predecessors are absent. |
| BlogService.HighestPriorityAlone | demo00/src/main/java/com/example/blog/BlogService.java:84-113 | With several criteria present, the result and the new state equal those of a call carrying only the highest-priority criterion. |
| BlogService.LaterCriteriaIgnored | demo00/src/main/java/com/example/blog/BlogService.java:84-113 | Criteria after the one that fires may be changed in any way without changing the posts or the recorded criterion. |
| BlogService.EmptyIsAbsent | demo00/src/main/java/com/example/blog/BlogService.java:84-109 | Replacing every empty parameter by null gives the same outcome: `""` never selects a branch. |
| BlogService.SearchKeepsStateValid | demo00/src/main/java/com/example/blog/BlogService.java:31-32 | The recorded label is either null together with a null value, or one of the six labels together with a non-empty value. |
| BlogService.Get | demo00/src/main/java/com/example/blog/BlogService.java:61-63 | Succeeds exactly when a stored post has that id, and returns such a post. Otherwise it fails with `NoSuchElement` rather than returning null. |
| BlogService.Delete | demo00/src/main/java/com/example/blog/BlogService.java:68-70 | No post with that id is left. Every other post stays. No post is added or duplicated. The id counter is unchanged. |
| BlogService.Save | demo00/src/main/java/com/example/blog/BlogService.java:53-55 | A post with a stored id replaces that record in place. Every other row and the counter are unchanged, and reading the id back gives the post. Any other post is appended once under the counter's id, after the unchanged old rows, and the counter advances. The table stays well formed. |
| BlogRepository.SearchPostById | demo00/src/main/java/com/example/blog/BlogRepository.java:29-30 | Exactly the stored posts whose decimal id contains the keyword. |
| BlogRepository.SearchPostByName | demo00/src/main/java/com/example/blog/BlogRepository.java:36-37 | Exactly the stored posts whose non-null post name contains the keyword. |
| BlogRepository.SearchPostByDate | demo00/src/main/java/com/example/blog/BlogRepository.java:43-44 | Exactly the stored posts whose non-null publish date contains the keyword. |
| BlogRepository.SearchPostByText | demo00/src/main/java/com/example/blog/BlogRepository.java:50-51 | Exactly the stored posts whose non-null text contains the keyword. |
| BlogRepository.SearchPostByClientName | demo00/src/main/java/com/example/blog/BlogRepository.java:57-58 | Exactly the stored posts whose non-null client name contains the keyword. |
| BlogRepository.SearchPostByKeyword | demo00/src/main/java/com/example/blog/BlogRepository.java:64-65 | Exactly the stored posts with no null searchable column whose id, name, date, text and client name, glued together without separators, contain the keyword. |
| BlogRepository.Run | demo00/src/main/java/com/example/blog/BlogRepository.java:23-65 | Every query's result holds only stored posts, each at most as often as it is stored. |
| Strs.SqlConcatFive | demo00/src/main/java/com/example/blog/BlogRepository.java:64 | A five-column CONCAT with `''` between the columns is the columns glued together when none is null, and null otherwise. |
| BlogRepository.KeywordConcatIsPlain | demo00/src/main/java/com/example/blog/BlogRepository.java:64 | The `''` separators add nothing to the CONCAT. A null column makes the whole CONCAT null. |
| BlogRepository.SearchIgnoresLinks | demo00/src/main/java/com/example/blog/BlogRepository.java:29-65 | Posts differing only in `vk_link` and `link` get the same results, up to those two columns. |
| BlogRepository.ColumnSearchWithinKeywordSearch | demo00/src/main/java/com/example/blog/BlogRepository.java:29-65 | A single-column result without null searchable columns is also in the keyword query's result. |
| BlogRepository.KeywordMatchMayStraddle | demo00/src/main/java/com/example/blog/BlogRepository.java:64 | A keyword made of the end of the post name and the start of the publish date matches. |
| BlogRepository.NullColumnEscapesKeywordSearch | demo00/src/main/java/com/example/blog/BlogRepository.java:36-65 | A post with a null text is found by name but not by the keyword query. |
| Posts.NewBlog | demo00/src/main/java/com/example/blog/Blog.java:33-58 | A new post has all seven columns null. |
| Posts.SetField | demo00/src/main/java/com/example/blog/Blog.java:41-102 | A text column's getter returns what its setter stored. Every other column and the id are unchanged. |
| Posts.SetPostId | demo00/src/main/java/com/example/blog/Blog.java:69-71 | The id setter changes the id and no text column. |
| Posts.ToString | demo00/src/main/java/com/example/blog/Blog.java:108-112 | The rendering starts `post [post_id=<id>, post_name=` and ends with `]`. |
| Posts.ToStringIgnoresLinks | demo00/src/main/java/com/example/blog/Blog.java:108-112 | The two link columns do not affect the rendering. |
| Posts.ToStringDeterminesId | demo00/src/main/java/com/example/blog/Blog.java:110 | Two posts that render alike have the same id, null included. |
| ClientRepository.Search | demo00/src/main/java/com/example/client/ClientRepository.java:29-30 | Exactly the stored clients with no null searched column whose id, full name, visit date, service and master name, glued together, contain the keyword. Each appears at most as often as it is stored. |
| ClientRepository.SearchConcatIsPlain | demo00/src/main/java/com/example/client/ClientRepository.java:29 | The `''` separators add nothing to the CONCAT. A null column makes the whole CONCAT null. |
| ClientRepository.SearchEmptyKeyword | demo00/src/main/java/com/example/client/ClientRepository.java:29 | The empty keyword finds every client without null columns. With no client holding a null column, it lists all clients in order. |
| ClientRepository.SearchMayStraddle | demo00/src/main/java/com/example/client/ClientRepository.java:29 | A keyword spanning the end of the full name and the start of the visit date matches. |
| ClientRepository.NameFound | demo00/src/main/java/com/example/client/ClientRepository.java:29 | A client without null searched columns whose full name contains the keyword matches the query. |
| ClientRepository.LetterMissing | demo00/src/main/java/com/example/client/ClientRepository.java:29 | A client none of whose five columns holds some letter of the keyword does not match. |
| ClientRepository.SearchExample | demo00/src/main/java/com/example/client/ClientRepository.java:29-30 | Of "Ann Lee" and "Bo Ray", the keyword "Lee" finds only the first. |
| ClientService.ListAll | demo00/src/main/java/com/example/client/ClientService.java:30-35 | A null keyword lists every stored client. Any other keyword, including `""`, lists exactly the stored clients the CONCAT search matches. |
| ClientService.ListAllWithinAll | demo00/src/main/java/com/example/client/ClientService.java:30-35 | Every listing is contained, counting repeats, in the listing for the null keyword. |
| ClientService.EmptyKeywordListsAll | demo00/src/main/java/com/example/client/ClientService.java:31-33 | The empty keyword lists every client without null columns. With no client holding a null column, it lists the same as no keyword. |
| ClientService.EmptyKeywordDropsNullColumns | demo00/src/main/java/com/example/client/ClientService.java:31-34 | A client with a null searched column is listed without a keyword but not with `""`. |
| ClientService.Get | demo00/src/main/java/com/example/client/ClientService.java:49-51 | Succeeds exactly when a stored client has that id, and returns such a client. Otherwise it fails with `NoSuchElement`. |
| ClientService.Delete | demo00/src/main/java/com/example/client/ClientService.java:56-58 | No client with that id is left. Every other client stays. No client is added or duplicated. The id counter is unchanged. |
| ClientService.Save | demo00/src/main/java/com/example/client/ClientService.java:41-43 | A client with a stored id replaces that record in place. Every other row and the counter are unchanged, and reading the id back gives the client. Any other client is appended once under the counter's id, after the unchanged old rows, and the counter advances. The table stays well formed. |
| Tables.Get | demo00/src/main/java/com/example/client/ClientService.java:50 | `findById(id).get()` succeeds exactly when some row has that id and returns such a row. Otherwise it fails with `NoSuchElement`. |
| Tables.DeleteById | demo00/src/main/java/com/example/client/ClientService.java:57 | Removes every row with that id and keeps every other row. |
| Tables.DeleteAbsentIsNoOp | demo00/src/main/java/com/example/blog/BlogService.java:69 | Deleting an id that is not stored leaves the table as it is. |
| Tables.DeletePreservesValid | demo00/src/main/java/com/example/blog/BlogService.java:69 | After a delete, ids stay distinct and below the counter. |
| Tables.DeleteIdempotent | demo00/src/main/java/com/example/blog/BlogService.java:68-69 | Deleting the same id a second time changes nothing more: the table after two deletes is the table after one. |
| Tables.Save | demo00/src/main/java/com/example/blog/BlogService.java:54 | `save` with a stored id overwrites that row in place and leaves the other rows alone. Any other save appends the row under the counter's id and advances the counter. |
| Tables.SaveThenGet | demo00/src/main/java/com/example/blog/BlogService.java:53-63 | After a save, `findById` returns the saved row: under its own id for an update, under the new id for an insert. |
| UserDetails.Split | demo00/src/main/java/com/example/config/UserInfoUserDetails.java:34 | `split(",")` tokens contain no comma. A string without a comma is its own single token, so `""` gives one empty token. Otherwise the tokens are the pieces between commas with the trailing empty pieces dropped, and only those, so the last token is not empty. |
| UserDetails.JoinRawSplit | demo00/src/main/java/com/example/config/UserInfoUserDetails.java:34 | The pieces between commas, glued back with commas, give the original string. |
| UserDetails.SplitJoinRoundTrip | demo00/src/main/java/com/example/config/UserInfoUserDetails.java:34-36 | Joining the authorities with commas gives the roles string back exactly when it does not end with a comma. |
| UserDetails.SplitJoinTrailing | demo00/src/main/java/com/example/config/UserInfoUserDetails.java:34 | A roles string with a comma that ends in a comma does not come back when its tokens are joined, because the trailing empty token is dropped. |
| UserDetails.SplitDropsTrailing | demo00/src/main/java/com/example/config/UserInfoUserDetails.java:34 | `a + ","` splits to `a` alone, for every non-empty comma-free `a`. |
| UserDetails.SplitDoubleComma | demo00/src/main/java/com/example/config/UserInfoUserDetails.java:34 | A doubled comma between two tokens leaves an empty token between them. |
| UserDetails.SplitKeepsSpaces | demo00/src/main/java/com/example/config/UserInfoUserDetails.java:34 | `"ROLE_USER, ROLE_ADMIN"` yields `"ROLE_USER"` and `" ROLE_ADMIN"`, untrimmed, so not `ROLE_ADMIN`. |
| UserDetails.SpacedRolesDetails | demo00/src/main/java/com/example/config/UserInfoUserDetails.java:31-37 | Roles that split into `"ROLE_USER"` and the untrimmed `" ROLE_ADMIN"`, as `"ROLE_USER, ROLE_ADMIN"` does, build details holding exactly those two authorities, and not `ROLE_ADMIN`. |
| UserDetails.FromUserInfo | demo00/src/main/java/com/example/config/UserInfoUserDetails.java:31-93 | Construction fails with the authority constructor's `IllegalArgumentException` exactly when some token of `roles.split(",")` is empty or whitespace only. Otherwise name and password are kept, and the authorities are the split tokens: the pieces between commas, less trailing empty ones. They join back to a roles string without a trailing comma. All four status flags are true. |
| UserDetails.EmptyRolesRefused | demo00/src/main/java/com/example/config/UserInfoUserDetails.java:34-36 | An empty roles column splits into one empty token, so building the details fails with the blank-authority error. |
| UserDetails.DoubledCommaRefused | demo00/src/main/java/com/example/config/UserInfoUserDetails.java:34-36 | Roles with a doubled comma between two tokens, such as `"ROLE_USER,,ROLE_ADMIN"`, make the construction fail. |
| UserDetails.BlankLastRefused | demo00/src/main/java/com/example/config/UserInfoUserDetails.java:34-36 | Roles whose last token is whitespace only, such as `"ROLE_ADMIN, "`, make the construction fail: the split keeps that token. |
| UserDetails.TwoTokensDetails | demo00/src/main/java/com/example/config/UserInfoUserDetails.java:31-37 | Roles splitting into two tokens with text build details holding exactly those two authorities, with the stored name and password. |
| UserDetails.LoadUserByUsername | demo00/src/main/java/com/example/config/UserInfoUserDetailsService.java:34-36 | A success, or a blank-authority failure, is what building the details of a stored user with exactly that name gives. With no such user it is the failure `user not found <name>`, and only then. With two or more such users the lookup fails with `NotUnique`, and only then. |
| UserDetails.Named | demo00/src/main/java/com/example/config/UserInfoRepository.java:22 | `findByName` finds exactly the stored users whose name equals the given one. It yields their positions in increasing storage order, each once. |
| UserDetails.LoadFindsStoredUser | demo00/src/main/java/com/example/config/UserInfoUserDetailsService.java:34-35 | For a user whose name is unique, loading gives exactly what building that user's details gives: its own password and roles' tokens, or the blank-token failure. |
| UserDetails.EmptyRolesFailLoad | demo00/src/main/java/com/example/config/UserInfoUserDetailsService.java:34-35 | A uniquely named user with an empty roles column cannot be loaded: the lookup fails with the blank-authority error. |
| AppController.Handle | demo00/src/main/java/com/example/AppController.java:153-182 | The answer is access denied exactly when the request is one of the two client-form pages and the user lacks the exact `ROLE_ADMIN` authority. A denied request changes nothing. |
| AppController.SearchBlog | demo00/src/main/java/com/example/AppController.java:58-73 | The blog page lists only stored posts, each at most as often as it is stored, and leaves both tables unchanged. From a well-formed state the echoed attribute, if any, is one of the six labels with a non-empty value. The exact echo is stated in `AppController.BlogPageEchoesRecorded`. |
| AppController.OnlyFormsChecked | demo00/src/main/java/com/example/AppController.java:91-214 | Every handler other than the two client forms gives the same answer and state for any authorities. |
| AppController.AdminPassesGate | demo00/src/main/java/com/example/AppController.java:153-182 | An admin gets the empty client form, or the stored client to edit, or the lookup failure for an unknown id. |
| AppController.SpacedRolesRefused | demo00/src/main/java/com/example/AppController.java:153-176 | A uniquely named user whose roles split into `"ROLE_USER"` and `" ROLE_ADMIN"`, as `"ROLE_USER, ROLE_ADMIN"` does, is found, but is refused both client-form pages. |
| AppController.BlogPageEchoesRecorded | demo00/src/main/java/com/example/AppController.java:65-71 | The blog page lists exactly the search's posts. It echoes a (label, value) pair exactly when a label is recorded after the search. |
| AppController.IdCriterionEchoed | demo00/src/main/java/com/example/AppController.java:65-71 | A present id criterion gives the id search's posts and the echo `keywordId` with that value. |
| AppController.NoEchoAtFirst | demo00/src/main/java/com/example/AppController.java:68-69 | Before any criterion has fired, an empty search lists every post and echoes nothing. |
| AppController.StaleEcho | demo00/src/main/java/com/example/AppController.java:68-71 | After a search where some criterion fired, an all-empty search lists every post. It still echoes the earlier criterion's label and value. |
| AppController.HomeEchoesKeyword | demo00/src/main/java/com/example/AppController.java:131-138 | The home page is open to every user, stores nothing and echoes the keyword unchanged. Without a keyword it lists every stored client. With one, it lists exactly the stored clients whose searched columns are non-null and, glued together, contain the keyword. |
| AppController.InitialValid | demo00/src/main/java/com/example/blog/BlogService.java:31-32 | The starting state is well formed: both tables are empty with their counters at 1, and no criterion is recorded. This anchors the preservation lemma. |
| AppController.HandlePreservesValid | demo00/src/main/java/com/example/AppController.java:91-214 | Every handler keeps both tables' ids distinct and below their counters, and keeps the recorded criterion well formed. |
| Strs.ContainsIffOccurs | demo00/src/main/java/com/example/blog/BlogRepository.java:36 | The recursive substring test holds exactly when the keyword occurs at some index. |
| Strs.DecimalRoundTrip | demo00/src/main/java/com/example/blog/BlogRepository.java:29 | The decimal rendering of an id parses back to that id. |
| Strs.SqlConcat | demo00/src/main/java/com/example/blog/BlogRepository.java:64 | The CONCAT is non-null exactly when every argument is non-null. |
| Seqs.Filter | demo00/src/main/java/com/example/blog/BlogRepository.java:23-65 | Every element of the result passes the test. Every element of the input that passes is in the result. The result is a sub-multiset of the input, so nothing is invented or duplicated. |
| Seqs.FilterWithin | demo00/src/main/java/com/example/blog/BlogRepository.java:23-65 | Every element of a filter's result occurs in its input. |
| Seqs.FilterKeepsOrder | demo00/src/main/java/com/example/blog/BlogRepository.java:23-65 | Elements of a filter's result come from strictly increasing source positions. |

## Left out

- The Spring Security filter chain in `SecurityConfig.java` is left out: path zoning, form login, logout, session cookies, and the redirect to the 403 page. The controller models an authenticated user holding the authorities passed in. A refused request answers `AccessDenied`.
- Password hashing (BCrypt) and user registration (`UserService.addUser`, the `/auth/register` handlers) are left out, because the hash is a foreign one-way function. The stored password is treated as opaque text.
- `LIKE` wildcards and collation are left out. `%` and `_` inside a keyword are read literally, and matching is case-sensitive. With a case-insensitive collation the real queries find more rows.
- UserDetails.Named: the user lookup `findByName` compares names exactly. Under a case- or accent-insensitive collation the database's equality test matches more names, so a lookup may find a user, or more than one, where the model finds none.
- Requests are modelled one at a time: `AppController.Handle` runs each request atomically. `BlogService` is a singleton whose two criterion fields are written during the search and read back by the controller in a separate step, without synchronisation. Interleaved requests, where the echoed label and value come from another request or mix two, are not modelled.
- Result order is kept as storage order. The queries carry no `ORDER BY`, so the database may return rows in any order; the contracts that matter are stated as membership.
- NULL inside `CONCAT` follows the SQL standard: any null argument makes the whole CONCAT null, so that row never matches. Some databases read NULL as `''` instead, and would then match such rows.
- Ids are unbounded integers. The 64-bit range of `Long` and the identity counter's overflow are not modelled.
- Tables.Save: saving with an id that is not stored is modelled as an insert under a fresh id. The persistence provider may instead insert under the given id or refuse the entity.
- Tables.DeleteById: deleting an absent id is modelled as a no-op. Older library versions throw `EmptyResultDataAccessException` instead.
- UserDetails.UserInfo: the columns are non-null strings. A null `roles` would throw `NullPointerException` in the split, and that path is not modelled.
- The blank-token refusal follows the text check of Spring Security's `SimpleGrantedAuthority` constructor, with `Character.isWhitespace` as the whitespace test. That library is not part of this model; its message is taken as a constant.
- UserDetails.LoadUserByUsername: the duplicate-name outcome is modelled as the failure `NotUnique`, which happens exactly when two stored users carry the name. The library's exception type and message for it are not modelled.
- `Client.java` is not part of this model. The client's columns are taken from the repository query, and `new Client()` is taken to leave every column null.
- The stale second controller `client/AppController.java` is left out. It calls a method the post service does not have.
- Login, the about-us, login and 403 pages, and session attributes are left out, because they only render static views or store session data.
- `System.out` debugging output is left out.
- The edit-post form is commented out in the source, so it is not modelled.
