/** The user record, the security view of it, and the lookup by name.

    The security view carries the name, the stored (already encoded)
    password, one authority per token of the comma-separated `roles`
    column, and four account-status flags that are always true. The
    tokens follow `String.split(",")`: no trimming, trailing empty tokens
    dropped, and a string without a comma is its own single token. */
module UserDetails {
  import opened Results

  /** One row of the `user_info` table. */
  datatype UserInfo = UserInfo(id: int, name: string, password: string, roles: string)

  // ---------------------------------------------------------------
  // `roles.split(",")`

  /** Every piece between commas, empty ones included: a string with
      `n` commas has `n + 1` pieces. */
  function RawSplit(s: string): (r: seq<string>)
    ensures |r| >= 1
    ensures forall i :: 0 <= i < |r| ==> ',' !in r[i]
  {
    if s == [] then [""]
    else
      var rest := RawSplit(s[1..]);
      if s[0] == ',' then [""] + rest
      else [[s[0]] + rest[0]] + rest[1..]
  }

  /** The pieces glued back together with a comma between neighbours. */
  function Join(xs: seq<string>): (r: string)
    ensures xs == [] ==> r == ""
  {
    if xs == [] then ""
    else if |xs| == 1 then xs[0]
    else xs[0] + "," + Join(xs[1..])
  }

  /** Dropping the empty strings at the end of a list: what is left is a
      prefix that is empty or ends in a non-empty string, and only empty
      strings were dropped. */
  function DropTrailingEmpty(xs: seq<string>): (r: seq<string>)
    ensures r <= xs
    ensures r == [] || r[|r| - 1] != ""
    ensures forall j :: |r| <= j < |xs| ==> xs[j] == ""
  {
    if xs == [] then []
    else if xs[|xs| - 1] == "" then
      var r := DropTrailingEmpty(xs[..|xs| - 1]);
      assert forall j :: |r| <= j < |xs| - 1 ==> xs[j] == xs[..|xs| - 1][j];
      r
    else xs
  }

  /** `s.split(",")`: no comma gives `s` alone (so `""` gives one empty
      token); otherwise the pieces between commas with the empty ones at
      the end dropped, and only those. */
  function Split(s: string): (r: seq<string>)
    ensures forall i :: 0 <= i < |r| ==> ',' !in r[i]
    ensures ',' !in s ==> r == [s]
    ensures ',' in s ==> r <= RawSplit(s) && forall j :: |r| <= j < |RawSplit(s)| ==> RawSplit(s)[j] == ""
    ensures ',' in s ==> r == [] || r[|r| - 1] != ""
  {
    if ',' !in s then [s] else DropTrailingEmpty(RawSplit(s))
  }

  lemma JoinConsFirst(a: string, x: string, ys: seq<string>)
    ensures Join([a + x] + ys) == a + Join([x] + ys)
  {
    if ys != [] {
      assert ([a + x] + ys)[1..] == ys;
      assert ([x] + ys)[1..] == ys;
    }
  }

  /** The pieces and the commas between them make up the whole string. */
  lemma {:induction false} JoinRawSplit(s: string)
    ensures Join(RawSplit(s)) == s
  {
    if s != [] {
      var rest := RawSplit(s[1..]);
      JoinRawSplit(s[1..]);
      if s[0] == ',' {
        assert ([""] + rest)[1..] == rest;
        assert Join([""] + rest) == "" + "," + Join(rest);
      } else {
        JoinConsFirst([s[0]], rest[0], rest[1..]);
        assert [rest[0]] + rest[1..] == rest;
        assert s == [s[0]] + s[1..];
      }
    }
  }

  /** The last piece is empty exactly when the string is empty or ends
      with a comma. */
  lemma {:induction false} RawSplitLast(s: string)
    ensures var r := RawSplit(s); r[|r| - 1] == "" <==> s == [] || s[|s| - 1] == ','
  {
    if s != [] {
      RawSplitLast(s[1..]);
      var rest := RawSplit(s[1..]);
      if s[0] != ',' && |rest| == 1 {
        assert RawSplit(s) == [[s[0]] + rest[0]];
        if s[1..] != [] {
          assert s[|s| - 1] == s[1..][|s[1..]| - 1];
        }
      } else if s[1..] != [] {
        assert s[|s| - 1] == s[1..][|s[1..]| - 1];
      }
    }
  }

  /** A join of comma-free tokens whose last token is not empty does not
      end with a comma. */
  lemma {:induction false} JoinLast(xs: seq<string>)
    requires xs != [] && xs[|xs| - 1] != ""
    requires forall i :: 0 <= i < |xs| ==> ',' !in xs[i]
    ensures var j := Join(xs); j != [] && j[|j| - 1] != ','
  {
    if |xs| > 1 {
      JoinLast(xs[1..]);
      var tail := Join(xs[1..]);
      assert Join(xs) == (xs[0] + ",") + tail;
      assert Join(xs)[|Join(xs)| - 1] == tail[|tail| - 1];
    } else {
      var x := xs[0];
      assert x[|x| - 1] in x;
    }
  }

  /** Joining the tokens with commas gives the roles string back exactly
      when it does not end with a comma. */
  lemma SplitJoinRoundTrip(s: string)
    ensures Join(Split(s)) == s <==> s == [] || s[|s| - 1] != ','
  {
    if ',' !in s {
      if s != [] {
        assert s[|s| - 1] in s;
      }
    } else {
      SplitJoinWithComma(s);
    }
  }

  lemma SplitJoinWithComma(s: string)
    requires ',' in s
    ensures s != [] && (Join(Split(s)) == s <==> s[|s| - 1] != ',')
  {
    if s[|s| - 1] != ',' {
      SplitJoinClean(s);
    } else {
      SplitJoinTrailing(s);
    }
  }

  /** No trailing comma: nothing is dropped and the pieces rejoin. */
  lemma SplitJoinClean(s: string)
    requires ',' in s && s[|s| - 1] != ','
    ensures Join(Split(s)) == s
  {
    var raw := RawSplit(s);
    JoinRawSplit(s);
    RawSplitLast(s);
    assert raw[|raw| - 1] != "";
    assert Split(s) == DropTrailingEmpty(raw) == raw;
  }

  /** A trailing comma is lost: the rejoined tokens do not end with one. */
  lemma SplitJoinTrailing(s: string)
    requires ',' in s && s[|s| - 1] == ','
    ensures Join(Split(s)) != s
  {
    var r := Split(s);
    if r != [] {
      JoinLast(r);
    }
  }

  lemma RawSplitNoComma(a: string)
    requires ',' !in a
    ensures RawSplit(a) == [a]
  {
    if a != [] {
      RawSplitNoComma(a[1..]);
      assert a == [a[0]] + a[1..];
    }
  }

  /** A comma-free head is the first piece. */
  lemma {:induction false} RawSplitHead(a: string, rest: string)
    requires ',' !in a
    ensures RawSplit(a + "," + rest) == [a] + RawSplit(rest)
  {
    if a == [] {
      assert a + "," + rest == [','] + rest;
      assert (a + "," + rest)[1..] == rest;
    } else {
      RawSplitHead(a[1..], rest);
      assert (a + "," + rest)[1..] == a[1..] + "," + rest;
      assert a == [a[0]] + a[1..];
    }
  }

  /** Tokens are not trimmed: with a space after the comma the admin role
      comes out as `" ROLE_ADMIN"`, which is not the `ROLE_ADMIN` token. */
  lemma SplitKeepsSpaces(roles: string)
    requires roles == "ROLE_USER, ROLE_ADMIN"
    ensures Split(roles) == ["ROLE_USER", " ROLE_ADMIN"]
    ensures "ROLE_ADMIN" !in Split(roles)
  {
    var a, b := "ROLE_USER", " ROLE_ADMIN";
    assert roles == a + "," + b;
    SplitTwo(a, b);
    assert "ROLE_ADMIN" != b;
  }

  /** Two comma-free tokens, the second not empty, come back from the
      split of their comma-join. */
  lemma SplitTwo(a: string, b: string)
    requires ',' !in a && ',' !in b && b != ""
    ensures Split(a + "," + b) == [a, b]
  {
    var s := a + "," + b;
    assert s[|a|] == ',';
    RawSplitHead(a, b);
    RawSplitNoComma(b);
  }

  // ---------------------------------------------------------------
  // The security view of a user

  /** What `UserInfoUserDetails` exposes. */
  datatype Details = Details(
    username: string,
    password: string,
    authorities: seq<string>,
    accountNonExpired: bool,
    accountNonLocked: bool,
    credentialsNonExpired: bool,
    enabled: bool)

  /** `Character.isWhitespace`: the space, line and paragraph separators
      other than the no-break spaces U+00A0, U+2007 and U+202F, and the
      control characters U+0009 to U+000D and U+001C to U+001F. */
  predicate JavaWhitespace(ch: char) {
    || ch == ' '
    || '\t' <= ch <= '\r'
    || '\U{1C}' <= ch <= '\U{1F}'
    || ch == '\U{1680}'
    || '\U{2000}' <= ch <= '\U{2006}'
    || '\U{2008}' <= ch <= '\U{200A}'
    || ch == '\U{2028}' || ch == '\U{2029}' || ch == '\U{205F}' || ch == '\U{3000}'
  }

  /** A token without text: empty, or whitespace only. */
  predicate Blank(tok: string) {
    forall i :: 0 <= i < |tok| ==> JavaWhitespace(tok[i])
  }

  /** Why loading a user can fail: no user of that name; more than one,
      which a single-result query refuses; or a blank role token, which
      the authority's constructor refuses with an
      `IllegalArgumentException`. */
  datatype LoadFailure =
    | UsernameNotFound(message: string)
    | NotUnique(count: nat)
    | BlankAuthority(message: string)

  /** The message of the authority constructor's text check. */
  const AuthorityRequired := "A granted authority textual representation is required"

  /** `new UserInfoUserDetails(userInfo)`: name and password as stored,
      one authority per token of `roles`, and every status flag true; a
      blank token makes the construction throw instead. */
  function FromUserInfo(u: UserInfo): (r: Result<Details, LoadFailure>)
    ensures r.Success? <==> forall i :: 0 <= i < |Split(u.roles)| ==> !Blank(Split(u.roles)[i])
    ensures r.Failure? ==> r.error == BlankAuthority(AuthorityRequired)
    ensures r.Success? ==> r.value.username == u.name && r.value.password == u.password
    ensures r.Success? ==> forall i :: 0 <= i < |r.value.authorities| ==>
      ',' !in r.value.authorities[i] && !Blank(r.value.authorities[i])
    ensures r.Success? && ',' !in u.roles ==> r.value.authorities == [u.roles]
    ensures r.Success? && ',' in u.roles ==>
      && r.value.authorities <= RawSplit(u.roles)
      && forall j :: |r.value.authorities| <= j < |RawSplit(u.roles)| ==> RawSplit(u.roles)[j] == ""
    ensures r.Success? && u.roles != "" && u.roles[|u.roles| - 1] != ',' ==> Join(r.value.authorities) == u.roles
    ensures r.Success? ==>
      r.value.accountNonExpired && r.value.accountNonLocked && r.value.credentialsNonExpired && r.value.enabled
  {
    SplitJoinRoundTrip(u.roles);
    var tokens := Split(u.roles);
    if exists i :: 0 <= i < |tokens| && Blank(tokens[i]) then
      Failure(BlankAuthority(AuthorityRequired))
    else
      Success(Details(u.name, u.password, tokens, true, true, true, true))
  }

  /** Roles that split into "ROLE_USER" and the untrimmed " ROLE_ADMIN",
      as "ROLE_USER, ROLE_ADMIN" does, build details holding exactly
      those two authorities, so `ROLE_ADMIN` is not among them. */
  lemma SpacedRolesDetails(u: UserInfo)
    requires Split(u.roles) == ["ROLE_USER", " ROLE_ADMIN"]
    ensures FromUserInfo(u) == Success(Details(u.name, u.password, ["ROLE_USER", " ROLE_ADMIN"], true, true, true, true))
    ensures "ROLE_ADMIN" !in FromUserInfo(u).value.authorities
  {
    HasText("ROLE_USER", 0);
    HasText(" ROLE_ADMIN", 1);
    TwoTokensDetails(u, "ROLE_USER", " ROLE_ADMIN");
    assert "ROLE_ADMIN"[0] != " ROLE_ADMIN"[0];
  }

  /** Roles splitting into two tokens with text become those two
      authorities. */
  lemma TwoTokensDetails(u: UserInfo, a: string, b: string)
    requires Split(u.roles) == [a, b] && !Blank(a) && !Blank(b)
    ensures FromUserInfo(u) == Success(Details(u.name, u.password, [a, b], true, true, true, true))
  {
  }

  /** A token with a non-whitespace character is not blank. */
  lemma HasText(tok: string, i: int)
    requires 0 <= i < |tok| && !JavaWhitespace(tok[i])
    ensures !Blank(tok)
  {
  }

  /** A blank token among the split pieces makes the construction throw. */
  lemma BlankTokenRefused(u: UserInfo, j: int)
    requires 0 <= j < |Split(u.roles)| && Blank(Split(u.roles)[j])
    ensures FromUserInfo(u) == Failure(BlankAuthority(AuthorityRequired))
  {
  }

  /** An empty roles column splits into one empty token, so the
      construction throws. */
  lemma EmptyRolesRefused(u: UserInfo)
    requires u.roles == ""
    ensures FromUserInfo(u) == Failure(BlankAuthority(AuthorityRequired))
  {
    BlankTokenRefused(u, 0);
  }

  /** A doubled comma, as in "ROLE_USER,,ROLE_ADMIN", leaves an empty
      token, so the construction throws. */
  lemma DoubledCommaRefused(u: UserInfo, a: string, b: string)
    requires ',' !in a && ',' !in b && b != ""
    requires u.roles == a + ",," + b
    ensures FromUserInfo(u) == Failure(BlankAuthority(AuthorityRequired))
  {
    SplitDoubleComma(a, b);
    BlankTokenRefused(u, 1);
  }

  /** A last token of whitespace only, as in "ROLE_ADMIN, ", is kept by
      the split, so the construction throws. */
  lemma BlankLastRefused(u: UserInfo, a: string, w: string)
    requires ',' !in a && ',' !in w && w != "" && Blank(w)
    requires u.roles == a + "," + w
    ensures FromUserInfo(u) == Failure(BlankAuthority(AuthorityRequired))
  {
    SplitTwo(a, w);
    BlankTokenRefused(u, 1);
  }

  /** A doubled comma between two tokens leaves an empty token between
      them. */
  lemma SplitDoubleComma(a: string, b: string)
    requires ',' !in a && ',' !in b && b != ""
    ensures Split(a + ",," + b) == [a, "", b]
  {
    var s := a + ",," + b;
    assert s[|a|] == ',';
    assert s == a + "," + ("," + b);
    RawSplitHead(a, "," + b);
    RawSplitHead("", b);
    assert "" + "," + b == "," + b;
    RawSplitNoComma(b);
  }

  /** One comma-free token followed by a comma comes back alone: the
      empty piece after the comma is dropped. */
  lemma SplitDropsTrailing(a: string)
    requires ',' !in a && a != ""
    ensures Split(a + ",") == [a]
  {
    var s := a + ",";
    assert s[|a|] == ',';
    assert s == a + "," + "";
    RawSplitHead(a, "");
    assert RawSplit(s) == [a, ""];
    assert [a, ""][..1] == [a];
    assert DropTrailingEmpty([a]) == [a];
    assert DropTrailingEmpty([a, ""]) == [a];
  }

  /** The positions of the users with exactly that name, in storage
      order. */
  function Named(users: seq<UserInfo>, username: string): (r: seq<nat>)
    ensures forall k :: 0 <= k < |r| ==> r[k] < |users| && users[r[k]].name == username
    ensures forall i :: 0 <= i < |users| && users[i].name == username ==> i in r
    ensures forall k, l :: 0 <= k < l < |r| ==> r[k] < r[l]
  {
    if users == [] then []
    else
      var n := |users| - 1;
      var front := users[..n];
      assert forall i :: 0 <= i < n ==> front[i] == users[i];
      Named(front, username) + (if users[n].name == username then [n] else [])
  }

  /** `loadUserByUsername`: the details of the one stored user with
      exactly that name, or the exception building them throws; with no
      such user, `UsernameNotFoundException` and its message. */
  function LoadUserByUsername(users: seq<UserInfo>, username: string): (r: Result<Details, LoadFailure>)
    ensures r.Success? || r.error.BlankAuthority? ==>
      exists i :: 0 <= i < |users| && users[i].name == username && FromUserInfo(users[i]) == r
    ensures r.Success? ==> r.value.username == username
    ensures (forall i :: 0 <= i < |users| ==> users[i].name != username) <==>
      r == Failure(UsernameNotFound("user not found " + username))
    ensures r.Failure? && r.error.NotUnique? <==>
      exists i, j :: 0 <= i < j < |users| && users[i].name == username && users[j].name == username
  {
    var named := Named(users, username);
    if |named| == 0 then
      Failure(UsernameNotFound("user not found " + username))
    else if |named| == 1 then
      FromUserInfo(users[named[0]])
    else
      assert named[0] < named[1];
      Failure(NotUnique(|named|))
  }

  /** With that name stored once, the lookup gives what building the
      details of that user gives: its own password and the tokens of its
      own roles, or the refusal of a blank token. */
  lemma LoadFindsStoredUser(users: seq<UserInfo>, i: int)
    requires 0 <= i < |users|
    requires forall j :: 0 <= j < |users| && j != i ==> users[j].name != users[i].name
    ensures LoadUserByUsername(users, users[i].name) == FromUserInfo(users[i])
  {
    var named := Named(users, users[i].name);
    assert i in named;
    assert forall k :: 0 <= k < |named| ==> named[k] == i;
  }

  /** A user stored once under a name and with an empty roles column
      cannot be loaded. */
  lemma EmptyRolesFailLoad(users: seq<UserInfo>, i: int)
    requires 0 <= i < |users| && users[i].roles == ""
    requires forall j :: 0 <= j < |users| && j != i ==> users[j].name != users[i].name
    ensures LoadUserByUsername(users, users[i].name) == Failure(BlankAuthority(AuthorityRequired))
  {
    LoadFindsStoredUser(users, i);
    assert Blank(Split(users[i].roles)[0]);
  }
}
