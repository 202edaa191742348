/**
 * The user directory and the user service's operations on it. Users are
 * never removed: deleting one only clears `isActive`. Password hashing and
 * comparison are outside the model: the stored hash is handed in, and the
 * comparison is a parameter.
 */
module Users {
  import opened Wrappers
  import opened Failures
  import opened Sorting
  import opened Paging

  type UserId = nat

  datatype User = User(
    id: UserId,
    name: string,
    email: string,
    passwordHash: string,
    role: Option<string>,     // absent: the User schema's default applies
    isActive: bool,
    createdAt: int,
    updatedAt: int)

  /** What the service hands back: a user without the password field. */
  datatype PublicUser = PublicUser(
    id: UserId,
    name: string,
    email: string,
    role: Option<string>,
    isActive: bool,
    createdAt: int,
    updatedAt: int)

  /** Users by id; `nextId` is the id the store hands out next. */
  datatype Directory = Directory(users: map<UserId, User>, nextId: UserId)

  ghost predicate Wf(d: Directory) {
    forall id :: id in d.users ==> d.users[id].id == id && id < d.nextId
  }

  ghost predicate EmailsUnique(d: Directory) {
    forall a, b :: a in d.users && b in d.users && d.users[a].email == d.users[b].email ==> a == b
  }

  function Publish(u: User): (p: PublicUser)
    ensures p.id == u.id && p.name == u.name && p.email == u.email && p.role == u.role
    ensures p.isActive == u.isActive && p.createdAt == u.createdAt && p.updatedAt == u.updatedAt
  {
    PublicUser(u.id, u.name, u.email, u.role, u.isActive, u.createdAt, u.updatedAt)
  }

  predicate EmailTaken(d: Directory, email: string) {
    exists id | id in d.users :: d.users[id].email == email
  }

  /**
   * `createUser`: refuses an email some user (active or not) already has,
   * otherwise stores a new active user under a fresh id.
   */
  function CreateUser(d: Directory, name: string, email: string, passwordHash: string,
                      role: Option<string>, now: int): (res: Result<(Directory, PublicUser), Error>)
    ensures res.Failure? <==> EmailTaken(d, email)
    ensures res.Failure? ==> res.error == Error(CreatingUser, UserExists)
    ensures res.Success? ==>
      var (d', p) := res.value;
      && d'.users == d.users[d.nextId := User(d.nextId, name, email, passwordHash, role, true, now, now)]
      && d'.nextId == d.nextId + 1
      && p == Publish(d'.users[d.nextId])
  {
    if EmailTaken(d, email) then Failure(Error(CreatingUser, UserExists))
    else
      var u := User(d.nextId, name, email, passwordHash, role, true, now, now);
      Success((Directory(d.users[d.nextId := u], d.nextId + 1), Publish(u)))
  }

  /** Creating users keeps ids fresh and emails unique. */
  lemma CreateUserKeepsInvariants(d: Directory, name: string, email: string, passwordHash: string,
                                  role: Option<string>, now: int)
    requires Wf(d) && EmailsUnique(d)
    ensures CreateUser(d, name, email, passwordHash, role, now).Success? ==>
      var d' := CreateUser(d, name, email, passwordHash, role, now).value.0;
      Wf(d') && EmailsUnique(d') && d.users.Keys < d'.users.Keys
  {
    var res := CreateUser(d, name, email, passwordHash, role, now);
    if res.Success? {
      var d' := res.value.0;
      assert d.nextId !in d.users;
      assert d.nextId in d'.users;
      assert !EmailTaken(d, email);
    }
  }

  /** `getUserById`: any stored user, active or not, without the password. */
  function GetUserById(d: Directory, id: UserId): (res: Result<PublicUser, Error>)
    ensures res.Failure? <==> id !in d.users
    ensures res.Failure? ==> res.error == Error(FetchingUser, UserNotFound)
    ensures res.Success? ==> res.value == Publish(d.users[id])
  {
    if id in d.users then Success(Publish(d.users[id])) else Failure(Error(FetchingUser, UserNotFound))
  }

  /** The active users with ids below `n`, in id order. */
  function ActiveBelow(users: map<UserId, User>, n: nat): (s: seq<User>)
    ensures forall u :: u in s ==> u.isActive && u.id < n && u.id in users && users[u.id] == u
    ensures forall id :: id < n && id in users && users[id].isActive && users[id].id == id ==> users[id] in s
  {
    if n == 0 then []
    else
      var front := ActiveBelow(users, n - 1);
      var id := n - 1;
      if id in users && users[id].isActive && users[id].id == id then front + [users[id]] else front
  }

  predicate IdsIncrease(s: seq<User>) {
    forall i, j :: 0 <= i < j < |s| ==> s[i].id < s[j].id
  }

  /** The listing is in strictly increasing id order, so it names no user twice. */
  lemma {:induction false} ActiveBelowIncreasing(users: map<UserId, User>, n: nat)
    ensures IdsIncrease(ActiveBelow(users, n))
  {
    if n > 0 {
      ActiveBelowIncreasing(users, n - 1);
      var s := ActiveBelow(users, n);
      var front := ActiveBelow(users, n - 1);
      var id := n - 1;
      if id in users && users[id].isActive && users[id].id == id {
        assert s == front + [users[id]];
        forall i, j | 0 <= i < j < |s| ensures s[i].id < s[j].id {
          if j == |s| - 1 {
            assert s[j] == users[id] && s[i] == front[i];
            assert front[i] in front;
          } else {
            assert s[i] == front[i] && s[j] == front[j];
          }
        }
      } else {
        assert s == front;
      }
    }
  }

  predicate JoinedLaterOrSame(a: User, b: User) {
    a.createdAt >= b.createdAt
  }

  datatype UserPage = UserPage(users: seq<PublicUser>, pagination: Pagination)

  /** The active users, newest first. */
  function ActiveNewestFirst(d: Directory): (s: seq<User>)
    ensures multiset(s) == multiset(ActiveBelow(d.users, d.nextId))
    ensures |s| == |ActiveBelow(d.users, d.nextId)|
    ensures forall i, j :: 0 <= i < j < |s| ==> s[i].createdAt >= s[j].createdAt
    ensures forall i :: 0 <= i < |s| ==> s[i].isActive && s[i].id in d.users && d.users[s[i].id] == s[i]
  {
    assert TotalPreorder(JoinedLaterOrSame);
    var s := SortBy(JoinedLaterOrSame, ActiveBelow(d.users, d.nextId));
    assert forall i :: 0 <= i < |s| ==> s[i] in multiset(ActiveBelow(d.users, d.nextId));
    s
  }

  function PublishAll(us: seq<User>): (ps: seq<PublicUser>)
    ensures |ps| == |us|
    ensures forall i :: 0 <= i < |us| ==> ps[i] == Publish(us[i])
  {
    seq(|us|, i requires 0 <= i < |us| => Publish(us[i]))
  }

  /**
   * `getAllUsers`: the active users, newest first, one page of them. A
   * negative skip is refused by the store; a page size below 1 is reported
   * as a failure too.
   */
  function GetAllUsers(d: Directory, page: int, limit: int): (res: Result<UserPage, Error>)
    ensures res.Failure? <==> page < 1 || limit < 1
    ensures res.Failure? ==> res.error == Error(FetchingUsers, StoreRejected)
    ensures res.Success? ==> |res.value.users| <= limit
    ensures res.Success? ==> forall i :: 0 <= i < |res.value.users| ==>
      var p := res.value.users[i];
      p.isActive && p.id in d.users && Publish(d.users[p.id]) == p
    ensures res.Success? ==> forall i, j :: 0 <= i < j < |res.value.users| ==>
      res.value.users[i].createdAt >= res.value.users[j].createdAt
    ensures res.Success? ==> res.value.pagination == Paginate(|ActiveBelow(d.users, d.nextId)|, page, limit)
    ensures res.Success? ==> res.value.users == PublishAll(Window(ActiveNewestFirst(d), Skip(page, limit), limit))
  {
    if page < 1 || limit < 1 then Failure(Error(FetchingUsers, StoreRejected))
    else
      var active := ActiveNewestFirst(d);
      var shown := Window(active, Skip(page, limit), limit);
      Success(UserPage(PublishAll(shown), Paginate(|active|, page, limit)))
  }

  /** A user listed twice would show on two pages: ids strictly increase, so no user repeats. */
  lemma {:induction false} IncreasingIdsOnce(s: seq<User>, u: User)
    requires IdsIncrease(s)
    requires u in s
    ensures multiset(s)[u] == 1
  {
    var front := s[..|s| - 1];
    var last := s[|s| - 1];
    assert s == front + [last];
    if u == last {
      forall k | 0 <= k < |front| ensures front[k] != u {
        assert front[k] == s[k];
      }
    } else {
      IncreasingIdsOnce(front, u);
    }
  }

  /**
   * Reading the listing's pages in order, from page 1 to the last page the
   * pagination reports, lists every active user exactly once, newest
   * first.
   */
  lemma UserPagesCoverAll(d: Directory, limit: int)
    requires Wf(d) && limit >= 1
    ensures var all := ActiveNewestFirst(d);
      Pages(all, limit, CeilDiv(|all|, limit)) == all
    ensures var all := ActiveNewestFirst(d);
      forall id :: id in d.users && d.users[id].isActive ==>
        multiset(Pages(all, limit, CeilDiv(|all|, limit)))[d.users[id]] == 1
  {
    var all := ActiveNewestFirst(d);
    PagesCoverAll(all, limit);
    forall id | id in d.users && d.users[id].isActive
      ensures multiset(all)[d.users[id]] == 1
    {
      ActiveUserListedOnce(d, id);
    }
  }

  lemma ActiveUserListedOnce(d: Directory, id: UserId)
    requires Wf(d) && id in d.users && d.users[id].isActive
    ensures multiset(ActiveNewestFirst(d))[d.users[id]] == 1
  {
    var below := ActiveBelow(d.users, d.nextId);
    ActiveBelowIncreasing(d.users, d.nextId);
    assert d.users[id] in below;
    IncreasingIdsOnce(below, d.users[id]);
  }

  /** Each page the pagination reports is served, and holds that slice of the listing. */
  lemma UserPagesAreServed(d: Directory, limit: int, page: int)
    requires limit >= 1
    requires 1 <= page <= CeilDiv(|ActiveNewestFirst(d)|, limit)
    ensures var res := GetAllUsers(d, page, limit);
      && res.Success?
      && res.value.users == PublishAll(Window(ActiveNewestFirst(d), Skip(page, limit), limit))
      && res.value.pagination.totalPages == CeilDiv(|ActiveNewestFirst(d)|, limit)
      && |res.value.users| >= 1
  {
    ReportedPageStartsInside(|ActiveNewestFirst(d)|, limit, page);
  }

  /**
   * The fields an update body can carry. `findByIdAndUpdate` spreads the
   * whole body into the document, so besides name, email and role it can
   * set the password, the active flag and the creation time; no save hook
   * runs, so a password is stored exactly as given.
   */
  datatype UserUpdate = UserUpdate(
    name: Option<string>,
    email: Option<string>,
    role: Option<string>,
    password: Option<string>,
    isActive: Option<bool>,
    createdAt: Option<int>)

  function Apply(u: User, upd: UserUpdate, now: int): User {
    u.(name := upd.name.GetOr(u.name),
       email := upd.email.GetOr(u.email),
       role := if upd.role.Some? then upd.role else u.role,
       passwordHash := upd.password.GetOr(u.passwordHash),
       isActive := upd.isActive.GetOr(u.isActive),
       createdAt := upd.createdAt.GetOr(u.createdAt),
       updatedAt := now)
  }

  /** `updateUser`: overwrites the given fields and the update time, nothing else. */
  function UpdateUser(d: Directory, id: UserId, upd: UserUpdate, now: int): (res: Result<(Directory, PublicUser), Error>)
    ensures res.Failure? <==> id !in d.users
    ensures res.Failure? ==> res.error == Error(UpdatingUser, UserNotFound)
    ensures res.Success? ==> res.value.0.users.Keys == d.users.Keys && res.value.0.nextId == d.nextId
    ensures res.Success? ==> forall other :: other in d.users && other != id ==> res.value.0.users[other] == d.users[other]
    ensures res.Success? ==>
      var (d', p) := res.value;
      var old_ := d.users[id];
      var new_ := d'.users[id];
      && new_.name == (if upd.name.Some? then upd.name.value else old_.name)
      && new_.email == (if upd.email.Some? then upd.email.value else old_.email)
      && new_.role == (if upd.role.Some? then upd.role else old_.role)
      && new_.passwordHash == (if upd.password.Some? then upd.password.value else old_.passwordHash)
      && new_.isActive == (if upd.isActive.Some? then upd.isActive.value else old_.isActive)
      && new_.createdAt == (if upd.createdAt.Some? then upd.createdAt.value else old_.createdAt)
      && new_.updatedAt == now && new_.id == old_.id
      && p == Publish(new_)
  {
    if id !in d.users then Failure(Error(UpdatingUser, UserNotFound))
    else
      var u := Apply(d.users[id], upd, now);
      Success((d.(users := d.users[id := u]), Publish(u)))
  }

  /** `deleteUser`: a soft delete that only clears `isActive` and stamps the update time. */
  function DeleteUser(d: Directory, id: UserId, now: int): (res: Result<Directory, Error>)
    ensures res.Failure? <==> id !in d.users
    ensures res.Failure? ==> res.error == Error(DeletingUser, UserNotFound)
    ensures res.Success? ==>
      && res.value.users.Keys == d.users.Keys
      && res.value.users[id] == d.users[id].(isActive := false, updatedAt := now)
      && (forall other :: other in d.users && other != id ==> res.value.users[other] == d.users[other])
  {
    if id !in d.users then Failure(Error(DeletingUser, UserNotFound))
    else Success(d.(users := d.users[id := d.users[id].(isActive := false, updatedAt := now)]))
  }

  /** A deleted user can still be fetched by id, and shows as inactive. */
  lemma DeletedUserStillFetchable(d: Directory, id: UserId, now: int)
    requires id in d.users
    ensures DeleteUser(d, id, now).Success?
    ensures GetUserById(DeleteUser(d, id, now).value, id).Success?
    ensures !GetUserById(DeleteUser(d, id, now).value, id).value.isActive
  {
  }

  /** A deleted user drops out of every page of the user listing. */
  lemma DeletedUserNotListed(d: Directory, id: UserId, now: int, page: int, limit: int)
    requires Wf(d) && id in d.users
    ensures var d' := DeleteUser(d, id, now).value;
      Wf(d') && (GetAllUsers(d', page, limit).Success? ==>
        forall p :: p in GetAllUsers(d', page, limit).value.users ==> p.id != id)
  {
  }

  /** An update that sets the active flag undoes a delete: the user is listed again. */
  lemma UpdateRestoresDeletedUser(d: Directory, id: UserId, deletedAt: int, restoredAt: int)
    requires Wf(d) && id in d.users
    ensures var d1 := DeleteUser(d, id, deletedAt).value;
      var res := UpdateUser(d1, id, UserUpdate(None, None, None, None, Some(true), None), restoredAt);
      && res.Success? && Wf(res.value.0)
      && res.value.0.users[id] in ActiveBelow(res.value.0.users, res.value.0.nextId)
  {
    var d1 := DeleteUser(d, id, deletedAt).value;
    var d2 := UpdateUser(d1, id, UserUpdate(None, None, None, None, Some(true), None), restoredAt).value.0;
    assert d2.users[id].id == id && d2.users[id].isActive;
  }

  /** The first active user with this email among ids below `n`. */
  function FindActiveByEmail(users: map<UserId, User>, email: string, n: nat): (found: Option<User>)
    ensures found.Some? ==> found.value.id in users && users[found.value.id] == found.value
                            && found.value.email == email && found.value.isActive
    ensures found.None? ==> forall id :: id < n && id in users && users[id].id == id ==>
                              !(users[id].email == email && users[id].isActive)
  {
    if n == 0 then None
    else
      var id := n - 1;
      var earlier := FindActiveByEmail(users, email, n - 1);
      if earlier.Some? then earlier
      else if id in users && users[id].id == id && users[id].email == email && users[id].isActive then Some(users[id])
      else None
  }

  /** The claims put into the signed token (signing is outside the model). */
  datatype Claims = Claims(userId: UserId, email: string, role: Option<string>)

  datatype Session = Session(user: PublicUser, claims: Claims)

  /**
   * `authenticateUser`: an unknown email, an inactive account and a wrong
   * password all fail the same way. `passwordMatches(candidate, hash)`
   * stands for the hash comparison.
   */
  function AuthenticateUser(d: Directory, email: string, password: string,
                            passwordMatches: (string, string) -> bool): (res: Result<Session, Error>)
    requires Wf(d)
    ensures res.Failure? ==> res.error == Error(Authenticating, InvalidCredentials)
    ensures res.Success? ==> res.value.user.id in d.users
    ensures res.Success? ==>
      var u := d.users[res.value.user.id];
      && u.email == email && u.isActive && passwordMatches(password, u.passwordHash)
      && res.value.user == Publish(u)
      && res.value.claims == Claims(u.id, u.email, u.role)
  {
    match FindActiveByEmail(d.users, email, d.nextId)
    case None => Failure(Error(Authenticating, InvalidCredentials))
    case Some(u) =>
      if !passwordMatches(password, u.passwordHash) then Failure(Error(Authenticating, InvalidCredentials))
      else Success(Session(Publish(u), Claims(u.id, u.email, u.role)))
  }

  /** With unique emails, authentication succeeds exactly for the active owner of the email with a matching password. */
  lemma AuthenticationIffCredentialsMatch(d: Directory, email: string, password: string,
                                          passwordMatches: (string, string) -> bool)
    requires Wf(d) && EmailsUnique(d)
    ensures AuthenticateUser(d, email, password, passwordMatches).Success? <==>
      exists id :: id in d.users && d.users[id].email == email && d.users[id].isActive
                   && passwordMatches(password, d.users[id].passwordHash)
  {
    var found := FindActiveByEmail(d.users, email, d.nextId);
    if exists id :: id in d.users && d.users[id].email == email && d.users[id].isActive
                   && passwordMatches(password, d.users[id].passwordHash) {
      var id :| id in d.users && d.users[id].email == email && d.users[id].isActive
                   && passwordMatches(password, d.users[id].passwordHash);
      assert found.Some?;
    }
  }
}
