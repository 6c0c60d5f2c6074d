/**
 * The user side of the backend: user documents, the users collection, and
 * the handlers of the user controller that decide something — registration,
 * login and the refresh-token life cycle, password change, account update
 * and the channel profile.
 *
 * Password verification and JWT verification are opaque: they are passed in
 * as functions. Newly signed tokens are passed in as values, since signing
 * depends on the clock.
 */
module Accounts {
  import opened Wrappers
  import opened Schema
  import opened Text
  import opened Media
  import opened History
  import opened Channel

  datatype Tokens = Tokens(accessToken: Token, refreshToken: Token)

  /** What a successful login hands back: who logged in and the tokens issued. */
  datatype Session = Session(user: UserId, tokens: Tokens)

  /** A value copy of every field of a user document. */
  datatype UserRecord = UserRecord(
    username: string,
    email: string,
    fullName: string,
    password: string,
    avatar: Url,
    coverImage: Url,
    refreshToken: Option<Token>,
    watchHistory: seq<WatchEntry>)

  datatype ChannelProfile = ChannelProfile(
    id: UserId,
    fullName: string,
    username: string,
    subscriberCount: nat,
    channelSubsribedToCount: nat,
    isSubscribed: bool,
    avatar: Url,
    coverImage: Url,
    email: string)

  /**
   * A user document as the handlers see it: fetched, changed field by field
   * and saved. The password is kept as given; hashing it is the credential
   * store's business and is hidden behind the opaque password check.
   */
  class User {
    var username: string
    var email: string
    var fullName: string
    var password: string
    var avatar: Url
    var coverImage: Url
    var refreshToken: Option<Token>
    var watchHistory: seq<WatchEntry>

    constructor (username: string, email: string, fullName: string, password: string, avatar: Url, coverImage: Url)
      ensures Record() == UserRecord(username, email, fullName, password, avatar, coverImage, None, [])
    {
      this.username := username;
      this.email := email;
      this.fullName := fullName;
      this.password := password;
      this.avatar := avatar;
      this.coverImage := coverImage;
      this.refreshToken := None;
      this.watchHistory := [];
    }

    function Record(): UserRecord
      reads this
    {
      UserRecord(username, email, fullName, password, avatar, coverImage, refreshToken, watchHistory)
    }

    /**
     * The history update of `getVideoById`: find the entry of the video; if
     * there is one, refresh its `watchedAt`, otherwise append a snapshot.
     */
    method RecordView(v: Video, now: Timestamp)
      modifies this`watchHistory
      ensures watchHistory == Upsert(old(watchHistory), v, now)
    {
      var i := FindHistoryIndex(watchHistory, v.id);
      if i != -1 {
        watchHistory := watchHistory[i := watchHistory[i].(watchedAt := now)];
      } else {
        watchHistory := watchHistory + [FirstView(v, now)];
      }
    }
  }

  /** The `$or: [{ username }, { email }]` filter: a field that was not sent matches nobody. */
  predicate MatchesLogin(u: User, username: Option<string>, email: Option<string>)
    reads u
  {
    (username.Some? && u.username == username.value) || (email.Some? && u.email == email.value)
  }

  /** Neither upload of `registerUser` failed: the avatar came back, and the cover did unless no cover path was sent. */
  predicate UploadsSucceed(avatarAnswer: Option<Asset>, coverImagePath: Option<string>, coverImageAnswer: Option<Asset>) {
    avatarAnswer.Some? && !(Truthy(coverImagePath) && coverImageAnswer.None?)
  }

  /** `[...].some((field) => field?.trim() === "")` */
  predicate AnyBlank(fields: seq<Option<string>>) {
    exists i | 0 <= i < |fields| :: TrimsToEmpty(fields[i])
  }

  /** A rejected refresh, or None when `refreshAccessToken` accepts the token. */
  function RefreshRefusal(incoming: Option<Token>, decoded: Option<UserId>, records: map<UserId, UserRecord>): (r: Option<ErrorKind>)
    ensures r.None? <==> Truthy(incoming) && decoded.Some? && decoded.value in records
                         && records[decoded.value].refreshToken == Some(incoming.value)
    ensures !Truthy(incoming) ==> r == Some(Unauthorized)
  {
    if !Truthy(incoming) then Some(Unauthorized)
    // Inside the try block every refusal is rethrown by `ApiError(...)` called
    // without `new`, a TypeError: the request ends as a server error.
    else if decoded.None? || decoded.value !in records then Some(ServerError)
    else if records[decoded.value].refreshToken != Some(incoming.value) then Some(ServerError)
    else None
  }

  /** After logout the user holds no token, so no token that decodes to that user is accepted. */
  lemma RefusedAfterLogout(records: map<UserId, UserRecord>, id: UserId, incoming: Option<Token>)
    requires id in records
    ensures RefreshRefusal(incoming, Some(id), records[id := records[id].(refreshToken := None)]).Some?
  {
  }

  /** After a newer login stored a different token, the earlier token is refused. */
  lemma RefusedAfterNewerLogin(records: map<UserId, UserRecord>, id: UserId, earlier: Token, newer: Token)
    requires id in records && earlier != newer
    ensures RefreshRefusal(Some(earlier), Some(id), records[id := records[id].(refreshToken := Some(newer))]).Some?
  {
  }

  /** `updateAccountDetail`'s `$set`: a field that was not sent is left as it was. */
  function EditDetails(rec: UserRecord, fullName: Option<string>, email: Option<string>): UserRecord {
    rec.(fullName := fullName.GetOr(rec.fullName), email := email.GetOr(rec.email))
  }

  class UserCollection {
    var users: map<UserId, User>
    var nextId: UserId

    /** Ids are handed out in increasing order, and each id names its own document. */
    ghost predicate Valid()
      reads this
    {
      && (forall id | id in users :: id < nextId)
      && (forall a, b | a in users && b in users && a != b :: users[a] != users[b])
    }

    constructor ()
      ensures Valid() && users == map[]
    {
      users := map[];
      nextId := 0;
    }

    ghost function Records(): map<UserId, UserRecord>
      reads this, users.Values
    {
      map id | id in users :: users[id].Record()
    }

    /**
     * The unique indexes on username and email: no two stored users share
     * either. The database refuses a write that would break this with a
     * duplicate-key error.
     */
    ghost predicate UniqueKeys()
      reads this, users.Values
    {
      forall a, b | a in users && b in users && a != b ::
        users[a].username != users[b].username && users[a].email != users[b].email
    }

    /** Some stored user other than `except` holds the username `name` or the email `email`. */
    predicate KeyHeld(name: Option<string>, email: Option<string>, except: Option<UserId>)
      reads this, users.Values
    {
      exists id | id in users && Some(id) != except ::
        (name.Some? && users[id].username == name.value) || (email.Some? && users[id].email == email.value)
    }

    /** Some stored user has the given username or the given email. */
    predicate Taken(username: Option<string>, email: Option<string>)
      reads this, users.Values
    {
      exists id | id in users :: MatchesLogin(users[id], username, email)
    }

    /** The lookup `{ username: name }`: some user stored under that exact username, if any. */
    method FindByUsername(name: string) returns (r: Option<UserId>)
      ensures r.None? <==> forall id | id in users :: users[id].username != name
      ensures r.Some? ==> r.value in users && users[r.value].username == name
    {
      if exists id | id in users :: users[id].username == name {
        var id :| id in users && users[id].username == name;
        r := Some(id);
      } else {
        r := None;
      }
    }

    /**
     * `registerUser`: blank fields, an existing username or email, or a
     * missing avatar reject the request before any upload; a failed upload
     * throws and ends the request, so a failed avatar upload skips the cover
     * upload and a failed cover upload stores no user; a missing field or a
     * lowercased username some user already holds makes `User.create` throw
     * (the schema's required fields, the unique index on username);
     * otherwise a new document is stored under a fresh id with the username
     * lowercased.
     * `multipart` says the request was a multipart form, so the upload
     * middleware set `req.files`; an avatar field missing from such a form
     * makes `req.files?.avatar[0]` throw.
     */
    method Register(
      fullName: Option<string>, email: Option<string>, username: Option<string>, password: Option<string>,
      multipart: bool, avatarPath: Option<string>, coverImagePath: Option<string>,
      media: MediaStore, avatarAnswer: Option<Asset>, coverImageAnswer: Option<Asset>)
      returns (r: Result<UserId>)
      requires Valid()
      modifies this, media
      ensures Valid()
      ensures AnyBlank([fullName, email, username, password]) ==> r == Failure(BadRequest)
      ensures !AnyBlank([fullName, email, username, password]) && old(Taken(username, email)) ==> r == Failure(Conflict)
      ensures old(PassesChecks(fullName, email, username, password)) && !Truthy(avatarPath) ==>
        r == Failure(if multipart && avatarPath.None? then ServerError else BadRequest)
      ensures old(PassesChecks(fullName, email, username, password)) && Truthy(avatarPath) && avatarAnswer.None? ==>
        r == Failure(ServerError)
      ensures (old(PassesChecks(fullName, email, username, password)) && Truthy(avatarPath) && avatarAnswer.Some?
               && Truthy(coverImagePath) && coverImageAnswer.None?) ==> r == Failure(ServerError)
      ensures (old(PassesChecks(fullName, email, username, password)) && Truthy(avatarPath)
               && UploadsSucceed(avatarAnswer, coverImagePath, coverImageAnswer)
               && (fullName.None? || email.None? || username.None? || password.None?)) ==> r == Failure(ServerError)
      ensures (old(PassesChecks(fullName, email, username, password)) && Truthy(avatarPath)
               && UploadsSucceed(avatarAnswer, coverImagePath, coverImageAnswer)
               && username.Some? && old(KeyHeld(Some(Lower(username.value)), None, None))) ==> r == Failure(ServerError)
      ensures r.Success? <==>
        && old(PassesChecks(fullName, email, username, password)) && Truthy(avatarPath)
        && UploadsSucceed(avatarAnswer, coverImagePath, coverImageAnswer)
        && fullName.Some? && email.Some? && username.Some? && password.Some?
        && !old(KeyHeld(Some(Lower(username.value)), None, None))
      ensures old(UniqueKeys()) ==> UniqueKeys()
      ensures media.log == old(media.log) +
        (if old(PassesChecks(fullName, email, username, password)) && Truthy(avatarPath)
         then UploadCall(avatarPath, avatarAnswer) + (if avatarAnswer.Some? then UploadCall(coverImagePath, coverImageAnswer) else [])
         else [])
      ensures r.Failure? ==> users == old(users)
      ensures r.Success? ==>
        && r.value !in old(users)
        && users.Keys == old(users).Keys + {r.value}
        && (forall id | id in old(users) :: users[id] == old(users)[id])
        && fresh(users[r.value])
        && users[r.value].Record() == UserRecord(
             Lower(username.value), email.value, fullName.value, password.value, avatarAnswer.value.url,
             if Truthy(coverImagePath) then coverImageAnswer.value.url else "",
             None, [])
    {
      if AnyBlank([fullName, email, username, password]) {
        return Failure(BadRequest);
      }
      if Taken(username, email) {
        return Failure(Conflict);
      }
      if multipart && avatarPath.None? {
        // `req.files?.avatar[0]` on a form without an avatar field.
        return Failure(ServerError);
      }
      if !Truthy(avatarPath) {
        return Failure(BadRequest);
      }
      r := UploadAndStore(fullName, email, username, password, avatarPath.value, coverImagePath, media, avatarAnswer, coverImageAnswer);
    }

    /** The checks `registerUser` makes before its uploads: nothing blank, and neither username nor email taken. */
    ghost predicate PassesChecks(fullName: Option<string>, email: Option<string>, username: Option<string>, password: Option<string>)
      reads this, users.Values
    {
      !AnyBlank([fullName, email, username, password]) && !Taken(username, email)
    }

    /**
     * The second half of `registerUser`: the avatar upload, then the cover
     * upload, each ending the request when it fails, then `User.create`.
     */
    method UploadAndStore(
      fullName: Option<string>, email: Option<string>, username: Option<string>, password: Option<string>,
      avatarPath: string, coverImagePath: Option<string>,
      media: MediaStore, avatarAnswer: Option<Asset>, coverImageAnswer: Option<Asset>)
      returns (r: Result<UserId>)
      requires Valid() && avatarPath != "" && !Taken(username, email)
      modifies this, media
      ensures Valid()
      ensures !UploadsSucceed(avatarAnswer, coverImagePath, coverImageAnswer) ==> r == Failure(ServerError)
      ensures (UploadsSucceed(avatarAnswer, coverImagePath, coverImageAnswer)
               && (fullName.None? || email.None? || username.None? || password.None?)) ==> r == Failure(ServerError)
      ensures r.Success? <==>
        && UploadsSucceed(avatarAnswer, coverImagePath, coverImageAnswer)
        && fullName.Some? && email.Some? && username.Some? && password.Some?
        && !old(KeyHeld(Some(Lower(username.value)), None, None))
      ensures r.Failure? ==> r.error == ServerError
      ensures old(UniqueKeys()) ==> UniqueKeys()
      ensures media.log == old(media.log) + [Uploaded(avatarPath, avatarAnswer)]
                           + (if avatarAnswer.Some? then UploadCall(coverImagePath, coverImageAnswer) else [])
      ensures r.Failure? ==> users == old(users)
      ensures r.Success? ==>
        && r.value !in old(users) && r.value in users
        && users == old(users)[r.value := users[r.value]]
        && fresh(users[r.value])
        && users[r.value].Record() == UserRecord(
             Lower(username.value), email.value, fullName.value, password.value, avatarAnswer.value.url,
             if Truthy(coverImagePath) then coverImageAnswer.value.url else "",
             None, [])
    {
      // The email is free: the conflict check found no user holding it.
      assert !KeyHeld(None, email, None);
      var uploads := media.UploadBoth(avatarPath, avatarAnswer, coverImagePath, coverImageAnswer);
      if uploads.Failure? {
        return Failure(uploads.error);
      }
      // The avatar path is truthy, so its upload answered with a response and
      // the `!avatar` check (400) cannot reject here.
      if username.None? || fullName.None? || email.None? || password.None? {
        // `username.toLowerCase()` on a missing username, or a document the store refuses.
        return Failure(ServerError);
      }
      var (avatar, coverImage) := uploads.value;
      var cover := if coverImage.Some? then coverImage.value.url else "";
      r := Create(Lower(username.value), email.value, fullName.value, password.value, avatar.url, cover);
    }

    /**
     * `User.create`: a username or email some user already holds is a
     * duplicate key on a unique index and throws; otherwise the document is
     * stored under the next id.
     */
    method Create(username: string, email: string, fullName: string, password: string, avatar: Url, coverImage: Url)
      returns (r: Result<UserId>)
      requires Valid()
      modifies this
      ensures Valid()
      ensures r.Failure? <==> old(KeyHeld(Some(username), Some(email), None))
      ensures r.Failure? ==> r.error == ServerError && users == old(users)
      ensures r.Success? ==>
        && r.value == old(nextId) && r.value !in old(users) && r.value in users
        && users == old(users)[r.value := users[r.value]] && fresh(users[r.value])
        && users[r.value].Record() == UserRecord(username, email, fullName, password, avatar, coverImage, None, [])
      ensures old(UniqueKeys()) ==> UniqueKeys()
    {
      if KeyHeld(Some(username), Some(email), None) {
        return Failure(ServerError);
      }
      var u := new User(username, email, fullName, password, avatar, coverImage);
      r := Success(nextId);
      users := users[nextId := u];
      nextId := nextId + 1;
    }

    /**
     * `generateAccessAndRefreshTokens`: the new refresh token becomes the
     * user's single stored token, replacing any earlier one.
     */
    method IssueTokens(id: UserId, issued: Tokens) returns (tokens: Tokens)
      requires Valid() && id in users
      modifies users[id]
      ensures tokens == issued
      ensures Records() == old(Records())[id := old(Records())[id].(refreshToken := Some(issued.refreshToken))]
    {
      users[id].refreshToken := Some(issued.refreshToken);
      tokens := issued;
    }

    /**
     * `loginUser`: needs a username or an email; an unknown user is not found;
     * a failed password check is unauthorized; only a successful login stores
     * a token.
     */
    method Login(
      username: Option<string>, email: Option<string>, password: Option<string>,
      passwordMatches: (string, Option<string>) -> bool, issued: Tokens)
      returns (r: Result<Session>)
      requires Valid()
      modifies users.Values
      ensures Valid()
      ensures r == Failure(BadRequest) <==> !Truthy(username) && !Truthy(email)
      ensures r == Failure(NotFound) <==> (Truthy(username) || Truthy(email)) && !old(Taken(username, email))
      ensures (Truthy(username) || Truthy(email)) && old(Taken(username, email)) ==> r.Success? || r == Failure(Unauthorized)
      ensures (Truthy(username) || Truthy(email)) && old(Taken(username, email))
              && (forall id | id in old(users) && old(MatchesLogin(users[id], username, email)) ::
                    passwordMatches(old(users[id].password), password))
              ==> r.Success?
      ensures (Truthy(username) || Truthy(email))
              && (forall id | id in old(users) && old(MatchesLogin(users[id], username, email)) ::
                    !passwordMatches(old(users[id].password), password))
              ==> r.Failure?
      ensures r.Failure? ==> Records() == old(Records())
      ensures r == Failure(Unauthorized) ==>
        exists id | id in users :: MatchesLogin(users[id], username, email) && !passwordMatches(users[id].password, password)
      ensures r.Success? ==>
        && r.value.user in old(users)
        && old(MatchesLogin(users[r.value.user], username, email))
        && passwordMatches(old(users[r.value.user].password), password)
        && r.value.tokens == issued
        && Records() == old(Records())[r.value.user := old(Records())[r.value.user].(refreshToken := Some(issued.refreshToken))]
    {
      if !(Truthy(username) || Truthy(email)) {
        return Failure(BadRequest);
      }
      if !Taken(username, email) {
        return Failure(NotFound);
      }
      var id :| id in users && MatchesLogin(users[id], username, email);
      if !passwordMatches(users[id].password, password) {
        return Failure(Unauthorized);
      }
      var tokens := IssueTokens(id, issued);
      r := Success(Session(id, tokens));
    }

    /** `logoutUser`: unsets the stored refresh token; an unknown id changes nothing. */
    method Logout(id: UserId)
      requires Valid()
      modifies users.Values
      ensures Records() == if id in old(users) then old(Records())[id := old(Records())[id].(refreshToken := None)]
                           else old(Records())
    {
      if id in users {
        users[id].refreshToken := None;
      }
    }

    /**
     * `refreshAccessToken`: the token comes from the cookie, else from the
     * body; it is accepted only when it decodes to an existing user whose
     * stored token is exactly this one, and then a new pair is issued.
     */
    method Refresh(cookieToken: Option<Token>, bodyToken: Option<Token>, verify: Token -> Option<UserId>, issued: Tokens)
      returns (r: Result<Token>)
      requires Valid()
      modifies users.Values
      ensures
        var incoming := if Truthy(cookieToken) then cookieToken else bodyToken;
        var decoded := if Truthy(incoming) then verify(incoming.value) else None;
        var refusal := RefreshRefusal(incoming, decoded, old(Records()));
        && (refusal.Some? ==> r == Failure(refusal.value) && Records() == old(Records()))
        && (refusal.None? ==>
              && r == Success(issued.accessToken)
              && Records() == old(Records())[decoded.value := old(Records())[decoded.value].(refreshToken := Some(issued.refreshToken))])
    {
      var incoming := if Truthy(cookieToken) then cookieToken else bodyToken;
      if !Truthy(incoming) {
        return Failure(Unauthorized);
      }
      var decoded := verify(incoming.value);
      if decoded.None? || decoded.value !in users {
        return Failure(ServerError);
      }
      if users[decoded.value].refreshToken != Some(incoming.value) {
        return Failure(ServerError);
      }
      var tokens := IssueTokens(decoded.value, issued);
      r := Success(tokens.accessToken);
    }

    /** `changeCurrentPassword`: the new password is stored only when the old one checks out. */
    method ChangePassword(id: UserId, oldPassword: Option<string>, newPassword: string, passwordMatches: (string, Option<string>) -> bool)
      returns (r: Result<()>)
      requires Valid()
      modifies users.Values
      ensures id !in old(users) ==> r == Failure(ServerError) && Records() == old(Records())
      ensures id in old(users) && !passwordMatches(old(users[id].password), oldPassword) ==>
        r == Failure(BadRequest) && Records() == old(Records())
      ensures id in old(users) && passwordMatches(old(users[id].password), oldPassword) ==>
        r == Success(()) && Records() == old(Records())[id := old(Records())[id].(password := newPassword)]
    {
      if id !in users {
        // `user.isPasswordCorrect` on a null document.
        return Failure(ServerError);
      }
      if !passwordMatches(users[id].password, oldPassword) {
        return Failure(BadRequest);
      }
      users[id].password := newPassword;
      r := Success(());
    }

    /**
     * `updateAccountDetail`: at least one of full name and email; an unknown
     * id changes nothing; an email another user holds is a duplicate key on
     * the unique email index, so the update throws and changes nothing.
     */
    method UpdateAccountDetail(id: UserId, fullName: Option<string>, email: Option<string>) returns (r: Result<()>)
      requires Valid()
      modifies users.Values
      ensures !Truthy(fullName) && !Truthy(email) ==> r == Failure(BadRequest) && Records() == old(Records())
      ensures (Truthy(fullName) || Truthy(email)) && id in old(users) && old(KeyHeld(None, email, Some(id))) ==>
        r == Failure(ServerError) && Records() == old(Records())
      ensures old(UniqueKeys()) ==> UniqueKeys()
      ensures (Truthy(fullName) || Truthy(email)) && !(id in old(users) && old(KeyHeld(None, email, Some(id)))) ==>
        && r == Success(())
        && Records() == if id in old(users) then old(Records())[id := EditDetails(old(Records())[id], fullName, email)]
                        else old(Records())
    {
      if !Truthy(fullName) && !Truthy(email) {
        return Failure(BadRequest);
      }
      if id in users && KeyHeld(None, email, Some(id)) {
        return Failure(ServerError);
      }
      if id in users {
        // `$set` drops the fields that were not sent.
        var u := users[id];
        u.fullName, u.email := fullName.GetOr(u.fullName), email.GetOr(u.email);
      }
      r := Success(());
    }

    /**
     * `getUserChannelProfile`: the user stored under the lowercased name,
     * with its subscription figures.
     */
    method ChannelProfileOf(username: Option<string>, caller: UserId, subs: seq<Subscription>)
      returns (r: Result<ChannelProfile>)
      ensures !Truthy(username) ==> r == Failure(BadRequest)
      ensures Truthy(username) && (forall id | id in users :: users[id].username != Lower(username.value)) ==>
        r == Failure(NotFound)
      ensures Truthy(username) && (exists id | id in users :: users[id].username == Lower(username.value)) ==> r.Success?
      ensures r.Success? || r == Failure(BadRequest) || r == Failure(NotFound)
      ensures r.Success? ==>
        var p := r.value;
        && Truthy(username) && p.id in users
        && users[p.id].username == Lower(username.value) && p.username == users[p.id].username
        && p.fullName == users[p.id].fullName && p.email == users[p.id].email
        && p.avatar == users[p.id].avatar && p.coverImage == users[p.id].coverImage
        && p.subscriberCount == SubscriberCount(subs, p.id)
        && p.channelSubsribedToCount == SubscribedToCount(subs, p.id)
        && p.isSubscribed == IsSubscribed(subs, p.id, caller)
    {
      if !Truthy(username) {
        return Failure(BadRequest);
      }
      var found := FindByUsername(Lower(username.value));
      if found.None? {
        return Failure(NotFound);
      }
      var id := found.value;
      var u := users[id];
      r := Success(ChannelProfile(
        id, u.fullName, u.username,
        SubscriberCount(subs, id), SubscribedToCount(subs, id), IsSubscribed(subs, id, caller),
        u.avatar, u.coverImage, u.email));
    }
  }
}
