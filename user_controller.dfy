/** The user-account controller: registration, login, the current user and
    the user listing, over the in-memory user store. */
module UserController {
  import opened Wrappers
  import opened Text
  import opened Credentials
  import opened Tokens
  import opened Directory

  const StatusOk := 200
  const BadRequest := 400
  const Unauthorized := 401
  const NotFound := 404
  const InternalServerError := 500

  const AllFieldsRequired := "All Fields are required"
  const EmailTaken := "This email is already registered"
  const EmailUnknown := "Email is not registered"
  const PasswordIncorrect := "Password is incorrect"
  const RegisteredMessage := "Registered successfully"
  const LoggedInMessage := "Logged in successfully"

  /** What a request ends with. `Ok` is the JSON body sent with status 200.
      `Fail` is an error that leaves the handler: `setStatus` is the status
      set where it was thrown, `finalStatus` the one the catch block sets
      before rethrowing with the same message. */
  datatype Reply<T> =
    | Ok(message: string, data: T)
    | Fail(setStatus: int, finalStatus: int, message: string)

  datatype Registered = Registered(name: string, email: string, accessToken: Token)
  datatype LoggedIn = LoggedIn(accessToken: Token)
  datatype UserView = UserView(id: UserId, name: string, email: string)

  /** The store contents after a request, with the request's reply. */
  datatype Step<T> = Step(users: seq<UserRecord>, reply: Reply<T>)

  /** The catch block: whatever status was set, set 500 and rethrow the message. */
  function Rethrow<T>(setStatus: int, message: string): (r: Reply<T>)
    ensures r.Fail? && r.setStatus == setStatus && r.message == message
    ensures r.finalStatus == InternalServerError
  {
    Fail(setStatus, InternalServerError, message)
  }

  predicate FieldsMissing(name: Option<string>, email: Option<string>, password: Option<string>)
  {
    IsEmpty(name) || IsEmpty(email) || IsEmpty(password)
  }

  /** registerUser as a function of the store contents before the request.
      `freshId` is the id the store hands out next, `salt` the one bcrypt
      draws and `now` the mint time of the token. */
  function RegisterResult(users: seq<UserRecord>, freshId: UserId,
                          name: Option<string>, email: Option<string>, password: Option<string>,
                          salt: Salt, now: nat): (s: Step<Registered>)
    ensures s.reply.Fail? ==> s.users == users
    ensures s.reply.Fail? ==> s.reply.setStatus == BadRequest && s.reply.finalStatus == InternalServerError
    ensures FieldsMissing(name, email, password) ==> s.reply.Fail? && s.reply.message == AllFieldsRequired
    ensures !FieldsMissing(name, email, password) && (exists u :: u in users && u.email == email.value) ==>
              s.reply.Fail? && s.reply.message == EmailTaken
    ensures s.reply.Ok? <==> !FieldsMissing(name, email, password) && forall u :: u in users ==> u.email != email.value
    ensures s.reply.Ok? ==>
              && |s.users| == |users| + 1
              && s.users[..|users|] == users
              && s.users[|users|] == UserRecord(freshId, name.value, email.value, Hash(salt, password.value))
              && Verify(password.value, s.users[|users|].password)
    ensures s.reply.Ok? ==>
              && s.reply.message == RegisteredMessage
              && s.reply.data.name == name.value
              && s.reply.data.email == email.value
              && s.reply.data.accessToken == Issue(Claims(freshId, email.value), now)
              && s.reply.data.accessToken.exp == now + ThirtyDays
              && Decode(s.reply.data.accessToken, now) == Some(Claims(freshId, email.value))
  {
    if FieldsMissing(name, email, password) then
      Step(users, Rethrow(BadRequest, AllFieldsRequired))
    else if FindByEmail(users, email.value).Some? then
      Step(users, Rethrow(BadRequest, EmailTaken))
    else
      var created := UserRecord(freshId, name.value, email.value, Hash(salt, password.value));
      var token := Issue(Claims(created.id, created.email), now);
      assert (users + [created])[..|users|] == users;
      Step(users + [created], Ok(RegisteredMessage, Registered(created.name, created.email, token)))
  }

  /** registerUser, step by step: the field check, the lookup, hashing,
      `User.create`, minting the token, and the catch block. */
  method RegisterUser(store: UserStore, name: Option<string>, email: Option<string>, password: Option<string>,
                      salt: Salt, now: nat) returns (r: Reply<Registered>)
    requires store.Valid()
    modifies store
    ensures store.Valid()
    ensures Step(store.users, r) == RegisterResult(old(store.users), old(store.nextId), name, email, password, salt, now)
    ensures r.Ok? ==> forall u :: u in old(store.users) ==> u.id != store.users[|store.users| - 1].id
    ensures store.nextId == old(store.nextId) + (if r.Ok? then 1 else 0)
  {
    var status := StatusOk;
    var error: Option<string> := None;
    if IsEmpty(name) || IsEmpty(email) || IsEmpty(password) {
      status := BadRequest;
      error := Some(AllFieldsRequired);
    } else {
      var existing := FindByEmail(store.users, email.value);
      if existing.Some? {
        status := BadRequest;
        error := Some(EmailTaken);
      }
    }
    if error.None? {
      var hashed := Hash(salt, password.value);
      var created := store.Create(name.value, email.value, hashed);
      var token := Issue(Claims(created.id, created.email), now);
      r := Ok(RegisteredMessage, Registered(created.name, created.email, token));
    } else {
      var setStatus := status;
      status := InternalServerError;
      r := Fail(setStatus, status, error.value);
    }
  }

  /** loginUser as a function of the store contents: the checks in the order
      the handler makes them. */
  function LoginResult(users: seq<UserRecord>, email: Option<string>, password: Option<string>, now: nat): (r: Reply<LoggedIn>)
    ensures r.Fail? ==> r.finalStatus == InternalServerError
    ensures IsEmpty(email) || IsEmpty(password) ==> r == Fail(BadRequest, InternalServerError, AllFieldsRequired)
    ensures !IsEmpty(email) && !IsEmpty(password) && (forall u :: u in users ==> u.email != email.value) ==>
              r == Fail(NotFound, InternalServerError, EmailUnknown)
    ensures !IsEmpty(email) && !IsEmpty(password) && FindByEmail(users, email.value).Some?
            && !Verify(password.value, FindByEmail(users, email.value).value.password) ==>
              r == Fail(Unauthorized, InternalServerError, PasswordIncorrect)
    ensures !IsEmpty(email) && !IsEmpty(password) && FindByEmail(users, email.value).Some?
            && Verify(password.value, FindByEmail(users, email.value).value.password) ==>
              r == Ok(LoggedInMessage, LoggedIn(Issue(Claims(FindByEmail(users, email.value).value.id, email.value), now)))
    ensures r.Ok? ==>
              && !IsEmpty(email) && !IsEmpty(password)
              && r.message == LoggedInMessage
              && (exists u :: && u in users && u.email == email.value && Verify(password.value, u.password)
                              && r.data.accessToken == Issue(Claims(u.id, u.email), now))
  {
    if IsEmpty(email) || IsEmpty(password) then
      Rethrow(BadRequest, AllFieldsRequired)
    else
      match FindByEmail(users, email.value)
      case None => Rethrow(NotFound, EmailUnknown)
      case Some(user) =>
        if !Verify(password.value, user.password) then
          Rethrow(Unauthorized, PasswordIncorrect)
        else
          Ok(LoggedInMessage, LoggedIn(Issue(Claims(user.id, user.email), now)))
  }

  /** loginUser, step by step. It reads the store and changes nothing. */
  method LoginUser(store: UserStore, email: Option<string>, password: Option<string>, now: nat) returns (r: Reply<LoggedIn>)
    ensures r == LoginResult(store.users, email, password, now)
  {
    var status := StatusOk;
    var error: Option<string> := None;
    var token: Token;
    if IsEmpty(email) || IsEmpty(password) {
      status := BadRequest;
      error := Some(AllFieldsRequired);
    } else {
      var user := FindByEmail(store.users, email.value);
      if user.None? {
        status := NotFound;
        error := Some(EmailUnknown);
      } else if !Verify(password.value, user.value.password) {
        status := Unauthorized;
        error := Some(PasswordIncorrect);
      } else {
        token := Issue(Claims(user.value.id, user.value.email), now);
      }
    }
    if error.None? {
      r := Ok(LoggedInMessage, LoggedIn(token));
    } else {
      var setStatus := status;
      status := InternalServerError;
      r := Fail(setStatus, status, error.value);
    }
  }

  /** getCurrentUser: the authenticated user's `_id`, name and email; the
      password digest has no place in the view. */
  function GetCurrentUser(user: UserRecord): (v: UserView)
    ensures v.id == user.id && v.name == user.name && v.email == user.email
  {
    UserView(user.id, user.name, user.email)
  }

  /** `r` is `s` with some elements left out, in the same order. */
  ghost predicate IsSubsequence<T>(r: seq<T>, s: seq<T>)
  {
    r == [] || (s != [] && ((r[0] == s[0] && IsSubsequence(r[1..], s[1..])) || IsSubsequence(r, s[1..])))
  }

  /** `includes` on lower-cased strings, in the occurrence form that `Listed` states. */
  lemma IncludesLowerCased(name: string, text: string)
    ensures Includes(ToLowerCase(name), ToLowerCase(text)) <==>
              exists i :: OccursAt(ToLowerCase(name), ToLowerCase(text), i)
  {
  }

  /** The predicate getAllUsers filters with: not the caller, and, when the
      search text is present and non-empty, a lower-cased name in which the
      lower-cased text occurs. */
  function Listed(u: UserRecord, caller: UserRecord, searchText: Option<string>): (r: bool)
    ensures r ==> u.id != caller.id
    ensures IsEmpty(searchText) ==> (r <==> u.id != caller.id)
    ensures !IsEmpty(searchText) ==>
              (r <==> u.id != caller.id && exists i :: OccursAt(ToLowerCase(u.name), ToLowerCase(searchText.value), i))
  {
    if IsEmpty(searchText) then
      u.id != caller.id
    else
      IncludesLowerCased(u.name, searchText.value);
      u.id != caller.id && Includes(ToLowerCase(u.name), ToLowerCase(searchText.value))
  }

  /** getAllUsers over the full list `all` fetched from the store: exactly
      the listed records, each as often as in `all`, in their original order. */
  function GetAllUsers(all: seq<UserRecord>, caller: UserRecord, searchText: Option<string>): (r: seq<UserRecord>)
    ensures IsSubsequence(r, all)
    ensures forall u :: u in r ==> u.id != caller.id
    ensures forall u :: multiset(r)[u] == if Listed(u, caller, searchText) then multiset(all)[u] else 0
  {
    if all == [] then []
    else
      var rest := GetAllUsers(all[1..], caller, searchText);
      assert all == [all[0]] + all[1..];
      if Listed(all[0], caller, searchText) then
        assert ([all[0]] + rest)[1..] == rest;
        [all[0]] + rest
      else
        rest
  }

  /** The stored password verifies for the one who registered it: registering
      and then logging in with the same email and password succeeds. */
  lemma RegisterThenLogin(users: seq<UserRecord>, freshId: UserId, name: string, email: string, password: string,
                          salt: Salt, mintTime: nat, now: nat)
    requires RegisterResult(users, freshId, Some(name), Some(email), Some(password), salt, mintTime).reply.Ok?
    ensures var s := RegisterResult(users, freshId, Some(name), Some(email), Some(password), salt, mintTime);
            LoginResult(s.users, Some(email), Some(password), now)
              == Ok(LoggedInMessage, LoggedIn(Issue(Claims(freshId, email), now)))
  {
  }

  /** Once an email is registered, registering it again fails, whatever the
      other fields. */
  lemma RegisterTwiceFails(users: seq<UserRecord>, freshId: UserId, name: string, email: string, password: string,
                           salt: Salt, mintTime: nat,
                           freshId': UserId, name': string, password': string, salt': Salt, now: nat)
    requires RegisterResult(users, freshId, Some(name), Some(email), Some(password), salt, mintTime).reply.Ok?
    requires name' != [] && password' != []
    ensures var s := RegisterResult(users, freshId, Some(name), Some(email), Some(password), salt, mintTime);
            RegisterResult(s.users, freshId', Some(name'), Some(email), Some(password'), salt', now).reply
              == Fail(BadRequest, InternalServerError, EmailTaken)
  {
  }

  /** Registration keeps emails pairwise distinct. */
  lemma RegisterKeepsEmailsUnique(users: seq<UserRecord>, freshId: UserId,
                                  name: Option<string>, email: Option<string>, password: Option<string>,
                                  salt: Salt, now: nat)
    requires EmailsUnique(users)
    ensures EmailsUnique(RegisterResult(users, freshId, name, email, password, salt, now).users)
  {
  }

  /** In a directory with unique emails, login succeeds exactly when both
      fields are present and some record has that email and a digest the
      password verifies against; the token names that record. */
  lemma LoginSucceedsIff(users: seq<UserRecord>, email: string, password: string, now: nat)
    requires EmailsUnique(users)
    requires email != [] && password != []
    ensures LoginResult(users, Some(email), Some(password), now).Ok? <==>
              exists u :: u in users && u.email == email && Verify(password, u.password)
    ensures forall u :: u in users && u.email == email && Verify(password, u.password) ==>
              LoginResult(users, Some(email), Some(password), now) == Ok(LoggedInMessage, LoggedIn(Issue(Claims(u.id, email), now)))
  {
  }

  /** The search ignores case: two search texts that lower-case alike list
      the same users. */
  lemma {:induction false} SearchIgnoresCase(all: seq<UserRecord>, caller: UserRecord, text: string, text': string)
    requires ToLowerCase(text) == ToLowerCase(text')
    ensures GetAllUsers(all, caller, Some(text)) == GetAllUsers(all, caller, Some(text'))
  {
    if all != [] {
      assert |text| == |ToLowerCase(text)| == |text'|;
      SearchIgnoresCase(all[1..], caller, text, text');
    }
  }

  /** Searching for a text and for its lower-cased form lists the same users. */
  lemma SearchLowerCasedText(all: seq<UserRecord>, caller: UserRecord, text: string)
    ensures GetAllUsers(all, caller, Some(text)) == GetAllUsers(all, caller, Some(ToLowerCase(text)))
  {
    ToLowerCaseIdempotent(text);
    SearchIgnoresCase(all, caller, text, ToLowerCase(text));
  }

  /** Without search text the listing is every record but the caller's, in
      store order. */
  lemma {:induction false} ListingWithoutSearch(all: seq<UserRecord>, caller: UserRecord, searchText: Option<string>)
    requires IsEmpty(searchText)
    ensures GetAllUsers(all, caller, searchText) == GetAllUsers(all, caller, None)
    ensures forall u :: u in GetAllUsers(all, caller, searchText) <==> u in all && u.id != caller.id
  {
    if all != [] {
      ListingWithoutSearch(all[1..], caller, searchText);
    }
    var r := GetAllUsers(all, caller, searchText);
    forall u ensures u in r <==> u in all && u.id != caller.id {
      assert u in r <==> multiset(r)[u] > 0;
      assert u in all <==> multiset(all)[u] > 0;
    }
  }

  /** The search text "ali" finds "Ali" and "Khalid" but not "Bob". */
  lemma AliExample()
    ensures Includes(ToLowerCase("Ali"), ToLowerCase("ali"))
    ensures Includes(ToLowerCase("Khalid"), ToLowerCase("ali"))
    ensures !Includes(ToLowerCase("Bob"), ToLowerCase("ali"))
  {
  }

  /** A short sequence of requests: a first registration, a duplicate, a
      wrong password, a correct one and an unknown email. */
  method Scenario(salt: Salt, now: nat)
  {
    var store := new UserStore();
    var r1 := RegisterUser(store, Some("Ann"), Some("ann@x.com"), Some("secret1"), salt, now);
    assert r1.Ok?;
    var r2 := RegisterUser(store, Some("Bob"), Some("ann@x.com"), Some("other"), salt, now);
    assert r2 == Fail(BadRequest, InternalServerError, EmailTaken);
    var r3 := LoginUser(store, Some("ann@x.com"), Some("wrong"), now);
    assert r3 == Fail(Unauthorized, InternalServerError, PasswordIncorrect);
    var r4 := LoginUser(store, Some("ann@x.com"), Some("secret1"), now);
    assert r4.Ok?;
    var r5 := LoginUser(store, Some("missing@x.com"), Some("x"), now);
    assert r5 == Fail(NotFound, InternalServerError, EmailUnknown);
  }
}
