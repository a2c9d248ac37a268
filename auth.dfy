/** The request checks of app/api/auth.py: `register` up to the creation of the user, the
    `login` decision, and the revoked-token table written by `logout` and read by
    `check_if_token_revoked`. Password hashing is a parameter `checkPassword(hash, password)`. */
module Auth {
  import opened Wrappers
  import opened Ids
  import opened Text
  import opened RequestBody
  import opened Validators

  /** A stored user as the handlers see it. */
  datatype Account = Account(id: UserId, email: string, passwordHash: string)

  const RegisterFields: seq<string> := ["email", "password", "first_name", "last_name"]

  /** The values `register` hands to the `User` constructor. */
  datatype NewUser = NewUser(
    email: string,
    password: string,
    firstName: string,
    lastName: string,
    phone: Option<string>,
    dateOfBirth: Option<string>)

  /** The four keys `register` requires are all present. */
  predicate HasRegisterKeys(body: Body) {
    "email" in body && "password" in body && "first_name" in body && "last_name" in body
  }

  lemma RegisterKeysPresent(body: Body)
    ensures FirstMissing(RegisterFields, body).None? <==> HasRegisterKeys(body)
  {
    if HasRegisterKeys(body) {
      forall k | 0 <= k < |RegisterFields| ensures RegisterFields[k] in body {
        assert RegisterFields[k] in ["email", "password", "first_name", "last_name"];
      }
    }
    assert RegisterFields[0] == "email" && RegisterFields[1] == "password";
    assert RegisterFields[2] == "first_name" && RegisterFields[3] == "last_name";
  }

  datatype RegisterOutcome = RegisterRefused(status: int, msg: string) | CreateUser(user: NewUser)

  /** An optional field: stripped when truthy, `None` otherwise. */
  function OptionalStripped(body: Body, key: string): (r: Option<string>)
    ensures r.Some? <==> HasValue(body, key)
    ensures r.Some? ==> r.value == Strip(body[key])
  {
    if HasValue(body, key) then Some(Strip(body[key])) else None
  }

  /** `register` up to the creation of the user: the body, the required keys in order, the
      email format, the password strength, and the duplicate check against `registered`. */
  function Register(body: Option<Body>, registered: set<string>): (r: RegisterOutcome)
    ensures Missing(body) ==> r == RegisterRefused(400, "Missing JSON in request")
    ensures !Missing(body) && FirstMissing(RegisterFields, body.value).Some? ==>
      r == RegisterRefused(400, MissingMessage(FirstMissing(RegisterFields, body.value).value))
    ensures r.CreateUser? <==>
      && !Missing(body)
      && HasRegisterKeys(body.value)
      && ValidateEmail(body.value["email"]).ok
      && ValidatePassword(body.value["password"]).ok
      && body.value["email"] !in registered
    ensures r.CreateUser? ==> r.user == NewUser(body.value["email"], body.value["password"],
      body.value["first_name"], body.value["last_name"],
      OptionalStripped(body.value, "phone"), OptionalStripped(body.value, "date_of_birth"))
  {
    if Missing(body) then RegisterRefused(400, "Missing JSON in request")
    else
      var b := body.value;
      RegisterKeysPresent(b);
      match FirstMissing(RegisterFields, b)
      case Some(field) => RegisterRefused(400, MissingMessage(field))
      case None =>
        var email := b["email"];
        var password := b["password"];
        var emailCheck := ValidateEmail(email);
        if !emailCheck.ok then RegisterRefused(400, emailCheck.message)
        else
          var passwordCheck := ValidatePassword(password);
          if !passwordCheck.ok then RegisterRefused(400, passwordCheck.message)
          else if email in registered then RegisterRefused(400, "User already exists")
          else CreateUser(NewUser(email, password, b["first_name"], b["last_name"],
                                  OptionalStripped(b, "phone"), OptionalStripped(b, "date_of_birth")))
  }

  /** The checks run in order: a bad email is reported whatever the password, a weak
      password is reported whatever the registered users, and a duplicate is reported exactly
      for a valid email and a strong password that is already registered. */
  lemma RegisterCheckOrder(body: Body, registered: set<string>)
    requires body != map[] && HasRegisterKeys(body)
    ensures !ValidateEmail(body["email"]).ok ==>
      Register(Some(body), registered) == RegisterRefused(400, ValidateEmail(body["email"]).message)
    ensures ValidateEmail(body["email"]).ok && !ValidatePassword(body["password"]).ok ==>
      Register(Some(body), registered) == RegisterRefused(400, ValidatePassword(body["password"]).message)
    ensures Register(Some(body), registered) == RegisterRefused(400, "User already exists") <==>
      ValidateEmail(body["email"]).ok && ValidatePassword(body["password"]).ok && body["email"] in registered
  {
    RegisterKeysPresent(body);
    if ValidateEmail(body["email"]).ok && ValidatePassword(body["password"]).ok && body["email"] !in registered {
      assert Register(Some(body), registered).CreateUser?;
    }
  }

  /** The phone number is stripped but never validated: an otherwise acceptable registration
      goes through with any phone value. */
  lemma RegisterIgnoresPhoneFormat(body: Body, registered: set<string>, phone: string)
    requires Register(Some(body), registered).CreateUser?
    ensures Register(Some(body["phone" := phone]), registered).CreateUser?
  {
    var b := body["phone" := phone];
    RegisterKeysPresent(body);
    RegisterKeysPresent(b);
    assert HasRegisterKeys(b) && b != map[];
    assert b["email"] == body["email"] && b["password"] == body["password"];
  }

  // ----- login -----

  /** `User.filter_by_email`: the account stored under that email. */
  function FindAccount(accounts: seq<Account>, email: string): (r: Option<Account>)
    ensures r.Some? ==> r.value in accounts && r.value.email == email
    ensures r.None? <==> forall a :: a in accounts ==> a.email != email
  {
    if accounts == [] then None
    else if accounts[0].email == email then Some(accounts[0])
    else FindAccount(accounts[1..], email)
  }

  datatype LoginOutcome = LoginRefused(status: int, msg: string) | Tokens(userId: UserId)

  /** `login`: both values must be truthy before any lookup; an unknown email and a wrong
      password give the same answer; otherwise tokens for the account's id. */
  function Login(body: Body, accounts: seq<Account>, checkPassword: (string, string) -> bool): (r: LoginOutcome)
    ensures !HasValue(body, "email") || !HasValue(body, "password") ==> r == LoginRefused(400, "Missing email or password")
    ensures r.Tokens? <==>
      && HasValue(body, "email") && HasValue(body, "password")
      && FindAccount(accounts, body["email"]).Some?
      && checkPassword(FindAccount(accounts, body["email"]).value.passwordHash, body["password"])
    ensures r.Tokens? ==> r.userId == FindAccount(accounts, body["email"]).value.id
    ensures r.LoginRefused? && HasValue(body, "email") && HasValue(body, "password") ==>
      r == LoginRefused(401, "Invalid email or password")
  {
    if !HasValue(body, "email") || !HasValue(body, "password") then LoginRefused(400, "Missing email or password")
    else
      match FindAccount(accounts, body["email"])
      case None => LoginRefused(401, "Invalid email or password")
      case Some(account) =>
        if !checkPassword(account.passwordHash, body["password"]) then LoginRefused(401, "Invalid email or password")
        else Tokens(account.id)
  }

  /** A caller cannot tell an unknown email from a wrong password: dropping the account
      gives the same answer as a failing password check. */
  lemma LoginHidesUnknownEmail(body: Body, account: Account, checkPassword: (string, string) -> bool)
    requires HasValue(body, "email") && HasValue(body, "password")
    requires account.email == body["email"] && !checkPassword(account.passwordHash, body["password"])
    ensures Login(body, [account], checkPassword) == Login(body, [], checkPassword)
  {
    assert FindAccount([account], body["email"]) == Some(account);
  }

  // ----- revoked tokens -----

  /** The `revoked_tokens` table: the jti of every token revoked by `logout`, in insertion
      order. */
  class RevokedTokens {
    var jtis: seq<string>

    constructor ()
      ensures jtis == []
    {
      jtis := [];
    }

    /** `logout`: inserts one row for the token's jti. */
    method Logout(jti: string)
      modifies this
      ensures jtis == old(jtis) + [jti]
      ensures forall t :: t in jtis <==> t in old(jtis) || t == jti
    {
      jtis := jtis + [jti];
    }

    /** `check_if_token_revoked`: whether some row holds the jti. */
    method IsRevoked(jti: string) returns (revoked: bool)
      ensures revoked <==> jti in jtis
    {
      var i := 0;
      while i < |jtis|
        invariant 0 <= i <= |jtis|
        invariant jti !in jtis[..i]
      {
        if jtis[i] == jti {
          return true;
        }
        i := i + 1;
      }
      assert jtis[..i] == jtis;
      return false;
    }
  }

  /** After a logout the token is revoked and every other token keeps its state. */
  method LogoutRevokes(tokens: RevokedTokens, jti: string, other: string) returns (now: bool, otherBefore: bool, otherAfter: bool)
    modifies tokens
    ensures now
    ensures other != jti ==> otherAfter == otherBefore
  {
    otherBefore := tokens.IsRevoked(other);
    tokens.Logout(jti);
    now := tokens.IsRevoked(jti);
    otherAfter := tokens.IsRevoked(other);
  }
}
