/** The handlers of app/api/edit_user.py: `edit_address`, which builds a new address, and
    `change_password`, which replaces a user's password hash in place. Hashing is a parameter
    `hashOf` and verification a parameter `checkPassword(hash, password)`. */
module EditUser {
  import opened Wrappers
  import opened Ids
  import opened RequestBody
  import opened Validators
  import opened AddressModel

  const AddressFields: seq<string> := ["country", "apartment", "street_address", "city", "state", "postal_code"]

  predicate HasAddressKeys(body: Body) {
    && "country" in body && "apartment" in body && "street_address" in body
    && "city" in body && "state" in body && "postal_code" in body
  }

  lemma AddressKeysPresent(body: Body)
    ensures FirstMissing(AddressFields, body).None? <==> HasAddressKeys(body)
  {
    if HasAddressKeys(body) {
      forall k | 0 <= k < |AddressFields| ensures AddressFields[k] in body {
        assert AddressFields[k] in ["country", "apartment", "street_address", "city", "state", "postal_code"];
      }
    }
    assert AddressFields[0] == "country" && AddressFields[1] == "apartment" && AddressFields[2] == "street_address";
    assert AddressFields[3] == "city" && AddressFields[4] == "state" && AddressFields[5] == "postal_code";
  }

  datatype AddressOutcome = AddressRefused(status: int, msg: string) | CreateAddress(address: Address)

  /** `edit_address`: the user must exist before the body is looked at; every field is
      required in the listed order; the new address copies them, with the column defaults
      for the default flag and the address type. `newId` is the id the database assigns. */
  function EditAddress(user: Option<UserId>, body: Option<Body>, newId: nat): (r: AddressOutcome)
    ensures user.None? ==> r == AddressRefused(404, "User not found")
    ensures user.Some? && Missing(body) ==> r == AddressRefused(400, "Missing JSON in request")
    ensures user.Some? && !Missing(body) && FirstMissing(AddressFields, body.value).Some? ==>
      r == AddressRefused(400, MissingMessage(FirstMissing(AddressFields, body.value).value))
    ensures r.CreateAddress? <==> user.Some? && !Missing(body) && HasAddressKeys(body.value)
    ensures r.CreateAddress? ==>
      var b := body.value;
      r.address == Address(newId, user.value, b["street_address"], Some(b["apartment"]), b["city"],
                           b["state"], b["postal_code"], b["country"], false, "shipping")
  {
    if user.None? then AddressRefused(404, "User not found")
    else if Missing(body) then AddressRefused(400, "Missing JSON in request")
    else
      var b := body.value;
      AddressKeysPresent(b);
      match FirstMissing(AddressFields, b)
      case Some(field) => AddressRefused(400, MissingMessage(field))
      case None =>
        var country := if "country" in b then b["country"] else "Argentina";
        CreateAddress(Address(newId, user.value, b["street_address"], Some(b["apartment"]), b["city"],
                              b["state"], b["postal_code"], country, false, "shipping"))
  }

  /** The 'Argentina' fallback never applies: a created address always carries the
      country the body gave, and a body without one is refused. */
  lemma CountryDefaultNeverApplies(user: Option<UserId>, body: Option<Body>, newId: nat)
    ensures EditAddress(user, body, newId).CreateAddress? ==>
      "country" in body.value && EditAddress(user, body, newId).address.country == body.value["country"]
    ensures user.Some? && body.Some? && body.value != map[] && "country" !in body.value ==>
      EditAddress(user, body, newId) == AddressRefused(400, "Missing country parameter")
  {
    if user.Some? && body.Some? && body.value != map[] && "country" !in body.value {
      assert FirstMissing(AddressFields, body.value) == Some("country");
    }
  }

  // ----- change_password -----

  datatype PasswordChange = PasswordRefused(status: int, msg: string) | SetPassword(newPassword: string)

  /** The checks of `change_password` once the user is found, in order: a body, both
      passwords truthy, the old one correct, the new one different, the new one strong. */
  function ChangePasswordPlan(hash: string, body: Option<Body>, checkPassword: (string, string) -> bool): (r: PasswordChange)
    ensures Missing(body) ==> r == PasswordRefused(400, "Missing JSON in request")
    ensures r.SetPassword? <==>
      && !Missing(body)
      && HasValue(body.value, "old_password") && HasValue(body.value, "new_password")
      && checkPassword(hash, body.value["old_password"])
      && body.value["old_password"] != body.value["new_password"]
      && ValidatePassword(body.value["new_password"]).ok
    ensures r.SetPassword? ==> r.newPassword == body.value["new_password"]
    ensures r.PasswordRefused? ==> r.status == 400
    ensures !Missing(body) && (!HasValue(body.value, "old_password") || !HasValue(body.value, "new_password")) ==>
      r == PasswordRefused(400, "Both old_password and new_password are required")
    ensures
      (&& !Missing(body)
       && HasValue(body.value, "old_password") && HasValue(body.value, "new_password")
       && checkPassword(hash, body.value["old_password"])
       && body.value["old_password"] != body.value["new_password"]
       && !ValidatePassword(body.value["new_password"]).ok)
      ==> r == PasswordRefused(400, ValidatePassword(body.value["new_password"]).message)
  {
    if Missing(body) then PasswordRefused(400, "Missing JSON in request")
    else
      var b := body.value;
      if !HasValue(b, "old_password") || !HasValue(b, "new_password") then
        PasswordRefused(400, "Both old_password and new_password are required")
      else if !checkPassword(hash, b["old_password"]) then PasswordRefused(400, "Old password is incorrect")
      else if b["old_password"] == b["new_password"] then
        PasswordRefused(400, "New password must be different from the old password")
      else
        var check := ValidatePassword(b["new_password"]);
        if !check.ok then PasswordRefused(400, check.message) else SetPassword(b["new_password"])
  }

  /** A wrong old password is reported before the new password is compared or judged. */
  lemma WrongOldPasswordFirst(hash: string, body: Body, checkPassword: (string, string) -> bool)
    requires body != map[] && HasValue(body, "old_password") && HasValue(body, "new_password")
    requires !checkPassword(hash, body["old_password"])
    ensures ChangePasswordPlan(hash, Some(body), checkPassword) == PasswordRefused(400, "Old password is incorrect")
  {
  }

  /** Reusing the old password is reported before the strength check. */
  lemma SamePasswordBeforeStrength(hash: string, body: Body, checkPassword: (string, string) -> bool)
    requires body != map[] && HasValue(body, "old_password") && HasValue(body, "new_password")
    requires checkPassword(hash, body["old_password"]) && body["old_password"] == body["new_password"]
    ensures ChangePasswordPlan(hash, Some(body), checkPassword)
         == PasswordRefused(400, "New password must be different from the old password")
  {
  }

  /** The stored user whose password hash `set_password` replaces. */
  class UserAccount {
    var id: UserId
    var passwordHash: string

    constructor (id: UserId, passwordHash: string)
      ensures this.id == id && this.passwordHash == passwordHash
    {
      this.id := id;
      this.passwordHash := passwordHash;
    }

    /** `User.set_password`. */
    method SetPasswordHash(password: string, hashOf: string -> string)
      modifies this
      ensures passwordHash == hashOf(password) && id == old(id)
    {
      passwordHash := hashOf(password);
    }
  }

  /** `change_password`: 404 for an unknown user before the body is read; otherwise the hash
      changes exactly when the plan accepts, to the hash of the new password. */
  method ChangePassword(user: UserAccount?, body: Option<Body>, hashOf: string -> string,
                        checkPassword: (string, string) -> bool) returns (status: int, msg: string)
    modifies user
    ensures user == null ==> status == 404 && msg == "User not found"
    ensures user != null ==> user.id == old(user.id)
    ensures user != null ==>
      match old(ChangePasswordPlan(user.passwordHash, body, checkPassword))
      case PasswordRefused(s, m) => status == s && msg == m && user.passwordHash == old(user.passwordHash)
      case SetPassword(p) => status == 200 && msg == "Password updated successfully" && user.passwordHash == hashOf(p)
  {
    if user == null {
      return 404, "User not found";
    }
    match ChangePasswordPlan(user.passwordHash, body, checkPassword)
    case PasswordRefused(s, m) =>
      status, msg := s, m;
    case SetPassword(p) =>
      user.SetPasswordHash(p, hashOf);
      status, msg := 200, "Password updated successfully";
  }
}
