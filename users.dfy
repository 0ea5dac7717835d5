/** The password rules of `User.create`/`User.update` and of their copies in
    `UserDomainService`: a fresh user record is filled from the payload, the plain password
    is replaced by its hash, and a new password is only accepted together with the right
    previous one. Hashing and checking a password are library calls; they are given as
    functions. */
module Users {
  import opened Common

  /** The payload of `createUser`, after validation. */
  datatype CreateUserPayload = CreateUserPayload(
    user_name: string,
    user_email: string,
    password: string,
    phone_number: Option<string>,
    date_of_birth: Option<string>,
    user_photo_url: Option<string>)

  /** The payload of `updateUser`, after validation; every field is optional. */
  datatype UpdateUserPayload = UpdateUserPayload(
    user_name: Option<string>,
    user_email: Option<string>,
    new_password: Option<string>,
    previous_password: Option<string>,
    user_photo_url: Option<string>)

  /** The `hashed_password` property of a fresh record: never assigned, assigned `null`, or
      assigned a hash. */
  datatype PasswordField = Unassigned | NullPassword | Hashed(digest: string)

  /** A fresh `User` after `Object.assign`: the properties it was given (`None` where the
      payload had none). There is no property for a plain password. */
  datatype UserRecord = UserRecord(
    user_name: Option<string>,
    user_email: Option<string>,
    hashed_password: PasswordField,
    phone_number: Option<string>,
    date_of_birth: Option<string>,
    user_photo_url: Option<string>)

  /** The two refusals of an update, in the language of the class that raises them. */
  datatype PasswordMessages = PasswordMessages(required: string, incorrect: string)

  const EntityMessages := PasswordMessages(
    "Previous password is required when setting a new password.",
    "Previous password is incorrect.")
  const DomainMessages := PasswordMessages(
    "A senha anterior é necessária ao definir uma nova senha.",
    "A senha anterior está incorreta.")

  /** `User.create` and `createUserEntity`: the payload is copied without its password, and
      `hashed_password` is the hash of a non-empty password, `null` for an empty one. */
  function CreateUser(p: CreateUserPayload, hash: string -> string): (u: UserRecord)
    ensures u.hashed_password == (if p.password != "" then Hashed(hash(p.password)) else NullPassword)
    ensures u.user_name == Some(p.user_name) && u.user_email == Some(p.user_email)
    ensures u.phone_number == p.phone_number && u.date_of_birth == p.date_of_birth
    ensures u.user_photo_url == p.user_photo_url
  {
    var hashed := if p.password != "" then Hashed(hash(p.password)) else NullPassword;
    UserRecord(Some(p.user_name), Some(p.user_email), hashed, p.phone_number, p.date_of_birth, p.user_photo_url)
  }

  /** `User.update` (with `EntityMessages`) and `updateUserEntity` (with `DomainMessages`):
      a truthy new password needs a truthy previous password that checks against the stored
      hash; then `hashed_password` is the new password's hash. Without a new password the
      previous one is ignored and `hashed_password` stays unassigned. Neither password is
      copied into the record. */
  function UpdateUser(
    p: UpdateUserPayload, stored: string, hash: string -> string, verify: (string, string) -> bool,
    messages: PasswordMessages): (r: Result<UserRecord>)
    ensures r.Err? <==>
      IsTruthy(p.new_password) && (!IsTruthy(p.previous_password) || !verify(p.previous_password.value, stored))
    ensures IsTruthy(p.new_password) && !IsTruthy(p.previous_password) ==>
      r == Err(BadRequest(messages.required))
    ensures IsTruthy(p.new_password) && IsTruthy(p.previous_password) && !verify(p.previous_password.value, stored) ==>
      r == Err(BadRequest(messages.incorrect))
    ensures r.Ok? ==>
      && r.value.hashed_password == (if IsTruthy(p.new_password) then Hashed(hash(p.new_password.value)) else Unassigned)
      && r.value.user_name == p.user_name && r.value.user_email == p.user_email
      && r.value.user_photo_url == p.user_photo_url
      && r.value.phone_number.None? && r.value.date_of_birth.None?
  {
    var hashed :-
      if !IsTruthy(p.new_password) then Ok(Unassigned)
      else if !IsTruthy(p.previous_password) then Err(BadRequest(messages.required))
      else if !verify(p.previous_password.value, stored) then Err(BadRequest(messages.incorrect))
      else Ok(Hashed(hash(p.new_password.value)));
    Ok(UserRecord(p.user_name, p.user_email, hashed, None, None, p.user_photo_url))
  }

  /** With a password check that accepts every password against its own hash, a user
      created with a password can change it by giving that password back. */
  lemma ChangePasswordAfterCreate(
    p: CreateUserPayload, newPassword: string, hash: string -> string, verify: (string, string) -> bool,
    messages: PasswordMessages)
    requires forall x :: verify(x, hash(x))
    requires p.password != "" && newPassword != ""
    ensures var created := CreateUser(p, hash);
            var change := UpdateUserPayload(None, None, Some(newPassword), Some(p.password), None);
            && created.hashed_password.Hashed?
            && UpdateUser(change, created.hashed_password.digest, hash, verify, messages).Ok?
            && UpdateUser(change, created.hashed_password.digest, hash, verify, messages).value.hashed_password
               == Hashed(hash(newPassword))
  {
    assert verify(p.password, hash(p.password));
  }

  /** With a password check that accepts a hash only for the password it was made from, a
      wrong previous password is refused as incorrect and nothing is hashed. */
  lemma WrongPreviousPasswordRefused(
    p: CreateUserPayload, guess: string, newPassword: string, hash: string -> string,
    verify: (string, string) -> bool, messages: PasswordMessages)
    requires forall x, y :: verify(x, hash(y)) ==> x == y
    requires p.password != "" && guess != "" && guess != p.password && newPassword != ""
    ensures var created := CreateUser(p, hash);
            var change := UpdateUserPayload(None, None, Some(newPassword), Some(guess), None);
            UpdateUser(change, created.hashed_password.digest, hash, verify, messages)
              == Err(BadRequest(messages.incorrect))
  {
  }
}
