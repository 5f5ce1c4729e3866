/**
 * The registration endpoint (app/api/auth/register/route.ts): a chain of
 * guards with early 400 responses, then one insert into the user store.
 * The store is a list of user documents; `hashPassword` is the function
 * parameter `hash`, the new document id and the two clock readings are
 * parameters.
 */
module RegisterRoute {

  import opened Wrappers
  import opened Types

  const MissingFields := "Username, password, and full name are required"
  const PasswordTooShort := "Password must be at least 6 characters long"
  const FullNameTooShort := "Full name must be at least 2 characters long"
  const UsernameTaken := "Username already exists"

  /** A document of the users collection. */
  datatype UserDocument = UserDocument(id: string, username: string, fullName: string, password: string, createdAt: int)

  /** The response: an error with its status, or the new user without its password. */
  datatype RegisterResponse = Failure(status: nat, error: string) | Success(user: User)

  /** `!x` on a body field: missing, `null` or the empty string. */
  predicate Missing(x: Option<string>) {
    x.None? || x.value == ""
  }

  /** Some document has this username. */
  predicate Taken(users: seq<UserDocument>, username: string) {
    exists i :: 0 <= i < |users| && users[i].username == username
  }

  /** No two documents share a username. */
  predicate UniqueUsernames(users: seq<UserDocument>) {
    forall i, j :: 0 <= i < j < |users| ==> users[i].username != users[j].username
  }

  class UserStore {
    var users: seq<UserDocument>

    constructor ()
      ensures users == []
    {
      users := [];
    }

    /**
     * `POST`: the guards in their order (missing fields, short password,
     * short full name, taken username), then one insert and the new user.
     * Every failure leaves the store as it was.
     */
    method Register(username: Option<string>, password: Option<string>, fullName: Option<string>,
                    hash: string -> string, newId: string, storedAt: int, respondedAt: int)
      returns (response: RegisterResponse)
      modifies this
      ensures response == Failure(400, MissingFields) <==> Missing(username) || Missing(password) || Missing(fullName)
      ensures response == Failure(400, PasswordTooShort) <==>
        !Missing(username) && !Missing(password) && !Missing(fullName) && |password.value| < 6
      ensures response == Failure(400, FullNameTooShort) <==>
        !Missing(username) && !Missing(password) && !Missing(fullName) && |password.value| >= 6
        && |fullName.value| < 2
      ensures response == Failure(400, UsernameTaken) <==>
        !Missing(username) && !Missing(password) && !Missing(fullName) && |password.value| >= 6
        && |fullName.value| >= 2 && Taken(old(users), username.value)
      ensures response.Success? <==>
        !Missing(username) && !Missing(password) && !Missing(fullName) && |password.value| >= 6
        && |fullName.value| >= 2 && !Taken(old(users), username.value)
      ensures response.Failure? ==> users == old(users)
      ensures UniqueUsernames(old(users)) ==> UniqueUsernames(users)
      ensures response.Success? ==>
        && users == old(users) + [UserDocument(newId, username.value, fullName.value, hash(password.value), storedAt)]
        && response.user == User(newId, username.value, fullName.value, respondedAt)
    {
      if Missing(username) || Missing(password) || Missing(fullName) {
        return Failure(400, MissingFields);
      }
      if |password.value| < 6 {
        return Failure(400, PasswordTooShort);
      }
      if |fullName.value| < 2 {
        return Failure(400, FullNameTooShort);
      }
      if Taken(users, username.value) {
        return Failure(400, UsernameTaken);
      }
      var d := UserDocument(newId, username.value, fullName.value, hash(password.value), storedAt);
      if UniqueUsernames(users) {
        RegisterKeepsUsernamesUnique(users, d);
      }
      users := users + [d];
      response := Success(User(newId, username.value, fullName.value, respondedAt));
    }
  }

  /** A successful registration keeps usernames unique. */
  lemma RegisterKeepsUsernamesUnique(users: seq<UserDocument>, d: UserDocument)
    requires UniqueUsernames(users) && !Taken(users, d.username)
    ensures UniqueUsernames(users + [d])
  {
    var after := users + [d];
    forall i, j | 0 <= i < j < |after| ensures after[i].username != after[j].username {
      if j == |users| {
        assert after[i] == users[i];
      } else {
        assert after[i] == users[i] && after[j] == users[j];
      }
    }
  }

  /** A registered username is taken afterwards, so the same request a second time fails. */
  lemma RegisteredIsTaken(users: seq<UserDocument>, d: UserDocument)
    ensures Taken(users + [d], d.username)
  {
    assert (users + [d])[|users|] == d;
  }
}
