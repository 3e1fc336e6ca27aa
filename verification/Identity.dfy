/** The password credential of a `User`. The salted hashing itself is done
    by a library the model does not see: the hash that `set_password` stores
    and the verdict `check_password` gets back are both supplied by the
    caller as functions. */
module Identity {

  datatype Option<T> = None | Some(value: T)

  /** The credential-bearing part of a `user` row. */
  class User {
    const id: int
    var username: string
    var email: string
    /** `password_hash`: NULL until a password is first set. */
    var passwordHash: Option<string>

    constructor (id: int, username: string, email: string)
      ensures this.id == id && this.username == username && this.email == email
      ensures passwordHash == None
    {
      this.id := id;
      this.username := username;
      this.email := email;
      passwordHash := None;
    }

    /** `set_password`: store `generate(password)`, the salted hash the
        hashing library produced for this call. */
    method SetPassword(password: string, generate: string -> string)
      modifies this
      ensures passwordHash == Some(generate(password))
      ensures username == old(username) && email == old(email)
    {
      passwordHash := Some(generate(password));
    }

    /** `check_password`: with no stored hash every password is rejected;
        otherwise the answer is the library's verdict `verify(hash, password)`. */
    function CheckPassword(password: string, verify: (string, string) -> bool): (ok: bool)
      reads this
      ensures passwordHash == None ==> !ok
      ensures ok ==> passwordHash.Some? && verify(passwordHash.value, password)
      ensures passwordHash.Some? && verify(passwordHash.value, password) ==> ok
    {
      match passwordHash
      case None => false
      case Some(hash) => verify(hash, password)
    }
  }

  /** After `set_password(p)`, `check_password(p)` succeeds whenever the
      hashing library accepts its own hash of `p`, and no other password
      succeeds unless the library accepts it for that hash. */
  method SetThenCheck(u: User, password: string, other: string,
                      generate: string -> string, verify: (string, string) -> bool)
    returns (accepted: bool, otherAccepted: bool)
    modifies u
    ensures accepted == verify(generate(password), password)
    ensures otherAccepted == verify(generate(password), other)
  {
    u.SetPassword(password, generate);
    accepted := u.CheckPassword(password, verify);
    otherAccepted := u.CheckPassword(other, verify);
  }

  /** A user whose password was never set rejects every password, whatever
      the hashing library would answer. */
  method FreshUserRejects(id: int, username: string, email: string,
                          password: string, verify: (string, string) -> bool)
    returns (accepted: bool)
    ensures !accepted
  {
    var u := new User(id, username, email);
    accepted := u.CheckPassword(password, verify);
  }
}
