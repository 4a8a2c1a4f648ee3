/** login and unlock_user of server/auth.py over the stored users. */
module Auth {
  import opened Text
  import opened Lockout

  class User {
    const id: string
    const email: string
    var isActive: bool
    var failedAttempts: nat
    var lockedAt: Option<real>

    constructor (id: string, email: string)
      ensures this.id == id && this.email == email && Value() == Account(0, None, true)
    {
      this.id, this.email := id, email;
      isActive, failedAttempts, lockedAt := true, 0, None;
    }

    ghost function Value(): Account
      reads this
    {
      Account(failedAttempts, lockedAt, isActive)
    }
  }

  class UserStore {
    var users: seq<User>  // in insertion order

    constructor ()
      ensures users == []
    {
      users := [];
    }

    predicate FirstWith(email: string, i: int)
      reads this
    {
      && 0 <= i < |users| && users[i].email == email
      && forall j | 0 <= j < i :: users[j].email != email
    }

    /** The first stored user with the address. */
    method FindByEmail(email: string) returns (user: User?)
      ensures user == null <==> forall u | u in users :: u.email != email
      ensures user != null ==> user in users && exists i :: FirstWith(email, i) && users[i] == user
    {
      for i := 0 to |users|
        invariant forall j | 0 <= j < i :: users[j].email != email
      {
        if users[i].email == email {
          assert FirstWith(email, i);
          return users[i];
        }
      }
      return null;
    }

    /** passwordOk is what verify_password answers if it is asked. */
    method Login(email: string, passwordOk: bool, now: real, lockTime: real)
        returns (outcome: Outcome, ghost user: User?)
      modifies users
      ensures users == old(users)
      ensures user == null <==> forall u | u in users :: u.email != email
      ensures user == null ==> outcome == InvalidCredentials
      ensures user != null ==>
                && (exists i :: FirstWith(email, i) && users[i] == user)
                && outcome == OutcomeOf(old(user.Value()), passwordOk, now)
                && user.Value() == Attempted(old(user.Value()), passwordOk, now, lockTime)
      ensures forall u | u in users && u != user :: u.Value() == old(u.Value())
    {
      var found := FindByEmail(email);
      user := found;
      if found != null && found.lockedAt.Some? && found.lockedAt.value != 0.0 {
        if now - found.lockedAt.value >= LOCKOUT_DURATION_S {
          found.lockedAt := None;
          found.failedAttempts := 0;
        } else {
          return LockedOut, user;
        }
      }
      if found == null || !found.isActive {
        return InvalidCredentials, user;
      }
      if !passwordOk {
        found.failedAttempts := found.failedAttempts + 1;
        if found.failedAttempts >= MAX_FAILED_ATTEMPTS {
          found.lockedAt := Some(lockTime);
          return LockedOut, user;
        }
        return InvalidCredentials, user;
      }
      found.failedAttempts := 0;
      return LoggedIn, user;
    }

    method UnlockUser(id: string) returns (done: bool)
      modifies users
      ensures users == old(users)
      ensures done <==> exists u :: u in users && u.id == id
      ensures !done ==> forall u | u in users :: u.Value() == old(u.Value())
      ensures forall u | u in users && u.id != id :: u.Value() == old(u.Value())
      ensures done ==> exists u :: u in users && u.id == id && u.Value() == Unlocked(old(u.Value()))
    {
      for i := 0 to |users|
        invariant forall j | 0 <= j < i :: users[j].id != id
        invariant forall u | u in users :: u.Value() == old(u.Value())
      {
        if users[i].id == id {
          var user := users[i];
          assert user in users;
          user.lockedAt := None;
          user.failedAttempts := 0;
          return true;
        }
      }
      return false;
    }
  }
}
