/** updateRole.js: the one-off script that promotes the user with a given
    email to the 'admin' role. */
module UpdateRole {
  import opened Common
  import opened Store

  const AdminRole: string := "admin"

  /** The user table after promoting the user with `email`: unchanged when no
      user has that email or that user is already an admin. */
  function Promoted(users: seq<User>, email: string): seq<User> {
    match FindUserByEmail(users, email)
    case None => users
    case Some(i) => if users[i].role == AdminRole then users else users[i := users[i].(role := AdminRole)]
  }

  /** Promotion changes nothing when no user has the email. */
  lemma PromoteUnknownEmail(users: seq<User>, email: string)
    requires forall i :: 0 <= i < |users| ==> users[i].email != email
    ensures Promoted(users, email) == users
  {
  }

  /** Promotion touches one user only, the one with the email, and of that
      user only the role, which becomes 'admin'; the emails stay unique. */
  lemma PromoteChangesOnlyRole(users: seq<User>, email: string)
    requires EmailsUnique(users)
    ensures var r := Promoted(users, email);
      && |r| == |users|
      && EmailsUnique(r)
      && forall i :: 0 <= i < |users| ==>
           if users[i].email == email then r[i] == users[i].(role := AdminRole) else r[i] == users[i]
  {
  }

  /** Promoting twice leaves the same table as promoting once. */
  lemma PromoteIdempotent(users: seq<User>, email: string)
    ensures Promoted(Promoted(users, email), email) == Promoted(users, email)
  {
    match FindUserByEmail(users, email)
    case None =>
    case Some(i) =>
      if users[i].role != AdminRole {
        FindFirstUpdate(users, i, users[i].(role := AdminRole), HasEmail(email));
      }
  }

  /** `changeRoleToAdmin(email)`. `saved` tells whether `user.save()` ran:
      exactly when the user exists and is not yet an admin. */
  method ChangeRoleToAdmin(db: Db, email: string) returns (saved: bool)
    requires db.Valid()
    modifies db`users
    ensures db.Valid()
    ensures db.users == Promoted(old(db.users), email)
    ensures saved <==>
      FindUserByEmail(old(db.users), email).Some? && old(db.users)[FindUserByEmail(old(db.users), email).value].role != AdminRole
  {
    PromoteChangesOnlyRole(db.users, email);
    var found := FindUserByEmail(db.users, email);
    if found.None? {
      return false;
    }
    var user := db.users[found.value];
    if user.role == AdminRole {
      return false;
    }
    db.users := db.users[found.value := user.(role := AdminRole)];
    saved := true;
  }
}
