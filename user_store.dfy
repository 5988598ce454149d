/**
 * The user table as the services see it: lookup by username and insert. Only
 * the behaviour the services rely on is modelled: a miss is reported as the
 * ORM's `RecordNotFound` and never together with a user, and the username
 * column is unique.
 */
module UserStore {
  import opened Errors
  import opened Model

  /** A username lookup either yields the user or an error, never both. */
  datatype Found = Found(user: User) | Missing(err: Error)

  /** The first user, in primary-key order, with this username. */
  function UserNamed(users: seq<User>, username: string): (r: Option<User>)
    ensures r.None? <==> forall i :: 0 <= i < |users| ==> users[i].username != username
    ensures r.Some? ==> r.value in users && r.value.username == username
  {
    if |users| == 0 then None
    else if users[0].username == username then Some(users[0])
    else
      var r := UserNamed(users[1..], username);
      assert forall i :: 1 <= i < |users| ==> users[i] == users[1..][i - 1];
      r
  }

  /** Usernames being unique, the lookup finds the stored user. */
  lemma {:induction false} UserNamedUnique(users: seq<User>, i: nat)
    requires i < |users|
    requires forall a, b :: 0 <= a < b < |users| ==> users[a].username != users[b].username
    ensures UserNamed(users, users[i].username) == Some(users[i])
  {
    if i > 0 {
      assert users[0].username != users[i].username;
      assert users[1..][i - 1] == users[i];
      UserNamedUnique(users[1..], i - 1);
    }
  }

  class Store {
    var users: seq<User>
    var nextID: nat

    ghost predicate Valid()
      reads this
    {
      && (forall i, j :: 0 <= i < j < |users| ==> users[i].id < users[j].id)
      && (forall i :: 0 <= i < |users| ==> users[i].id < nextID)
      && (forall i, j :: 0 <= i < j < |users| ==> users[i].username != users[j].username)
    }

    constructor ()
      ensures Valid() && users == []
    {
      users, nextID := [], 1;
    }

    /**
     * Look a user up by name. `fault` is the error the query itself may hit; a
     * miss, or a fault that is a miss, is reported as bare `RecordNotFound`.
     */
    function FindByUsername(username: string, fault: Option<Error>): (r: Found)
      reads this
      ensures r.Found? ==> fault.None? && r.user in users && r.user.username == username
      ensures r.Missing? ==> (Is(r.err, RecordNotFound) <==> r.err == Sentinel(RecordNotFound))
      ensures r.Missing? && fault.Some? && !Is(fault.value, RecordNotFound) ==> r.err == fault.value
      ensures fault.None? && UserNamed(users, username).Some? ==> r == Found(UserNamed(users, username).value)
      ensures fault.None? && UserNamed(users, username).None? ==> r == Missing(Sentinel(RecordNotFound))
      ensures fault.Some? && Is(fault.value, RecordNotFound) ==> r == Missing(Sentinel(RecordNotFound))
    {
      if fault.Some? then
        Missing(if Is(fault.value, RecordNotFound) then Sentinel(RecordNotFound) else fault.value)
      else match UserNamed(users, username)
        case None => Missing(Sentinel(RecordNotFound))
        case Some(u) => Found(u)
    }

    /** Insert a user; the database assigns its ID and enforces the unique username. */
    method CreateUser(u: User, fault: Option<Error>) returns (err: Option<Error>, saved: User)
      requires Valid()
      modifies this
      ensures Valid()
      ensures fault.Some? ==> err == fault
      ensures fault.None? ==> (err.Some? <==> UserNamed(old(users), u.username).Some?)
      ensures err.Some? && fault.None? ==> err == Some(UniqueViolation)
      ensures err.None? ==> saved == u.(id := old(nextID)) && users == old(users) + [saved] && nextID == old(nextID) + 1
      ensures err.Some? ==> users == old(users) && nextID == old(nextID)
    {
      saved := u;
      if fault.Some? {
        err := fault;
      } else if UserNamed(users, u.username).Some? {
        err := Some(UniqueViolation);
      } else {
        saved := u.(id := nextID);
        users := users + [saved];
        nextID := nextID + 1;
        err := None;
      }
    }
  }
}
