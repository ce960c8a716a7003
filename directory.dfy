/** The user directory: the Mongoose `User` collection, modelled as an
    in-memory sequence of records in insertion order. */
module Directory {
  import opened Wrappers
  import Credentials

  type UserId = nat

  /** A stored user. The password field holds a digest, never the plaintext. */
  datatype UserRecord = UserRecord(id: UserId, name: string, email: string, password: Credentials.Digest)

  /** No two records share an email (compared exactly, without case folding). */
  ghost predicate EmailsUnique(users: seq<UserRecord>)
  {
    forall i, j :: 0 <= i < j < |users| ==> users[i].email != users[j].email
  }

  /** `User.findOne({ email })`: the first record, in insertion order, whose
      email is exactly `email`; none when no record has it. */
  function FindByEmail(users: seq<UserRecord>, email: string): (r: Option<UserRecord>)
    ensures r.Some? ==> r.value in users && r.value.email == email
    ensures r.None? <==> forall u :: u in users ==> u.email != email
    ensures r.Some? ==> exists i :: 0 <= i < |users| && users[i] == r.value && forall j :: 0 <= j < i ==> users[j].email != email
  {
    if users == [] then None
    else if users[0].email == email then Some(users[0])
    else
      var r := FindByEmail(users[1..], email);
      assert forall u :: u in users ==> u == users[0] || u in users[1..];
      if r.Some? then
        var i :| 0 <= i < |users[1..]| && users[1..][i] == r.value && forall j :: 0 <= j < i ==> users[1..][j].email != email;
        assert users[i + 1] == r.value;
        r
      else
        r
  }

  /** With unique emails the lookup finds the one record that has the email. */
  lemma FindByEmailUnique(users: seq<UserRecord>, u: UserRecord)
    requires EmailsUnique(users)
    requires u in users
    ensures FindByEmail(users, u.email) == Some(u)
  {
  }

  /** The store behind the `User` model. Ids are handed out in increasing
      order, so an id that has not been handed out yet is not in use. */
  class UserStore {
    var users: seq<UserRecord>
    var nextId: UserId

    ghost predicate Valid()
      reads this
    {
      && (forall i, j :: 0 <= i < j < |users| ==> users[i].id < users[j].id)
      && (forall i :: 0 <= i < |users| ==> users[i].id < nextId)
    }

    constructor ()
      ensures Valid()
      ensures users == []
    {
      users := [];
      nextId := 0;
    }

    /** `User.create({ name, email, password })`: appends one record under a
        fresh id and returns it. */
    method Create(name: string, email: string, password: Credentials.Digest) returns (created: UserRecord)
      requires Valid()
      modifies this
      ensures Valid()
      ensures created == UserRecord(old(nextId), name, email, password)
      ensures forall u :: u in old(users) ==> u.id != created.id
      ensures users == old(users) + [created]
      ensures nextId == old(nextId) + 1
    {
      created := UserRecord(nextId, name, email, password);
      users := users + [created];
      nextId := nextId + 1;
    }
  }
}
