// The user index of the server: registration and the two listings.
module Users {
  import opened Wrappers
  import opened Wire
  import opened Protocol

  datatype UserIndexEntry = UserIndexEntry(id: UserId, name: Text, passwordHash: Text, creation: Instant,
                                           lastUpdate: Instant)

  // Why add_user returns an error. After WriteFailed the user is in the index all the same.
  datatype AddError = UsernameTooShort | UsernameTaken | PasswordEmpty | WriteFailed

  // A registration: what the client sent, what the hasher and the clock return, and whether the index file can be
  // written.
  datatype Registration = Registration(name: Text, password: Text, hash: Text, created: Instant, updated: Instant,
                                       writable: bool)

  const FIRST_ID := 10000

  predicate Taken(users: seq<UserIndexEntry>, name: Text) {
    exists i :: 0 <= i < |users| && users[i].name == name
  }

  // The reason for turning a registration down, the first that applies.
  function Rejection(users: seq<UserIndexEntry>, r: Registration): Option<AddError> {
    if |r.name| < 3 then Some(UsernameTooShort)
    else if Taken(users, r.name) then Some(UsernameTaken)
    else if r.password == [] then Some(PasswordEmpty)
    else None
  }

  function PasswdAll(users: seq<UserIndexEntry>): seq<LapasUserPasswd> {
    seq(|users|, i requires 0 <= i < |users| => LapasUserPasswd(users[i].id, users[i].name))
  }

  function ShadowAll(users: seq<UserIndexEntry>): seq<LapasUserShadow> {
    seq(|users|, i requires 0 <= i < |users| =>
      LapasUserShadow(users[i].id, users[i].name, users[i].passwordHash, users[i].lastUpdate))
  }

  // ---------------------------------------------------------------- every index grown from the first one

  // Ids count up from 10000, names differ and are not too short. (Ids wrap at 2^64, and so does the next one.)
  predicate Numbered(users: seq<UserIndexEntry>, nextId: UserId) {
    && nextId == (FIRST_ID + |users|) % U64
    && (forall k :: 0 <= k < |users| ==> users[k].id == (FIRST_ID + k) % U64 && |users[k].name| >= 3)
    && (forall k, l :: 0 <= k < l < |users| ==> users[k].name != users[l].name)
  }

  // Ids differ exactly as long as they have not wrapped around.
  lemma IdsDiffer(users: seq<UserIndexEntry>, nextId: UserId)
    requires Numbered(users, nextId)
    ensures (forall k, l :: 0 <= k < l < |users| ==> users[k].id != users[l].id) <==> |users| <= U64
  {
    if |users| <= U64 {
      forall k, l | 0 <= k < l < |users| ensures users[k].id != users[l].id { assert 0 < l - k < U64; }
    } else {
      assert users[0].id == users[U64].id;
    }
  }

  class UserIndex {
    // u64; the addition that moves it on wraps
    var nextId: UserId
    var users: seq<UserIndexEntry>

    // The index the server starts with when there is no file.
    constructor ()
      ensures nextId == FIRST_ID && users == []
    {
      nextId, users := FIRST_ID, [];
    }

    method NameTaken(name: Text) returns (taken: bool)
      ensures taken <==> Taken(users, name)
    {
      for i := 0 to |users|
        invariant !Taken(users[..i], name)
      {
        TakeSnoc(users, i);
        if users[i].name == name { return true; }
      }
      TakeFull(users);
      return false;
    }

    // The index after a registration that is not turned down.
    lemma AppendedNumbered(before: seq<UserIndexEntry>, id: UserId, r: Registration)
      requires Numbered(before, id) && Rejection(before, r).None?
      ensures Numbered(before + [Entry(r, id)], (id + 1) % U64) && After(before, r) == before + [Entry(r, id)]
    {
    }

    method AddUser(r: Registration) returns (result: Result<Unit, AddError>)
      modifies this
      ensures match Rejection(old(users), r)
              case Some(e) => result == Err(e) && users == old(users) && nextId == old(nextId)
              case None =>
                result == (if r.writable then Ok(Unit) else Err(WriteFailed)) &&
                users == old(users) + [UserIndexEntry(old(nextId), r.name, r.hash, r.created, r.updated)] &&
                nextId == (old(nextId) + 1) % U64
      ensures Numbered(old(users), old(nextId)) ==>
                Numbered(users, nextId) && users == After(old(users), r)
    {
      if |r.name| < 3 { return Err(UsernameTooShort); }
      var taken := NameTaken(r.name);
      if taken { return Err(UsernameTaken); }
      if |r.password| == 0 { return Err(PasswordEmpty); }
      if Numbered(users, nextId) { AppendedNumbered(users, nextId, r); }
      var newUser := UserIndexEntry(nextId, r.name, r.hash, r.created, r.updated);
      users := users + [newUser];
      nextId := (nextId + 1) % U64;
      return if r.writable then Ok(Unit) else Err(WriteFailed);
    }

    // passwd_all
    method PasswdList() returns (list: seq<LapasUserPasswd>)
      ensures list == PasswdAll(users)
    {
      list := [];
      for i := 0 to |users|
        invariant |list| == i && forall k :: 0 <= k < i ==> list[k] == LapasUserPasswd(users[k].id, users[k].name)
      {
        list := list + [LapasUserPasswd(users[i].id, users[i].name)];
      }
    }

    // shadow_all
    method ShadowList() returns (list: seq<LapasUserShadow>)
      ensures list == ShadowAll(users)
    {
      list := [];
      for i := 0 to |users|
        invariant |list| == i
        invariant forall k :: 0 <= k < i ==>
                    list[k] == LapasUserShadow(users[k].id, users[k].name, users[k].passwordHash, users[k].lastUpdate)
      {
        var user := users[i];
        list := list + [LapasUserShadow(user.id, user.name, user.passwordHash, user.lastUpdate)];
      }
    }
  }

  function Entry(r: Registration, id: UserId): UserIndexEntry {
    UserIndexEntry(id, r.name, r.hash, r.created, r.updated)
  }

  // ---------------------------------------------------------------- any sequence of registrations

  function After(users: seq<UserIndexEntry>, r: Registration): seq<UserIndexEntry> {
    if Rejection(users, r).Some? then users else users + [Entry(r, (FIRST_ID + |users|) % U64)]
  }

  function AfterAll(rs: seq<Registration>): seq<UserIndexEntry> {
    if rs == [] then [] else After(AfterAll(rs[..|rs| - 1]), rs[|rs| - 1])
  }

  lemma {:induction false} AfterAllNumbered(rs: seq<Registration>)
    ensures Numbered(AfterAll(rs), (FIRST_ID + |AfterAll(rs)|) % U64)
  {
    if rs != [] { AfterAllNumbered(rs[..|rs| - 1]); }
  }

  predicate WellFormed(r: Registration) {
    |r.name| >= 3 && r.password != []
  }

  lemma {:induction false} TakenMeansAsked(rs: seq<Registration>, name: Text)
    requires |name| >= 3
    ensures Taken(AfterAll(rs), name) <==> exists j :: 0 <= j < |rs| && WellFormed(rs[j]) && rs[j].name == name
  {
    if rs != [] {
      var init, last := rs[..|rs| - 1], rs[|rs| - 1];
      TakenMeansAsked(init, name);
      var before, after := AfterAll(init), AfterAll(rs);
      assert forall j :: 0 <= j < |init| ==> init[j] == rs[j];
      if |after| > |before| { assert after[|before|].name == last.name; }
      assert forall i :: 0 <= i < |before| ==> after[i] == before[i];
    }
  }

  // Whether a registration is accepted, told from the requests alone: it is well formed and no earlier well-formed
  // request, accepted or not written to disk, asked for the same name.
  lemma AcceptedExactly(rs: seq<Registration>, i: nat)
    requires i < |rs|
    ensures Rejection(AfterAll(rs[..i]), rs[i]).None? <==>
            WellFormed(rs[i]) && forall j :: 0 <= j < i && WellFormed(rs[j]) ==> rs[j].name != rs[i].name
  {
    if |rs[i].name| >= 3 {
      TakenMeansAsked(rs[..i], rs[i].name);
      assert forall j :: 0 <= j < i ==> rs[..i][j] == rs[j];
    }
  }

  // The registrations that are accepted, told from the requests alone.
  function Accepted(rs: seq<Registration>): seq<Registration> {
    if rs == [] then []
    else
      var init, last := rs[..|rs| - 1], rs[|rs| - 1];
      Accepted(init) +
      if WellFormed(last) && forall j :: 0 <= j < |init| && WellFormed(init[j]) ==> init[j].name != last.name
      then [last] else []
  }

  // The listings are these registrations, numbered from 10000: the shadow listing with the hash and the time of the
  // update, the public one with the name only.
  lemma {:induction false} ListingsExactly(rs: seq<Registration>)
    ensures |ShadowAll(AfterAll(rs))| == |PasswdAll(AfterAll(rs))| == |Accepted(rs)|
    ensures forall k :: 0 <= k < |Accepted(rs)| ==>
              var r, id := Accepted(rs)[k], (10000 + k) % U64;
              ShadowAll(AfterAll(rs))[k] == LapasUserShadow(id, r.name, r.hash, r.updated) &&
              PasswdAll(AfterAll(rs))[k] == LapasUserPasswd(id, r.name)
  {
    if rs != [] {
      var init, last := rs[..|rs| - 1], rs[|rs| - 1];
      ListingsExactly(init);
      AcceptedLast(rs);
      ListingsGrow(AfterAll(init), last);
      var users := AfterAll(init);
      if Rejection(users, last).None? {
        Front(Accepted(init), last);
        Front(users, UserIndexEntry((10000 + |users|) % U64, last.name, last.hash, last.created, last.updated));
      }
    }
  }

  lemma AcceptedLast(rs: seq<Registration>)
    requires rs != []
    ensures var init, last := rs[..|rs| - 1], rs[|rs| - 1];
            Accepted(rs) == Accepted(init) + if Rejection(AfterAll(init), last).None? then [last] else []
  {
    var init := rs[..|rs| - 1];
    AcceptedExactly(rs, |init|);
    assert forall j :: 0 <= j < |init| ==> init[j] == rs[j];
  }

  // The listings only grow at the end, by one entry for an accepted registration and by none otherwise; the public
  // listing is the shadow listing without hashes and times.
  lemma ListingsGrow(users: seq<UserIndexEntry>, r: Registration)
    ensures ShadowAll(After(users, r)) ==
            ShadowAll(users) +
            if Rejection(users, r).Some? then [] else ShadowAll([Entry(r, (FIRST_ID + |users|) % U64)])
    ensures |PasswdAll(users)| == |ShadowAll(users)| == |users|
    ensures forall k :: 0 <= k < |users| ==>
            PasswdAll(users)[k] == LapasUserPasswd(ShadowAll(users)[k].id, ShadowAll(users)[k].name)
  {
  }
}
