// One connection's request handler on the server, and the shared state behind it.
module Server {
  import opened Wrappers
  import opened Wire
  import opened Protocol
  import opened Users

  // The server's configured password check, and the wording of its error messages.
  datatype Setup = Setup(check: ApiAuth -> bool, badPassword: Text, badVersion: Text, message: AddError -> Text)

  // What a request meets outside the model: the password hasher, the wall clock, and whether files can be written.
  datatype World = World(hash: Text, created: Instant, updated: Instant, indexError: Option<Text>,
                           dnsError: Option<Text>)

  function RegistrationOf(name: Text, password: Text, w: World): Registration {
    Registration(name, password, w.hash, w.created, w.updated, w.indexError.None?)
  }

  function AuthOf(p: LapasProtocol): Option<ApiAuth> {
    match p
    case ControlCheckAuth(auth) => Some(auth)
    case UserRegister(auth, _, _) => Some(auth)
    case UserDnsMapping(auth, _) => Some(auth)
    case ShadowGetList(auth) => Some(auth)
    case _ => None
  }

  // The packets handle_client answers.
  predicate IsRequest(p: LapasProtocol) {
    p.PasswdGetList? || AuthOf(p).Some?
  }

  predicate Refused(setup: Setup, p: LapasProtocol) {
    AuthOf(p).Some? && !setup.check(AuthOf(p).value)
  }

  function UnitResult(error: Option<Text>): Result<Unit, Text> {
    if error.Some? then Err(error.value) else Ok(Unit)
  }

  // The response to a request that is served, or to one whose password is wrong.
  function Response(setup: Setup, users: seq<UserIndexEntry>, w: World, p: LapasProtocol): LapasProtocol
    requires IsRequest(p)
  {
    var refusal: Option<Text> := if Refused(setup, p) then Some(setup.badPassword) else None;
    match p
    case ControlCheckAuth(_) => ControlCheckAuthResponse(UnitResult(refusal))
    case UserRegister(_, name, password) =>
      UserRegisterResponse(UnitResult(
        if refusal.Some? then refusal else RegisterError(setup, users, RegistrationOf(name, password, w), w)))
    case UserDnsMapping(_, _) => UserDnsMappingResponse(UnitResult(if refusal.Some? then refusal else w.dnsError))
    case PasswdGetList => PasswdGetListResponse(Ok(PasswdAll(users)))
    case ShadowGetList(_) => ShadowGetListResponse(if refusal.Some? then Err(refusal.value) else Ok(ShadowAll(users)))
  }

  function RegisterError(setup: Setup, users: seq<UserIndexEntry>, r: Registration, w: World): Option<Text> {
    match Rejection(users, r)
    case Some(e) => Some(setup.message(e))
    case None => w.indexError
  }

  // Shaking: before the handshake. Closed: the connection has been given up.
  datatype Phase = Shaking | Serving | Closed

  datatype Reaction = Reaction(phase: Phase, replies: seq<LapasProtocol>)

  function React(phase: Phase, setup: Setup, users: seq<UserIndexEntry>, w: World, p: LapasProtocol): Reaction {
    match phase
    case Closed => Reaction(Closed, [])
    case Shaking =>
      if !p.ControlHandshake? then Reaction(Closed, [])
      else if p.version != VERSION then Reaction(Closed, [ControlHandshakeResponse(Err(setup.badVersion))])
      else Reaction(Serving, [ControlHandshakeResponse(Ok(Unit))])
    case Serving =>
      if !IsRequest(p) then Reaction(Serving, [])
      else Reaction(if Refused(setup, p) then Closed else Serving, [Response(setup, users, w, p)])
  }

  // The packet that starts a forwarder for the connection.
  predicate Subscribes(phase: Phase, p: LapasProtocol) {
    phase == Serving && p.ControlListenEvents?
  }

  // The notification a packet gives rise to.
  function Notification(phase: Phase, setup: Setup, users: seq<UserIndexEntry>, w: World, p: LapasProtocol)
    : seq<LapasProtocol>
  {
    if phase != Serving || Refused(setup, p) then []
    else match p
      case UserRegister(_, name, password) =>
        if RegisterError(setup, users, RegistrationOf(name, password, w), w).None? then [NotifyUsersChanged] else []
      case UserDnsMapping(_, _) => if w.dnsError.None? then [NotifyDnsMappingsChanged] else []
      case _ => []
  }

  // The users a packet leaves behind, given that the index is numbered.
  function UsersAfter(phase: Phase, setup: Setup, users: seq<UserIndexEntry>, w: World, p: LapasProtocol)
    : seq<UserIndexEntry>
  {
    if phase == Serving && p.UserRegister? && !Refused(setup, p)
    then After(users, RegistrationOf(p.newUsername, p.newPassword, w))
    else users
  }

  class State {
    const setup: Setup
    const index: UserIndex
    var notified: seq<LapasProtocol>

    constructor (setup: Setup)
      ensures fresh(index) && Valid() && index.users == [] && notified == [] && this.setup == setup
    {
      this.setup := setup;
      index := new UserIndex();
      notified := [];
    }

    ghost predicate Valid()
      reads this, index
    {
      Numbered(index.users, index.nextId)
    }

    // add_user: the change first, then the notification, and only for a registration that reached the disk
    method AddUser(name: Text, password: Text, w: World) returns (result: Result<Unit, Text>)
      requires Valid()
      modifies this, index
      ensures Valid() && index.users == After(old(index.users), RegistrationOf(name, password, w))
      ensures result == UnitResult(RegisterError(setup, old(index.users), RegistrationOf(name, password, w), w))
      ensures notified == old(notified) + if result.Ok? then [NotifyUsersChanged] else []
    {
      var added := index.AddUser(RegistrationOf(name, password, w));
      if added.Ok? {
        notified := notified + [NotifyUsersChanged];
        return Ok(Unit);
      }
      return Err(if added.error.WriteFailed? then w.indexError.value else setup.message(added.error));
    }

    method CreateUserHostMapping(w: World) returns (result: Result<Unit, Text>)
      modifies this
      ensures result == UnitResult(w.dnsError)
      ensures notified == old(notified) + if result.Ok? then [NotifyDnsMappingsChanged] else []
    {
      if w.dnsError.None? { notified := notified + [NotifyDnsMappingsChanged]; }
      return UnitResult(w.dnsError);
    }
  }

  class ClientHandler {
    const state: State
    var phase: Phase
    var listening: nat    // forwarders spawned for this connection

    constructor (state: State)
      ensures this.state == state && phase == Shaking && listening == 0
    {
      this.state, phase, listening := state, Shaking, 0;
    }

    // One packet off the socket: handle_handshake before the first reply, then one round of the request loop.
    method Handle(p: LapasProtocol, w: World) returns (replies: seq<LapasProtocol>)
      requires state.Valid()
      modifies this, state, state.index
      ensures state.Valid()
      ensures Reaction(phase, replies) == React(old(phase), state.setup, old(state.index.users), w, p)
      ensures state.index.users == UsersAfter(old(phase), state.setup, old(state.index.users), w, p)
      ensures state.notified == old(state.notified) +
              Notification(old(phase), state.setup, old(state.index.users), w, p)
      ensures listening == old(listening) + if Subscribes(old(phase), p) then 1 else 0
    {
      replies := [];
      match phase
      case Closed =>
      case Shaking =>
        if p.ControlHandshake? {
          if p.version != VERSION {
            replies := [ControlHandshakeResponse(Err(state.setup.badVersion))];
            phase := Closed;
          } else {
            replies := [ControlHandshakeResponse(Ok(Unit))];
            phase := Serving;
          }
        } else {
          phase := Closed;
        }
      case Serving => replies := HandleRequest(p, w);
    }

    method HandleRequest(p: LapasProtocol, w: World) returns (replies: seq<LapasProtocol>)
      requires state.Valid() && phase == Serving
      modifies this, state, state.index
      ensures state.Valid()
      ensures Reaction(phase, replies) == React(Serving, state.setup, old(state.index.users), w, p)
      ensures state.index.users == UsersAfter(Serving, state.setup, old(state.index.users), w, p)
      ensures state.notified == old(state.notified) + Notification(Serving, state.setup, old(state.index.users), w, p)
      ensures listening == old(listening) + if Subscribes(Serving, p) then 1 else 0
    {
      replies := [];
      match p
      case ControlListenEvents => listening := listening + 1;
      case ControlCheckAuth(auth) =>
        if !state.setup.check(auth) {
          phase := Closed;
          return [ControlCheckAuthResponse(Err(state.setup.badPassword))];
        }
        replies := [ControlCheckAuthResponse(Ok(Unit))];
      case UserRegister(auth, name, password) =>
        if !state.setup.check(auth) {
          phase := Closed;
          return [UserRegisterResponse(Err(state.setup.badPassword))];
        }
        var result := state.AddUser(name, password, w);
        replies := [UserRegisterResponse(result)];
      case UserDnsMapping(auth, _) =>
        if !state.setup.check(auth) {
          phase := Closed;
          return [UserDnsMappingResponse(Err(state.setup.badPassword))];
        }
        var result := state.CreateUserHostMapping(w);
        replies := [UserDnsMappingResponse(result)];
      case PasswdGetList =>
        var list := state.index.PasswdList();
        replies := [PasswdGetListResponse(Ok(list))];
      case ShadowGetList(auth) =>
        if !state.setup.check(auth) {
          phase := Closed;
          return [ShadowGetListResponse(Err(state.setup.badPassword))];
        }
        var list := state.index.ShadowList();
        replies := [ShadowGetListResponse(Ok(list))];
      case _ =>
    }
  }

  // ---------------------------------------------------------------- the answers, packet by packet

  // Only the handshake of version 6 opens a connection.
  lemma HandshakeAnswer(setup: Setup, users: seq<UserIndexEntry>, w: World, p: LapasProtocol)
    ensures React(Shaking, setup, users, w, p) ==
            if !p.ControlHandshake? then Reaction(Closed, [])
            else if p.version == 6 then Reaction(Serving, [ControlHandshakeResponse(Ok(Unit))])
            else Reaction(Closed, [ControlHandshakeResponse(Err(setup.badVersion))])
  {
  }

  // The response of the packet's own kind that holds an error.
  function Denial(p: LapasProtocol, e: Text): LapasProtocol
    requires p.ControlCheckAuth? || p.UserRegister? || p.UserDnsMapping? || p.ShadowGetList?
  {
    match p
    case ControlCheckAuth(_) => ControlCheckAuthResponse(Err(e))
    case UserRegister(_, _, _) => UserRegisterResponse(Err(e))
    case UserDnsMapping(_, _) => UserDnsMappingResponse(Err(e))
    case ShadowGetList(_) => ShadowGetListResponse(Err(e))
  }

  // A wrong password, with whichever of the four packets, is answered by an error, ends the connection, and has
  // no effect.
  lemma WrongPasswordAnswer(setup: Setup, users: seq<UserIndexEntry>, w: World, p: LapasProtocol)
    requires p.ControlCheckAuth? || p.UserRegister? || p.UserDnsMapping? || p.ShadowGetList?
    requires !setup.check(p.auth)
    ensures React(Serving, setup, users, w, p) == Reaction(Closed, [Denial(p, setup.badPassword)])
    ensures UsersAfter(Serving, setup, users, w, p) == users && Notification(Serving, setup, users, w, p) == []
  {
  }

  // The two lists are those of the users as they are, and change nothing.
  lemma ListAnswers(setup: Setup, users: seq<UserIndexEntry>, w: World, auth: ApiAuth)
    ensures React(Serving, setup, users, w, PasswdGetList) ==
            Reaction(Serving, [PasswdGetListResponse(Ok(seq(|users|, i requires 0 <= i < |users| =>
                                 LapasUserPasswd(users[i].id, users[i].name))))])
    ensures setup.check(auth) ==>
              React(Serving, setup, users, w, ShadowGetList(auth)) ==
              Reaction(Serving, [ShadowGetListResponse(Ok(seq(|users|, i requires 0 <= i < |users| =>
                                   LapasUserShadow(users[i].id, users[i].name, users[i].passwordHash,
                                                   users[i].lastUpdate))))])
    ensures forall p :: p == PasswdGetList || p == ShadowGetList(auth) ==>
              UsersAfter(Serving, setup, users, w, p) == users && Notification(Serving, setup, users, w, p) == []
  {
  }

  // A registration with the right password: the first reason against it is reported and nothing happens, or one
  // user is appended, and announced if the index could be written.
  lemma RegisterAnswer(setup: Setup, users: seq<UserIndexEntry>, w: World, auth: ApiAuth, name: Text, password: Text)
    requires setup.check(auth)
    ensures var p := UserRegister(auth, name, password);
            var r, after := React(Serving, setup, users, w, p), UsersAfter(Serving, setup, users, w, p);
            var notes := Notification(Serving, setup, users, w, p);
            r.phase == Serving &&
            if |name| < 3 || password == [] || exists i :: 0 <= i < |users| && users[i].name == name then
              var e := if |name| < 3 then UsernameTooShort
                       else if exists i :: 0 <= i < |users| && users[i].name == name then UsernameTaken
                       else PasswordEmpty;
              r.replies == [UserRegisterResponse(Err(setup.message(e)))] && after == users && notes == []
            else
              after == users + [UserIndexEntry((10000 + |users|) % U64, name, w.hash, w.created, w.updated)] &&
              r.replies == [UserRegisterResponse(if w.indexError.None? then Ok(Unit) else Err(w.indexError.value))] &&
              notes == if w.indexError.None? then [NotifyUsersChanged] else []
  {
  }

  // The other two requests with the right password.
  lemma OtherAnswers(setup: Setup, users: seq<UserIndexEntry>, w: World, auth: ApiAuth, name: Text)
    requires setup.check(auth)
    ensures React(Serving, setup, users, w, ControlCheckAuth(auth)) ==
            Reaction(Serving, [ControlCheckAuthResponse(Ok(Unit))])
    ensures React(Serving, setup, users, w, UserDnsMapping(auth, name)) ==
            Reaction(Serving, [UserDnsMappingResponse(if w.dnsError.None? then Ok(Unit) else Err(w.dnsError.value))])
    ensures Notification(Serving, setup, users, w, ControlCheckAuth(auth)) == []
    ensures Notification(Serving, setup, users, w, UserDnsMapping(auth, name)) ==
            if w.dnsError.None? then [NotifyDnsMappingsChanged] else []
    ensures forall p :: p == ControlCheckAuth(auth) || p == UserDnsMapping(auth, name) ==>
              UsersAfter(Serving, setup, users, w, p) == users
  {
  }

  // Anything else is passed over.
  lemma NoAnswer(setup: Setup, users: seq<UserIndexEntry>, w: World, p: LapasProtocol)
    requires !(p.ControlCheckAuth? || p.UserRegister? || p.UserDnsMapping? || p.PasswdGetList? || p.ShadowGetList?)
    ensures React(Serving, setup, users, w, p) == Reaction(Serving, [])
    ensures UsersAfter(Serving, setup, users, w, p) == users && Notification(Serving, setup, users, w, p) == []
  {
  }

  // How one packet changes the shadow list: not at all and without a notification to that effect, or by one entry
  // at the end, with the notification exactly when the index reached the disk.
  lemma ListChangesAreAnnounced(phase: Phase, setup: Setup, users: seq<UserIndexEntry>, w: World, p: LapasProtocol)
    ensures var before, after := ShadowAll(users), ShadowAll(UsersAfter(phase, setup, users, w, p));
            var notes := Notification(phase, setup, users, w, p);
            if UsersAfter(phase, setup, users, w, p) == users then after == before && NotifyUsersChanged !in notes
            else
              |after| == |before| + 1 && before < after &&
              notes == if w.indexError.None? then [NotifyUsersChanged] else []
  {
    if phase == Serving && p.UserRegister? && !Refused(setup, p) {
      var r := RegistrationOf(p.newUsername, p.newPassword, w);
      ListingsGrow(users, r);
      assert Rejection(users, r).None? ==> |After(users, r)| == |users| + 1;
    }
  }
}
