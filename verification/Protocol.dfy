// The packets of the LAPAS protocol, their tags and fields, and the coding of whole packets and packet streams.
module Protocol {
  import opened Wrappers
  import opened Wire

  type UserId = x: nat | x < U64
  type Version = x: nat | x < U32

  const VERSION: Version := 6

  datatype ApiAuth = Password(password: Text)

  datatype LapasUserPasswd = LapasUserPasswd(id: UserId, name: Text)

  datatype LapasUserShadow = LapasUserShadow(id: UserId, name: Text, passwordHash: Text, lastUpdate: Instant)

  datatype Unit = Unit

  datatype LapasProtocol =
    | ControlHandshake(version: Version)
    | ControlHandshakeResponse(result: Result<Unit, Text>)
    | ControlPing
    | ControlListenEvents
    | ControlCheckAuth(auth: ApiAuth)
    | ControlCheckAuthResponse(result: Result<Unit, Text>)
    | UserRegister(auth: ApiAuth, newUsername: Text, newPassword: Text)
    | UserRegisterResponse(result: Result<Unit, Text>)
    | UserDnsMapping(auth: ApiAuth, username: Text)
    | UserDnsMappingResponse(result: Result<Unit, Text>)
    | PasswdGetList
    | PasswdGetListResponse(passwds: Result<seq<LapasUserPasswd>, Text>)
    | ShadowGetList(auth: ApiAuth)
    | ShadowGetListResponse(shadows: Result<seq<LapasUserShadow>, Text>)
    | NotifyRootChanged
    | NotifyDnsMappingsChanged
    | NotifyUsersChanged

  // ---------------------------------------------------------------- the protocol table

  const UNIT_RESULT := TResult(TUnit, TText)
  const PASSWD := TStruct([TInt(8), TText])
  const SHADOW := TStruct([TInt(8), TText, TText, TTime])

  // Field types in the order in which the packets are declared; a packet's place is its tag.
  const PROTOCOL: seq<seq<Ty>> := [
    [TInt(4)],
    [UNIT_RESULT],
    [],
    [],
    [TAuth],
    [UNIT_RESULT],
    [TAuth, TText, TText],
    [UNIT_RESULT],
    [TAuth, TText],
    [UNIT_RESULT],
    [],
    [TResult(TVec(PASSWD), TText)],
    [TAuth],
    [TResult(TVec(SHADOW), TText)],
    [],
    [],
    []
  ]

  function Tag(p: LapasProtocol): nat {
    match p
    case ControlHandshake(_) => 0
    case ControlHandshakeResponse(_) => 1
    case ControlPing => 2
    case ControlListenEvents => 3
    case ControlCheckAuth(_) => 4
    case ControlCheckAuthResponse(_) => 5
    case UserRegister(_, _, _) => 6
    case UserRegisterResponse(_) => 7
    case UserDnsMapping(_, _) => 8
    case UserDnsMappingResponse(_) => 9
    case PasswdGetList => 10
    case PasswdGetListResponse(_) => 11
    case ShadowGetList(_) => 12
    case ShadowGetListResponse(_) => 13
    case NotifyRootChanged => 14
    case NotifyDnsMappingsChanged => 15
    case NotifyUsersChanged => 16
  }

  // The test for the packet declared at the given place, as encoding makes it for one place after the other.
  predicate DeclaredAt(p: LapasProtocol, place: nat) {
    match place
    case 0 => p.ControlHandshake?
    case 1 => p.ControlHandshakeResponse?
    case 2 => p.ControlPing?
    case 3 => p.ControlListenEvents?
    case 4 => p.ControlCheckAuth?
    case 5 => p.ControlCheckAuthResponse?
    case 6 => p.UserRegister?
    case 7 => p.UserRegisterResponse?
    case 8 => p.UserDnsMapping?
    case 9 => p.UserDnsMappingResponse?
    case 10 => p.PasswdGetList?
    case 11 => p.PasswdGetListResponse?
    case 12 => p.ShadowGetList?
    case 13 => p.ShadowGetListResponse?
    case 14 => p.NotifyRootChanged?
    case 15 => p.NotifyDnsMappingsChanged?
    case 16 => p.NotifyUsersChanged?
    case _ => false
  }

  // Every packet passes exactly one of the tests, at the place that is its tag.
  lemma DeclaredAtTag(p: LapasProtocol, place: nat)
    ensures DeclaredAt(p, place) <==> Tag(p) == place
  {
  }

  function ResultVal<T>(r: Result<T, Text>, ok: T -> Val): Val {
    match r case Ok(x) => VOk(ok(x)) case Err(e) => VErr(VText(e))
  }

  function PasswdVal(u: LapasUserPasswd): Val {
    VStruct([VInt(u.id), VText(u.name)])
  }

  function ShadowVal(u: LapasUserShadow): Val {
    VStruct([VInt(u.id), VText(u.name), VText(u.passwordHash), VTime(u.lastUpdate)])
  }

  function ListVal<T>(us: seq<T>, each: T -> Val): Val {
    VVec(seq(|us|, i requires 0 <= i < |us| => each(us[i])))
  }

  function UnitResultVal(r: Result<Unit, Text>): Val {
    ResultVal(r, (_: Unit) => VUnit)
  }

  function Fields(p: LapasProtocol): seq<Val> {
    match p
    case ControlHandshake(version) => [VInt(version)]
    case ControlHandshakeResponse(r) => [UnitResultVal(r)]
    case ControlCheckAuth(auth) => [VPassword(auth.password)]
    case ControlCheckAuthResponse(r) => [UnitResultVal(r)]
    case UserRegister(auth, name, password) => [VPassword(auth.password), VText(name), VText(password)]
    case UserRegisterResponse(r) => [UnitResultVal(r)]
    case UserDnsMapping(auth, name) => [VPassword(auth.password), VText(name)]
    case UserDnsMappingResponse(r) => [UnitResultVal(r)]
    case PasswdGetListResponse(r) => [ResultVal(r, us => ListVal(us, PasswdVal))]
    case ShadowGetList(auth) => [VPassword(auth.password)]
    case ShadowGetListResponse(r) => [ResultVal(r, us => ListVal(us, ShadowVal))]
    case _ => []
  }

  // ---------------------------------------------------------------- fields have the declared types

  lemma PasswdTyped(u: LapasUserPasswd)
    ensures HasType(PasswdVal(u), PASSWD)
  {
    Widths();
  }

  lemma ShadowTyped(u: LapasUserShadow)
    ensures HasType(ShadowVal(u), SHADOW)
  {
    Widths();
  }

  lemma UnitResultTyped(r: Result<Unit, Text>)
    ensures HasType(UnitResultVal(r), UNIT_RESULT)
  {
    match r case Ok(_) => assert HasType(VUnit, TUnit); case Err(e) => assert HasType(VText(e), TText);
  }

  lemma ListTyped<T(!new)>(us: seq<T>, each: T -> Val, t: Ty)
    requires forall u :: HasType(each(u), t)
    ensures HasType(ListVal(us, each), TVec(t))
  {
    assert AllOfType(ListVal(us, each).vs, t);
  }

  lemma ListResultTyped<T(!new)>(r: Result<seq<T>, Text>, each: T -> Val, t: Ty)
    requires forall u :: HasType(each(u), t)
    ensures HasType(ResultVal(r, us => ListVal(us, each)), TResult(TVec(t), TText))
  {
    match r case Ok(us) => ListTyped(us, each, t); case Err(e) => assert HasType(VText(e), TText);
  }

  lemma AuthFieldsTyped(p: LapasProtocol)
    requires p.ControlCheckAuth? || p.UserRegister? || p.UserDnsMapping? || p.ShadowGetList?
    ensures HaveTypes(Fields(p), PROTOCOL[Tag(p)])
  {
    var vs, ts := Fields(p), PROTOCOL[Tag(p)];
    assert HasType(vs[0], TAuth) && ts[0] == TAuth;
    assert forall i :: 1 <= i < |vs| ==> ts[i] == TText && HasType(vs[i], TText);
  }

  lemma UnitResultFieldsTyped(p: LapasProtocol, r: Result<Unit, Text>)
    requires Fields(p) == [UnitResultVal(r)] && PROTOCOL[Tag(p)] == [UNIT_RESULT]
    ensures HaveTypes(Fields(p), PROTOCOL[Tag(p)])
  {
    UnitResultTyped(r);
  }

  lemma FieldsTyped(p: LapasProtocol)
    ensures Tag(p) < |PROTOCOL| && HaveTypes(Fields(p), PROTOCOL[Tag(p)])
  {
    match p
    case ControlHandshake(_) => Widths();
    case ControlHandshakeResponse(r) => UnitResultFieldsTyped(p, r);
    case ControlCheckAuthResponse(r) => UnitResultFieldsTyped(p, r);
    case UserRegisterResponse(r) => UnitResultFieldsTyped(p, r);
    case UserDnsMappingResponse(r) => UnitResultFieldsTyped(p, r);
    case PasswdGetListResponse(r) =>
      forall u ensures HasType(PasswdVal(u), PASSWD) { PasswdTyped(u); }
      ListResultTyped(r, PasswdVal, PASSWD);
      assert Fields(p) == [ResultVal(r, us => ListVal(us, PasswdVal))];
    case ShadowGetListResponse(r) =>
      forall u ensures HasType(ShadowVal(u), SHADOW) { ShadowTyped(u); }
      ListResultTyped(r, ShadowVal, SHADOW);
      assert Fields(p) == [ResultVal(r, us => ListVal(us, ShadowVal))];
    case ControlPing | ControlListenEvents | PasswdGetList | NotifyRootChanged | NotifyDnsMappingsChanged |
         NotifyUsersChanged =>
    case _ => AuthFieldsTyped(p);
  }

  // ---------------------------------------------------------------- and determine the packet

  function TextOf(v: Val): Text {
    if v.VText? || v.VPassword? then v.s else []
  }

  function IntOf(v: Val): nat {
    if v.VInt? then v.n else 0
  }

  function IdOf(v: Val): UserId {
    if IntOf(v) < U64 then IntOf(v) else 0
  }

  function TimeOf(v: Val): Instant {
    if v.VTime? then v.t else 0
  }

  function PartsOf(v: Val): seq<Val> {
    if v.VVec? || v.VStruct? then v.vs else []
  }

  function At(vs: seq<Val>, i: nat): Val {
    if i < |vs| then vs[i] else VUnit
  }

  function ResultOf<T>(v: Val, ok: Val -> T): Result<T, Text> {
    match v case VOk(x) => Ok(ok(x)) case VErr(e) => Err(TextOf(e)) case _ => Err([])
  }

  function UnitResultOf(v: Val): Result<Unit, Text> {
    ResultOf(v, _ => Unit)
  }

  function PasswdOf(v: Val): LapasUserPasswd {
    var f := PartsOf(v);
    LapasUserPasswd(IdOf(At(f, 0)), TextOf(At(f, 1)))
  }

  function ShadowOf(v: Val): LapasUserShadow {
    var f := PartsOf(v);
    LapasUserShadow(IdOf(At(f, 0)), TextOf(At(f, 1)), TextOf(At(f, 2)), TimeOf(At(f, 3)))
  }

  function ListOf<T>(v: Val, each: Val -> T): seq<T> {
    var vs := PartsOf(v);
    seq(|vs|, i requires 0 <= i < |vs| => each(vs[i]))
  }

  function PasswdListOf(v: Val): Result<seq<LapasUserPasswd>, Text> {
    ResultOf(v, x => ListOf(x, PasswdOf))
  }

  function ShadowListOf(v: Val): Result<seq<LapasUserShadow>, Text> {
    ResultOf(v, x => ListOf(x, ShadowOf))
  }

  // The packet with the given tag and fields.
  function FromFields(tag: nat, vs: seq<Val>): LapasProtocol {
    match tag
    case 0 => ControlHandshake(if IntOf(At(vs, 0)) < U32 then IntOf(At(vs, 0)) else 0)
    case 1 => ControlHandshakeResponse(UnitResultOf(At(vs, 0)))
    case 2 => ControlPing
    case 3 => ControlListenEvents
    case 4 => ControlCheckAuth(Password(TextOf(At(vs, 0))))
    case 5 => ControlCheckAuthResponse(UnitResultOf(At(vs, 0)))
    case 6 => UserRegister(Password(TextOf(At(vs, 0))), TextOf(At(vs, 1)), TextOf(At(vs, 2)))
    case 7 => UserRegisterResponse(UnitResultOf(At(vs, 0)))
    case 8 => UserDnsMapping(Password(TextOf(At(vs, 0))), TextOf(At(vs, 1)))
    case 9 => UserDnsMappingResponse(UnitResultOf(At(vs, 0)))
    case 10 => PasswdGetList
    case 11 => PasswdGetListResponse(PasswdListOf(At(vs, 0)))
    case 12 => ShadowGetList(Password(TextOf(At(vs, 0))))
    case 13 => ShadowGetListResponse(ShadowListOf(At(vs, 0)))
    case 14 => NotifyRootChanged
    case 15 => NotifyDnsMappingsChanged
    case _ => NotifyUsersChanged
  }

  lemma ListInverse<T(!new)>(us: seq<T>, to: T -> Val, from: Val -> T)
    requires forall u :: from(to(u)) == u
    ensures ListOf(ListVal(us, to), from) == us
  {
  }

  // The fields of a packet determine it.
  lemma FromFieldsOfPacket(p: LapasProtocol)
    ensures FromFields(Tag(p), Fields(p)) == p
  {
    match p
    case ControlHandshakeResponse(r) => UnitResultInverse(r);
    case ControlCheckAuthResponse(r) => UnitResultInverse(r);
    case UserRegisterResponse(r) => UnitResultInverse(r);
    case UserDnsMappingResponse(r) => UnitResultInverse(r);
    case PasswdGetListResponse(r) => PasswdsInverse(r);
    case ShadowGetListResponse(r) => ShadowsInverse(r);
    case ControlPing | ControlListenEvents | PasswdGetList | NotifyRootChanged | NotifyDnsMappingsChanged |
         NotifyUsersChanged =>
    case _ => RequestInverse(p);
  }

  lemma RequestInverse(p: LapasProtocol)
    requires p.ControlHandshake? || p.ControlCheckAuth? || p.UserRegister? || p.UserDnsMapping? || p.ShadowGetList?
    ensures FromFields(Tag(p), Fields(p)) == p
  {
    if !p.ControlHandshake? { assert TextOf(Fields(p)[0]) == p.auth.password; }
  }

  lemma UnitResultInverse(r: Result<Unit, Text>)
    ensures UnitResultOf(UnitResultVal(r)) == r
  {
    match r case Ok(u) => assert u == Unit; case Err(e) => assert TextOf(VText(e)) == e;
  }

  lemma PasswdsInverse(r: Result<seq<LapasUserPasswd>, Text>)
    ensures PasswdListOf(ResultVal(r, us => ListVal(us, PasswdVal))) == r
  {
    match r case Ok(us) => ListInverse(us, PasswdVal, PasswdOf); case Err(e) => assert TextOf(VText(e)) == e;
  }

  lemma ShadowsInverse(r: Result<seq<LapasUserShadow>, Text>)
    ensures ShadowListOf(ResultVal(r, us => ListVal(us, ShadowVal))) == r
  {
    match r case Ok(us) => ListInverse(us, ShadowVal, ShadowOf); case Err(e) => assert TextOf(VText(e)) == e;
  }

  // ---------------------------------------------------------------- typed fields make exactly one packet

  lemma TextIs(v: Val)
    requires HasType(v, TText)
    ensures v == VText(TextOf(v))
  {
  }

  lemma UnitResultIs(v: Val)
    requires HasType(v, UNIT_RESULT)
    ensures UnitResultVal(UnitResultOf(v)) == v
  {
    if v.VOk? { assert HasType(v.v, TUnit); } else { assert HasType(v.v, TText); }
  }

  lemma PasswdIs(v: Val)
    requires HasType(v, PASSWD)
    ensures PasswdVal(PasswdOf(v)) == v
  {
    Widths();
    var f := v.vs;
    assert HaveTypes(f, PASSWD.fields);
    assert HasType(f[0], TInt(8)) && HasType(f[1], TText);
    assert f == [f[0], f[1]];
  }

  lemma ShadowIs(v: Val)
    requires HasType(v, SHADOW)
    ensures ShadowVal(ShadowOf(v)) == v
  {
    Widths();
    var f := v.vs;
    assert HaveTypes(f, SHADOW.fields);
    assert HasType(f[0], TInt(8)) && HasType(f[1], TText) && HasType(f[2], TText) && HasType(f[3], TTime);
    assert f == [f[0], f[1], f[2], f[3]];
  }

  // A list whose entries are recovered one by one, or the error beside it.
  lemma ListResultIs<T>(v: Val, t: Ty, to: T -> Val, from: Val -> T)
    requires HasType(v, TResult(TVec(t), TText))
    requires v.VOk? ==> forall x :: x in PartsOf(v.v) ==> to(from(x)) == x
    ensures ResultVal(ResultOf(v, x => ListOf(x, from)), us => ListVal(us, to)) == v
  {
    if v.VErr? {
      TextIs(v.v);
    } else {
      assert ListVal(ListOf(v.v, from), to).vs == v.v.vs;
    }
  }

  lemma PasswdListIs(v: Val)
    requires HasType(v, TResult(TVec(PASSWD), TText))
    ensures Fields(PasswdGetListResponse(PasswdListOf(v))) == [v]
  {
    if v.VOk? {
      assert HasType(v.v, TVec(PASSWD)) && AllOfType(v.v.vs, PASSWD);
      forall x | x in v.v.vs ensures PasswdVal(PasswdOf(x)) == x { PasswdIs(x); }
    }
    ListResultIs(v, PASSWD, PasswdVal, PasswdOf);
  }

  lemma ShadowListIs(v: Val)
    requires HasType(v, TResult(TVec(SHADOW), TText))
    ensures Fields(ShadowGetListResponse(ShadowListOf(v))) == [v]
  {
    if v.VOk? {
      assert HasType(v.v, TVec(SHADOW)) && AllOfType(v.v.vs, SHADOW);
      forall x | x in v.v.vs ensures ShadowVal(ShadowOf(x)) == x { ShadowIs(x); }
    }
    ListResultIs(v, SHADOW, ShadowVal, ShadowOf);
  }

  lemma Alone<T>(vs: seq<T>)
    requires |vs| == 1
    ensures vs == [vs[0]]
  {
  }

  lemma HandshakeIs(vs: seq<Val>)
    requires HaveTypes(vs, PROTOCOL[0])
    ensures Tag(FromFields(0, vs)) == 0 && Fields(FromFields(0, vs)) == vs
  {
    Widths();
    Alone(vs);
    assert HasType(vs[0], TInt(4));
  }

  lemma UnitResultPacketIs(tag: nat, vs: seq<Val>)
    requires tag < |PROTOCOL| && PROTOCOL[tag] == [UNIT_RESULT] && HaveTypes(vs, [UNIT_RESULT])
    ensures Tag(FromFields(tag, vs)) == tag && Fields(FromFields(tag, vs)) == vs
  {
    Alone(vs);
    UnitResultIs(vs[0]);
  }

  // The packets that carry the password, alone or ahead of further texts.
  lemma AuthPacketIs(tag: nat, ts: seq<Ty>, vs: seq<Val>)
    requires tag == 4 || tag == 6 || tag == 8 || tag == 12
    requires ts == PROTOCOL[tag] && HaveTypes(vs, ts)
    ensures Tag(FromFields(tag, vs)) == tag && Fields(FromFields(tag, vs)) == vs
  {
    assert HasType(vs[0], TAuth);
    if |ts| > 1 { TextIs(vs[1]); }
    if |ts| > 2 { TextIs(vs[2]); }
  }

  lemma PacketOfFields(tag: nat, vs: seq<Val>)
    requires tag < |PROTOCOL| && HaveTypes(vs, PROTOCOL[tag])
    ensures Tag(FromFields(tag, vs)) == tag && Fields(FromFields(tag, vs)) == vs
  {
    var ts := PROTOCOL[tag];
    if ts == [] {
      assert tag == 2 || tag == 3 || tag == 10 || tag >= 14;
    } else if tag == 0 {
      HandshakeIs(vs);
    } else if tag == 11 {
      Alone(vs);
      PasswdListIs(vs[0]);
    } else if tag == 13 {
      Alone(vs);
      ShadowListIs(vs[0]);
    } else if ts == [UNIT_RESULT] {
      UnitResultPacketIs(tag, vs);
    } else {
      AuthPacketIs(tag, ts, vs);
    }
  }

  // ---------------------------------------------------------------- whole packets

  function EncodeBody(clock: Clock, p: LapasProtocol): Bytes {
    FieldsTyped(p);
    EncFields(clock, PROTOCOL[Tag(p)], Fields(p))
  }

  function Encode(clock: Clock, p: LapasProtocol): Bytes {
    BigEndian(Tag(p), 4) + EncodeBody(clock, p)
  }

  function DecodeBody(clock: Clock, tag: nat, b: Bytes): (d: Decoded<LapasProtocol>)
    ensures d.Got? ==> |d.rest| <= |b|
  {
    if tag >= |PROTOCOL| then Bad
    else match DecFields(clock, PROTOCOL[tag], b)
      case Got(vs, rest) => Got(FromFields(tag, vs), rest)
      case Short => Short
      case Bad => Bad
  }

  function Decode(clock: Clock, b: Bytes): (d: Decoded<LapasProtocol>)
    ensures d.Got? ==> |d.rest| < |b|
  {
    var tag := DecInt(4, b);
    if tag.Got? then DecodeBody(clock, tag.value, tag.rest) else Short
  }

  // Every text is shorter than 2^32 bytes and every list than 2^64 entries.
  predicate PacketFits(p: LapasProtocol) {
    AllFit(Fields(p))
  }

  lemma TagRoundTrip(tag: nat, rest: Bytes)
    requires tag < |PROTOCOL|
    ensures DecInt(4, BigEndian(tag, 4) + rest) == Got(tag, rest)
  {
    assert tag < Pow256(4) by { Widths(); }
    IntRoundTrip(tag, 4, rest);
  }

  lemma DecodeEncoded(clock: Clock, p: LapasProtocol, rest: Bytes)
    ensures Decode(clock, Encode(clock, p) + rest) == DecodeBody(clock, Tag(p), EncodeBody(clock, p) + rest)
  {
    FieldsTyped(p);
    TagRoundTrip(Tag(p), EncodeBody(clock, p) + rest);
    Assoc(BigEndian(Tag(p), 4), EncodeBody(clock, p), rest);
  }

  // A packet followed by any bytes is decoded to itself and exactly those bytes if and only if its lengths fit.
  lemma PacketRoundTrip(clock: Clock, p: LapasProtocol, rest: Bytes)
    requires Lawful(clock)
    ensures Decode(clock, Encode(clock, p) + rest) == Got(p, rest) <==> PacketFits(p)
  {
    FieldsTyped(p);
    DecodeEncoded(clock, p, rest);
    var ts := PROTOCOL[Tag(p)];
    if PacketFits(p) {
      RoundTripFields(clock, ts, Fields(p), rest);
      FromFieldsOfPacket(p);
    }
    if Decode(clock, Encode(clock, p) + rest) == Got(p, rest) {
      FieldsDecoded(clock, ts, EncodeBody(clock, p) + rest);
      PacketOfFields(Tag(p), DecFields(clock, ts, EncodeBody(clock, p) + rest).value);
    }
  }

  // A packet that holds no point in time.
  predicate Timeless(p: LapasProtocol) {
    AllTimeFree(Fields(p))
  }

  lemma UnitResultTimeFree(r: Result<Unit, Text>)
    ensures TimeFree(UnitResultVal(r))
  {
    match r case Ok(_) => assert TimeFree(VUnit); case Err(e) => assert TimeFree(VText(e));
  }

  lemma RequestTimeFree(p: LapasProtocol)
    requires p.ControlHandshake? || p.ControlCheckAuth? || p.UserRegister? || p.UserDnsMapping? || p.ShadowGetList?
    ensures Timeless(p)
  {
    forall i | 0 <= i < |Fields(p)| ensures TimeFree(Fields(p)[i]) {
      assert Fields(p)[i].VInt? || Fields(p)[i].VText? || Fields(p)[i].VPassword?;
    }
  }

  lemma PasswdsTimeFree(r: Result<seq<LapasUserPasswd>, Text>)
    ensures TimeFree(ResultVal(r, us => ListVal(us, PasswdVal)))
  {
    if r.Ok? {
      var vs := ListVal(r.value, PasswdVal).vs;
      forall i | 0 <= i < |vs| ensures TimeFree(vs[i]) {
        assert vs[i] == PasswdVal(r.value[i]);
        assert AllTimeFree(vs[i].vs);
      }
      assert AllTimeFree(vs);
    }
  }

  lemma ShadowsTimeFree(r: Result<seq<LapasUserShadow>, Text>)
    ensures TimeFree(ResultVal(r, us => ListVal(us, ShadowVal))) <==> r.Err? || r.value == []
  {
    if r.Ok? {
      var vs := ListVal(r.value, ShadowVal).vs;
      if r.value != [] {
        assert vs[0] == ShadowVal(r.value[0]);
        assert !TimeFree(vs[0].vs[3]) && !AllTimeFree(vs[0].vs);
        assert !TimeFree(vs[0]) && !AllTimeFree(vs);
      } else {
        assert AllTimeFree(vs);
      }
    }
  }

  // Only a shadow list with entries holds any.
  lemma TimelessExactly(p: LapasProtocol)
    ensures Timeless(p) <==> !(p.ShadowGetListResponse? && p.shadows.Ok? && p.shadows.value != [])
  {
    match p
    case PasswdGetListResponse(r) => PasswdsTimeFree(r);
    case ShadowGetListResponse(r) =>
      ShadowsTimeFree(r);
      assert Fields(p) == [ResultVal(r, us => ListVal(us, ShadowVal))];
      assert Timeless(p) <==> TimeFree(Fields(p)[0]);
    case ControlHandshakeResponse(r) => UnitResultTimeFree(r);
    case ControlCheckAuthResponse(r) => UnitResultTimeFree(r);
    case UserRegisterResponse(r) => UnitResultTimeFree(r);
    case UserDnsMappingResponse(r) => UnitResultTimeFree(r);
    case ControlPing | ControlListenEvents | PasswdGetList | NotifyRootChanged | NotifyDnsMappingsChanged |
         NotifyUsersChanged =>
    case _ => RequestTimeFree(p);
  }

  lemma BodyCanonical(clock: Clock, tag: nat, b: Bytes)
    requires DecodeBody(clock, tag, b).Got? && Timeless(DecodeBody(clock, tag, b).value)
    ensures var Got(p, rest) := DecodeBody(clock, tag, b);
            Tag(p) == tag && EncodeBody(clock, p) + rest == b && PacketFits(p)
  {
    var ts := PROTOCOL[tag];
    FieldsDecoded(clock, ts, b);
    PacketOfFields(tag, DecFields(clock, ts, b).value);
  }

  // Whatever decodes to such a packet is the packet's encoding, so no two byte strings mean the same packet.
  lemma PacketCanonical(clock: Clock, b: Bytes)
    requires Decode(clock, b).Got? && Timeless(Decode(clock, b).value)
    ensures Encode(clock, Decode(clock, b).value) + Decode(clock, b).rest == b && PacketFits(Decode(clock, b).value)
  {
    var Got(tag, r) := DecInt(4, b);
    BodyCanonical(clock, tag, r);
    IntDecoded(4, b);
    Assoc(BigEndian(tag, 4), EncodeBody(clock, Decode(clock, b).value), Decode(clock, b).rest);
  }

  lemma PacketExtends(clock: Clock, b: Bytes, more: Bytes)
    ensures Carries(Decode(clock, b), Decode(clock, b + more), more)
  {
    IntExtends(4, b, more);
    if DecInt(4, b).Got? && DecInt(4, b).value < |PROTOCOL| {
      FieldsExtend(clock, PROTOCOL[DecInt(4, b).value], DecInt(4, b).rest, more);
    }
  }

  // A strict prefix of an encoding is neither a packet nor a protocol error: the reader waits for more.
  lemma PrefixIsShort(clock: Clock, p: LapasProtocol, prefix: Bytes)
    requires Lawful(clock) && PacketFits(p) && prefix < Encode(clock, p)
    ensures Decode(clock, prefix) == Short
  {
    var all := Encode(clock, p);
    var more := all[|prefix|..];
    assert all == prefix + more && all + [] == all;
    PacketRoundTrip(clock, p, []);
    PacketExtends(clock, prefix, more);
  }

  // ---------------------------------------------------------------- streams of packets

  function EncodeAll(clock: Clock, ps: seq<LapasProtocol>): Bytes {
    if ps == [] then [] else EncodeAll(clock, ps[..|ps| - 1]) + Encode(clock, ps[|ps| - 1])
  }

  // What a peer makes of the bytes so far: the packets received, the bytes left over, and whether decoding failed.
  datatype Received = Received(packets: seq<LapasProtocol>, rest: Bytes, failed: bool)

  function DecodeAll(clock: Clock, b: Bytes): Received
    decreases |b|
  {
    match Decode(clock, b)
    case Short => Received([], b, false)
    case Bad => Received([], b, true)
    case Got(p, rest) =>
      var later := DecodeAll(clock, rest);
      Received([p] + later.packets, later.rest, later.failed)
  }

  lemma ButLast<T>(p: T, ps: seq<T>)
    ensures ps != [] ==> ([p] + ps)[..|ps|] == [p] + ps[..|ps| - 1] && ([p] + ps)[|ps|] == ps[|ps| - 1]
    ensures ps == [] ==> [p] + ps == [p] && [p][..0] == []
  {
  }

  lemma {:induction false} EncodeAllFront(clock: Clock, p: LapasProtocol, ps: seq<LapasProtocol>)
    ensures EncodeAll(clock, [p] + ps) == Encode(clock, p) + EncodeAll(clock, ps)
  {
    if ps == [] {
      ButLast(p, ps);
      Behind(0, [], Encode(clock, p));
    } else {
      var init, last := ps[..|ps| - 1], ps[|ps| - 1];
      EncodeAllFront(clock, p, init);
      ButLast(p, ps);
      Assoc(Encode(clock, p), EncodeAll(clock, init), Encode(clock, last));
    }
  }

  // Packets sent one after the other, and possibly a part of one more, are received as exactly these packets.
  lemma {:induction false} StreamReceived(clock: Clock, ps: seq<LapasProtocol>, part: Bytes)
    requires Lawful(clock) && (forall p :: p in ps ==> PacketFits(p)) && Decode(clock, part) == Short
    ensures DecodeAll(clock, EncodeAll(clock, ps) + part) == Received(ps, part, false)
    decreases |ps|
  {
    if ps == [] {
      assert EncodeAll(clock, ps) + part == part;
    } else {
      var p, later := ps[0], ps[1..];
      assert ps == [p] + later;
      EncodeAllFront(clock, p, later);
      Assoc(Encode(clock, p), EncodeAll(clock, later), part);
      PacketRoundTrip(clock, p, EncodeAll(clock, later) + part);
      StreamReceived(clock, later, part);
    }
  }
}
