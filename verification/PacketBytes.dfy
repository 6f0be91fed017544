// The packets of the protocol as bytes, written out.
module PacketBytes {
  import opened Wrappers
  import opened Wire
  import opened Protocol

  // ---------------------------------------------------------------- the pieces

  // Four and eight bytes, most significant first.
  function FourBytes(n: nat): (b: Bytes)
    ensures |b| == 4
  {
    [n / 0x100_0000 % 256, n / 0x1_0000 % 256, n / 0x100 % 256, n % 256]
  }

  function EightBytes(n: nat): (b: Bytes)
    ensures |b| == 8
  {
    FourBytes(n / 0x1_0000_0000) + FourBytes(n)
  }

  // A text behind its length.
  function TextBytes(s: Text): Bytes {
    FourBytes(|s|) + s
  }

  function UnitResultBytes(r: Result<Unit, Text>): Bytes {
    match r case Ok(_) => [0] case Err(e) => [1] + TextBytes(e)
  }

  function PasswdBytes(u: LapasUserPasswd): Bytes {
    EightBytes(u.id) + TextBytes(u.name)
  }

  function ShadowBytes(clock: Clock, u: LapasUserShadow): Bytes {
    EightBytes(u.id) + TextBytes(u.name) + TextBytes(u.passwordHash) + TextBytes(clock.format(u.lastUpdate))
  }

  function PasswdsBytes(us: seq<LapasUserPasswd>): Bytes {
    if us == [] then [] else PasswdsBytes(us[..|us| - 1]) + PasswdBytes(us[|us| - 1])
  }

  function ShadowsBytes(clock: Clock, us: seq<LapasUserShadow>): Bytes {
    if us == [] then [] else ShadowsBytes(clock, us[..|us| - 1]) + ShadowBytes(clock, us[|us| - 1])
  }

  // A list behind its number of entries, or an error.
  function PasswdResultBytes(r: Result<seq<LapasUserPasswd>, Text>): Bytes {
    match r
    case Ok(us) => [0] + (EightBytes(|us|) + PasswdsBytes(us))
    case Err(e) => [1] + TextBytes(e)
  }

  function ShadowResultBytes(clock: Clock, r: Result<seq<LapasUserShadow>, Text>): Bytes {
    match r
    case Ok(us) => [0] + (EightBytes(|us|) + ShadowsBytes(clock, us))
    case Err(e) => [1] + TextBytes(e)
  }

  // ---------------------------------------------------------------- the packets

  function Layout(clock: Clock, p: LapasProtocol): Bytes {
    match p
    case ControlHandshake(version) => [0, 0, 0, 0] + FourBytes(version)
    case ControlHandshakeResponse(r) => [0, 0, 0, 1] + UnitResultBytes(r)
    case ControlPing => [0, 0, 0, 2]
    case ControlListenEvents => [0, 0, 0, 3]
    case ControlCheckAuth(auth) => [0, 0, 0, 4] + ([0] + TextBytes(auth.password))
    case ControlCheckAuthResponse(r) => [0, 0, 0, 5] + UnitResultBytes(r)
    case UserRegister(auth, name, password) =>
      [0, 0, 0, 6] + (([0] + TextBytes(auth.password)) + TextBytes(name) + TextBytes(password))
    case UserRegisterResponse(r) => [0, 0, 0, 7] + UnitResultBytes(r)
    case UserDnsMapping(auth, name) => [0, 0, 0, 8] + (([0] + TextBytes(auth.password)) + TextBytes(name))
    case UserDnsMappingResponse(r) => [0, 0, 0, 9] + UnitResultBytes(r)
    case PasswdGetList => [0, 0, 0, 10]
    case PasswdGetListResponse(r) => [0, 0, 0, 11] + PasswdResultBytes(r)
    case ShadowGetList(auth) => [0, 0, 0, 12] + ([0] + TextBytes(auth.password))
    case ShadowGetListResponse(r) => [0, 0, 0, 13] + ShadowResultBytes(clock, r)
    case NotifyRootChanged => [0, 0, 0, 14]
    case NotifyDnsMappingsChanged => [0, 0, 0, 15]
    case NotifyUsersChanged => [0, 0, 0, 16]
  }

  // ---------------------------------------------------------------- integers and texts

  lemma Digit(n: nat, w: nat)
    requires w > 0
    ensures BigEndian(n, w) == BigEndian(n / 256, w - 1) + [n % 256]
  {
  }

  lemma FourMore(n: nat, w: nat)
    ensures BigEndian(n, w + 4) == BigEndian(n / 0x1_0000_0000, w) + FourBytes(n)
  {
    Digit(n, w + 4);
    Digit(n / 256, w + 3);
    Digit(n / 256 / 256, w + 2);
    Digit(n / 256 / 256 / 256, w + 1);
    assert n / 256 / 256 == n / 0x1_0000 && n / 256 / 256 / 256 == n / 0x100_0000;
    assert n / 256 / 256 / 256 / 256 == n / 0x1_0000_0000;
  }

  lemma FourIs(n: nat)
    ensures BigEndian(n, 4) == FourBytes(n)
  {
    FourMore(n, 0);
    assert BigEndian(n / 0x1_0000_0000, 0) == [] && [] + FourBytes(n) == FourBytes(n);
  }

  lemma EightIs(n: nat)
    ensures BigEndian(n, 8) == EightBytes(n)
  {
    FourMore(n, 4);
    FourIs(n / 0x1_0000_0000);
  }

  lemma TextIs(s: Text)
    requires |s| < U32
    ensures EncText(s) == TextBytes(s)
  {
    assert |s| % U32 == |s|;
    FourIs(|s|);
  }

  // ---------------------------------------------------------------- fields

  lemma NoFields(clock: Clock)
    ensures EncFields(clock, [], []) == []
  {
  }

  lemma OneField(clock: Clock, t: Ty, v: Val)
    requires HasType(v, t)
    ensures HaveTypes([v], [t]) && EncFields(clock, [t], [v]) == Enc(clock, t, v)
  {
    assert [v][..0] == [] && [t][..0] == [];
    assert [] + Enc(clock, t, v) == Enc(clock, t, v);
  }

  lemma FieldSnoc(clock: Clock, ts: seq<Ty>, vs: seq<Val>, t: Ty, v: Val)
    requires HaveTypes(vs, ts) && HasType(v, t)
    ensures HaveTypes(vs + [v], ts + [t])
    ensures EncFields(clock, ts + [t], vs + [v]) == EncFields(clock, ts, vs) + Enc(clock, t, v)
  {
    Front(vs, v);
    Front(ts, t);
  }

  lemma UnitResultIs(clock: Clock, r: Result<Unit, Text>)
    requires r.Err? ==> |r.error| < U32
    ensures HasType(UnitResultVal(r), UNIT_RESULT)
    ensures Enc(clock, UNIT_RESULT, UnitResultVal(r)) == UnitResultBytes(r)
  {
    UnitResultTyped(r);
    match r
    case Ok(_) => assert Enc(clock, TUnit, VUnit) == [] && [0] + [] == [0];
    case Err(e) =>
      TextIs(e);
      assert Enc(clock, TText, VText(e)) == TextBytes(e);
  }

  lemma TextBehind(clock: Clock, ts: seq<Ty>, vs: seq<Val>, s: Text)
    requires HaveTypes(vs, ts) && |s| < U32
    ensures HaveTypes(vs + [VText(s)], ts + [TText])
    ensures EncFields(clock, ts + [TText], vs + [VText(s)]) == EncFields(clock, ts, vs) + TextBytes(s)
  {
    TextIs(s);
    assert HasType(VText(s), TText) && Enc(clock, TText, VText(s)) == TextBytes(s);
    FieldSnoc(clock, ts, vs, TText, VText(s));
  }

  lemma TimeBehind(clock: Clock, ts: seq<Ty>, vs: seq<Val>, t: Instant)
    requires HaveTypes(vs, ts) && |clock.format(t)| < U32
    ensures HaveTypes(vs + [VTime(t)], ts + [TTime])
    ensures EncFields(clock, ts + [TTime], vs + [VTime(t)]) == EncFields(clock, ts, vs) + TextBytes(clock.format(t))
  {
    TextIs(clock.format(t));
    assert HasType(VTime(t), TTime) && Enc(clock, TTime, VTime(t)) == TextBytes(clock.format(t));
    FieldSnoc(clock, ts, vs, TTime, VTime(t));
  }

  lemma IdIs(clock: Clock, id: UserId)
    ensures HaveTypes([VInt(id)], [TInt(8)]) && EncFields(clock, [TInt(8)], [VInt(id)]) == EightBytes(id)
  {
    Widths();
    EightIs(id);
    OneField(clock, TInt(8), VInt(id));
  }

  lemma PasswdIs(clock: Clock, u: LapasUserPasswd)
    requires |u.name| < U32
    ensures HasType(PasswdVal(u), PASSWD) && Enc(clock, PASSWD, PasswdVal(u)) == PasswdBytes(u)
  {
    IdIs(clock, u.id);
    TextBehind(clock, [TInt(8)], [VInt(u.id)], u.name);
    assert [TInt(8)] + [TText] == PASSWD.fields && [VInt(u.id)] + [VText(u.name)] == PasswdVal(u).vs;
  }

  lemma ShadowIs(clock: Clock, u: LapasUserShadow)
    requires |u.name| < U32 && |u.passwordHash| < U32 && |clock.format(u.lastUpdate)| < U32
    ensures HasType(ShadowVal(u), SHADOW) && Enc(clock, SHADOW, ShadowVal(u)) == ShadowBytes(clock, u)
  {
    IdIs(clock, u.id);
    TextBehind(clock, [TInt(8)], [VInt(u.id)], u.name);
    var t2, v2 := [TInt(8)] + [TText], [VInt(u.id)] + [VText(u.name)];
    TextBehind(clock, t2, v2, u.passwordHash);
    var t3, v3 := t2 + [TText], v2 + [VText(u.passwordHash)];
    TimeBehind(clock, t3, v3, u.lastUpdate);
    assert t3 + [TTime] == SHADOW.fields && v3 + [VTime(u.lastUpdate)] == ShadowVal(u).vs;
  }

  lemma {:induction false} PasswdsAre(clock: Clock, us: seq<LapasUserPasswd>, vs: seq<Val>)
    requires |vs| == |us| && (forall i :: 0 <= i < |us| ==> vs[i] == PasswdVal(us[i]) && |us[i].name| < U32)
    ensures AllOfType(vs, PASSWD) && EncEach(clock, PASSWD, vs) == PasswdsBytes(us)
  {
    forall i | 0 <= i < |vs| ensures HasType(vs[i], PASSWD) { PasswdTyped(us[i]); }
    if us != [] {
      PasswdsAre(clock, us[..|us| - 1], vs[..|vs| - 1]);
      PasswdIs(clock, us[|us| - 1]);
    }
  }

  lemma {:induction false} ShadowsAre(clock: Clock, us: seq<LapasUserShadow>, vs: seq<Val>)
    requires Lawful(clock) && |vs| == |us|
    requires forall i :: 0 <= i < |us| ==>
               vs[i] == ShadowVal(us[i]) && |us[i].name| < U32 && |us[i].passwordHash| < U32
    ensures AllOfType(vs, SHADOW) && EncEach(clock, SHADOW, vs) == ShadowsBytes(clock, us)
  {
    forall i | 0 <= i < |vs| ensures HasType(vs[i], SHADOW) { ShadowTyped(us[i]); }
    if us != [] {
      ShadowsAre(clock, us[..|us| - 1], vs[..|vs| - 1]);
      ShadowIs(clock, us[|us| - 1]);
    }
  }

  // A list behind its tag and its length.
  lemma ListIs(clock: Clock, t: Ty, vs: seq<Val>, b: Bytes)
    requires AllOfType(vs, t) && |vs| < U64 && EncEach(clock, t, vs) == b
    ensures HasType(VOk(VVec(vs)), TResult(TVec(t), TText))
    ensures Enc(clock, TResult(TVec(t), TText), VOk(VVec(vs))) == [0] + (EightBytes(|vs|) + b)
  {
    assert |vs| % U64 == |vs|;
    EightIs(|vs|);
    assert HasType(VVec(vs), TVec(t));
    assert Enc(clock, TVec(t), VVec(vs)) == EightBytes(|vs|) + b;
  }

  lemma RefusalIs(clock: Clock, t: Ty, e: Text)
    requires |e| < U32
    ensures HasType(VErr(VText(e)), TResult(TVec(t), TText))
    ensures Enc(clock, TResult(TVec(t), TText), VErr(VText(e))) == [1] + TextBytes(e)
  {
    TextIs(e);
    assert HasType(VText(e), TText) && Enc(clock, TText, VText(e)) == TextBytes(e);
  }

  // ---------------------------------------------------------------- whole packets

  lemma Tagged(clock: Clock, p: LapasProtocol, body: Bytes)
    requires EncodeBody(clock, p) == body
    ensures Encode(clock, p) == [0, 0, 0, Tag(p)] + body
  {
    FourIs(Tag(p));
  }

  // The password ahead of the other fields.
  lemma PasswordIs(clock: Clock, s: Text)
    requires |s| < U32
    ensures HaveTypes([VPassword(s)], [TAuth])
    ensures EncFields(clock, [TAuth], [VPassword(s)]) == [0] + TextBytes(s)
  {
    TextIs(s);
    assert HasType(VPassword(s), TAuth) && Enc(clock, TAuth, VPassword(s)) == [0] + TextBytes(s);
    OneField(clock, TAuth, VPassword(s));
  }

  lemma FitsText(p: LapasProtocol, i: nat, s: Text)
    requires PacketFits(p) && i < |Fields(p)| && (Fields(p)[i] == VText(s) || Fields(p)[i] == VPassword(s))
    ensures |s| < U32
  {
    assert Fits(Fields(p)[i]);
  }

  lemma PasswordLayout(clock: Clock, p: LapasProtocol)
    requires (p.ControlCheckAuth? || p.ShadowGetList?) && PacketFits(p)
    ensures Encode(clock, p) == [0, 0, 0, Tag(p)] + ([0] + TextBytes(p.auth.password))
  {
    FitsText(p, 0, p.auth.password);
    PasswordIs(clock, p.auth.password);
    assert Fields(p) == [VPassword(p.auth.password)] && PROTOCOL[Tag(p)] == [TAuth];
    Tagged(clock, p, EncodeBody(clock, p));
  }

  lemma DnsLayout(clock: Clock, p: LapasProtocol)
    requires p.UserDnsMapping? && PacketFits(p)
    ensures Encode(clock, p) == [0, 0, 0, 8] + (([0] + TextBytes(p.auth.password)) + TextBytes(p.username))
  {
    var pw := VPassword(p.auth.password);
    FitsText(p, 0, p.auth.password);
    FitsText(p, 1, p.username);
    PasswordIs(clock, p.auth.password);
    TextBehind(clock, [TAuth], [pw], p.username);
    assert Fields(p) == [pw] + [VText(p.username)] && PROTOCOL[8] == [TAuth] + [TText];
    Tagged(clock, p, EncodeBody(clock, p));
  }

  lemma RegisterFields(clock: Clock, pw: Text, name: Text, password: Text)
    requires |pw| < U32 && |name| < U32 && |password| < U32
    ensures var ts, vs := [TAuth, TText, TText], [VPassword(pw), VText(name), VText(password)];
            HaveTypes(vs, ts) &&
            EncFields(clock, ts, vs) == ([0] + TextBytes(pw)) + TextBytes(name) + TextBytes(password)
  {
    PasswordIs(clock, pw);
    TextBehind(clock, [TAuth], [VPassword(pw)], name);
    var t2, v2 := [TAuth] + [TText], [VPassword(pw)] + [VText(name)];
    TextBehind(clock, t2, v2, password);
    assert t2 + [TText] == [TAuth, TText, TText];
    assert v2 + [VText(password)] == [VPassword(pw), VText(name), VText(password)];
  }

  lemma RegisterLayout(clock: Clock, p: LapasProtocol)
    requires p.UserRegister? && PacketFits(p)
    ensures Encode(clock, p) ==
            [0, 0, 0, 6] + (([0] + TextBytes(p.auth.password)) + TextBytes(p.newUsername) + TextBytes(p.newPassword))
  {
    FitsText(p, 0, p.auth.password);
    FitsText(p, 1, p.newUsername);
    FitsText(p, 2, p.newPassword);
    RegisterFields(clock, p.auth.password, p.newUsername, p.newPassword);
    Tagged(clock, p, EncodeBody(clock, p));
  }

  lemma HandshakeLayout(clock: Clock, p: LapasProtocol)
    requires p.ControlHandshake?
    ensures Encode(clock, p) == [0, 0, 0, 0] + FourBytes(p.version)
  {
    FourIs(p.version);
    Widths();
    OneField(clock, TInt(4), VInt(p.version));
    Tagged(clock, p, FourBytes(p.version));
  }

  lemma UnitResponseLayout(clock: Clock, p: LapasProtocol, r: Result<Unit, Text>)
    requires p == ControlHandshakeResponse(r) || p == ControlCheckAuthResponse(r) || p == UserRegisterResponse(r) ||
             p == UserDnsMappingResponse(r)
    requires PacketFits(p)
    ensures Encode(clock, p) == [0, 0, 0, Tag(p)] + UnitResultBytes(r)
  {
    assert Fields(p) == [UnitResultVal(r)] && PROTOCOL[Tag(p)] == [UNIT_RESULT];
    assert Fits(Fields(p)[0]);
    if r.Err? { assert Fits(VText(r.error)); }
    UnitResultIs(clock, r);
    OneField(clock, UNIT_RESULT, UnitResultVal(r));
    Tagged(clock, p, UnitResultBytes(r));
  }

  lemma PasswdFits(u: LapasUserPasswd)
    requires Fits(PasswdVal(u))
    ensures |u.name| < U32
  {
    assert AllFit(PasswdVal(u).vs) && Fits(PasswdVal(u).vs[1]);
  }

  lemma ShadowFits(u: LapasUserShadow)
    requires Fits(ShadowVal(u))
    ensures |u.name| < U32 && |u.passwordHash| < U32
  {
    var vs := ShadowVal(u).vs;
    assert AllFit(vs) && Fits(vs[1]) && Fits(vs[2]);
  }

  lemma PasswdListIs(clock: Clock, us: seq<LapasUserPasswd>)
    requires Fits(VOk(ListVal(us, PasswdVal)))
    ensures HasType(VOk(ListVal(us, PasswdVal)), TResult(TVec(PASSWD), TText))
    ensures Enc(clock, TResult(TVec(PASSWD), TText), VOk(ListVal(us, PasswdVal))) ==
            [0] + (EightBytes(|us|) + PasswdsBytes(us))
  {
    var vs := ListVal(us, PasswdVal).vs;
    assert Fits(VVec(vs)) && AllFit(vs);
    forall i | 0 <= i < |us| ensures vs[i] == PasswdVal(us[i]) && |us[i].name| < U32 {
      assert vs[i] == PasswdVal(us[i]) && Fits(vs[i]);
      PasswdFits(us[i]);
    }
    PasswdsAre(clock, us, vs);
    ListIs(clock, PASSWD, vs, PasswdsBytes(us));
  }

  lemma ShadowListIs(clock: Clock, us: seq<LapasUserShadow>)
    requires Lawful(clock) && Fits(VOk(ListVal(us, ShadowVal)))
    ensures HasType(VOk(ListVal(us, ShadowVal)), TResult(TVec(SHADOW), TText))
    ensures Enc(clock, TResult(TVec(SHADOW), TText), VOk(ListVal(us, ShadowVal))) ==
            [0] + (EightBytes(|us|) + ShadowsBytes(clock, us))
  {
    var vs := ListVal(us, ShadowVal).vs;
    assert Fits(VVec(vs)) && AllFit(vs);
    forall i | 0 <= i < |us|
      ensures vs[i] == ShadowVal(us[i]) && |us[i].name| < U32 && |us[i].passwordHash| < U32
    {
      assert vs[i] == ShadowVal(us[i]) && Fits(vs[i]);
      ShadowFits(us[i]);
    }
    ShadowsAre(clock, us, vs);
    ListIs(clock, SHADOW, vs, ShadowsBytes(clock, us));
  }

  lemma RefusalFits(e: Text)
    requires Fits(VErr(VText(e)))
    ensures |e| < U32
  {
    assert Fits(VText(e));
  }

  // A packet whose one field is a list or a refusal.
  lemma ListLayout(clock: Clock, p: LapasProtocol, t: Ty, v: Val, b: Bytes)
    requires Fields(p) == [v] && PROTOCOL[Tag(p)] == [TResult(TVec(t), TText)]
    requires HasType(v, TResult(TVec(t), TText)) && Enc(clock, TResult(TVec(t), TText), v) == b
    ensures Encode(clock, p) == [0, 0, 0, Tag(p)] + b
  {
    OneField(clock, TResult(TVec(t), TText), v);
    Tagged(clock, p, b);
  }

  lemma PasswdsLayout(clock: Clock, p: LapasProtocol)
    requires p.PasswdGetListResponse? && PacketFits(p)
    ensures Encode(clock, p) == [0, 0, 0, 11] + PasswdResultBytes(p.passwds)
  {
    assert Fits(Fields(p)[0]);
    match p.passwds
    case Ok(us) =>
      assert Fields(p) == [VOk(ListVal(us, PasswdVal))];
      PasswdListIs(clock, us);
      ListLayout(clock, p, PASSWD, VOk(ListVal(us, PasswdVal)), [0] + (EightBytes(|us|) + PasswdsBytes(us)));
    case Err(e) =>
      assert Fields(p) == [VErr(VText(e))];
      RefusalFits(e);
      RefusalIs(clock, PASSWD, e);
      ListLayout(clock, p, PASSWD, VErr(VText(e)), [1] + TextBytes(e));
  }

  lemma ShadowsLayout(clock: Clock, p: LapasProtocol)
    requires Lawful(clock) && p.ShadowGetListResponse? && PacketFits(p)
    ensures Encode(clock, p) == [0, 0, 0, 13] + ShadowResultBytes(clock, p.shadows)
  {
    assert Fits(Fields(p)[0]);
    match p.shadows
    case Ok(us) =>
      assert Fields(p) == [VOk(ListVal(us, ShadowVal))];
      ShadowListIs(clock, us);
      ListLayout(clock, p, SHADOW, VOk(ListVal(us, ShadowVal)), [0] + (EightBytes(|us|) + ShadowsBytes(clock, us)));
    case Err(e) =>
      assert Fields(p) == [VErr(VText(e))];
      RefusalFits(e);
      RefusalIs(clock, SHADOW, e);
      ListLayout(clock, p, SHADOW, VErr(VText(e)), [1] + TextBytes(e));
  }

  lemma PlainLayout(clock: Clock, p: LapasProtocol)
    requires p.ControlPing? || p.ControlListenEvents? || p.PasswdGetList? || p.NotifyRootChanged? ||
             p.NotifyDnsMappingsChanged? || p.NotifyUsersChanged?
    ensures Encode(clock, p) == [0, 0, 0, Tag(p)]
  {
    NoFields(clock);
    Tagged(clock, p, []);
  }

  // Every packet that fits is encoded as written out above.
  lemma EncodedAsLaidOut(clock: Clock, p: LapasProtocol)
    requires Lawful(clock) && PacketFits(p)
    ensures Encode(clock, p) == Layout(clock, p)
  {
    match p
    case ControlHandshake(_) => HandshakeLayout(clock, p);
    case ControlHandshakeResponse(r) => UnitResponseLayout(clock, p, r);
    case ControlCheckAuthResponse(r) => UnitResponseLayout(clock, p, r);
    case UserRegisterResponse(r) => UnitResponseLayout(clock, p, r);
    case UserDnsMappingResponse(r) => UnitResponseLayout(clock, p, r);
    case PasswdGetListResponse(_) => PasswdsLayout(clock, p);
    case ShadowGetListResponse(_) => ShadowsLayout(clock, p);
    case ControlCheckAuth(_) => PasswordLayout(clock, p);
    case UserRegister(_, _, _) => RegisterLayout(clock, p);
    case UserDnsMapping(_, _) => DnsLayout(clock, p);
    case ShadowGetList(_) => PasswordLayout(clock, p);
    case _ => PlainLayout(clock, p);
  }

  // The first bytes a client sends.
  lemma HandshakeBytes(clock: Clock)
    requires Lawful(clock)
    ensures Encode(clock, ControlHandshake(VERSION)) == [0, 0, 0, 0, 0, 0, 0, 6]
  {
    EncodedAsLaidOut(clock, ControlHandshake(VERSION));
  }

  // The optional type, which no packet uses.
  lemma OptionBytes(clock: Clock, t: Ty, v: Val)
    requires HasType(v, t)
    ensures Enc(clock, TOption(t), VNone) == [0] && Enc(clock, TOption(t), VSome(v)) == [1] + Enc(clock, t, v)
  {
  }
}
