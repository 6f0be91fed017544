// The binary encoding of the LAPAS API (ProtoSerde), for every type that can be built from its pieces.
module Wire {
  import opened Wrappers

  type Byte = x: int | 0 <= x < 256
  type Bytes = seq<Byte>

  // ---------------------------------------------------------------- integers, most significant byte first

  function Pow256(w: nat): (p: nat)
    ensures p > 0
  {
    if w == 0 then 1 else 256 * Pow256(w - 1)
  }

  function BigEndian(n: nat, w: nat): (b: Bytes)
    ensures |b| == w
    decreases w, n
  {
    if w == 0 then [] else BigEndian(n / 256, w - 1) + [n % 256]
  }

  function FromBigEndian(b: Bytes): (n: nat)
    ensures n < Pow256(|b|)
  {
    if b == [] then 0 else FromBigEndian(b[..|b| - 1]) * 256 + b[|b| - 1]
  }

  lemma {:induction false} ReadWritten(n: nat, w: nat)
    requires n < Pow256(w)
    ensures FromBigEndian(BigEndian(n, w)) == n
    decreases w
  {
    if w > 0 {
      ReadWritten(n / 256, w - 1);
      var b := BigEndian(n, w);
      assert b[..w - 1] == BigEndian(n / 256, w - 1);
    }
  }

  lemma {:induction false} WrittenRead(b: Bytes)
    ensures BigEndian(FromBigEndian(b), |b|) == b
  {
    if b != [] {
      WrittenRead(b[..|b| - 1]);
      assert b == b[..|b| - 1] + [b[|b| - 1]];
    }
  }

  const U32 := 0x1_0000_0000
  const U64 := 0x1_0000_0000_0000_0000

  lemma Widths()
    ensures Pow256(4) == U32 && Pow256(8) == U64
  {
    assert Pow256(2) == 0x1_0000 && Pow256(4) == 256 * (256 * Pow256(2));
    assert Pow256(6) == 256 * (256 * Pow256(4)) && Pow256(8) == 256 * (256 * Pow256(6));
  }

  // ---------------------------------------------------------------- text

  predicate Tail(b: Byte) { 0x80 <= b <= 0xBF }

  // Well-formed UTF-8, section 4 of RFC 3629.
  predicate ValidUtf8(s: Bytes) {
    if s == [] then true
    else if s[0] < 0x80 then ValidUtf8(s[1..])
    else if 0xC2 <= s[0] <= 0xDF then |s| > 1 && Tail(s[1]) && ValidUtf8(s[2..])
    else if 0xE0 <= s[0] <= 0xEF then
      |s| > 2 && Tail(s[1]) && Tail(s[2]) && (s[0] == 0xE0 ==> s[1] >= 0xA0) && (s[0] == 0xED ==> s[1] <= 0x9F) &&
      ValidUtf8(s[3..])
    else if 0xF0 <= s[0] <= 0xF4 then
      |s| > 3 && Tail(s[1]) && Tail(s[2]) && Tail(s[3]) && (s[0] == 0xF0 ==> s[1] >= 0x90) &&
      (s[0] == 0xF4 ==> s[1] <= 0x8F) &&
      ValidUtf8(s[4..])
    else false
  }

  // A String is held as its bytes.
  type Text = s: Bytes | ValidUtf8(s) witness []

  // The nanoseconds of the years 0 to 9999, the years that section 5.6 of RFC 3339 can write.
  const INSTANTS := 3_652_425 * 86_400 * 1_000_000_000

  lemma YearsOfInstants()
    ensures INSTANTS == (10_000 * 365 + 10_000 / 4 - 10_000 / 100 + 10_000 / 400) * (24 * 60 * 60) * 1_000_000_000
  {
  }

  type Instant = t: int | 0 <= t < INSTANTS

  // How points in time are written and read as text (chrono). Reading what was written gives the same instant;
  // other texts may be read as well.
  datatype Clock = Clock(format: Instant -> Text, parse: Text -> Option<Instant>)

  ghost predicate Lawful(clock: Clock) {
    forall t: Instant :: clock.parse(clock.format(t)) == Some(t) && |clock.format(t)| < U32
  }

  // ---------------------------------------------------------------- such a clock exists

  function Pow128(w: nat): (p: nat)
    ensures p > 0
  {
    if w == 0 then 1 else 128 * Pow128(w - 1)
  }

  // A number written with w ASCII characters.
  function Digits(n: nat, w: nat): (s: Bytes)
    ensures |s| == w && forall i :: 0 <= i < w ==> s[i] < 128
    decreases w, n
  {
    if w == 0 then [] else Digits(n / 128, w - 1) + [n % 128]
  }

  function FromDigits(s: Bytes): nat {
    if s == [] then 0 else FromDigits(s[..|s| - 1]) * 128 + s[|s| - 1]
  }

  lemma {:induction false} DigitsRead(n: nat, w: nat)
    requires n < Pow128(w)
    ensures FromDigits(Digits(n, w)) == n
    decreases w
  {
    if w > 0 {
      DigitsRead(n / 128, w - 1);
      var s := Digits(n, w);
      assert s[..w - 1] == Digits(n / 128, w - 1);
    }
  }

  lemma {:induction false} AsciiIsText(s: Bytes)
    requires forall i :: 0 <= i < |s| ==> s[i] < 0x80
    ensures ValidUtf8(s)
  {
    if s != [] { AsciiIsText(s[1..]); }
  }

  function WriteInstant(t: Instant, w: nat): Text {
    AsciiIsText(Digits(t, w));
    Digits(t, w)
  }

  function ReadInstant(s: Text): Option<Instant> {
    var n := FromDigits(s);
    if n < INSTANTS then Some(n) else None
  }

  lemma TenDigits()
    ensures INSTANTS <= Pow128(10)
  {
    assert Pow128(2) == 0x4000 && Pow128(4) == 128 * (128 * Pow128(2)) && Pow128(6) == 128 * (128 * Pow128(4));
    assert Pow128(8) == 128 * (128 * Pow128(6)) && Pow128(10) == 128 * (128 * Pow128(8));
  }

  lemma DigitsAreLawful(w: nat)
    requires INSTANTS <= Pow128(w) && w < U32
    ensures Lawful(Clock(t => WriteInstant(t, w), ReadInstant))
  {
    forall t: Instant ensures ReadInstant(WriteInstant(t, w)) == Some(t) && |WriteInstant(t, w)| < U32 {
      DigitsRead(t, w);
    }
  }

  // What is asked of a clock can be met, so what is proved of lawful clocks is not proved of nothing.
  lemma LawfulClockExists()
    ensures exists clock :: Lawful(clock)
  {
    TenDigits();
    DigitsAreLawful(10);
  }

  // ---------------------------------------------------------------- types and values

  datatype Ty =
    | TUnit
    | TInt(width: nat)
    | TText
    | TTime
    | TResult(ok: Ty, err: Ty)
    | TOption(some: Ty)
    | TVec(elem: Ty)
    | TStruct(fields: seq<Ty>)
    | TAuth

  datatype Val =
    | VUnit
    | VInt(n: nat)
    | VText(s: Text)
    | VTime(t: Instant)
    | VOk(v: Val)
    | VErr(v: Val)
    | VNone
    | VSome(v: Val)
    | VVec(vs: seq<Val>)
    | VStruct(vs: seq<Val>)
    | VPassword(s: Text)

  predicate HasType(v: Val, t: Ty)
    decreases v, 0
  {
    match (t, v)
    case (TUnit, VUnit) => true
    case (TInt(w), VInt(n)) => n < Pow256(w)
    case (TText, VText(_)) => true
    case (TTime, VTime(_)) => true
    case (TResult(ok, _), VOk(x)) => HasType(x, ok)
    case (TResult(_, err), VErr(x)) => HasType(x, err)
    case (TOption(_), VNone) => true
    case (TOption(some), VSome(x)) => HasType(x, some)
    case (TVec(elem), VVec(vs)) => AllOfType(vs, elem)
    case (TStruct(ts), VStruct(vs)) => HaveTypes(vs, ts)
    case (TAuth, VPassword(_)) => true
    case _ => false
  }

  predicate AllOfType(vs: seq<Val>, t: Ty)
    decreases vs, 1
  {
    forall i :: 0 <= i < |vs| ==> HasType(vs[i], t)
  }

  predicate HaveTypes(vs: seq<Val>, ts: seq<Ty>)
    decreases vs, 1
  {
    |vs| == |ts| && forall i :: 0 <= i < |vs| ==> HasType(vs[i], ts[i])
  }

  // Whether the length fields can hold the lengths: 32 bits for text, 64 bits for vectors.
  predicate Fits(v: Val)
    decreases v, 0
  {
    match v
    case VText(s) => |s| < U32
    case VPassword(s) => |s| < U32
    case VOk(x) => Fits(x)
    case VErr(x) => Fits(x)
    case VSome(x) => Fits(x)
    case VVec(vs) => |vs| < U64 && AllFit(vs)
    case VStruct(vs) => AllFit(vs)
    case _ => true
  }

  predicate AllFit(vs: seq<Val>)
    decreases vs, 1
  {
    forall i :: 0 <= i < |vs| ==> Fits(vs[i])
  }

  // A value that holds no point in time.
  predicate TimeFree(v: Val)
    decreases v, 0
  {
    match v
    case VTime(_) => false
    case VOk(x) => TimeFree(x)
    case VErr(x) => TimeFree(x)
    case VSome(x) => TimeFree(x)
    case VVec(vs) => AllTimeFree(vs)
    case VStruct(vs) => AllTimeFree(vs)
    case _ => true
  }

  predicate AllTimeFree(vs: seq<Val>)
    decreases vs, 1
  {
    forall i :: 0 <= i < |vs| ==> TimeFree(vs[i])
  }

  // ---------------------------------------------------------------- encode

  // The length is cut to 32 bits, the bytes are not.
  function EncText(s: Text): Bytes {
    BigEndian(|s| % U32, 4) + s
  }

  function Enc(clock: Clock, t: Ty, v: Val): Bytes
    requires HasType(v, t)
    decreases v, 0
  {
    match v
    case VUnit => []
    case VInt(n) => BigEndian(n, t.width)
    case VText(s) => EncText(s)
    case VTime(i) => EncText(clock.format(i))
    case VOk(x) => [0] + Enc(clock, t.ok, x)
    case VErr(x) => [1] + Enc(clock, t.err, x)
    case VNone => [0]
    case VSome(x) => [1] + Enc(clock, t.some, x)
    case VVec(vs) => BigEndian(|vs| % U64, 8) + EncEach(clock, t.elem, vs)
    case VStruct(vs) => EncFields(clock, t.fields, vs)
    case VPassword(s) => [0] + EncText(s)
  }

  function EncEach(clock: Clock, t: Ty, vs: seq<Val>): Bytes
    requires AllOfType(vs, t)
    decreases vs, 1
  {
    if vs == [] then [] else EncEach(clock, t, vs[..|vs| - 1]) + Enc(clock, t, vs[|vs| - 1])
  }

  function EncFields(clock: Clock, ts: seq<Ty>, vs: seq<Val>): Bytes
    requires HaveTypes(vs, ts)
    decreases vs, 1
  {
    if vs == [] then [] else EncFields(clock, ts[..|ts| - 1], vs[..|vs| - 1]) + Enc(clock, ts[|ts| - 1], vs[|vs| - 1])
  }

  // ---------------------------------------------------------------- decode

  // Short: the stream ends too early (an I/O error). Bad: the bytes cannot be an encoding (a protocol error).
  datatype Decoded<+T> = Got(value: T, rest: Bytes) | Short | Bad

  function DecInt(w: nat, b: Bytes): (d: Decoded<nat>)
    ensures d.Got? ==> |d.rest| == |b| - w
  {
    if |b| < w then Short else Got(FromBigEndian(b[..w]), b[w..])
  }

  function DecText(b: Bytes): (d: Decoded<Text>)
    ensures d.Got? ==> |d.rest| <= |b|
  {
    var length := DecInt(4, b);
    if !length.Got? || |length.rest| < length.value then Short
    else if ValidUtf8(length.rest[..length.value]) then Got(length.rest[..length.value], length.rest[length.value..])
    else Bad
  }

  function Dec(clock: Clock, t: Ty, b: Bytes): (d: Decoded<Val>)
    ensures d.Got? ==> |d.rest| <= |b|
    decreases t, 0
  {
    match t
    case TUnit => Got(VUnit, b)
    case TInt(w) =>
      var n := DecInt(w, b);
      if n.Got? then Got(VInt(n.value), n.rest) else Short
    case TText => (match DecText(b) case Got(s, r) => Got(VText(s), r) case Short => Short case Bad => Bad)
    case TTime =>
      (match DecText(b)
       case Got(s, r) => (match clock.parse(s) case Some(i) => Got(VTime(i), r) case None => Bad)
       case Short => Short
       case Bad => Bad)
    case TResult(ok, err) =>
      if b == [] then Short
      else if b[0] == 0 then
        (match Dec(clock, ok, b[1..]) case Got(x, r) => Got(VOk(x), r) case Short => Short case Bad => Bad)
      else if b[0] == 1 then
        (match Dec(clock, err, b[1..]) case Got(x, r) => Got(VErr(x), r) case Short => Short case Bad => Bad)
      else Bad
    case TOption(some) =>
      if b == [] then Short
      else if b[0] == 0 then Got(VNone, b[1..])
      else if b[0] == 1 then
        (match Dec(clock, some, b[1..]) case Got(x, r) => Got(VSome(x), r) case Short => Short case Bad => Bad)
      else Bad
    case TVec(elem) =>
      var n := DecInt(8, b);
      if !n.Got? then Short
      else
        (match DecEach(clock, elem, n.value, n.rest)
         case Got(vs, r) => Got(VVec(vs), r)
         case Short => Short
         case Bad => Bad)
    case TStruct(ts) =>
      (match DecFields(clock, ts, b) case Got(vs, r) => Got(VStruct(vs), r) case Short => Short case Bad => Bad)
    case TAuth =>
      if b == [] then Short
      else if b[0] == 0 then
        (match DecText(b[1..]) case Got(s, r) => Got(VPassword(s), r) case Short => Short case Bad => Bad)
      else Bad
  }

  function DecEach(clock: Clock, t: Ty, n: nat, b: Bytes): (d: Decoded<seq<Val>>)
    ensures d.Got? ==> |d.rest| <= |b|
    decreases t, 1, n
  {
    if n == 0 then Got([], b)
    else match DecEach(clock, t, n - 1, b)
      case Short => Short
      case Bad => Bad
      case Got(vs, r) => match Dec(clock, t, r) case Got(x, r') => Got(vs + [x], r') case Short => Short case Bad => Bad
  }

  function DecFields(clock: Clock, ts: seq<Ty>, b: Bytes): (d: Decoded<seq<Val>>)
    ensures d.Got? ==> |d.rest| <= |b|
    decreases ts, 0
  {
    if ts == [] then Got([], b)
    else match DecFields(clock, ts[..|ts| - 1], b)
      case Short => Short
      case Bad => Bad
      case Got(vs, r) =>
        match Dec(clock, ts[|ts| - 1], r) case Got(x, r') => Got(vs + [x], r') case Short => Short case Bad => Bad
  }

  // ---------------------------------------------------------------- round trip

  lemma Assoc<T>(a: seq<T>, b: seq<T>, c: seq<T>)
    ensures a + b + c == a + (b + c)
  {
  }

  lemma Behind<T>(a: T, b: seq<T>, c: seq<T>)
    ensures ([a] + b + c)[0] == a && ([a] + b + c)[1..] == b + c && [] + c == c
  {
  }

  lemma IntRoundTrip(n: nat, w: nat, rest: Bytes)
    requires n < Pow256(w)
    ensures DecInt(w, BigEndian(n, w) + rest) == Got(n, rest)
  {
    ReadWritten(n, w);
    Uncut(BigEndian(n, w), rest);
  }

  lemma Uncut<T>(a: seq<T>, b: seq<T>)
    ensures (a + b)[..|a|] == a && (a + b)[|a|..] == b
  {
  }

  lemma TextRoundTrip(s: Text, rest: Bytes)
    requires |s| < U32
    ensures DecText(EncText(s) + rest) == Got(s, rest)
  {
    assert |s| < Pow256(4) by { Widths(); }
    IntRoundTrip(|s|, 4, s + rest);
    assert |s| % U32 == |s|;
    Assoc(BigEndian(|s|, 4), s, rest);
    Uncut(s, rest);
  }

  // One tag byte in front of an encoding.
  lemma OneTag(clock: Clock, t: Ty, v: Val, inner: Ty, x: Val, rest: Bytes)
    requires HasType(v, t) && HasType(x, inner) && Dec(clock, inner, Enc(clock, inner, x) + rest) == Got(x, rest)
    requires (v == VOk(x) && inner == t.ok) || (v == VErr(x) && inner == t.err) || (v == VSome(x) && inner == t.some)
    ensures Dec(clock, t, Enc(clock, t, v) + rest) == Got(v, rest)
  {
    var b := Enc(clock, inner, x);
    var tag: Byte := if v.VOk? then 0 else 1;
    Behind(tag, b, rest);
  }

  lemma LeafRoundTrip(clock: Clock, t: Ty, v: Val, rest: Bytes)
    requires Lawful(clock) && HasType(v, t) && Fits(v)
    requires v.VUnit? || v.VInt? || v.VText? || v.VTime? || v.VNone? || v.VPassword?
    ensures Dec(clock, t, Enc(clock, t, v) + rest) == Got(v, rest)
  {
    match v
    case VUnit => Behind(0, [], rest);
    case VInt(n) => IntRoundTrip(n, t.width, rest);
    case VText(s) => TextRoundTrip(s, rest);
    case VTime(i) => TextRoundTrip(clock.format(i), rest);
    case VNone => Behind(0, [], rest);
    case VPassword(s) =>
      TextRoundTrip(s, rest);
      Behind(0, EncText(s), rest);
  }

  lemma CountRoundTrip(n: nat, rest: Bytes)
    requires n < U64
    ensures DecInt(8, BigEndian(n % U64, 8) + rest) == Got(n, rest)
  {
    assert n % U64 == n;
    assert n < Pow256(8) by { Widths(); }
    IntRoundTrip(n, 8, rest);
  }

  lemma VecRoundTrip(clock: Clock, elem: Ty, vs: seq<Val>, rest: Bytes)
    requires AllOfType(vs, elem) && |vs| < U64
    requires DecEach(clock, elem, |vs|, EncEach(clock, elem, vs) + rest) == Got(vs, rest)
    ensures Dec(clock, TVec(elem), Enc(clock, TVec(elem), VVec(vs)) + rest) == Got(VVec(vs), rest)
  {
    var each := EncEach(clock, elem, vs);
    CountRoundTrip(|vs|, each + rest);
    Assoc(BigEndian(|vs| % U64, 8), each, rest);
    assert Enc(clock, TVec(elem), VVec(vs)) + rest == BigEndian(|vs| % U64, 8) + (each + rest);
  }

  // Decoding what was encoded, with anything behind it, gives back the value and leaves what was behind it.
  lemma {:induction false} RoundTrip(clock: Clock, t: Ty, v: Val, rest: Bytes)
    requires Lawful(clock) && HasType(v, t) && Fits(v)
    ensures Dec(clock, t, Enc(clock, t, v) + rest) == Got(v, rest)
    decreases v, 0
  {
    match v
    case VOk(x) =>
      RoundTrip(clock, t.ok, x, rest);
      OneTag(clock, t, v, t.ok, x, rest);
    case VErr(x) =>
      RoundTrip(clock, t.err, x, rest);
      OneTag(clock, t, v, t.err, x, rest);
    case VSome(x) =>
      RoundTrip(clock, t.some, x, rest);
      OneTag(clock, t, v, t.some, x, rest);
    case VVec(vs) =>
      RoundTripEach(clock, t.elem, vs, rest);
      VecRoundTrip(clock, t.elem, vs, rest);
    case VStruct(vs) => RoundTripFields(clock, t.fields, vs, rest);
    case _ => LeafRoundTrip(clock, t, v, rest);
  }

  lemma {:induction false} RoundTripEach(clock: Clock, t: Ty, vs: seq<Val>, rest: Bytes)
    requires Lawful(clock) && AllOfType(vs, t) && AllFit(vs)
    ensures DecEach(clock, t, |vs|, EncEach(clock, t, vs) + rest) == Got(vs, rest)
    decreases vs, 1
  {
    if vs == [] {
      Behind(0, [], rest);
    } else {
      var init, last := vs[..|vs| - 1], vs[|vs| - 1];
      var tail := Enc(clock, t, last) + rest;
      RoundTripEach(clock, t, init, tail);
      RoundTrip(clock, t, last, rest);
      Assoc(EncEach(clock, t, init), Enc(clock, t, last), rest);
      Snoc(vs);
    }
  }

  lemma {:induction false} RoundTripFields(clock: Clock, ts: seq<Ty>, vs: seq<Val>, rest: Bytes)
    requires Lawful(clock) && HaveTypes(vs, ts) && AllFit(vs)
    ensures DecFields(clock, ts, EncFields(clock, ts, vs) + rest) == Got(vs, rest)
    decreases vs, 1
  {
    if vs == [] {
      Behind(0, [], rest);
    } else {
      var init, last := vs[..|vs| - 1], vs[|vs| - 1];
      var tail := Enc(clock, ts[|ts| - 1], last) + rest;
      RoundTripFields(clock, ts[..|ts| - 1], init, tail);
      RoundTrip(clock, ts[|ts| - 1], last, rest);
      Assoc(EncFields(clock, ts[..|ts| - 1], init), Enc(clock, ts[|ts| - 1], last), rest);
      Snoc(vs);
    }
  }

  // ---------------------------------------------------------------- what decoding yields

  lemma IntDecoded(w: nat, b: Bytes)
    requires |b| >= w
    ensures FromBigEndian(b[..w]) < Pow256(w) && BigEndian(FromBigEndian(b[..w]), w) + b[w..] == b
  {
    WrittenRead(b[..w]);
    Cut(b, w);
  }

  lemma Cut<T>(b: seq<T>, w: nat)
    requires w <= |b|
    ensures b[..w] + b[w..] == b && |b[..w]| == w
  {
  }

  lemma TextDecoded(b: Bytes)
    requires DecText(b).Got?
    ensures var Got(s, rest) := DecText(b); |s| < U32 && EncText(s) + rest == b
  {
    var n, r := FromBigEndian(b[..4]), b[4..];
    assert n < U32 by { Widths(); IntDecoded(4, b); }
    IntDecoded(4, b);
    assert n % U32 == n;
    Assoc(BigEndian(n, 4), r[..n], r[n..]);
    Cut(r, n);
  }

  lemma CountDecoded(b: Bytes)
    requires DecInt(8, b).Got?
    ensures var Got(n, rest) := DecInt(8, b); n < U64 && BigEndian(n % U64, 8) + rest == b
  {
    var n := FromBigEndian(b[..8]);
    assert n < U64 by { Widths(); IntDecoded(8, b); }
    assert n % U64 == n;
    IntDecoded(8, b);
  }

  // v has the type asked for and fits, and unless it holds a point in time its encoding is the bytes consumed.
  ghost predicate Explains(clock: Clock, t: Ty, b: Bytes, v: Val, rest: Bytes) {
    HasType(v, t) && Fits(v) && (TimeFree(v) ==> Enc(clock, t, v) + rest == b)
  }

  lemma TagDecoded(clock: Clock, t: Ty, b: Bytes, v: Val, inner: Ty, x: Val, rest: Bytes)
    requires b != [] && Explains(clock, inner, b[1..], x, rest)
    requires (t.TResult? && b[0] == 0 && v == VOk(x) && inner == t.ok) ||
             (t.TResult? && b[0] == 1 && v == VErr(x) && inner == t.err) ||
             (t.TOption? && b[0] == 1 && v == VSome(x) && inner == t.some)
    ensures Explains(clock, t, b, v, rest)
  {
    if TimeFree(v) {
      Behind(b[0], Enc(clock, inner, x), rest);
      Assoc([b[0]], Enc(clock, inner, x), rest);
      Headed(b);
    }
  }

  lemma Headed<T>(b: seq<T>)
    requires b != []
    ensures [b[0]] + b[1..] == b
  {
  }

  lemma LeafDecoded(clock: Clock, t: Ty, b: Bytes)
    requires Dec(clock, t, b).Got? && (t.TUnit? || t.TInt? || t.TText? || t.TTime? || t.TAuth?)
    ensures Explains(clock, t, b, Dec(clock, t, b).value, Dec(clock, t, b).rest)
  {
    match t
    case TUnit => Behind(0, [], b);
    case TInt(w) => IntDecoded(w, b);
    case TAuth =>
      TextDecoded(b[1..]);
      var Got(s, rest) := DecText(b[1..]);
      Assoc([0], EncText(s), rest);
      Headed(b);
    case _ => TextDecoded(b);
  }

  // Whatever is decoded is explained by its encoding.
  lemma {:induction false} DecodedSound(clock: Clock, t: Ty, b: Bytes)
    requires Dec(clock, t, b).Got?
    ensures Explains(clock, t, b, Dec(clock, t, b).value, Dec(clock, t, b).rest)
    decreases t, 0, 0
  {
    match t
    case TResult(ok, err) =>
      var inner := if b[0] == 0 then ok else err;
      DecodedSound(clock, inner, b[1..]);
      var Got(x, rest) := Dec(clock, inner, b[1..]);
      TagDecoded(clock, t, b, Dec(clock, t, b).value, inner, x, rest);
    case TOption(some) =>
      if b[0] == 0 {
        Headed(b);
      } else {
        DecodedSound(clock, some, b[1..]);
        var Got(x, rest) := Dec(clock, some, b[1..]);
        TagDecoded(clock, t, b, VSome(x), some, x, rest);
      }
    case TVec(elem) =>
      CountDecoded(b);
      var Got(n, r) := DecInt(8, b);
      EachDecoded(clock, elem, n, r);
      var Got(vs, rest) := DecEach(clock, elem, n, r);
      if AllTimeFree(vs) { Assoc(BigEndian(n % U64, 8), EncEach(clock, elem, vs), rest); }
    case TStruct(ts) => FieldsDecoded(clock, ts, b);
    case _ => LeafDecoded(clock, t, b);
  }

  ghost predicate EachExplained(clock: Clock, t: Ty, b: Bytes, vs: seq<Val>, rest: Bytes) {
    AllOfType(vs, t) && AllFit(vs) && (AllTimeFree(vs) ==> EncEach(clock, t, vs) + rest == b)
  }

  lemma FreeSnoc(init: seq<Val>, x: Val)
    ensures AllTimeFree(init + [x]) <==> AllTimeFree(init) && TimeFree(x)
  {
    var all := init + [x];
    assert all[|init|] == x && forall i :: 0 <= i < |init| ==> all[i] == init[i];
  }

  // One more entry behind those decoded so far.
  lemma EntryExplained(clock: Clock, t: Ty, b: Bytes, init: seq<Val>, r: Bytes, x: Val, rest: Bytes)
    requires EachExplained(clock, t, b, init, r) && Explains(clock, t, r, x, rest)
    ensures EachExplained(clock, t, b, init + [x], rest)
  {
    Front(init, x);
    FreeSnoc(init, x);
    if AllTimeFree(init + [x]) { Assoc(EncEach(clock, t, init), Enc(clock, t, x), rest); }
  }

  lemma {:induction false} EachDecoded(clock: Clock, t: Ty, n: nat, b: Bytes)
    requires DecEach(clock, t, n, b).Got?
    ensures var Got(vs, rest) := DecEach(clock, t, n, b); |vs| == n && EachExplained(clock, t, b, vs, rest)
    decreases t, 1, n
  {
    if n == 0 {
      Behind(0, [], b);
    } else {
      EachDecoded(clock, t, n - 1, b);
      var Got(init, r) := DecEach(clock, t, n - 1, b);
      DecodedSound(clock, t, r);
      var Got(x, rest) := Dec(clock, t, r);
      EntryExplained(clock, t, b, init, r, x, rest);
    }
  }

  // One more field behind those decoded so far.
  lemma TypesSnoc(init: seq<Val>, x: Val, ts: seq<Ty>)
    requires ts != [] && HaveTypes(init, ts[..|ts| - 1]) && HasType(x, ts[|ts| - 1])
    ensures HaveTypes(init + [x], ts)
  {
    var all := init + [x];
    forall i | 0 <= i < |ts| ensures HasType(all[i], ts[i]) {
      if i < |init| { assert all[i] == init[i] && ts[..|ts| - 1][i] == ts[i]; }
    }
  }

  lemma FitsSnoc(init: seq<Val>, x: Val)
    requires AllFit(init) && Fits(x)
    ensures AllFit(init + [x])
  {
    var all := init + [x];
    forall i | 0 <= i < |all| ensures Fits(all[i]) {
      if i < |init| { assert all[i] == init[i]; }
    }
  }

  lemma FieldEncoded(clock: Clock, ts: seq<Ty>, init: seq<Val>, b: Bytes, r: Bytes, x: Val, rest: Bytes)
    requires ts != [] && HaveTypes(init, ts[..|ts| - 1]) && HaveTypes(init + [x], ts) && HasType(x, ts[|ts| - 1])
    requires EncFields(clock, ts[..|ts| - 1], init) + r == b && Enc(clock, ts[|ts| - 1], x) + rest == r
    ensures EncFields(clock, ts, init + [x]) + rest == b
  {
    Front(init, x);
    Assoc(EncFields(clock, ts[..|ts| - 1], init), Enc(clock, ts[|ts| - 1], x), rest);
  }

  ghost predicate FieldsExplained(clock: Clock, ts: seq<Ty>, b: Bytes, vs: seq<Val>, rest: Bytes) {
    HaveTypes(vs, ts) && AllFit(vs) && (AllTimeFree(vs) ==> EncFields(clock, ts, vs) + rest == b)
  }

  lemma FieldExplained(clock: Clock, ts: seq<Ty>, b: Bytes, init: seq<Val>, r: Bytes, x: Val, rest: Bytes)
    requires ts != [] && FieldsExplained(clock, ts[..|ts| - 1], b, init, r)
    requires Explains(clock, ts[|ts| - 1], r, x, rest)
    ensures FieldsExplained(clock, ts, b, init + [x], rest)
  {
    TypesSnoc(init, x, ts);
    FitsSnoc(init, x);
    FreeSnoc(init, x);
    if AllTimeFree(init + [x]) {
      FieldEncoded(clock, ts, init, b, r, x, rest);
    }
  }

  lemma {:induction false} FieldsDecoded(clock: Clock, ts: seq<Ty>, b: Bytes)
    requires DecFields(clock, ts, b).Got?
    ensures FieldsExplained(clock, ts, b, DecFields(clock, ts, b).value, DecFields(clock, ts, b).rest)
    decreases ts, 0, 0
  {
    if ts == [] {
      Behind(0, [], b);
    } else {
      FieldsDecoded(clock, ts[..|ts| - 1], b);
      var Got(init, r) := DecFields(clock, ts[..|ts| - 1], b);
      DecodedSound(clock, ts[|ts| - 1], r);
      var Got(x, rest) := Dec(clock, ts[|ts| - 1], r);
      FieldExplained(clock, ts, b, init, r, x, rest);
    }
  }

  // The round trip succeeds exactly for the values whose lengths fit their length fields.
  lemma RoundTripExact(clock: Clock, t: Ty, v: Val, rest: Bytes)
    requires Lawful(clock) && HasType(v, t)
    ensures Dec(clock, t, Enc(clock, t, v) + rest) == Got(v, rest) <==> Fits(v)
  {
    if Fits(v) { RoundTrip(clock, t, v, rest); }
    var b := Enc(clock, t, v) + rest;
    if Dec(clock, t, b) == Got(v, rest) { DecodedSound(clock, t, b); }
  }

  // ---------------------------------------------------------------- more bytes

  // What further bytes may change: only Short.
  ghost predicate Carries<T(!new)>(d: Decoded<T>, d': Decoded<T>, more: Bytes) {
    (d.Got? ==> d' == Got(d.value, d.rest + more)) && (d.Bad? ==> d'.Bad?)
  }

  lemma IntExtends(w: nat, b: Bytes, more: Bytes)
    ensures Carries(DecInt(w, b), DecInt(w, b + more), more)
  {
    if |b| >= w {
      assert (b + more)[..w] == b[..w] && (b + more)[w..] == b[w..] + more;
    }
  }

  lemma TextExtends(b: Bytes, more: Bytes)
    ensures Carries(DecText(b), DecText(b + more), more)
  {
    IntExtends(4, b, more);
    if DecInt(4, b).Got? {
      var Got(n, r) := DecInt(4, b);
      IntExtends(n, r, more);
      TextBody(n, r, more);
    }
  }

  lemma TextBody(n: nat, r: Bytes, more: Bytes)
    ensures |r| >= n ==> (r + more)[..n] == r[..n] && (r + more)[n..] == r[n..] + more
  {
  }

  lemma TailExtends(b: Bytes, more: Bytes)
    ensures b != [] ==> (b + more)[0] == b[0] && (b + more)[1..] == b[1..] + more
  {
  }

  lemma {:induction false} Extends(clock: Clock, t: Ty, b: Bytes, more: Bytes)
    ensures Carries(Dec(clock, t, b), Dec(clock, t, b + more), more)
    decreases t, 0, 0
  {
    match t
    case TUnit =>
    case TInt(w) => IntExtends(w, b, more);
    case TText => TextExtends(b, more);
    case TTime => TextExtends(b, more);
    case TResult(ok, err) =>
      TailExtends(b, more);
      if b != [] && b[0] == 0 { Extends(clock, ok, b[1..], more); }
      if b != [] && b[0] == 1 { Extends(clock, err, b[1..], more); }
    case TOption(some) =>
      TailExtends(b, more);
      if b != [] && b[0] == 1 { Extends(clock, some, b[1..], more); }
    case TVec(elem) =>
      IntExtends(8, b, more);
      if DecInt(8, b).Got? { EachExtends(clock, elem, DecInt(8, b).value, DecInt(8, b).rest, more); }
    case TStruct(ts) => FieldsExtend(clock, ts, b, more);
    case TAuth =>
      TailExtends(b, more);
      if b != [] { TextExtends(b[1..], more); }
  }

  lemma {:induction false} EachExtends(clock: Clock, t: Ty, n: nat, b: Bytes, more: Bytes)
    ensures Carries(DecEach(clock, t, n, b), DecEach(clock, t, n, b + more), more)
    decreases t, 1, n
  {
    if n > 0 {
      EachExtends(clock, t, n - 1, b, more);
      var before := DecEach(clock, t, n - 1, b);
      if before.Got? { Extends(clock, t, before.rest, more); }
    }
  }

  lemma {:induction false} FieldsExtend(clock: Clock, ts: seq<Ty>, b: Bytes, more: Bytes)
    ensures Carries(DecFields(clock, ts, b), DecFields(clock, ts, b + more), more)
    decreases ts, 0, 0
  {
    if ts != [] {
      FieldsExtend(clock, ts[..|ts| - 1], b, more);
      var before := DecFields(clock, ts[..|ts| - 1], b);
      if before.Got? { Extends(clock, ts[|ts| - 1], before.rest, more); }
    }
  }

}
