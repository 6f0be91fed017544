// Encoding onto a growing stream and decoding off a shrinking one, step by step, as the ProtoSerde
// implementations do; each step is tied to the functions of modules Wire and Protocol.
module ByteStreams {
  import opened Wrappers
  import opened Wire
  import opened Protocol

  class Writer {
    var out: Bytes

    constructor ()
      ensures out == []
    {
      out := [];
    }

    method WriteAll(b: Bytes)
      modifies this
      ensures out == old(out) + b
    {
      out := out + b;
    }

    method WriteText(s: Text)
      modifies this
      ensures out == old(out) + EncText(s)
    {
      WriteAll(BigEndian(|s| % U32, 4));
      WriteAll(s);
    }

    method WriteVal(clock: Clock, t: Ty, v: Val)
      requires HasType(v, t)
      modifies this
      ensures out == old(out) + Enc(clock, t, v)
      decreases v, 0, 1
    {
      match v
      case VUnit => Behind(0, [], out); WriteAll([]);
      case VInt(n) => WriteAll(BigEndian(n, t.width));
      case VText(s) => WriteText(s);
      case VTime(i) => WriteText(clock.format(i));
      case VVec(vs) =>
        Assoc(out, BigEndian(|vs| % U64, 8), EncEach(clock, t.elem, vs));
        WriteAll(BigEndian(|vs| % U64, 8));
        WriteEach(clock, t.elem, vs);
      case VStruct(vs) => WriteFields(clock, t.fields, vs);
      case _ => WriteTagged(clock, t, v);
    }

    // Result, Option and ApiAuth, which begin with one tag byte.
    method WriteTagged(clock: Clock, t: Ty, v: Val)
      requires HasType(v, t) && (v.VOk? || v.VErr? || v.VNone? || v.VSome? || v.VPassword?)
      modifies this
      ensures out == old(out) + Enc(clock, t, v)
      decreases v, 0, 0
    {
      match v
      case VOk(x) =>
        Assoc(out, [0], Enc(clock, t.ok, x));
        WriteAll([0]);
        WriteVal(clock, t.ok, x);
      case VErr(x) =>
        Assoc(out, [1], Enc(clock, t.err, x));
        WriteAll([1]);
        WriteVal(clock, t.err, x);
      case VNone => WriteAll([0]);
      case VSome(x) =>
        Assoc(out, [1], Enc(clock, t.some, x));
        WriteAll([1]);
        WriteVal(clock, t.some, x);
      case VPassword(s) =>
        Assoc(out, [0], EncText(s));
        WriteAll([0]);
        WriteText(s);
    }

    method WriteEach(clock: Clock, t: Ty, vs: seq<Val>)
      requires AllOfType(vs, t)
      modifies this
      ensures out == old(out) + EncEach(clock, t, vs)
      decreases vs, 1
    {
      Behind(0, [], out);
      for i := 0 to |vs|
        invariant AllOfType(vs[..i], t) && out == old(out) + EncEach(clock, t, vs[..i])
      {
        TakeSnoc(vs, i);
        Assoc(old(out), EncEach(clock, t, vs[..i]), Enc(clock, t, vs[i]));
        WriteVal(clock, t, vs[i]);
      }
      TakeFull(vs);
    }

    method WriteFields(clock: Clock, ts: seq<Ty>, vs: seq<Val>)
      requires HaveTypes(vs, ts)
      modifies this
      ensures out == old(out) + EncFields(clock, ts, vs)
      decreases vs, 1
    {
      for i := 0 to |vs|
        invariant HaveTypes(vs[..i], ts[..i]) && out == old(out) + EncFields(clock, ts[..i], vs[..i])
      {
        TakeSnoc(vs, i);
        TakeSnoc(ts, i);
        Assoc(old(out), EncFields(clock, ts[..i], vs[..i]), Enc(clock, ts[i], vs[i]));
        WriteVal(clock, ts[i], vs[i]);
      }
      TakeFull(vs);
      TakeFull(ts);
    }

    // Each declared packet is tried in turn and a counter goes up with every failed match.
    method WritePacket(clock: Clock, p: LapasProtocol)
      modifies this
      ensures out == old(out) + Encode(clock, p)
    {
      FieldsTyped(p);
      var pktTag := 0;
      while pktTag < |PROTOCOL|
        invariant pktTag <= Tag(p) && out == old(out)
      {
        DeclaredAtTag(p, pktTag);
        if DeclaredAt(p, pktTag) {
          WriteAll(BigEndian(pktTag, 4));
          WriteFields(clock, PROTOCOL[pktTag], Fields(p));
          Assoc(old(out), BigEndian(pktTag, 4), EncodeBody(clock, p));
          return;
        }
        pktTag := pktTag + 1;
      }
    }
  }

  // IOError: the stream ended. ProtocolError: the bytes make no sense.
  datatype LapasProtocolError = IOError | ProtocolError

  // A read that follows the decoding d: the value and the rest of the stream, or the error.
  ghost predicate Follows<T(!new)>(d: Decoded<T>, r: Result<T, LapasProtocolError>, left: Bytes) {
    match d
    case Got(v, rest) => r == Ok(v) && left == rest
    case Short => r == Err(IOError)
    case Bad => r == Err(ProtocolError)
  }

  class Reader {
    var left: Bytes

    constructor (b: Bytes)
      ensures left == b
    {
      left := b;
    }

    method ReadInt(w: nat) returns (r: Result<nat, LapasProtocolError>)
      modifies this
      ensures Follows(DecInt(w, old(left)), r, left)
    {
      if |left| < w { return Err(IOError); }
      r := Ok(FromBigEndian(left[..w]));
      left := left[w..];
    }

    method ReadTag() returns (r: Result<Byte, LapasProtocolError>)
      modifies this
      ensures r == if old(left) == [] then Err(IOError) else Ok(old(left)[0])
      ensures r.Ok? ==> left == old(left)[1..]
    {
      if left == [] { return Err(IOError); }
      r := Ok(left[0]);
      left := left[1..];
    }

    method ReadText() returns (r: Result<Text, LapasProtocolError>)
      modifies this
      ensures Follows(DecText(old(left)), r, left)
    {
      var length := ReadInt(4);
      if length.Err? { return Err(length.error); }
      if |left| < length.value { return Err(IOError); }
      var bytes := left[..length.value];
      left := left[length.value..];
      return if ValidUtf8(bytes) then Ok(bytes) else Err(ProtocolError);
    }

    method ReadTime(clock: Clock) returns (r: Result<Val, LapasProtocolError>)
      modifies this
      ensures Follows(Dec(clock, TTime, old(left)), r, left)
    {
      var text := ReadText();
      if text.Err? { return Err(text.error); }
      var instant := clock.parse(text.value);
      return if instant.Some? then Ok(VTime(instant.value)) else Err(ProtocolError);
    }

    method ReadVal(clock: Clock, t: Ty) returns (r: Result<Val, LapasProtocolError>)
      modifies this
      ensures Follows(Dec(clock, t, old(left)), r, left)
      decreases t, 0, 1
    {
      match t
      case TUnit => r := Ok(VUnit);
      case TInt(w) =>
        var n := ReadInt(w);
        r := if n.Ok? then Ok(VInt(n.value)) else Err(n.error);
      case TText =>
        var s := ReadText();
        r := if s.Ok? then Ok(VText(s.value)) else Err(s.error);
      case TTime => r := ReadTime(clock);
      case TVec(elem) =>
        var n := ReadInt(8);
        if n.Err? { return Err(n.error); }
        var vs := ReadEach(clock, elem, n.value);
        r := if vs.Ok? then Ok(VVec(vs.value)) else Err(vs.error);
      case TStruct(ts) =>
        var vs := ReadFields(clock, ts);
        r := if vs.Ok? then Ok(VStruct(vs.value)) else Err(vs.error);
      case _ => r := ReadTagged(clock, t);
    }

    // Result, Option and ApiAuth, which begin with one tag byte.
    method ReadTagged(clock: Clock, t: Ty) returns (r: Result<Val, LapasProtocolError>)
      requires t.TResult? || t.TOption? || t.TAuth?
      modifies this
      ensures Follows(Dec(clock, t, old(left)), r, left)
      decreases t, 0, 0
    {
      var tag := ReadTag();
      if tag.Err? { return Err(tag.error); }
      match t
      case TResult(ok, err) =>
        if tag.value > 1 { return Err(ProtocolError); }
        var x := ReadVal(clock, if tag.value == 0 then ok else err);
        r := if x.Err? then Err(x.error) else Ok(if tag.value == 0 then VOk(x.value) else VErr(x.value));
      case TOption(some) =>
        if tag.value > 1 { return Err(ProtocolError); }
        if tag.value == 0 { return Ok(VNone); }
        var x := ReadVal(clock, some);
        r := if x.Err? then Err(x.error) else Ok(VSome(x.value));
      case TAuth =>
        if tag.value > 0 { return Err(ProtocolError); }
        var s := ReadText();
        r := if s.Err? then Err(s.error) else Ok(VPassword(s.value));
    }

    method ReadEach(clock: Clock, t: Ty, count: nat) returns (r: Result<seq<Val>, LapasProtocolError>)
      modifies this
      ensures Follows(DecEach(clock, t, count, old(left)), r, left)
      decreases t, 1, 0
    {
      var vs := [];
      for i := 0 to count
        invariant DecEach(clock, t, i, old(left)) == Got(vs, left)
      {
        EachFails(clock, t, i + 1, count, old(left));
        var x := ReadVal(clock, t);
        if x.Err? { return Err(x.error); }
        vs := vs + [x.value];
      }
      r := Ok(vs);
    }

    method ReadFields(clock: Clock, ts: seq<Ty>) returns (r: Result<seq<Val>, LapasProtocolError>)
      modifies this
      ensures Follows(DecFields(clock, ts, old(left)), r, left)
      decreases ts, 0, 0
    {
      var vs := [];
      for i := 0 to |ts|
        invariant DecFields(clock, ts[..i], old(left)) == Got(vs, left)
      {
        TakeSnoc(ts, i);
        FieldsFail(clock, ts, i + 1, old(left));
        var x := ReadVal(clock, ts[i]);
        if x.Err? { return Err(x.error); }
        vs := vs + [x.value];
      }
      TakeFull(ts);
      r := Ok(vs);
    }

    // The tag is compared with 0, 1, 2, ... until a packet has it.
    method ReadPacket(clock: Clock) returns (r: Result<LapasProtocol, LapasProtocolError>)
      modifies this
      ensures Follows(Decode(clock, old(left)), r, left)
    {
      var tag := ReadInt(4);
      if tag.Err? { return Err(tag.error); }
      ghost var body := left;
      var pktTag := 0;
      while pktTag < |PROTOCOL|
        invariant pktTag <= |PROTOCOL| && (tag.value < |PROTOCOL| ==> pktTag <= tag.value) && left == body
      {
        if tag.value == pktTag {
          var vs := ReadFields(clock, PROTOCOL[pktTag]);
          r := if vs.Ok? then Ok(FromFields(pktTag, vs.value)) else Err(vs.error);
          return;
        }
        pktTag := pktTag + 1;
      }
      r := Err(ProtocolError);
    }
  }

  // The first failure is the result.
  lemma {:induction false} EachFails(clock: Clock, t: Ty, n: nat, count: nat, b: Bytes)
    requires n <= count
    ensures !DecEach(clock, t, n, b).Got? ==> DecEach(clock, t, count, b) == DecEach(clock, t, n, b)
    decreases count
  {
    if n < count { EachFails(clock, t, n, count - 1, b); }
  }

  lemma {:induction false} FieldsFail(clock: Clock, ts: seq<Ty>, n: nat, b: Bytes)
    requires n <= |ts|
    ensures !DecFields(clock, ts[..n], b).Got? ==> DecFields(clock, ts, b) == DecFields(clock, ts[..n], b)
    decreases |ts|
  {
    if n < |ts| {
      assert ts[..|ts| - 1][..n] == ts[..n];
      FieldsFail(clock, ts[..|ts| - 1], n, b);
    } else {
      assert ts[..n] == ts;
    }
  }
}
