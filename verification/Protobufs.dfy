/** What the client relies on from the generated protobuf code, and that it can be had. */
module Protobufs {
  import opened Bytes
  import opened Codec
  import opened Messages

  /** The generated code: which types are known, and how their bodies are spelled. */
  datatype Protobuf =
    Protobuf(known: set<uint32>, marshal: Msg -> seq<byte>, unmarshal: (uint32, seq<byte>) -> Option<Msg>)
  {
    /** The factory of a type builds messages of that type. */
    ghost predicate Factories() {
      forall t, bytes | unmarshal(t, bytes).Some? ::
        var m := unmarshal(t, bytes).value; TypeOf(m) == t && Typed(m)
    }

    /** Every message that such a factory can build from the wire is read back from its bytes. */
    ghost predicate RoundTrips() {
      forall m: Msg :: Canonical(m) && TypeOf(m) in known ==> unmarshal(TypeOf(m), marshal(m)) == Some(m)
    }

    function FrameOf(m: Msg): Frame {
      Frame(TypeOf(m), marshal(m))
    }

    function FramesOf(ms: seq<Msg>): seq<Frame> {
      seq(|ms|, i requires 0 <= i < |ms| => FrameOf(ms[i]))
    }

    /** Frames of unknown types are skipped; the first body that cannot be read ends the reading. */
    function Understood(fs: seq<Frame>): seq<Msg> {
      if fs == [] then []
      else if fs[0].msgType !in known then Understood(fs[1..])
      else
        match unmarshal(fs[0].msgType, fs[0].data)
        case None => []
        case Some(m) => [m] + Understood(fs[1..])
    }

    function OfKnownTypes(ms: seq<Msg>): seq<Msg> {
      if ms == [] then [] else (if TypeOf(ms[0]) in known then [ms[0]] else []) + OfKnownTypes(ms[1..])
    }

    /** What is framed is understood, up to types the client does not know. */
    lemma {:induction false} UnderstoodAll(ms: seq<Msg>)
      requires RoundTrips() && forall m <- ms :: Canonical(m)
      ensures Understood(FramesOf(ms)) == OfKnownTypes(ms)
      decreases |ms|
    {
      if ms != [] {
        assert ms[0] in ms && FramesOf(ms)[1..] == FramesOf(ms[1..]);
        UnderstoodAll(ms[1..]);
      }
    }

    /** A body that cannot be read ends the reading: nothing of what follows it is dispatched. */
    lemma {:induction false} UnreadableEnds(fs: seq<Frame>, f: Frame, rest: seq<Frame>)
      requires f.msgType in known && unmarshal(f.msgType, f.data) == None
      ensures Understood(fs + [f] + rest) == Understood(fs)
      decreases |fs|
    {
      var all := fs + [f] + rest;
      if fs != [] {
        assert all[0] == fs[0] && all[1..] == fs[1..] + [f] + rest;
        UnreadableEnds(fs[1..], f, rest);
      }
    }

    /** A frame of an unknown type is as if it had not been sent. */
    lemma {:induction false} UnknownIsSkipped(fs: seq<Frame>, f: Frame, rest: seq<Frame>)
      requires f.msgType !in known
      ensures Understood(fs + [f] + rest) == Understood(fs + rest)
      decreases |fs|
    {
      var all := fs + [f] + rest;
      if fs == [] {
        assert all[1..] == rest && fs + rest == rest;
      } else {
        assert all[0] == fs[0] && all[1..] == fs[1..] + [f] + rest && (fs + rest)[1..] == fs[1..] + rest;
        UnknownIsSkipped(fs[1..], f, rest);
      }
    }

    predicate AllReadable(fs: seq<Frame>) {
      forall i :: 0 <= i < |fs| && fs[i].msgType in known ==> unmarshal(fs[i].msgType, fs[i].data).Some?
    }

    /** A frame of a known type that can be read is one message, if all before it could be read. */
    lemma {:induction false} ReadableIsOneMessage(fs: seq<Frame>, f: Frame, rest: seq<Frame>)
      requires AllReadable(fs) && f.msgType in known && unmarshal(f.msgType, f.data).Some?
      ensures Understood(fs + [f] + rest) ==
              Understood(fs) + [unmarshal(f.msgType, f.data).value] + Understood(rest)
      decreases |fs|
    {
      var all := fs + [f] + rest;
      if fs == [] {
        assert all[1..] == rest;
      } else {
        assert all[0] == fs[0] && all[1..] == fs[1..] + [f] + rest;
        ReadableIsOneMessage(fs[1..], f, rest);
      }
    }
  }

  // ----- A spelling that meets the demands, for any set of known types -----

  function Unary(n: nat): seq<byte> {
    if n == 0 then [0] else [1] + Unary(n - 1)
  }

  lemma {:induction false} UnaryInjective(a: nat, b: nat, s: seq<byte>, t: seq<byte>)
    requires Unary(a) + s == Unary(b) + t
    ensures a == b && s == t
    decreases a
  {
    var left, right := Unary(a) + s, Unary(b) + t;
    assert left[0] == Unary(a)[0] && right[0] == Unary(b)[0];
    if a == 0 {
      assert left[1..] == s && right[1..] == t;
    } else {
      assert left[1..] == Unary(a - 1) + s && right[1..] == Unary(b - 1) + t;
      UnaryInjective(a - 1, b - 1, s, t);
    }
  }

  function Text(x: string): seq<byte> {
    if x == "" then [0] else [1] + (Unary(x[0] as nat) + Text(x[1..]))
  }

  lemma {:induction false} TextInjective(a: string, b: string, s: seq<byte>, t: seq<byte>)
    requires Text(a) + s == Text(b) + t
    ensures a == b && s == t
    decreases |a|
  {
    var left, right := Text(a) + s, Text(b) + t;
    assert left[0] == Text(a)[0] && right[0] == Text(b)[0];
    if a == "" {
      assert left[1..] == s && right[1..] == t;
    } else {
      assert left[1..] == Unary(a[0] as nat) + (Text(a[1..]) + s);
      assert right[1..] == Unary(b[0] as nat) + (Text(b[1..]) + t);
      UnaryInjective(a[0] as nat, b[0] as nat, Text(a[1..]) + s, Text(b[1..]) + t);
      TextInjective(a[1..], b[1..], s, t);
      assert a == [a[0]] + a[1..] && b == [b[0]] + b[1..];
    }
  }

  function Texts(xs: seq<string>): seq<byte> {
    if xs == [] then [0] else [1] + (Text(xs[0]) + Texts(xs[1..]))
  }

  lemma {:induction false} TextsInjective(a: seq<string>, b: seq<string>)
    requires Texts(a) == Texts(b)
    ensures a == b
    decreases |a|
  {
    assert Texts(a)[0] == Texts(b)[0];
    if a != [] {
      assert Texts(a)[1..] == Text(a[0]) + Texts(a[1..]) && Texts(b)[1..] == Text(b[0]) + Texts(b[1..]);
      TextInjective(a[0], b[0], Texts(a[1..]), Texts(b[1..]));
      TextsInjective(a[1..], b[1..]);
      assert a == [a[0]] + a[1..] && b == [b[0]] + b[1..];
    }
  }

  function Number(d: Domain): nat {
    match d
    case Sensor => 0 case BinarySensor => 1 case Cover => 2 case Fan => 3
    case Light => 4 case Switch => 5 case TextSensor => 6 case Camera => 7
    case Climate => 8 case Number => 9 case Select => 10 case Siren => 11
    case Lock => 12 case Button => 13 case MediaPlayer => 14 case WaterHeater => 15
  }

  function Flag(b: bool): byte {
    if b then 1 else 0
  }

  function Spell(m: Msg): seq<byte> {
    match m
    case ListEntity(d, k, name, details) =>
      [0] + (Unary(Number(d)) + (Unary(k as nat) + (Text(name) + Text(details))))
    case ListService(k, name) => [1] + (Unary(k as nat) + Text(name))
    case ListDone => [2]
    case EntityState(d, k, value, missing) =>
      [3, Flag(missing)] + (Unary(Number(d)) + (Unary(k as nat) + Text(value)))
    case CameraImage(k, None, done) => [4, Flag(done)] + Unary(k as nat)
    case CameraImage(k, Some(data), done) => [5, Flag(done)] + (Unary(k as nat) + data)
    case GattServices(a, services) => [6] + (Unary(a) + Texts(services))
    case GattServicesDone(a) => [7] + Unary(a)
    case GattError(a, h, code) =>
      [8, Flag(code < 0)] + (Unary(a) + (Unary(h as nat) + Unary(if code < 0 then -code else code)))
    case GattAnswer(t, a, h, bytes) => [9] + (Unary(t as nat) + (Unary(a) + (Unary(h as nat) + bytes)))
    case Plain(t, body) => [10] + (Unary(t as nat) + Text(body))
  }

  lemma SpellInjective(m: Msg, o: Msg)
    requires Spell(m) == Spell(o)
    ensures m == o
  {
    assert Spell(m)[0] == Spell(o)[0];
    match m
    case ListEntity(_, _, _, _) => ListEntityInjective(m, o);
    case ListService(_, _) => ListServiceInjective(m, o);
    case ListDone =>
    case EntityState(_, _, _, _) => EntityStateInjective(m, o);
    case CameraImage(_, _, _) => CameraImageInjective(m, o);
    case GattServices(_, _) => GattServicesInjective(m, o);
    case GattServicesDone(_) => GattServicesInjective(m, o);
    case GattError(_, _, _) => GattErrorInjective(m, o);
    case GattAnswer(_, _, _, _) => GattAnswerInjective(m, o);
    case Plain(_, _) => PlainInjective(m, o);
  }

  lemma ListEntityInjective(m: Msg, o: Msg)
    requires m.ListEntity? && o.ListEntity? && Spell(m) == Spell(o)
    ensures m == o
  {
    var a := Unary(m.key as nat) + (Text(m.name) + Text(m.details));
    var b := Unary(o.key as nat) + (Text(o.name) + Text(o.details));
    assert Spell(m)[1..] == Unary(Number(m.domain)) + a && Spell(o)[1..] == Unary(Number(o.domain)) + b;
    UnaryInjective(Number(m.domain), Number(o.domain), a, b);
    UnaryInjective(m.key as nat, o.key as nat, Text(m.name) + Text(m.details), Text(o.name) + Text(o.details));
    TextInjective(m.name, o.name, Text(m.details), Text(o.details));
    WholeText(m.details, o.details);
  }

  lemma WholeText(a: string, b: string)
    requires Text(a) == Text(b)
    ensures a == b
  {
    assert Text(a) + [] == Text(b) + [];
    TextInjective(a, b, [], []);
  }

  lemma WholeUnary(a: nat, b: nat)
    requires Unary(a) == Unary(b)
    ensures a == b
  {
    assert Unary(a) + [] == Unary(b) + [];
    UnaryInjective(a, b, [], []);
  }

  lemma ListServiceInjective(m: Msg, o: Msg)
    requires m.ListService? && o.ListService? && Spell(m) == Spell(o)
    ensures m == o
  {
    assert Spell(m)[1..] == Unary(m.key as nat) + Text(m.name) && Spell(o)[1..] == Unary(o.key as nat) + Text(o.name);
    UnaryInjective(m.key as nat, o.key as nat, Text(m.name), Text(o.name));
    WholeText(m.name, o.name);
  }

  lemma EntityStateInjective(m: Msg, o: Msg)
    requires m.EntityState? && o.EntityState? && Spell(m) == Spell(o)
    ensures m == o
  {
    var a, b := Unary(m.key as nat) + Text(m.value), Unary(o.key as nat) + Text(o.value);
    assert Spell(m)[1] == Spell(o)[1];
    assert Spell(m)[2..] == Unary(Number(m.domain)) + a && Spell(o)[2..] == Unary(Number(o.domain)) + b;
    UnaryInjective(Number(m.domain), Number(o.domain), a, b);
    UnaryInjective(m.key as nat, o.key as nat, Text(m.value), Text(o.value));
    WholeText(m.value, o.value);
  }

  lemma CameraImageInjective(m: Msg, o: Msg)
    requires m.CameraImage? && o.CameraImage? && Spell(m) == Spell(o)
    ensures m == o
  {
    assert Spell(m)[0] == Spell(o)[0] && Spell(m)[1] == Spell(o)[1];
    var a, b := if m.data.Some? then m.data.value else [], if o.data.Some? then o.data.value else [];
    assert Spell(m)[2..] == Unary(m.key as nat) + a && Spell(o)[2..] == Unary(o.key as nat) + b;
    UnaryInjective(m.key as nat, o.key as nat, a, b);
  }

  lemma GattServicesInjective(m: Msg, o: Msg)
    requires (m.GattServices? && o.GattServices?) || (m.GattServicesDone? && o.GattServicesDone?)
    requires Spell(m) == Spell(o)
    ensures m == o
  {
    if m.GattServices? {
      assert Spell(m)[1..] == Unary(m.address) + Texts(m.services);
      assert Spell(o)[1..] == Unary(o.address) + Texts(o.services);
      UnaryInjective(m.address, o.address, Texts(m.services), Texts(o.services));
      TextsInjective(m.services, o.services);
    } else {
      assert Spell(m)[1..] == Unary(m.address) && Spell(o)[1..] == Unary(o.address);
      WholeUnary(m.address, o.address);
    }
  }

  lemma GattErrorInjective(m: Msg, o: Msg)
    requires m.GattError? && o.GattError? && Spell(m) == Spell(o)
    ensures m == o
  {
    var x, y := if m.code < 0 then -m.code else m.code, if o.code < 0 then -o.code else o.code;
    assert Spell(m)[1] == Spell(o)[1];
    assert Spell(m)[2..] == Unary(m.address) + (Unary(m.handle as nat) + Unary(x));
    assert Spell(o)[2..] == Unary(o.address) + (Unary(o.handle as nat) + Unary(y));
    UnaryInjective(m.address, o.address, Unary(m.handle as nat) + Unary(x), Unary(o.handle as nat) + Unary(y));
    UnaryInjective(m.handle as nat, o.handle as nat, Unary(x), Unary(y));
    WholeUnary(x, y);
  }

  lemma GattAnswerInjective(m: Msg, o: Msg)
    requires m.GattAnswer? && o.GattAnswer? && Spell(m) == Spell(o)
    ensures m == o
  {
    var a, b := Unary(m.handle as nat) + m.bytes, Unary(o.handle as nat) + o.bytes;
    assert Spell(m)[1..] == Unary(m.msgType as nat) + (Unary(m.address) + a);
    assert Spell(o)[1..] == Unary(o.msgType as nat) + (Unary(o.address) + b);
    UnaryInjective(m.msgType as nat, o.msgType as nat, Unary(m.address) + a, Unary(o.address) + b);
    UnaryInjective(m.address, o.address, a, b);
    UnaryInjective(m.handle as nat, o.handle as nat, m.bytes, o.bytes);
  }

  lemma PlainInjective(m: Msg, o: Msg)
    requires m.Plain? && o.Plain? && Spell(m) == Spell(o)
    ensures m == o
  {
    assert Spell(m)[1..] == Unary(m.msgType as nat) + Text(m.body);
    assert Spell(o)[1..] == Unary(o.msgType as nat) + Text(o.body);
    UnaryInjective(m.msgType as nat, o.msgType as nat, Text(m.body), Text(o.body));
    WholeText(m.body, o.body);
  }

  ghost predicate SpelledBy(m: Msg, t: uint32, bytes: seq<byte>) {
    Canonical(m) && TypeOf(m) == t && Spell(m) == bytes
  }

  ghost function Unspell(t: uint32, bytes: seq<byte>): (m: Option<Msg>)
    ensures m.Some? ==> SpelledBy(m.value, t, bytes)
    ensures m.None? ==> !exists m :: SpelledBy(m, t, bytes)
  {
    if exists m :: SpelledBy(m, t, bytes) then
      var m :| SpelledBy(m, t, bytes);
      Some(m)
    else None
  }

  /** Whatever types are known, there is generated code that the client can rely on. */
  lemma ProtobufExists(known: set<uint32>) returns (pb: Protobuf)
    ensures pb.known == known && pb.Factories() && pb.RoundTrips()
  {
    pb := Protobuf(known, m => Spell(m), (t, bytes) => Unspell(t, bytes));
    forall m: Msg | Canonical(m) && TypeOf(m) in known
      ensures pb.unmarshal(TypeOf(m), pb.marshal(m)) == Some(m)
    {
      assert SpelledBy(m, TypeOf(m), Spell(m));
      SpellInjective(Unspell(TypeOf(m), Spell(m)).value, m);
    }
  }
}
