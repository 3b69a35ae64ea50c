/** The plain frame format: a zero byte, the payload size, the message type, the payload. */
module Codec {
  import opened Bytes
  import Varint

  const MAX_MESSAGE_SIZE: nat := 10 * 1024 * 1024

  datatype Frame = Frame(msgType: uint32, data: seq<byte>)

  datatype FrameError =
    | PreambleErr(read: ReadError)
    | InvalidPreamble
    | SizeErr(varint: Varint.VarintError)
    | MessageTooLarge
    | TypeErr(varint: Varint.VarintError)
    | PayloadErr(read: ReadError)
  {
    /** The input ran out before the frame was complete. */
    predicate Starved() {
      PreambleErr? || PayloadErr? || ((SizeErr? || TypeErr?) && varint.Io?)
    }
  }

  // ----- Writing -----

  /** A length that a Go slice can have. */
  predicate IsLength(n: nat) {
    n < TWO_63
  }

  /** The buffers handed to Write for one frame, one after the other. */
  function Writes(f: Frame): seq<seq<byte>> {
    [[0], Varint.Encode(|f.data|), Varint.Encode(f.msgType as nat)] + if f.data == [] then [] else [f.data]
  }

  function Encode(f: Frame): seq<byte> {
    [0] + (Varint.Encode(|f.data|) + (Varint.Encode(f.msgType as nat) + f.data))
  }

  function EncodeAll(fs: seq<Frame>): seq<byte> {
    if fs == [] then [] else Encode(fs[0]) + EncodeAll(fs[1..])
  }

  lemma WritesSpellTheFrame(f: Frame)
    ensures Flatten(Writes(f)) == Encode(f)
  {
    var size, mType := Varint.Encode(|f.data|), Varint.Encode(f.msgType as nat);
    var tail := if f.data == [] then [] else [f.data];
    FlattenAppend([[0], size, mType], tail);
    assert [[0], size, mType][1..][1..] == [mType] && [size, mType] == [[0], size, mType][1..];
    assert Flatten([mType]) == mType + [] && Flatten([size, mType]) == size + Flatten([mType]);
    assert Flatten(tail) == f.data;
  }

  // ----- Reading -----

  function Decode(s: seq<byte>, end: ReadError): (p: Parsed<Frame, FrameError>)
    ensures p.Ok? ==> |p.rest| < |s|
  {
    if s == [] then Err(PreambleErr(end), [])
    else if s[0] != 0 then Err(InvalidPreamble, s[1..])
    else
      match Varint.Decode(s[1..], 0, end)
      case Err(e, rest) => Err(SizeErr(e), rest)
      case Ok(size, rest) => if size > MAX_MESSAGE_SIZE then Err(MessageTooLarge, rest) else DecodeBody(size, rest, end)
  }

  /** What follows the size: the type, cut to 32 bits, and the payload. */
  function DecodeBody(size: nat, s: seq<byte>, end: ReadError): (p: Parsed<Frame, FrameError>)
    ensures p.Ok? ==> |p.rest| < |s|
  {
    match Varint.Decode(s, 0, end)
    case Err(e, rest) => Err(TypeErr(e), rest)
    case Ok(mType, rest) =>
      if |rest| >= size then Ok(Frame((mType % TWO_32) as uint32, rest[..size]), rest[size..])
      else Err(PayloadErr(if rest != [] && end == Eof then UnexpectedEof else end), [])
  }

  /** The size of the payload buffer that reading the stream makes, whether or not the payload then arrives. */
  function Allocation(s: seq<byte>, end: ReadError): (n: nat)
    ensures n <= MAX_MESSAGE_SIZE
    ensures Decode(s, end).Ok? ==> n == |Decode(s, end).value.data|
  {
    if s == [] || s[0] != 0 then 0
    else
      match Varint.Decode(s[1..], 0, end)
      case Err(_, _) => 0
      case Ok(size, rest) =>
        if size > MAX_MESSAGE_SIZE || Varint.Decode(rest, 0, end).Err? then 0 else size
  }

  /** All the frames up to the first error, that error, and what it left unread. */
  datatype Reading = Reading(frames: seq<Frame>, error: FrameError, rest: seq<byte>)

  function DecodeAll(s: seq<byte>, end: ReadError): Reading
    decreases |s|
  {
    match Decode(s, end)
    case Err(e, rest) => Reading([], e, rest)
    case Ok(f, rest) => var r := DecodeAll(rest, end); r.(frames := [f] + r.frames)
  }

  // ----- Round trip -----

  /** A frame within the size limit is read back exactly, and nothing of what follows it is touched. */
  lemma RoundTrip(f: Frame, s: seq<byte>, end: ReadError)
    requires |f.data| <= MAX_MESSAGE_SIZE
    ensures Decode(Encode(f) + s, end) == Ok(f, s)
  {
    var size, body := Varint.Encode(|f.data|), Varint.Encode(f.msgType as nat) + (f.data + s);
    assert Encode(f) + s == [0] + (size + body) && ([0] + (size + body))[1..] == size + body;
    Varint.RoundTrip(|f.data|, body, end);
    BodyRoundTrip(f, s, end);
  }

  lemma BodyRoundTrip(f: Frame, s: seq<byte>, end: ReadError)
    ensures DecodeBody(|f.data|, Varint.Encode(f.msgType as nat) + (f.data + s), end) == Ok(f, s)
  {
    Varint.RoundTrip(f.msgType as nat, f.data + s, end);
    assert (f.data + s)[..|f.data|] == f.data && (f.data + s)[|f.data|..] == s;
  }

  /** WriteFrame sets no limit, so a longer payload goes out and is refused by the reader. */
  lemma OversizedIsRefused(f: Frame, s: seq<byte>, end: ReadError)
    requires MAX_MESSAGE_SIZE < |f.data| && IsLength(|f.data|)
    ensures Decode(Encode(f) + s, end) == Err(MessageTooLarge, Varint.Encode(f.msgType as nat) + f.data + s)
  {
    var body := Varint.Encode(f.msgType as nat) + f.data + s;
    assert (Encode(f) + s)[1..] == Varint.Encode(|f.data|) + body;
    Varint.RoundTrip(|f.data|, body, end);
  }

  /** A type of more than 32 bits is cut to 32. */
  lemma TypeIsCut(wide: nat, data: seq<byte>, s: seq<byte>, end: ReadError)
    requires wide < TWO_64 && |data| <= MAX_MESSAGE_SIZE
    ensures Decode([0] + (Varint.Encode(|data|) + (Varint.Encode(wide) + (data + s))), end) ==
            Ok(Frame((wide % 0x1_0000_0000) as uint32, data), s)
  {
    var body := Varint.Encode(wide) + (data + s);
    assert ([0] + (Varint.Encode(|data|) + body))[1..] == Varint.Encode(|data|) + body;
    Varint.RoundTrip(|data|, body, end);
    Varint.RoundTrip(wide, data + s, end);
    assert (data + s)[..|data|] == data && (data + s)[|data|..] == s;
  }

  /** Frames come back exactly when they respect the limit. */
  lemma RoundTripIff(f: Frame, s: seq<byte>, end: ReadError)
    requires IsLength(|f.data|)
    ensures Decode(Encode(f) + s, end) == Ok(f, s) <==> |f.data| <= 10_485_760
  {
    if |f.data| <= MAX_MESSAGE_SIZE { RoundTrip(f, s, end); } else { OversizedIsRefused(f, s, end); }
  }

  predicate Sendable(fs: seq<Frame>) {
    forall f <- fs :: |f.data| <= MAX_MESSAGE_SIZE
  }

  /** Two streams that start with frames and agree as bytes agree as frames: no encoding is a prefix of another. */
  lemma PrefixFree(f: Frame, g: Frame, s: seq<byte>, t: seq<byte>)
    requires |f.data| <= MAX_MESSAGE_SIZE && |g.data| <= MAX_MESSAGE_SIZE
    requires Encode(f) + s == Encode(g) + t
    ensures f == g && s == t
  {
    RoundTrip(f, s, Eof);
    RoundTrip(g, t, Eof);
  }

  lemma DecodeAllStep(f: Frame, s: seq<byte>, end: ReadError)
    requires |f.data| <= MAX_MESSAGE_SIZE
    ensures var r := DecodeAll(s, end);
            DecodeAll(Encode(f) + s, end) == Reading([f] + r.frames, r.error, r.rest)
  {
    RoundTrip(f, s, end);
  }

  /** Reading a list of frames followed by anything gives the list, then whatever the rest gives. */
  lemma {:induction false} RoundTripAll(fs: seq<Frame>, s: seq<byte>, end: ReadError)
    requires Sendable(fs)
    ensures var r := DecodeAll(s, end);
            DecodeAll(EncodeAll(fs) + s, end) == Reading(fs + r.frames, r.error, r.rest)
  {
    if fs == [] {
      assert EncodeAll(fs) + s == s && fs + DecodeAll(s, end).frames == DecodeAll(s, end).frames;
    } else {
      RoundTripAll(fs[1..], s, end);
      DecodeAllStep(fs[0], EncodeAll(fs[1..]) + s, end);
      Associate(Encode(fs[0]), EncodeAll(fs[1..]), s);
      Regroup(fs, DecodeAll(s, end).frames);
    }
  }

  lemma UniqueDecoding(fs: seq<Frame>, gs: seq<Frame>)
    requires Sendable(fs) && Sendable(gs)
    requires EncodeAll(fs) == EncodeAll(gs)
    ensures fs == gs
  {
    RoundTripAll(fs, [], Eof);
    RoundTripAll(gs, [], Eof);
    assert EncodeAll(fs) + [] == EncodeAll(fs) && EncodeAll(gs) + [] == EncodeAll(gs);
    assert fs + [] == fs && gs + [] == gs;
  }

  lemma {:induction false} EncodeAllAppend(fs: seq<Frame>, gs: seq<Frame>)
    ensures EncodeAll(fs + gs) == EncodeAll(fs) + EncodeAll(gs)
  {
    if fs == [] {
      assert fs + gs == gs;
    } else {
      assert (fs + gs)[1..] == fs[1..] + gs;
      EncodeAllAppend(fs[1..], gs);
    }
  }

  // ----- What the decoder accepts -----

  /**
   Whatever spelling was accepted, padded varints and types above 32 bits included, the canonical
   spelling of the frame is no longer and means the same; the payload is within the limit.
   */
  lemma NormalForm(s: seq<byte>, end: ReadError)
    requires Decode(s, end).Ok?
    ensures var p := Decode(s, end);
            && s[0] == 0 && |p.value.data| <= MAX_MESSAGE_SIZE
            && |p.rest| < |s| && p.rest == s[|s| - |p.rest|..]
            && |Encode(p.value)| <= |s| - |p.rest|
            && Decode(Encode(p.value) + p.rest, end) == p
  {
    var p := Decode(s, end);
    Varint.Accepted(s[1..], end);
    var afterSize := Varint.Decode(s[1..], 0, end).rest;
    Varint.Accepted(afterSize, end);
    var wide := Varint.Decode(afterSize, 0, end).value;
    Varint.EncodeLengthMonotone(wide % TWO_32, wide);
    RoundTrip(p.value, p.rest, end);
  }

  /** A frame, or a refusal, that is decided on a part of the stream is never revised when more arrives. */
  lemma Extension(s: seq<byte>, more: seq<byte>, end: ReadError)
    ensures match Decode(s, end)
            case Ok(f, rest) => Decode(s + more, end) == Ok(f, rest + more)
            case Err(e, rest) =>
              if e.Starved() then rest == [] else Decode(s + more, end) == Err(e, rest + more)
  {
    if s != [] && s[0] == 0 {
      assert (s + more)[1..] == s[1..] + more;
      Varint.Extension(s[1..], more, 0, end);
      match Varint.Decode(s[1..], 0, end)
      case Err(_, _) =>
      case Ok(size, rest) => if size <= MAX_MESSAGE_SIZE { BodyExtension(size, rest, more, end); }
    } else if s != [] {
      assert (s + more)[1..] == s[1..] + more;
    }
  }

  lemma BodyExtension(size: nat, s: seq<byte>, more: seq<byte>, end: ReadError)
    ensures match DecodeBody(size, s, end)
            case Ok(f, rest) => DecodeBody(size, s + more, end) == Ok(f, rest + more)
            case Err(e, rest) =>
              if e.Starved() then rest == [] else DecodeBody(size, s + more, end) == Err(e, rest + more)
  {
    Varint.Extension(s, more, 0, end);
    match Varint.Decode(s, 0, end)
    case Err(_, _) =>
    case Ok(_, rest) =>
      if |rest| >= size {
        assert (rest + more)[..size] == rest[..size] && (rest + more)[size..] == rest[size..] + more;
      }
  }

  function CutOffError(f: Frame, k: nat, end: ReadError): FrameError {
    var a := 1 + |Varint.Encode(|f.data|)|;
    var b := a + |Varint.Encode(f.msgType as nat)|;
    if k == 0 then PreambleErr(end)
    else if k < a then SizeErr(Varint.Io(if k > 1 && end == Eof then UnexpectedEof else end))
    else if k < b then TypeErr(Varint.Io(if k > a && end == Eof then UnexpectedEof else end))
    else PayloadErr(if k > b && end == Eof then UnexpectedEof else end)
  }

  /**
   The error of a frame that breaks off says in which part it did, and an end of file is an unexpected one exactly
   when the part had begun.
   */
  lemma CutOff(f: Frame, k: nat, end: ReadError)
    requires |f.data| <= MAX_MESSAGE_SIZE && k < |Encode(f)|
    ensures Decode(Encode(f)[..k], end) == Err(CutOffError(f, k, end), [])
  {
    var size, body := Varint.Encode(|f.data|), Varint.Encode(f.msgType as nat) + f.data;
    var s := Encode(f)[..k];
    Varint.RoomAtStart();
    if k > 0 {
      if k < 1 + |size| {
        assert s[1..] == size[..k - 1];
        Varint.CutOff(|f.data|, k - 1, 0, end);
      } else {
        assert s[1..] == size + body[..k - 1 - |size|];
        Varint.RoundTrip(|f.data|, body[..k - 1 - |size|], end);
        BodyCutOff(f, k - 1 - |size|, end);
      }
    }
  }

  lemma BodyCutOff(f: Frame, k: nat, end: ReadError)
    requires k < |Varint.Encode(f.msgType as nat) + f.data|
    ensures var n := |Varint.Encode(f.msgType as nat)|;
            DecodeBody(|f.data|, (Varint.Encode(f.msgType as nat) + f.data)[..k], end) ==
            Err(if k < n then TypeErr(Varint.Io(if k > 0 && end == Eof then UnexpectedEof else end))
                else PayloadErr(if k > n && end == Eof then UnexpectedEof else end), [])
  {
    var mType := Varint.Encode(f.msgType as nat);
    Varint.RoomAtStart();
    if k < |mType| {
      assert (mType + f.data)[..k] == mType[..k];
      Varint.CutOff(f.msgType as nat, k, 0, end);
    } else {
      assert (mType + f.data)[..k] == mType + f.data[..k - |mType|];
      Varint.RoundTrip(f.msgType as nat, f.data[..k - |mType|], end);
    }
  }

  /** A frame that has only partly arrived is neither misread nor refused: the reader waits for more. */
  lemma PartialFrame(f: Frame, k: nat, end: ReadError)
    requires |f.data| <= MAX_MESSAGE_SIZE && k < |Encode(f)|
    ensures var p := Decode(Encode(f)[..k], end); p.Err? && p.error.Starved() && p.rest == []
  {
    var part, more := Encode(f)[..k], Encode(f)[k..];
    assert Encode(f) + [] == Encode(f) == part + more;
    RoundTrip(f, [], end);
    Extension(part, more, end);
  }
}
