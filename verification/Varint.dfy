/**
 Base 128 varints as encoding/binary writes and reads them: seven bits a byte,
 least significant group first, at most ten bytes, and a tenth byte of at most 1.
 */
module Varint {
  import opened Bytes

  const MAX_VARINT_LEN: nat := 10

  datatype VarintError = Io(error: ReadError) | Overflow

  function Encode(x: nat): (s: seq<byte>)
    ensures |s| >= 1
  {
    if x < 128 then [x as byte] else [(x % 128 + 128) as byte] + Encode(x / 128)
  }

  /** One more than the largest value the bytes from position i on can still contribute. */
  function Room(i: nat): (r: nat)
    requires i < MAX_VARINT_LEN
    ensures r >= 2
    decreases MAX_VARINT_LEN - i
  {
    if i == 9 then 2 else 128 * Room(i + 1)
  }

  lemma RoomAtStart()
    ensures Room(0) == TWO_64
  {
    assert Room(6) == 0x40_0000;
    assert Room(3) == 0x20_0000 * Room(6);
    assert Room(0) == 0x20_0000 * Room(3);
  }

  /** Reads a varint of which i bytes have been read already; the input ends with the given error. */
  function Decode(s: seq<byte>, i: nat, end: ReadError): (p: Parsed<int, VarintError>)
    requires i <= MAX_VARINT_LEN
    ensures p.Ok? ==> |p.rest| < |s| && p.value >= 0
    decreases |s|
  {
    if i == MAX_VARINT_LEN then Err(Overflow, s)
    else if s == [] then Err(Io(if i > 0 && end == Eof then UnexpectedEof else end), [])
    else if s[0] < 128 then
      if i == MAX_VARINT_LEN - 1 && s[0] > 1 then Err(Overflow, s[1..]) else Ok(s[0] as int, s[1..])
    else
      match Decode(s[1..], i + 1, end)
      case Ok(v, rest) => Ok(s[0] as int - 128 + 128 * v, rest)
      case Err(e, rest) => Err(e, rest)
  }

  // ----- What the bytes mean -----

  /** Seven bits a byte, least significant first, whatever the top bits say. */
  function Value(s: seq<byte>): nat {
    if s == [] then 0 else s[0] as nat % 128 + 128 * Value(s[1..])
  }

  /** The top bit is set on every byte but the last. */
  predicate Continued(s: seq<byte>) {
    && s != [] && s[|s| - 1] < 128
    && forall i :: 0 <= i < |s| - 1 ==> s[i] >= 128
  }

  /** The spelling of a number has its bits, says where it ends, and has no byte more than it needs. */
  lemma {:induction false} EncodeMeaning(x: nat)
    ensures Value(Encode(x)) == x && Continued(Encode(x))
    ensures |Encode(x)| > 1 ==> Encode(x)[|Encode(x)| - 1] != 0
  {
    if x < 128 {
      assert Encode(x)[1..] == [];
    } else {
      var low, high := Digits(x);
      EncodeMeaning(high);
      OneMoreByte((low + 128) as byte, Encode(high));
    }
  }

  lemma OneMoreByte(b: byte, s: seq<byte>)
    requires b >= 128 && Continued(s)
    ensures Continued([b] + s) && Value([b] + s) == b as nat % 128 + 128 * Value(s)
    ensures ([b] + s)[|s|] == s[|s| - 1]
  {
    assert ([b] + s)[1..] == s;
  }

  /** The number read has the bits of the bytes consumed, and these end where they say. */
  lemma {:induction false} DecodeMeaning(s: seq<byte>, i: nat, end: ReadError)
    requires i <= MAX_VARINT_LEN && Decode(s, i, end).Ok?
    ensures var p := Decode(s, i, end);
            && |p.rest| < |s| && p.rest == s[|s| - |p.rest|..]
            && Continued(s[..|s| - |p.rest|]) && Value(s[..|s| - |p.rest|]) == p.value
    decreases |s|
  {
    var used := |s| - |Decode(s, i, end).rest|;
    if s[0] < 128 {
      assert s[..used][1..] == [];
    } else {
      DecodeMeaning(s[1..], i + 1, end);
      assert s[..used][1..] == s[1..][..used - 1];
    }
  }

  lemma Digits(x: nat) returns (low: nat, high: nat)
    requires x >= 128
    ensures low < 128 && x == low + 128 * high
    ensures Encode(x) == [(low + 128) as byte] + Encode(high)
  {
    low, high := x % 128, x / 128;
  }

  lemma DecodeContinued(low: nat, s: seq<byte>, i: nat, end: ReadError)
    requires i < MAX_VARINT_LEN && low < 128
    ensures Decode([(low + 128) as byte] + s, i, end) ==
            match Decode(s, i + 1, end)
            case Ok(v, rest) => Ok(low + 128 * v, rest)
            case Err(e, rest) => Err(e, rest)
  {
    assert ([(low + 128) as byte] + s)[1..] == s;
  }

  /** Every 64-bit value survives the round trip, whatever follows it in the stream. */
  lemma {:induction false} RoundTripFrom(x: nat, s: seq<byte>, i: nat, end: ReadError)
    requires i < MAX_VARINT_LEN && x < Room(i)
    ensures Decode(Encode(x) + s, i, end) == Ok(x, s)
    ensures |Encode(x)| <= MAX_VARINT_LEN - i
    decreases MAX_VARINT_LEN - i
  {
    if x < 128 {
      assert (Encode(x) + s)[1..] == s;
    } else {
      var low, high := Digits(x);
      RoundTripFrom(high, s, i + 1, end);
      DecodeContinued(low, Encode(high) + s, i, end);
      Associate([(low + 128) as byte], Encode(high), s);
    }
  }

  lemma RoundTrip(x: nat, s: seq<byte>, end: ReadError)
    requires x < TWO_64
    ensures Decode(Encode(x) + s, 0, end) == Ok(x, s)
    ensures |Encode(x)| <= MAX_VARINT_LEN
  {
    RoomAtStart();
    RoundTripFrom(x, s, 0, end);
  }

  /** A spelling that breaks off is an unexpected end, unless nothing of it was there. */
  lemma {:induction false} CutOff(x: nat, k: nat, i: nat, end: ReadError)
    requires i < MAX_VARINT_LEN && x < Room(i) && k < |Encode(x)|
    ensures Decode(Encode(x)[..k], i, end) == Err(Io(if i + k > 0 && end == Eof then UnexpectedEof else end), [])
    decreases k
  {
    if k > 0 {
      var low, high := Digits(x);
      CutOff(high, k - 1, i + 1, end);
      assert Encode(x)[..k] == [(low + 128) as byte] + Encode(high)[..k - 1];
      DecodeContinued(low, Encode(high)[..k - 1], i, end);
    }
  }

  /** An accepted varint fits 64 bits, and its shortest spelling is no longer than the one that was read. */
  lemma {:induction false} AcceptedFrom(s: seq<byte>, i: nat, end: ReadError)
    requires i <= MAX_VARINT_LEN && Decode(s, i, end).Ok?
    ensures var p := Decode(s, i, end);
            && i < MAX_VARINT_LEN && p.value < Room(i)
            && |p.rest| < |s| && p.rest == s[|s| - |p.rest|..]
            && |Encode(p.value)| <= |s| - |p.rest| <= MAX_VARINT_LEN - i
    decreases MAX_VARINT_LEN - i
  {
    if s[0] < 128 {
    } else {
      AcceptedFrom(s[1..], i + 1, end);
      var p, q := Decode(s, i, end), Decode(s[1..], i + 1, end);
      EncodeContinued(s[0] as int - 128, q.value);
      assert q.rest == s[1..][|s| - 1 - |q.rest|..] == s[|s| - |q.rest|..];
      assert p.value < 128 * Room(i + 1) == Room(i);
    }
  }

  lemma EncodeContinued(low: nat, v: nat)
    requires low < 128
    ensures |Encode(low + 128 * v)| <= 1 + |Encode(v)|
  {
    if v > 0 {
      assert (low + 128 * v) / 128 == v;
    }
  }

  lemma Accepted(s: seq<byte>, end: ReadError)
    requires Decode(s, 0, end).Ok?
    ensures var p := Decode(s, 0, end);
            && p.value < TWO_64
            && |p.rest| < |s| && p.rest == s[|s| - |p.rest|..]
            && |Encode(p.value)| <= |s| - |p.rest| <= MAX_VARINT_LEN
  {
    RoomAtStart();
    AcceptedFrom(s, 0, end);
  }

  /** What was decided on a part of the stream is never revised when more of it arrives. */
  lemma {:induction false} Extension(s: seq<byte>, more: seq<byte>, i: nat, end: ReadError)
    requires i <= MAX_VARINT_LEN
    ensures match Decode(s, i, end)
            case Ok(v, rest) => Decode(s + more, i, end) == Ok(v, rest + more)
            case Err(Overflow, rest) => Decode(s + more, i, end) == Err(Overflow, rest + more)
            case Err(Io(e), rest) => rest == [] && (e == end || e == UnexpectedEof)
    decreases MAX_VARINT_LEN - i
  {
    if i < MAX_VARINT_LEN && s != [] {
      assert (s + more)[1..] == s[1..] + more;
      Extension(s[1..], more, i + 1, end);
    }
  }

  lemma {:induction false} EncodeLengthMonotone(x: nat, y: nat)
    requires x <= y
    ensures |Encode(x)| <= |Encode(y)|
  {
    if x >= 128 {
      EncodeLengthMonotone(x / 128, y / 128);
    }
  }
}
