/**
 The encrypted frame format: 0x01, a big-endian length, and a sealed payload that starts with the
 message type and length. Sealing is modelled by an ideal cipher keyed by a message counter.
 */
module Noise {
  import opened Bytes
  import opened Codec

  /** Section 3 of the Noise Protocol Framework: a message has at most 65535 bytes. */
  const MAX_FRAME_SIZE: nat := 65535
  /** Section 5.1: the counter value 2^64 - 1 is reserved, so the last usable one is below it. */
  const MAX_NONCE: nat := TWO_64 - 2
  const TAG_SIZE: nat := 16
  const PREAMBLE: byte := 1
  /** The largest payload whose sealed form fits a frame. */
  const MAX_PAYLOAD: nat := MAX_FRAME_SIZE - TAG_SIZE - 4

  datatype Cipher = Cipher(seal: (nat, seq<byte>) -> seq<byte>, unseal: (nat, seq<byte>) -> Option<seq<byte>>)
  {
    /** Sealing adds 16 bytes, and what was sealed at a counter opens at that counter and at no other. */
    ghost predicate Ideal() {
      && (forall n: nat, p: seq<byte> :: |seal(n, p)| == |p| + TAG_SIZE)
      && (forall n: nat, m: nat, p: seq<byte> | n <= MAX_NONCE && m <= MAX_NONCE ::
            unseal(m, seal(n, p)) == if m == n then Some(p) else None)
    }
  }

  datatype NoiseError =
    | HeaderErr(read: ReadError)
    | PlaintextDevice
    | BadPreamble(found: byte)
    | BodyErr(read: ReadError)
    | NonceExhausted
    | DecryptFailed
    | TooShort

  // ----- Frames around a payload -----

  function Header(n: nat): seq<byte> {
    [PREAMBLE] + BE16(n)
  }

  /** The buffers handed to Write for one payload. */
  function Writes(payload: seq<byte>): seq<seq<byte>> {
    [Header(|payload|)] + if payload == [] then [] else [payload]
  }

  function Wrap(payload: seq<byte>): seq<byte> {
    Header(|payload|) + payload
  }

  lemma WritesSpellTheFrame(payload: seq<byte>)
    ensures Flatten(Writes(payload)) == Wrap(payload)
  {
    FlattenOne([], Header(|payload|));
    assert [] + [Header(|payload|)] == [Header(|payload|)];
    if payload != [] {
      FlattenOne([Header(|payload|)], payload);
    }
  }

  function Unwrap(s: seq<byte>, end: ReadError): (p: Parsed<seq<byte>, NoiseError>)
    ensures p.Ok? ==> |p.rest| < |s|
  {
    if |s| < 3 then Err(HeaderErr(Truncated(s, end)), [])
    else if s[0] != PREAMBLE then Err(if s[0] == 0 then PlaintextDevice else BadPreamble(s[0]), s[3..])
    else
      var length := ReadBE16(s[1..3]);
      if |s| - 3 < length then Err(BodyErr(Truncated(s[3..], end)), [])
      else Ok(s[3..3 + length], s[3 + length..])
  }

  /** What io.ReadFull reports when s is all there was. */
  function Truncated(s: seq<byte>, end: ReadError): ReadError {
    if s != [] && end == Eof then UnexpectedEof else end
  }

  lemma WrapRoundTrip(payload: seq<byte>, s: seq<byte>, end: ReadError)
    requires |payload| <= MAX_FRAME_SIZE
    ensures Unwrap(Wrap(payload) + s, end) == Ok(payload, s)
  {
    var all := Wrap(payload) + s;
    assert all[1..3] == BE16(|payload|);
    assert all[3..] == payload + s;
    assert all[3..3 + |payload|] == payload && all[3 + |payload|..] == s;
  }

  /** Byte by byte: the preamble, then the length, high byte first. */
  lemma HeaderBytes(n: nat)
    requires n < 0x1_0000
    ensures Header(n) == [1, (n / 256) as byte, (n % 256) as byte]
  {}

  /** Only a stream that starts with the preamble holds a payload, and its bytes are those after the header. */
  lemma UnwrapBytes(s: seq<byte>, end: ReadError)
    requires Unwrap(s, end).Ok?
    ensures var p := Unwrap(s, end);
            |s| >= 3 && s[0] == 1 && |p.value| == 256 * s[1] as nat + s[2] as nat
            && s == s[..3] + p.value + p.rest
  {
    var length := ReadBE16(s[1..3]);
    assert s[1..3][0] == s[1] && s[1..3][1] == s[2];
    assert s == s[..3] + s[3..3 + length] + s[3 + length..];
  }

  /** A device that speaks the encrypted format is refused by the plain reader at its first byte. */
  lemma EncryptedDeviceIsRefused(payload: seq<byte>, s: seq<byte>, end: ReadError)
    ensures DecodeAll(Wrap(payload) + s, end) == Reading([], InvalidPreamble, (Wrap(payload) + s)[1..])
  {
    assert (Wrap(payload) + s)[0] == 1;
  }

  /** A device that speaks the plain format is named as such by the encrypted reader. */
  lemma PlainDeviceIsRefused(f: Frame, s: seq<byte>, end: ReadError)
    ensures Unwrap(Codec.Encode(f) + s, end) == Err(PlaintextDevice, (Codec.Encode(f) + s)[3..])
  {
    assert (Codec.Encode(f) + s)[0] == 0 && |Codec.Encode(f)| >= 3;
  }

  /** Any other first byte is reported. */
  lemma OtherPreambleIsRefused(s: seq<byte>, end: ReadError)
    requires |s| >= 3 && s[0] != 0 && s[0] != 1
    ensures Unwrap(s, end) == Err(BadPreamble(s[0]), s[3..])
  {}

  /** The error of a frame that breaks off says whether its header was complete. */
  lemma CutOff(payload: seq<byte>, k: nat, end: ReadError)
    requires |payload| <= MAX_FRAME_SIZE && k < |Wrap(payload)|
    ensures Unwrap(Wrap(payload)[..k], end) ==
            if k < 3 then Err(HeaderErr(if k > 0 && end == Eof then UnexpectedEof else end), [])
            else Err(BodyErr(if k > 3 && end == Eof then UnexpectedEof else end), [])
  {
    if k >= 3 {
      assert Wrap(payload)[..k] == Header(|payload|) + payload[..k - 3];
      BodyCutOff(|payload|, payload[..k - 3], end);
    }
  }

  lemma BodyCutOff(n: nat, part: seq<byte>, end: ReadError)
    requires |part| < n <= MAX_FRAME_SIZE
    ensures Unwrap(Header(n) + part, end) == Err(BodyErr(if part != [] && end == Eof then UnexpectedEof else end), [])
  {
    var s := Header(n) + part;
    assert s[1..3] == BE16(n);
    assert s[3..] == part;
  }

  // ----- Messages -----

  /** Type and length are cut to 16 bits. */
  function Plaintext(f: Frame): (p: seq<byte>)
    ensures |p| == 4 + |f.data|
  {
    BE16(f.msgType as nat % TWO_16) + BE16(|f.data| % TWO_16) + f.data
  }

  /** Byte by byte: type, then length, high byte first, then the data. */
  lemma PlaintextBytes(f: Frame)
    ensures var p, t, n := Plaintext(f), f.msgType as nat % 0x1_0000, |f.data| % 0x1_0000;
            && p[0] as nat == t / 256 && p[1] as nat == t % 256
            && p[2] as nat == n / 256 && p[3] as nat == n % 256
            && p[4..] == f.data
  {
    assert Plaintext(f)[4..] == f.data;
  }

  function CutType(f: Frame): Frame {
    f.(msgType := (f.msgType as nat % TWO_16) as uint32)
  }

  /** The message in an opened payload; the length field is ignored. */
  function Parse(p: seq<byte>): Option<Frame> {
    if |p| < 4 then None else Some(Frame(ReadBE16(p[..2]) as uint32, p[4..]))
  }

  lemma ParsePlaintext(f: Frame)
    ensures Parse(Plaintext(f)) == Some(CutType(f))
  {
    assert Plaintext(f)[..2] == BE16(f.msgType as nat % TWO_16);
    assert Plaintext(f)[4..] == f.data;
  }

  /** The next message of the stream for a receiver at counter n, and the counter afterwards. */
  function Receive(c: Cipher, n: nat, s: seq<byte>, end: ReadError): (r: (Parsed<Frame, NoiseError>, nat))
    ensures r.0.Ok? ==> |r.0.rest| < |s|
  {
    match Unwrap(s, end)
    case Err(e, rest) => (Err(e, rest), n)
    case Ok(sealed, rest) =>
      if n > MAX_NONCE then (Err(NonceExhausted, rest), n) else
      match c.unseal(n, sealed)
      case None => (Err(DecryptFailed, rest), n)
      case Some(p) =>
        match Parse(p)
        case None => (Err(TooShort, rest), n + 1)
        case Some(f) => (Ok(f, rest), n + 1)
  }

  /** A frame sealed at counter m is received by a peer at counter n exactly when the two agree. */
  lemma ReceiveSealed(c: Cipher, f: Frame, m: nat, n: nat, s: seq<byte>, end: ReadError)
    requires c.Ideal() && m <= MAX_NONCE && n <= MAX_NONCE && |f.data| <= MAX_PAYLOAD
    ensures Receive(c, n, Wrap(c.seal(m, Plaintext(f))) + s, end) ==
            if m == n then (Ok(CutType(f), s), n + 1) else (Err(DecryptFailed, s), n)
  {
    WrapRoundTrip(c.seal(m, Plaintext(f)), s, end);
    ParsePlaintext(f);
  }

  /** A payload that opens to fewer than four bytes is refused, and has used up the receiver's counter all the same. */
  lemma TooShortIff(c: Cipher, n: nat, p: seq<byte>, s: seq<byte>, end: ReadError)
    requires c.Ideal() && n <= MAX_NONCE && |p| <= MAX_FRAME_SIZE - TAG_SIZE
    ensures Receive(c, n, Wrap(c.seal(n, p)) + s, end) ==
            (if |p| < 4 then Err(TooShort, s)
             else Ok(Frame((256 * p[0] as nat + p[1] as nat) as uint32, p[4..]), s), n + 1)
  {
    WrapRoundTrip(c.seal(n, p), s, end);
  }

  /** A receiver whose counter is used up opens nothing more. */
  lemma ExhaustedReceiver(c: Cipher, n: nat, sealed: seq<byte>, s: seq<byte>, end: ReadError)
    requires n > MAX_NONCE && |sealed| <= MAX_FRAME_SIZE
    ensures Receive(c, n, Wrap(sealed) + s, end) == (Err(NonceExhausted, s), n)
  {
    WrapRoundTrip(sealed, s, end);
  }

  // ----- Whole conversations -----

  /** The payloads of all complete frames, up to the first error. */
  function UnwrapAll(s: seq<byte>, end: ReadError): seq<seq<byte>>
    decreases |s|
  {
    match Unwrap(s, end)
    case Ok(payload, rest) => [payload] + UnwrapAll(rest, end)
    case Err(_, _) => []
  }

  function WrapAll(payloads: seq<seq<byte>>): seq<byte> {
    if payloads == [] then [] else Wrap(payloads[0]) + WrapAll(payloads[1..])
  }

  lemma {:induction false} UnwrapWrapped(payloads: seq<seq<byte>>, end: ReadError)
    requires forall i :: 0 <= i < |payloads| ==> |payloads[i]| <= MAX_FRAME_SIZE
    ensures UnwrapAll(WrapAll(payloads), end) == payloads
  {
    if payloads != [] {
      UnwrapWrapped(payloads[1..], end);
      WrapRoundTrip(payloads[0], WrapAll(payloads[1..]), end);
    }
  }

  /** The messages in the payloads, up to the first that does not open, for a receiver that starts at counter n. */
  function OpenAll(c: Cipher, n: nat, payloads: seq<seq<byte>>): seq<Frame>
    decreases |payloads|
  {
    if payloads == [] || n > MAX_NONCE then [] else
    match c.unseal(n, payloads[0])
    case None => []
    case Some(p) =>
      match Parse(p)
      case None => []
      case Some(f) => [f] + OpenAll(c, n + 1, payloads[1..])
  }

  function SealEach(c: Cipher, n: nat, fs: seq<Frame>): (payloads: seq<seq<byte>>)
    ensures |payloads| == |fs|
    decreases |fs|
  {
    if fs == [] then [] else [c.seal(n, Plaintext(fs[0]))] + SealEach(c, n + 1, fs[1..])
  }

  predicate Sealable(fs: seq<Frame>) {
    forall i :: 0 <= i < |fs| ==> |fs[i].data| <= MAX_PAYLOAD && fs[i].msgType as nat < TWO_16
  }

  lemma {:induction false} OpenSealed(c: Cipher, n: nat, fs: seq<Frame>)
    requires c.Ideal() && Sealable(fs) && n + |fs| <= MAX_NONCE + 1
    ensures OpenAll(c, n, SealEach(c, n, fs)) == fs
    ensures forall i :: 0 <= i < |fs| ==> |SealEach(c, n, fs)[i]| <= MAX_FRAME_SIZE
    decreases |fs|
  {
    if fs != [] {
      var first, others := c.seal(n, Plaintext(fs[0])), SealEach(c, n + 1, fs[1..]);
      OpenSealed(c, n + 1, fs[1..]);
      OpenFirst(c, n, fs[0], others);
      assert SealEach(c, n, fs) == [first] + others && fs == [fs[0]] + fs[1..];
    }
  }

  lemma OpenFirst(c: Cipher, n: nat, f: Frame, others: seq<seq<byte>>)
    requires c.Ideal() && n <= MAX_NONCE && |f.data| <= MAX_PAYLOAD && f.msgType as nat < TWO_16
    ensures OpenAll(c, n, [c.seal(n, Plaintext(f))] + others) == [f] + OpenAll(c, n + 1, others)
    ensures |c.seal(n, Plaintext(f))| <= MAX_FRAME_SIZE
  {
    ParsePlaintext(f);
    assert CutType(f) == f && ([c.seal(n, Plaintext(f))] + others)[1..] == others;
  }

  /** All the messages of a stream up to the first error, and the stream of messages sealed one after the other. */
  function ReceiveAll(c: Cipher, n: nat, s: seq<byte>, end: ReadError): seq<Frame> {
    OpenAll(c, n, UnwrapAll(s, end))
  }

  function SealAll(c: Cipher, n: nat, fs: seq<Frame>): seq<byte> {
    WrapAll(SealEach(c, n, fs))
  }

  /** A peer that starts at the same counter receives exactly these messages. */
  lemma ReceiveAllSealed(c: Cipher, n: nat, fs: seq<Frame>, end: ReadError)
    requires c.Ideal() && Sealable(fs) && n + |fs| <= MAX_NONCE + 1
    ensures ReceiveAll(c, n, SealAll(c, n, fs), end) == fs
  {
    OpenSealed(c, n, fs);
    UnwrapWrapped(SealEach(c, n, fs), end);
  }

  /** One message at a time gives the same. */
  lemma ReceiveAllStep(c: Cipher, n: nat, s: seq<byte>, end: ReadError)
    ensures ReceiveAll(c, n, s, end) ==
            match Receive(c, n, s, end)
            case (Ok(f, rest), next) => [f] + ReceiveAll(c, next, rest, end)
            case (Err(_, _), _) => []
  {
    match Unwrap(s, end)
    case Err(_, _) =>
    case Ok(payload, rest) =>
      var payloads := UnwrapAll(s, end);
      assert payloads[0] == payload && payloads[1..] == UnwrapAll(rest, end);
  }

  // ----- An ideal cipher -----

  /** A cipher with the ideal behaviour: the tag spells the counter. It shows that the model is not empty. */
  function CounterTag(n: nat, bytes: nat): (s: seq<byte>)
    ensures |s| == bytes
  {
    if bytes == 0 then [] else CounterTag(n / 256, bytes - 1) + [(n % 256) as byte]
  }

  function TaggingCipher(): Cipher {
    Cipher(
      (n: nat, p: seq<byte>) => p + CounterTag(n, TAG_SIZE),
      (n: nat, s: seq<byte>) =>
        if |s| >= TAG_SIZE && s[|s| - TAG_SIZE..] == CounterTag(n, TAG_SIZE) then Some(s[..|s| - TAG_SIZE]) else None)
  }

  function Power256(k: nat): nat {
    if k == 0 then 1 else 256 * Power256(k - 1)
  }

  lemma {:induction false} TagInjective(n: nat, m: nat, bytes: nat)
    requires n < Power256(bytes) && m < Power256(bytes) && CounterTag(n, bytes) == CounterTag(m, bytes)
    ensures n == m
  {
    if bytes > 0 {
      var a, b := CounterTag(n, bytes), CounterTag(m, bytes);
      assert a[..bytes - 1] == CounterTag(n / 256, bytes - 1) && b[..bytes - 1] == CounterTag(m / 256, bytes - 1);
      assert a[bytes - 1] == (n % 256) as byte && b[bytes - 1] == (m % 256) as byte;
      TagInjective(n / 256, m / 256, bytes - 1);
    }
  }

  lemma PowerEnough(n: nat)
    requires n <= MAX_NONCE
    ensures n < Power256(TAG_SIZE)
  {
    assert Power256(4) == TWO_32;
    assert Power256(8) == TWO_32 * Power256(4) == TWO_64;
    assert Power256(16) >= TWO_64;
  }

  lemma TagOpens(n: nat, m: nat, p: seq<byte>)
    requires n <= MAX_NONCE && m <= MAX_NONCE
    ensures TaggingCipher().unseal(m, TaggingCipher().seal(n, p)) == if m == n then Some(p) else None
  {
    var s := p + CounterTag(n, TAG_SIZE);
    assert s[|s| - TAG_SIZE..] == CounterTag(n, TAG_SIZE) && s[..|s| - TAG_SIZE] == p;
    if CounterTag(m, TAG_SIZE) == CounterTag(n, TAG_SIZE) {
      PowerEnough(n);
      PowerEnough(m);
      TagInjective(n, m, TAG_SIZE);
    }
  }

  lemma TaggingCipherIsIdeal()
    ensures TaggingCipher().Ideal()
  {
    var c := TaggingCipher();
    forall n: nat, m: nat, p: seq<byte> | n <= MAX_NONCE && m <= MAX_NONCE
      ensures c.unseal(m, c.seal(n, p)) == if m == n then Some(p) else None
    {
      TagOpens(n, m, p);
    }
  }
}
