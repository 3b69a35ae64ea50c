/** The encrypted transport as code: the handshake that sets it up, then sealed frames in both directions. */
module NoiseIO {
  import opened Bytes
  import opened Codec
  import opened Noise
  import opened Streams
  import CodecIO

  class CipherState {
    const c: Cipher
    var n: nat

    constructor (c: Cipher)
      ensures this.c == c && n == 0
    {
      this.c, n := c, 0;
    }

    /** The counter moves on with every success. */
    method Encrypt(plaintext: seq<byte>) returns (sealed: Option<seq<byte>>)
      modifies this
      ensures old(n) > 0xFFFF_FFFF_FFFF_FFFE ==> sealed == None && n == old(n)
      ensures old(n) <= 0xFFFF_FFFF_FFFF_FFFE ==> sealed == Some(c.seal(old(n), plaintext)) && n == old(n) + 1
    {
      if n > MAX_NONCE { return None; }
      sealed, n := Some(c.seal(n, plaintext)), n + 1;
    }

    /** A failed attempt leaves the counter alone. */
    method Decrypt(sealed: seq<byte>) returns (plaintext: Option<seq<byte>>)
      modifies this
      ensures old(n) > 0xFFFF_FFFF_FFFF_FFFE ==> plaintext == None && n == old(n)
      ensures old(n) <= 0xFFFF_FFFF_FFFF_FFFE ==>
                plaintext == c.unseal(old(n), sealed) && n == old(n) + if plaintext.Some? then 1 else 0
    {
      if n > MAX_NONCE { return None; }
      plaintext := c.unseal(n, sealed);
      if plaintext.Some? { n := n + 1; }
    }
  }

  datatype WriteResult = Written | TooLarge | WriteFailed | EncryptFailed

  // ----- Handshake -----

  datatype HandshakeError =
    | SendFailed
    | HelloUnread(error: NoiseError)
    | HelloEmpty
    | UnsupportedProtocol(found: byte)
    | NameMismatch(name: seq<byte>)
    | ResponseUnread(error: NoiseError)
    | ResponseEmpty
    | InvalidKey
    | Rejected(explanation: seq<byte>)
    | ResponseInvalid

  datatype ServerInfo = ServerInfo(name: seq<byte>, mac: seq<byte>)

  /** Position of the first zero byte. */
  function IndexOfZero(s: seq<byte>): (i: Option<nat>)
    ensures i.Some? ==> i.value < |s| && s[i.value] == 0 && 0 !in s[..i.value]
    ensures i == None ==> 0 !in s
  {
    if s == [] then None
    else if s[0] == 0 then Some(0)
    else
      match IndexOfZero(s[1..])
      case None => None
      case Some(i) => assert s[..i + 1] == [s[0]] + s[1..][..i]; Some(i + 1)
  }

  /** Name and address from a hello; what is not there keeps the value it had. */
  function ParseHello(hello: seq<byte>, expectedName: seq<byte>, before: ServerInfo)
    : (ServerInfo, Option<HandshakeError>)
  {
    if hello == [] then (before, Some(HelloEmpty))
    else if hello[0] != 1 then (before, Some(UnsupportedProtocol(hello[0])))
    else
      match IndexOfZero(hello[1..])
      case None => (before, None)
      case Some(nameEnd) =>
        var name := hello[1..1 + nameEnd];
        var macStart := 1 + nameEnd + 1;
        if expectedName != [] && name != expectedName then (before.(name := name), Some(NameMismatch(name)))
        else
          match IndexOfZero(hello[macStart..])
          case None => (before.(name := name), None)
          case Some(macEnd) => (ServerInfo(name, hello[macStart..macStart + macEnd]), None)
  }

  lemma {:induction false} FirstZero(s: seq<byte>, t: seq<byte>)
    requires 0 !in s
    ensures IndexOfZero(s + [0] + t) == Some(|s|)
  {
    var all := s + [0] + t;
    if s != [] {
      assert all[1..] == s[1..] + [0] + t;
      assert s[0] in s;
      FirstZero(s[1..], t);
    }
  }

  /** A hello that spells a name and an address gives back exactly these, whatever follows. */
  lemma HelloRoundTrip(name: seq<byte>, mac: seq<byte>, junk: seq<byte>, expectedName: seq<byte>, before: ServerInfo)
    requires 0 !in name && 0 !in mac
    ensures ParseHello([1] + (name + [0] + (mac + [0] + junk)), expectedName, before) ==
            if expectedName == [] || expectedName == name then (ServerInfo(name, mac), None)
            else (before.(name := name), Some(NameMismatch(name)))
  {
    ParseNamed(name, mac + [0] + junk, expectedName, before);
    FirstZero(mac, junk);
    assert (mac + [0] + junk)[..|mac|] == mac;
  }

  lemma ParseNamed(name: seq<byte>, tail: seq<byte>, expectedName: seq<byte>, before: ServerInfo)
    requires 0 !in name
    ensures ParseHello([1] + (name + [0] + tail), expectedName, before) ==
            if expectedName != [] && expectedName != name then (before.(name := name), Some(NameMismatch(name)))
            else
              match IndexOfZero(tail)
              case None => (before.(name := name), None)
              case Some(macEnd) => (ServerInfo(name, tail[..macEnd]), None)
  {
    HelloLayout(name, tail);
    FirstZero(name, tail);
    ParseLaidOut([1] + (name + [0] + tail), name, tail, expectedName, before);
  }

  lemma ParseLaidOut(hello: seq<byte>, name: seq<byte>, tail: seq<byte>, expectedName: seq<byte>, before: ServerInfo)
    requires |hello| == 2 + |name| + |tail| && hello[0] == 1
    requires IndexOfZero(hello[1..]) == Some(|name|)
    requires hello[1..1 + |name|] == name && hello[1 + |name| + 1..] == tail
    ensures ParseHello(hello, expectedName, before) ==
            if expectedName != [] && expectedName != name then (before.(name := name), Some(NameMismatch(name)))
            else
              match IndexOfZero(tail)
              case None => (before.(name := name), None)
              case Some(macEnd) => (ServerInfo(name, tail[..macEnd]), None)
  {
    if IndexOfZero(tail).Some? {
      SliceOfDrop(hello, 1 + |name| + 1, IndexOfZero(tail).value);
    }
  }

  lemma SliceOfDrop(s: seq<byte>, from: nat, n: nat)
    requires from + n <= |s|
    ensures s[from..from + n] == s[from..][..n]
  {}

  lemma HelloLayout(name: seq<byte>, tail: seq<byte>)
    ensures var hello := [1 as byte] + (name + [0] + tail);
            hello[1..] == name + [0] + tail && hello[1..1 + |name|] == name && hello[1 + |name| + 1..] == tail
  {}

  /**
   The expected name is not enforced in every accepted hello: a hello without a zero byte names
   nobody and is accepted. It is enforced exactly when the hello does contain one.
   */
  lemma AcceptedHello(hello: seq<byte>, expectedName: seq<byte>, before: ServerInfo)
    requires expectedName != []
    ensures var (info, err) := ParseHello(hello, expectedName, before);
            err == None <==>
              && hello != [] && hello[0] == 1
              && (0 in hello[1..] ==> expectedName + [0] <= hello[1..] && 0 !in expectedName)
  {
    if hello != [] && hello[0] == 1 && 0 in hello[1..] {
      NamedBy(hello[1..], expectedName);
      SliceOfOne(hello, IndexOfZero(hello[1..]).value);
    }
  }

  /** The name is what comes before the first zero byte. */
  lemma NamedBy(s: seq<byte>, name: seq<byte>)
    requires 0 in s
    ensures IndexOfZero(s).Some?
    ensures s[..IndexOfZero(s).value] == name <==> 0 !in name && name + [0] <= s
  {
    var n := IndexOfZero(s).value;
    assert s[..n] + [0] <= s;
    if 0 !in name && name + [0] <= s {
      assert s == name + [0] + s[|name| + 1..];
      FirstZero(name, s[|name| + 1..]);
    }
  }

  lemma SliceOfOne(s: seq<byte>, n: nat)
    requires n < |s|
    ensures s[1..1 + n] == s[1..][..n]
  {}

  lemma NamelessHelloIsAccepted(before: ServerInfo)
    ensures ParseHello([1], [65], before) == (before, None)
  {}

  /** The Noise library during the handshake: the message it sends, and the keys it derives from the answer. */
  datatype Handshaker = Handshaker(message: seq<byte>, finish: seq<byte> -> Option<(Cipher, Cipher)>)

  const CLIENT_HELLO: seq<byte> := [1, 0, 0]
  /** "Handshake MAC failure" */
  const MAC_FAILURE: seq<byte> :=
    [72, 97, 110, 100, 115, 104, 97, 107, 101, 32, 77, 65, 67, 32, 102, 97, 105, 108, 117, 114, 101]

  datatype Negotiation = Negotiation(info: ServerInfo, result: Parsed<(Cipher, Cipher), HandshakeError>)

  /** The server's two frames: its hello, and its answer to the handshake message. */
  function Negotiate(s: seq<byte>, expectedName: seq<byte>, before: ServerInfo, hs: Handshaker, end: ReadError)
    : Negotiation
  {
    match Unwrap(s, end)
    case Err(e, rest) => Negotiation(before, Err(HelloUnread(e), rest))
    case Ok(hello, rest) =>
      match ParseHello(hello, expectedName, before)
      case (info, Some(e)) => Negotiation(info, Err(e, rest))
      case (info, None) =>
        match Unwrap(rest, end)
        case Err(e, rest) => Negotiation(info, Err(ResponseUnread(e), rest))
        case Ok(response, rest) => Negotiation(info, Answer(response, rest, hs))
  }

  function Answer(response: seq<byte>, rest: seq<byte>, hs: Handshaker): Parsed<(Cipher, Cipher), HandshakeError> {
    if response == [] then Err(ResponseEmpty, rest)
    else if response[0] != 0 then
      Err(if response[1..] == MAC_FAILURE then InvalidKey else Rejected(response[1..]), rest)
    else
      match hs.finish(response[1..])
      case None => Err(ResponseInvalid, rest)
      case Some(keys) => Ok(keys, rest)
  }

  /**
   A server that names itself, or is not expected to have a certain name, and completes the handshake is
   accepted; the bytes after its answer are left for the first sealed frame.
   */
  lemma {:induction false} HandshakeRoundTrip(info: ServerInfo, junk: seq<byte>, answer: seq<byte>, s: seq<byte>,
                           expectedName: seq<byte>, before: ServerInfo, hs: Handshaker, end: ReadError)
    requires 0 !in info.name && 0 !in info.mac && (expectedName == [] || expectedName == info.name)
    requires |info.name| + |info.mac| + |junk| + 3 <= MAX_FRAME_SIZE && |answer| < MAX_FRAME_SIZE
    requires hs.finish(answer).Some?
    ensures var hello := [1] + (info.name + [0] + (info.mac + [0] + junk));
            Negotiate(Wrap(hello) + (Wrap([0] + answer) + s), expectedName, before, hs, end) ==
            Negotiation(info, Ok(hs.finish(answer).value, s))
  {
    var hello := [1] + (info.name + [0] + (info.mac + [0] + junk));
    WrapRoundTrip(hello, Wrap([0] + answer) + s, end);
    HelloRoundTrip(info.name, info.mac, junk, expectedName, before);
    WrapRoundTrip([0] + answer, s, end);
    assert ([0] + answer)[1..] == answer;
  }

  function Ascii(text: string): seq<byte> {
    seq(|text|, i requires 0 <= i < |text| => if text[i] as int < 128 then (text[i] as int) as byte else 63)
  }

  lemma MacFailureSpelled()
    ensures MAC_FAILURE == Ascii("Handshake MAC failure")
  {}

  /** An answer whose first byte is not zero yields no keys; one explanation means that the key is wrong. */
  lemma RejectedAnswer(response: seq<byte>, rest: seq<byte>, hs: Handshaker)
    requires response != [] && response[0] != 0
    ensures Answer(response, rest, hs) ==
            Err(if response[1..] == Ascii("Handshake MAC failure") then InvalidKey else Rejected(response[1..]), rest)
  {
    MacFailureSpelled();
  }

  /** What is wrong with a hello or an answer, and that it changes neither name nor address. */
  lemma HandshakeErrors(hello: seq<byte>, expectedName: seq<byte>, before: ServerInfo, hs: Handshaker)
    ensures ParseHello([], expectedName, before) == (before, Some(HelloEmpty))
    ensures hello != [] && hello[0] != 1 ==>
              ParseHello(hello, expectedName, before) == (before, Some(UnsupportedProtocol(hello[0])))
    ensures Answer([], [], hs) == Err(ResponseEmpty, [])
    ensures hello != [] && hello[0] == 0 && hs.finish(hello[1..]) == None ==>
              Answer(hello, [], hs) == Err(ResponseInvalid, [])
  {}

  predicate HelloAccepted(hello: seq<byte>, expectedName: seq<byte>) {
    && hello != [] && hello[0] == 1
    && (expectedName != [] && 0 in hello[1..] ==> expectedName + [0] <= hello[1..] && 0 !in expectedName)
  }

  /**
   Keys are derived exactly when a hello comes that is accepted, then an answer that starts with a zero byte and
   with which the library can finish.
   */
  lemma KeysIff(s: seq<byte>, expectedName: seq<byte>, before: ServerInfo, hs: Handshaker, end: ReadError)
    ensures Negotiate(s, expectedName, before, hs, end).result.Ok? <==>
              var first := Unwrap(s, end);
              && first.Ok? && HelloAccepted(first.value, expectedName)
              && var second := Unwrap(first.rest, end);
                 second.Ok? && second.value != [] && second.value[0] == 0 && hs.finish(second.value[1..]).Some?
  {
    var first := Unwrap(s, end);
    if first.Ok? {
      HelloOutcome(first.value, expectedName, before);
    }
  }

  lemma HelloOutcome(hello: seq<byte>, expectedName: seq<byte>, before: ServerInfo)
    ensures ParseHello(hello, expectedName, before).1 == None <==> HelloAccepted(hello, expectedName)
  {
    if expectedName != [] { AcceptedHello(hello, expectedName, before); }
  }

  /** What goes out first, byte by byte: an empty frame, then the handshake message with a zero byte before it. */
  lemma GreetingBytes(hs: Handshaker)
    requires |hs.message| < MAX_FRAME_SIZE
    ensures var n := |hs.message| + 1;
            Flatten(Greeting(hs)) == [1, 0, 0] + [1, (n / 256) as byte, (n % 256) as byte] + ([0] + hs.message)
  {
    var frame := Noise.Writes([0] + hs.message);
    HeaderBytes(|hs.message| + 1);
    Noise.WritesSpellTheFrame([0] + hs.message);
    FlattenAppend([CLIENT_HELLO], frame);
    FlattenOne([], CLIENT_HELLO);
    assert [] + [CLIENT_HELLO] == [CLIENT_HELLO];
    assert [] + CLIENT_HELLO == CLIENT_HELLO;
  }

  /** The buffers written before anything is read: the second frame is left out when it is too large. */
  function Greeting(hs: Handshaker): seq<seq<byte>> {
    [CLIENT_HELLO] + if |hs.message| < MAX_FRAME_SIZE then Noise.Writes([0] + hs.message) else []
  }

  predicate CanGreet(hs: Handshaker, budget: nat) {
    |hs.message| < MAX_FRAME_SIZE && 7 + |hs.message| <= budget
  }

  lemma GreetingSent(hs: Handshaker, budget: nat)
    requires CanGreet(hs, budget)
    ensures Sent(Greeting(hs), budget) == Greeting(hs)
  {
    var rest := Noise.Writes([0] + hs.message);
    Noise.WritesSpellTheFrame([0] + hs.message);
    FlattenAppend([CLIENT_HELLO], rest);
    FlattenOne([], CLIENT_HELLO);
    assert [] + [CLIENT_HELLO] == [CLIENT_HELLO];
    SentIsPrefix(Greeting(hs), budget);
  }

  // ----- Transport -----

  class NoiseTransport {
    const w: Conn
    const r: Stream
    var encryptCS: CipherState?
    var decryptCS: CipherState?
    var serverName: seq<byte>
    var serverMAC: seq<byte>

    constructor (w: Conn, r: Stream)
      ensures this.w == w && this.r == r && encryptCS == null && decryptCS == null
      ensures serverName == [] && serverMAC == []
    {
      this.w, this.r, encryptCS, decryptCS, serverName, serverMAC := w, r, null, null, [], [];
    }

    method WriteNoiseFrame(payload: seq<byte>) returns (result: WriteResult)
      modifies w
      ensures |payload| > 65535 ==> result == TooLarge && w.calls == old(w.calls) && w.budget == old(w.budget)
      ensures |payload| <= 65535 ==>
                && result == (if |Wrap(payload)| <= old(w.budget) then Written else WriteFailed)
                && w.calls == old(w.calls) + Sent(Noise.Writes(payload), old(w.budget))
                && (result == Written ==> w.budget == old(w.budget) - |Wrap(payload)|)
    {
      if |payload| > MAX_FRAME_SIZE { return TooLarge; }
      ghost var writes := Noise.Writes(payload);
      SentStep(w.calls, writes, w.budget);
      var ok := w.Write(Header(|payload|));
      if !ok { return WriteFailed; }
      assert writes[1..] == if payload == [] then [] else [payload];
      if |payload| > 0 {
        SentStep(w.calls, writes[1..], w.budget);
        ok := w.Write(payload);
        if !ok { return WriteFailed; }
      }
      result := Written;
    }

    method ReadNoiseFrame() returns (payload: seq<byte>, err: Option<NoiseError>)
      requires r.Valid()
      modifies r
      ensures r.Valid()
      ensures match Unwrap(old(r.Unread()), r.end)
              case Ok(p, rest) => payload == p && err == None && r.Unread() == rest
              case Err(e, rest) => err == Some(e) && r.Unread() == rest
    {
      ghost var s := r.Unread();
      var header := new byte[3];
      var readErr := CodecIO.ReadFull(r, header);
      if readErr != None { return [], Some(HeaderErr(readErr.value)); }
      assert header[..][0] == s[0] && header[..][1..3] == s[1..3];
      if header[0] != PREAMBLE {
        return [], Some(if header[0] == 0 then PlaintextDevice else BadPreamble(header[0]));
      }
      var length := ReadBE16(header[1..3]);
      if length == 0 { return [], None; }
      if length > MAX_FRAME_SIZE { assert false; }
      var data := new byte[length];
      readErr := CodecIO.ReadFull(r, data);
      if readErr != None { return [], Some(BodyErr(readErr.value)); }
      payload, err := data[..], None;
    }

    /** Encrypts before it checks the size, so a refused message has used up a counter value. */
    method WriteFrame(f: Frame) returns (result: WriteResult)
      requires encryptCS != null
      modifies encryptCS, w
      ensures old(encryptCS.n) > MAX_NONCE ==>
                result == EncryptFailed && encryptCS.n == old(encryptCS.n) && w.calls == old(w.calls)
      ensures old(encryptCS.n) <= MAX_NONCE ==>
                var sealed := encryptCS.c.seal(old(encryptCS.n), Plaintext(f));
                && encryptCS.n == old(encryptCS.n) + 1
                && (result == TooLarge <==> |sealed| > MAX_FRAME_SIZE)
                && (result == Written <==> |sealed| <= MAX_FRAME_SIZE && |Wrap(sealed)| <= old(w.budget))
                && w.calls == old(w.calls) +
                   if |sealed| > MAX_FRAME_SIZE then [] else Sent(Noise.Writes(sealed), old(w.budget))
    {
      var n := |f.data|;
      var plaintext := new byte[4 + n];
      var mType, length := BE16(f.msgType as nat % TWO_16), BE16(n % TWO_16);
      plaintext[0], plaintext[1], plaintext[2], plaintext[3] := mType[0], mType[1], length[0], length[1];
      forall i | 0 <= i < n {
        plaintext[4 + i] := f.data[i];
      }
      assert plaintext[..] == Plaintext(f);
      var sealed := encryptCS.Encrypt(plaintext[..]);
      if sealed == None { return EncryptFailed; }
      result := WriteNoiseFrame(sealed.value);
    }

    method ReadFrame() returns (f: Option<Frame>, err: Option<NoiseError>)
      requires r.Valid() && decryptCS != null
      modifies r, decryptCS
      ensures r.Valid()
      ensures var (p, n) := Receive(decryptCS.c, old(decryptCS.n), old(r.Unread()), r.end);
              && decryptCS.n == n && r.Unread() == p.rest
              && (if p.Ok? then f == Some(p.value) && err == None else f == None && err == Some(p.error))
    {
      var sealed, frameErr := ReadNoiseFrame();
      if frameErr != None { return None, frameErr; }
      var exhausted := decryptCS.n > MAX_NONCE;
      var plaintext := decryptCS.Decrypt(sealed);
      if plaintext == None {
        return None, Some(if exhausted then NonceExhausted else DecryptFailed);
      }
      f := Parse(plaintext.value);
      err := if f == None then Some(TooShort) else None;
    }

    /** Steps 1 and 2 of the handshake: the client hello and the handshake message. */
    method SendGreeting(hs: Handshaker) returns (ok: bool)
      modifies w
      ensures ok == CanGreet(hs, old(w.budget))
      ensures w.calls == old(w.calls) + Sent(Greeting(hs), old(w.budget))
      ensures ok ==> Sent(Greeting(hs), old(w.budget)) == [CLIENT_HELLO] + Noise.Writes([0] + hs.message)
    {
      SentStep(w.calls, Greeting(hs), w.budget);
      if CanGreet(hs, w.budget) { GreetingSent(hs, w.budget); }
      assert Greeting(hs)[1..] == if |hs.message| < MAX_FRAME_SIZE then Noise.Writes([0] + hs.message) else [];
      ok := w.Write(CLIENT_HELLO);
      if !ok { return; }
      var result := WriteNoiseFrame([0] + hs.message);
      ok := result == Written;
    }

    /** Step 3: the server hello. */
    method ReadServerHello(expectedName: seq<byte>) returns (err: Option<HandshakeError>)
      requires r.Valid()
      modifies r, `serverName, `serverMAC
      ensures r.Valid()
      ensures match Unwrap(old(r.Unread()), r.end)
              case Err(e, rest) =>
                err == Some(HelloUnread(e)) && r.Unread() == rest
                && serverName == old(serverName) && serverMAC == old(serverMAC)
              case Ok(hello, rest) =>
                r.Unread() == rest
                && ParseHello(hello, expectedName, ServerInfo(old(serverName), old(serverMAC))) ==
                   (ServerInfo(serverName, serverMAC), err)
    {
      var hello, frameErr := ReadNoiseFrame();
      if frameErr != None { return Some(HelloUnread(frameErr.value)); }
      err := TakeHello(hello, expectedName);
    }

    method TakeHello(hello: seq<byte>, expectedName: seq<byte>) returns (err: Option<HandshakeError>)
      modifies `serverName, `serverMAC
      ensures ParseHello(hello, expectedName, ServerInfo(old(serverName), old(serverMAC))) ==
              (ServerInfo(serverName, serverMAC), err)
    {
      if |hello| == 0 { return Some(HelloEmpty); }
      if hello[0] != 1 { return Some(UnsupportedProtocol(hello[0])); }
      var nameEnd := IndexOfZero(hello[1..]);
      if nameEnd != None {
        serverName := hello[1..1 + nameEnd.value];
        if expectedName != [] && serverName != expectedName { return Some(NameMismatch(serverName)); }
        var macStart := 1 + nameEnd.value + 1;
        var macEnd := IndexOfZero(hello[macStart..]);
        if macEnd != None {
          serverMAC := hello[macStart..macStart + macEnd.value];
        }
      }
      err := None;
    }

    /** Step 4: the server's answer, from which the library derives the keys. */
    method ReadAnswer(hs: Handshaker) returns (keys: Option<(Cipher, Cipher)>, err: Option<HandshakeError>)
      requires r.Valid()
      modifies r
      ensures r.Valid()
      ensures match Unwrap(old(r.Unread()), r.end)
              case Err(e, rest) => keys == None && err == Some(ResponseUnread(e)) && r.Unread() == rest
              case Ok(response, rest) =>
                r.Unread() == rest
                && match Answer(response, rest, hs)
                   case Ok(k, _) => keys == Some(k) && err == None
                   case Err(e, _) => keys == None && err == Some(e)
    {
      var response, frameErr := ReadNoiseFrame();
      if frameErr != None { return None, Some(ResponseUnread(frameErr.value)); }
      if |response| == 0 { return None, Some(ResponseEmpty); }
      if response[0] != 0 {
        return None, Some(if response[1..] == MAC_FAILURE then InvalidKey else Rejected(response[1..]));
      }
      keys := hs.finish(response[1..]);
      err := if keys == None then Some(ResponseInvalid) else None;
    }

    /** Two frames out, two frames in; the keys are installed, with both counters at zero, on success only. */
    method PerformHandshake(hs: Handshaker, expectedName: seq<byte>) returns (err: Option<HandshakeError>)
      requires r.Valid()
      modifies this, w, r
      ensures r.Valid()
      ensures w.calls == old(w.calls) + Sent(Greeting(hs), old(w.budget))
      ensures if CanGreet(hs, old(w.budget)) then
                var before := ServerInfo(old(serverName), old(serverMAC));
                var outcome := Negotiate(old(r.Unread()), expectedName, before, hs, r.end);
                && r.Unread() == outcome.result.rest
                && ServerInfo(serverName, serverMAC) == outcome.info
                && match outcome.result
                   case Ok((send, recv), _) =>
                     && err == None
                     && encryptCS != null && fresh(encryptCS) && encryptCS.c == send && encryptCS.n == 0
                     && decryptCS != null && fresh(decryptCS) && decryptCS.c == recv && decryptCS.n == 0
                   case Err(e, _) => err == Some(e) && encryptCS == old(encryptCS) && decryptCS == old(decryptCS)
              else
                && err == Some(SendFailed) && r.Unread() == old(r.Unread())
                && encryptCS == old(encryptCS) && decryptCS == old(decryptCS)
    {
      var ok := SendGreeting(hs);
      if !ok { return Some(SendFailed); }
      err := ReadServerHello(expectedName);
      if err != None { return; }
      var keys;
      keys, err := ReadAnswer(hs);
      if err != None { return; }
      encryptCS := new CipherState(keys.value.0);
      decryptCS := new CipherState(keys.value.1);
    }
  }
}
