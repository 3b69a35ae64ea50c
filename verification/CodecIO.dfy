/** The plain frame format as code: a scratch buffer going out, a byte at a time coming in. */
module CodecIO {
  import opened Bytes
  import opened Codec
  import opened Streams
  import Varint

  // ----- Writing -----

  method PutUvarint(buf: array<byte>, x: nat) returns (n: nat)
    requires x < TWO_64 && |Varint.Encode(x)| <= buf.Length
    modifies buf
    ensures n == |Varint.Encode(x)| && buf[..n] == Varint.Encode(x)
    ensures buf[n..] == old(buf[n..])
  {
    var left := x;
    n := 0;
    while left >= 128
      invariant n <= buf.Length && |Varint.Encode(left)| <= buf.Length - n
      invariant buf[..n] + Varint.Encode(left) == Varint.Encode(x)
      invariant buf[n..] == old(buf[n..])
    {
      ghost var before := buf[..n];
      PutStep(before, left);
      buf[n] := (left % 128 + 128) as byte;
      assert buf[..n + 1] == before + [(left % 128 + 128) as byte];
      left, n := left / 128, n + 1;
    }
    buf[n] := left as byte;
    n := n + 1;
  }

  lemma PutStep(before: seq<byte>, left: nat)
    requires left >= 128
    ensures before + Varint.Encode(left) == before + [(left % 128 + 128) as byte] + Varint.Encode(left / 128)
    ensures |Varint.Encode(left)| == 1 + |Varint.Encode(left / 128)|
  {
    Associate(before, [(left % 128 + 128) as byte], Varint.Encode(left / 128));
  }

  /** Spells the number in the scratch buffer and sends the bytes with one Write call. */
  method WriteUvarint(w: Conn, buf: array<byte>, x: nat) returns (ok: bool)
    requires x < TWO_64 && buf.Length == Varint.MAX_VARINT_LEN
    modifies w, buf
    ensures ok == (|Varint.Encode(x)| <= old(w.budget))
    ensures ok ==> w.calls == old(w.calls) + [Varint.Encode(x)] && w.budget == old(w.budget) - |Varint.Encode(x)|
    ensures !ok ==> w.calls == old(w.calls) + [Varint.Encode(x)[..old(w.budget)]] && w.budget == 0
  {
    Varint.RoundTrip(x, [], Eof);
    var n := PutUvarint(buf, x);
    ok := w.Write(buf[..n]);
  }

  function TypeAndPayload(f: Frame): seq<seq<byte>> {
    [Varint.Encode(f.msgType as nat)] + if f.data == [] then [] else [f.data]
  }

  /** The last one or two Write calls of a frame. */
  method WriteTypeAndPayload(w: Conn, buf: array<byte>, f: Frame) returns (ok: bool)
    requires buf.Length == Varint.MAX_VARINT_LEN
    modifies w, buf
    ensures ok == (|Varint.Encode(f.msgType as nat)| + |f.data| <= old(w.budget))
    ensures w.calls == old(w.calls) + Sent(TypeAndPayload(f), old(w.budget))
  {
    var all := TypeAndPayload(f);
    SentStep(w.calls, all, w.budget);
    ok := WriteUvarint(w, buf, f.msgType as nat);
    if ok {
      assert all[1..] == if f.data == [] then [] else [f.data];
      if |f.data| > 0 {
        SentStep(w.calls, all[1..], w.budget);
        ok := w.Write(f.data);
      }
    }
  }

  /**
   Sends one frame with three or four Write calls; a failed write leaves a strict prefix of the frame on the wire.
   */
  method WriteFrame(w: Conn, f: Frame) returns (ok: bool)
    requires IsLength(|f.data|)
    modifies w
    ensures ok == (|Encode(f)| <= old(w.budget))
    ensures w.calls == old(w.calls) + Sent(Writes(f), old(w.budget))
    ensures w.Wire() == old(w.Wire()) + if ok then Encode(f) else Encode(f)[..old(w.budget)]
  {
    ghost var goal := w.calls + Sent(Writes(f), w.budget);
    ghost var left := Writes(f);

    SentStep(w.calls, left, w.budget);
    ok := w.Write([0]);
    if ok {
      left := left[1..];
      assert w.calls + Sent(left, w.budget) == goal && left[0] == Varint.Encode(|f.data|);
      var buf := new byte[Varint.MAX_VARINT_LEN];
      SentStep(w.calls, left, w.budget);
      ok := WriteUvarint(w, buf, |f.data|);
      if ok {
        left := left[1..];
        assert w.calls + Sent(left, w.budget) == goal && left == TypeAndPayload(f);
        ok := WriteTypeAndPayload(w, buf, f);
      }
    }
    assert w.calls == goal;
    Outcome(old(w.calls), f, old(w.budget));
  }

  lemma Outcome(before: seq<seq<byte>>, f: Frame, budget: nat)
    requires IsLength(|f.data|)
    ensures |Encode(f)| == 1 + |Varint.Encode(|f.data|)| + |Varint.Encode(f.msgType as nat)| + |f.data|
    ensures Flatten(before + Sent(Writes(f), budget)) ==
            Flatten(before) + if |Encode(f)| <= budget then Encode(f) else Encode(f)[..budget]
  {
    WritesSpellTheFrame(f);
    SentIsPrefix(Writes(f), budget);
    FlattenAppend(before, Sent(Writes(f), budget));
  }

  // ----- Reading -----

  /** Wraps a Stream to read a single byte at a time; the payload is read from the same Stream directly. */
  class ByteReader {
    const r: Stream
    const buf: array<byte>

    constructor (r: Stream)
      ensures this.r == r && buf.Length == 1 && fresh(buf)
    {
      this.r, buf := r, new byte[1];
    }

    method ReadByte() returns (b: byte, err: Option<ReadError>)
      requires r.Valid() && buf.Length == 1
      modifies r, buf
      ensures r.Valid()
      ensures old(r.Unread()) == [] ==> err == Some(r.end) && r.Unread() == []
      ensures old(r.Unread()) != [] ==>
                err == None && b == old(r.Unread())[0] && r.Unread() == old(r.Unread())[1..]
    {
      var n;
      n, err := r.Read(buf, 0);
      if err != None { return 0, err; }
      assert buf[0] == buf[0..n][0];
      b := buf[0];
    }
  }

  lemma Accumulate(x: nat, scale: nat, low: nat, v: int)
    ensures x + scale * (low + 128 * v) == x + scale * low + scale * 128 * v
  {}

  /** The value is built up with shifts and ors of disjoint bit ranges, which are sums of multiples of scale. */
  method ReadUvarint(br: ByteReader) returns (x: nat, err: Option<Varint.VarintError>)
    requires br.r.Valid() && br.buf.Length == 1
    modifies br.r, br.buf
    ensures br.r.Valid()
    ensures match Varint.Decode(old(br.r.Unread()), 0, br.r.end)
            case Ok(v, rest) => err == None && x == v && br.r.Unread() == rest
            case Err(e, rest) => err == Some(e) && br.r.Unread() == rest
  {
    x := 0;
    var scale := 1;
    for i := 0 to Varint.MAX_VARINT_LEN
      invariant br.r.Valid() && scale >= 0
      invariant match Varint.Decode(br.r.Unread(), i, br.r.end)
                case Ok(v, rest) => Varint.Decode(old(br.r.Unread()), 0, br.r.end) == Ok(x + scale * v, rest)
                case Err(e, rest) => Varint.Decode(old(br.r.Unread()), 0, br.r.end) == Err(e, rest)
    {
      var b, readErr := br.ReadByte();
      if readErr != None {
        return x, Some(Varint.Io(if i > 0 && readErr.value == Eof then UnexpectedEof else readErr.value));
      }
      if b < 128 {
        if i == Varint.MAX_VARINT_LEN - 1 && b > 1 {
          return x, Some(Varint.Overflow);
        }
        return x + scale * b as nat, None;
      }
      var low := b as nat - 128;
      match Varint.Decode(br.r.Unread(), i + 1, br.r.end) {
        case Ok(v, _) => Accumulate(x, scale, low, v);
        case Err(_, _) =>
      }
      x, scale := x + scale * low, scale * 128;
    }
    err := Some(Varint.Overflow);
  }

  /** Fills the buffer unless the stream ends first. */
  method ReadFull(r: Stream, data: array<byte>) returns (err: Option<ReadError>)
    requires r.Valid()
    modifies r, data
    ensures r.Valid()
    ensures var s := old(r.Unread());
            if |s| >= data.Length then err == None && data[..] == s[..data.Length] && r.Unread() == s[data.Length..]
            else err == Some(if s != [] && r.end == Eof then UnexpectedEof else r.end) && r.Unread() == []
  {
    ghost var s := r.Unread();
    var n := 0;
    while n < data.Length
      invariant n <= data.Length && n <= |s| && r.Valid()
      invariant data[..n] == s[..n] && r.Unread() == s[n..]
    {
      ghost var before := data[..n];
      var more, readErr := r.Read(data, n);
      if readErr != None {
        return Some(if n > 0 && readErr.value == Eof then UnexpectedEof else readErr.value);
      }
      assert data[..n + more] == before + data[n..n + more];
      assert s[..n + more] == s[..n] + s[n..][..more];
      n := n + more;
    }
    assert data[..n] == data[..];
    err := None;
  }

  /**
   Whatever pieces the stream arrives in, the frame and the bytes left are those of the unsplit stream. The
   payload buffer is never larger than the limit, also when the payload breaks off.
   */
  method ReadFrame(r: Stream) returns (f: Option<Frame>, err: Option<FrameError>, ghost capacity: nat)
    requires r.Valid()
    modifies r
    ensures r.Valid()
    ensures capacity == Allocation(old(r.Unread()), r.end) <= MAX_MESSAGE_SIZE
    ensures match Decode(old(r.Unread()), r.end)
            case Ok(frame, rest) => f == Some(frame) && err == None && r.Unread() == rest
            case Err(e, rest) => f == None && err == Some(e) && r.Unread() == rest
  {
    var br := new ByteReader(r);
    var preamble, readErr := br.ReadByte();
    if readErr != None { return None, Some(PreambleErr(readErr.value)), 0; }
    if preamble != 0 { return None, Some(InvalidPreamble), 0; }

    var size, varintErr := ReadUvarint(br);
    if varintErr != None { return None, Some(SizeErr(varintErr.value)), 0; }
    if size > MAX_MESSAGE_SIZE { return None, Some(MessageTooLarge), 0; }

    var mType;
    mType, varintErr := ReadUvarint(br);
    if varintErr != None { return None, Some(TypeErr(varintErr.value)), 0; }
    var msgType := (mType % TWO_32) as uint32;

    if size == 0 { return Some(Frame(msgType, [])), None, 0; }
    var data := new byte[size];
    capacity := data.Length;
    readErr := ReadFull(r, data);
    if readErr != None { return None, Some(PayloadErr(readErr.value)), capacity; }
    f, err := Some(Frame(msgType, data[..])), None;
  }
}
