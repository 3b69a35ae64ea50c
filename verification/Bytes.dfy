/** Machine integers, options and byte-sequence helpers shared by every module. */
module Bytes {

  newtype byte = x: int | 0 <= x < 256
  newtype uint32 = x: int | 0 <= x < TWO_32

  const TWO_16: nat := 0x1_0000
  const TWO_32: nat := 0x1_0000_0000
  const TWO_63: nat := 0x8000_0000_0000_0000
  const TWO_64: nat := 0x1_0000_0000_0000_0000

  datatype Option<+T> = None | Some(value: T)

  /** What a read can end with: end of file, end of file in the middle of an item, or any other failure. */
  datatype ReadError = Eof | UnexpectedEof | Failed(code: nat)

  /** The outcome of parsing a byte sequence; both outcomes say which bytes are left unread. */
  datatype Parsed<+T, +E> = Ok(value: T, rest: seq<byte>) | Err(error: E, rest: seq<byte>)

  function Flatten<T>(ss: seq<seq<T>>): seq<T> {
    if ss == [] then [] else ss[0] + Flatten(ss[1..])
  }

  lemma {:induction false} FlattenAppend<T>(a: seq<seq<T>>, b: seq<seq<T>>)
    ensures Flatten(a + b) == Flatten(a) + Flatten(b)
  {
    if a == [] {
      assert a + b == b;
    } else {
      assert (a + b)[1..] == a[1..] + b;
      FlattenAppend(a[1..], b);
    }
  }

  lemma FlattenOne<T>(a: seq<seq<T>>, last: seq<T>)
    ensures Flatten(a + [last]) == Flatten(a) + last
  {
    FlattenAppend(a, [last]);
    assert Flatten([last]) == last;
  }

  lemma Regroup<T>(s: seq<T>, t: seq<T>)
    requires s != []
    ensures [s[0]] + (s[1..] + t) == s + t
  {}

  lemma Associate<T>(a: seq<T>, b: seq<T>, c: seq<T>)
    ensures a + b + c == a + (b + c)
  {}

  /** Big-endian 16-bit integer, as written by encoding/binary. */
  function BE16(n: nat): (s: seq<byte>)
    ensures |s| == 2
    ensures n < TWO_16 ==> ReadBE16(s) == n
  {
    [(n / 256 % 256) as byte, (n % 256) as byte]
  }

  function ReadBE16(s: seq<byte>): nat
    requires |s| == 2
  {
    256 * s[0] as nat + s[1] as nat
  }
}
