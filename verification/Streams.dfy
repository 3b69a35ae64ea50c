/** The two directions of a connection as the codecs see them: io.Writer and io.Reader. */
module Streams {
  import opened Bytes

  /** The sending side. Every Write call is recorded; the peer takes a bounded number of bytes before writes fail. */
  class Conn {
    var calls: seq<seq<byte>>
    var budget: nat

    constructor (budget: nat)
      ensures calls == [] && this.budget == budget
    {
      calls, this.budget := [], budget;
    }

    ghost function Wire(): seq<byte>
      reads this
    {
      Flatten(calls)
    }

    /** Writes all of p, or fails after a strict prefix of it. */
    method Write(p: seq<byte>) returns (ok: bool)
      modifies this
      ensures ok == (|p| <= old(budget))
      ensures ok ==> calls == old(calls) + [p] && budget == old(budget) - |p|
      ensures !ok ==> calls == old(calls) + [p[..old(budget)]] && budget == 0
      ensures Wire() == old(Wire()) + if ok then p else p[..old(budget)]
    {
      ok := |p| <= budget;
      var n := if ok then |p| else budget;
      calls, budget := calls + [p[..n]], budget - n;
      assert p[..|p|] == p;
      FlattenOne(old(calls), p[..n]);
    }
  }

  /** The calls made by code that writes the buffers in turn and stops at the first failure. */
  function Sent(writes: seq<seq<byte>>, budget: nat): seq<seq<byte>> {
    if writes == [] then []
    else if |writes[0]| > budget then [writes[0][..budget]]
    else [writes[0]] + Sent(writes[1..], budget - |writes[0]|)
  }

  lemma SentStep(made: seq<seq<byte>>, writes: seq<seq<byte>>, budget: nat)
    requires writes != []
    ensures made + Sent(writes, budget) ==
            if |writes[0]| > budget then made + [writes[0][..budget]]
            else made + [writes[0]] + Sent(writes[1..], budget - |writes[0]|)
  {}

  /** However the writes fail, the bytes that went out are the longest prefix the peer accepted. */
  lemma {:induction false} SentIsPrefix(writes: seq<seq<byte>>, budget: nat)
    ensures var all := Flatten(writes);
            && Flatten(Sent(writes, budget)) == (if |all| <= budget then all else all[..budget])
            && (|all| <= budget ==> Sent(writes, budget) == writes)
  {
    if writes != [] {
      var w, ws := writes[0], writes[1..];
      if |w| > budget {
        FlattenOne([], w[..budget]);
        assert [] + [w[..budget]] == [w[..budget]];
      } else {
        SentIsPrefix(ws, budget - |w|);
        assert ([w] + Sent(ws, budget - |w|))[1..] == Sent(ws, budget - |w|);
      }
    }
  }

  lemma DropFirst(piece: seq<byte>, others: seq<seq<byte>>, n: nat)
    requires n <= |piece|
    ensures var unread := piece + Flatten(others);
            && unread[..n] == piece[..n]
            && unread[n..] == Flatten(if n == |piece| then others else [piece[n..]] + others)
  {
    assert n < |piece| ==> ([piece[n..]] + others)[1..] == others;
  }

  /**
   The receiving side. The pieces are what successive Read calls deliver: each of them at least one
   byte and no error. When they are used up, every Read delivers nothing and the error `end`.
   */
  class Stream {
    var pieces: seq<seq<byte>>
    const end: ReadError

    ghost predicate Valid()
      reads this
    {
      forall i :: 0 <= i < |pieces| ==> pieces[i] != []
    }

    ghost function Unread(): seq<byte>
      reads this
    {
      Flatten(pieces)
    }

    constructor (pieces: seq<seq<byte>>, end: ReadError)
      requires forall i :: 0 <= i < |pieces| ==> pieces[i] != []
      ensures Valid() && this.pieces == pieces && this.end == end
    {
      this.pieces, this.end := pieces, end;
    }

    /** Reads into p[lo..] at most one piece. */
    method Read(p: array<byte>, lo: nat) returns (n: nat, err: Option<ReadError>)
      requires Valid() && lo < p.Length
      modifies this, p
      ensures Valid()
      ensures old(Unread()) == [] ==> n == 0 && err == Some(end) && Unread() == []
      ensures old(Unread()) != [] ==> err == None && 1 <= n
      ensures n <= p.Length - lo && n <= |old(Unread())|
      ensures p[lo..lo + n] == old(Unread())[..n] && Unread() == old(Unread())[n..]
      ensures p[..lo] == old(p[..lo]) && p[lo + n..] == old(p[lo + n..])
    {
      if pieces == [] {
        return 0, Some(end);
      }
      var piece, others := pieces[0], pieces[1..];
      n, err := if |piece| <= p.Length - lo then |piece| else p.Length - lo, None;
      forall i | 0 <= i < n {
        p[lo + i] := piece[i];
      }
      pieces := if n == |piece| then others else [piece[n..]] + others;
      DropFirst(piece, others, n);
      assert p[lo..lo + n] == piece[..n];
      assert p[..lo] == old(p[..lo]);
      assert p[lo + n..] == old(p[lo + n..]);
    }
  }
}
