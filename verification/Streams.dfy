/** A byte stream in both directions, with asyncio's reading primitives. */
module Streams {
  import opened Prelude

  newtype byte = b: int | 0 <= b < 256
  type bytes = seq<byte>

  const CR: byte := 13
  const LF: byte := 10
  const CRLF: bytes := [13, 10]

  // `readline`: up to and including the first line feed, or everything there is.
  function LineLength(s: bytes): (n: nat)
    ensures n <= |s| && (s != [] ==> n > 0)
  {
    if s == [] then 0 else if s[0] == LF then 1 else 1 + LineLength(s[1..])
  }

  // `readuntil(b"\r\n")`: the length through the first CRLF, None at end of file.
  function ThroughCrlf(s: bytes): (n: Option<nat>)
    ensures n.Some? ==> 2 <= n.value <= |s|
  {
    if |s| < 2 then None
    else if s[..2] == CRLF then Some(2)
    else match ThroughCrlf(s[1..]) case None => None case Some(n) => Some(n + 1)
  }

  // `readexactly`: what is returned, and what is left.
  function Exactly(s: bytes, n: int): (r: Result<(bytes, bytes)>) {
    if n < 0 then Err(ValueError)
    else if |s| < n then Err(IncompleteRead)
    else Ok((s[..n], s[n..]))
  }

  lemma ExactlyPrefix(a: bytes, t: bytes)
    ensures Exactly(a + t, |a|) == Ok((a, t))
  {
  }

  class Connection {
    var inbox: bytes   // sent by the peer and not read yet
    var outbox: bytes  // everything written to the peer

    constructor (inbox: bytes)
      ensures this.inbox == inbox && outbox == []
    {
      this.inbox, outbox := inbox, [];
    }

    method Write(data: bytes)
      modifies this`outbox
      ensures outbox == old(outbox) + data
    {
      outbox := outbox + data;
    }

    method ReadLine() returns (line: bytes)
      modifies this`inbox
      ensures line == old(inbox)[..LineLength(old(inbox))] && inbox == old(inbox)[LineLength(old(inbox))..]
    {
      var n := 0;
      while n < |inbox|
        invariant n <= |inbox| && LineLength(inbox) == n + LineLength(inbox[n..])
        invariant inbox == old(inbox)
      {
        var last := inbox[n] == LF;
        n := n + 1;
        if last { break; }
      }
      line, inbox := inbox[..n], inbox[n..];
    }

    method ReadUntilCrlf() returns (r: Result<bytes>)
      modifies this`inbox
      ensures match ThroughCrlf(old(inbox))
        case None => r == Err(IncompleteRead) && inbox == []
        case Some(n) => r == Ok(old(inbox)[..n]) && inbox == old(inbox)[n..]
    {
      var n := 0;
      while n + 2 <= |inbox| && inbox[n..n + 2] != CRLF
        invariant n <= |inbox| && inbox == old(inbox)
        invariant ThroughCrlf(inbox)
               == match ThroughCrlf(inbox[n..]) case None => None case Some(k) => Some(k + n)
      {
        assert inbox[n..][..2] == inbox[n..n + 2] && inbox[n..][1..] == inbox[n + 1..];
        n := n + 1;
      }
      if n + 2 > |inbox| {
        inbox := [];
        return Err(IncompleteRead);
      }
      assert inbox[n..][..2] == inbox[n..n + 2];
      r, inbox := Ok(inbox[..n + 2]), inbox[n + 2..];
    }

    method ReadExactly(n: int) returns (r: Result<bytes>)
      modifies this`inbox
      ensures match Exactly(old(inbox), n)
        case Ok((data, rest)) => r == Ok(data) && inbox == rest
        case Err(e) => r == Err(e)
      ensures n >= 0 && |old(inbox)| < n ==> inbox == []
    {
      if n < 0 { return Err(ValueError); }
      if |inbox| < n {
        inbox := [];
        return Err(IncompleteRead);
      }
      r, inbox := Ok(inbox[..n]), inbox[n..];
    }
  }
}
