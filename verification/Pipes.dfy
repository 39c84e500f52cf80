/** PipeDescriptor of kernel/terminal.cpp: a byte stream cut into messages of at most 16 bytes, with the rest
    of a message kept for the next read. */
module Pipes {
  import opened Basics

  const CHUNK: nat := 16

  /** A message of the reading task: a piece of the stream, empty at its end, or anything else. */
  datatype Message = Piece(data: seq<Byte>) | Other

  datatype Result = Bytes(data: seq<Byte>) | EndOfFile | Waiting

  /** What the messages will yield, up to the end of the stream. */
  function Unread(msgs: seq<Message>): seq<Byte>
  {
    if msgs == [] then []
    else match msgs[0]
      case Piece(data) => if data == [] then [] else data + Unread(msgs[1..])
      case Other => Unread(msgs[1..])
  }

  /** Whether the end of the stream is among them. */
  predicate Ends(msgs: seq<Message>)
  {
    msgs != [] && (msgs[0] == Piece([]) || Ends(msgs[1..]))
  }

  lemma {:induction false} UnreadAppend(msgs: seq<Message>, m: Message)
    requires !Ends(msgs)
    ensures Unread(msgs + [m]) == Unread(msgs) + (if m.Piece? then m.data else [])
    ensures Ends(msgs + [m]) <==> m == Piece([])
  {
    if msgs == [] {
      assert msgs + [m] == [m] && [m][1..] == [];
    } else {
      UnreadAppend(msgs[1..], m);
      assert (msgs + [m])[1..] == msgs[1..] + [m];
      if msgs[0].Piece? {
        assert msgs[0].data + (Unread(msgs[1..]) + (if m.Piece? then m.data else []))
            == msgs[0].data + Unread(msgs[1..]) + (if m.Piece? then m.data else []);
      }
    }
  }

  class Pipe {
    var msgs: seq<Message>
    var data: seq<Byte>
    var closed: bool
    ghost var written: seq<Byte>
    ghost var read: seq<Byte>
    ghost var finished: bool

    constructor ()
      ensures Valid() && written == [] && read == [] && !finished && !closed
    {
      msgs, data, closed := [], [], false;
      written, read, finished := [], [], false;
    }

    /** Every byte written is read, in the left-over buffer, or in a message, in this order. */
    ghost predicate Valid()
      reads this
    {
      && |data| <= CHUNK && (forall i | 0 <= i < |msgs| && msgs[i].Piece? :: |msgs[i].data| <= CHUNK)
      && written == read + data + (if closed then [] else Unread(msgs))
      && (if closed then finished && data == [] else Ends(msgs) == finished)
    }

    /** PipeDescriptor::Read up to the point where it must wait for a message. */
    method Read(len: nat) returns (r: Result)
      requires Valid()
      modifies this`msgs, this`data, this`closed, this`read
      ensures Valid()
      ensures match r
              case Bytes(d) => read == old(read) + d && |d| <= len && (len > 0 ==> d != [])
              case EndOfFile => read == old(read) == written && finished
              case Waiting => read == old(read) == written && !finished
    {
      if |data| > 0 {
        var n := Min(|data|, len);
        var d := data[..n];
        assert data == d + data[n..];
        assert read + data == read + d + data[n..];
        data := data[n..];
        read := read + d;
        return Bytes(d);
      }
      if closed {
        return EndOfFile;
      }
      while true
        invariant Valid() && data == [] && !closed && read == old(read)
        decreases |msgs|
      {
        if msgs == [] {
          return Waiting;
        }
        var msg := msgs[0];
        ghost var rest := Unread(msgs[1..]);
        msgs := msgs[1..];
        if msg.Other? {
          continue;
        }
        if |msg.data| == 0 {
          closed := true;
          return EndOfFile;
        }
        var n := Min(|msg.data|, len);
        var d := msg.data[..n];
        Cut(read, msg.data, n, rest);
        data := msg.data[n..];
        read := read + d;
        return Bytes(d);
      }
    }

    method SendMessage(m: Message)
      requires Valid() && !finished && !closed && (m.Piece? ==> |m.data| <= CHUNK)
      modifies this`msgs, this`written, this`finished
      ensures Valid() && written == old(written) + (if m.Piece? then m.data else []) && (finished <==> m == Piece([]))
    {
      UnreadAppend(msgs, m);
      msgs := msgs + [m];
      written := written + (if m.Piece? then m.data else []);
      finished := m == Piece([]);
    }

    method Write(buf: seq<Byte>) returns (n: nat)
      requires Valid() && !finished
      modifies this`msgs, this`written, this`finished
      ensures Valid() && written == old(written) + buf && n == |buf| && !finished
    {
      var sent: nat := 0;
      while sent < |buf|
        invariant Valid() && sent <= |buf| && written == old(written) + buf[..sent] && !finished && closed == old(closed)
      {
        var n := Min(|buf| - sent, CHUNK);
        assert buf[..sent + n] == buf[..sent] + buf[sent..sent + n];
        SendMessage(Piece(buf[sent..sent + n]));
        sent := sent + n;
      }
      assert buf[..|buf|] == buf;
      return |buf|;
    }

    /** The writer is done; nothing may be written afterwards. */
    method FinishWrite()
      requires Valid() && !finished
      modifies this`msgs, this`written, this`finished
      ensures Valid() && written == old(written) && finished
    {
      SendMessage(Piece([]));
    }

    /** A finished stream read with any sequence of positive sizes: the pieces are the bytes not read before, once and
        in order, and every read yields at least one byte until there are no more. */
    method ReadAll(sizes: seq<nat>) returns (bytes: seq<Byte>, eof: bool)
      requires Valid() && finished && forall i | 0 <= i < |sizes| :: sizes[i] > 0
      modifies this`msgs, this`data, this`closed, this`read
      ensures Valid() && read == old(read) + bytes
      ensures eof ==> read == written
      ensures !eof ==> |bytes| >= |sizes|
    {
      bytes, eof := [], false;
      var i := 0;
      while i < |sizes| && !eof
        invariant 0 <= i <= |sizes| && Valid() && read == old(read) + bytes
        invariant if eof then read == written else |bytes| >= i
      {
        var r := Read(sizes[i]);
        match r {
          case Bytes(d) =>
            bytes := bytes + d;
          case EndOfFile =>
            eof := true;
          case Waiting =>
            assert false;
        }
        i := i + 1;
      }
    }
  }

  lemma {:induction false} Cut(a: seq<Byte>, d: seq<Byte>, n: nat, rest: seq<Byte>)
    requires n <= |d|
    ensures a + [] + (d + rest) == a + d[..n] + d[n..] + rest
  {
  }
}
