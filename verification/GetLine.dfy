/** get_line of sample/nty_http_server.c: lines out of a byte stream, each terminator turned into a
    line feed. */
module GetLine {

  import opened Common

  const NUL: byte := 0
  const LF: byte := 10
  const CR: byte := 13

  /** What receiving from the socket meets in turn.  At the end of the stream receives return zero
      for ever; a failure makes one receive, peeking or not, return minus one. */
  datatype Event = Byte(b: byte) | Failure

  class Socket {
    var events: seq<Event>

    constructor (stream: seq<Event>)
      ensures events == stream
    {
      events := stream;
    }

    /** recv of one byte: `c` is stored only when `n` is positive. */
    method Receive(c: byte, peek: bool) returns (n: int, d: byte)
      modifies this
      ensures n > 0 <==> old(events) != [] && old(events)[0].Byte?
      ensures d == if n > 0 then old(events)[0].b else c
      ensures events == if old(events) == [] || (peek && n > 0) then old(events) else old(events)[1..]
    {
      if events == [] { return 0, c; }
      match events[0]
      case Failure =>
        n, d := -1, c;
        events := events[1..];
      case Byte(b) =>
        n, d := 1, b;
        if !peek { events := events[1..]; }
    }
  }

  /** The stream with every CR, LF or CRLF replaced by one LF; what a failure separates is not a
      pair. */
  function Normalise(s: seq<Event>): seq<byte>
  {
    if s == [] then []
    else if s[0].Failure? then Normalise(s[1..])
    else if s[0].b != CR then [s[0].b] + Normalise(s[1..])
    else if |s| > 1 && s[1] == Byte(LF) then [LF] + Normalise(s[2..])
    else [LF] + Normalise(s[1..])
  }

  /** What is left after a carriage return: the peek takes a line feed or a failure with it. */
  function AfterReturn(s: seq<Event>): (r: seq<Event>)
    ensures |r| <= |s|
  {
    if s != [] && (s[0] == Byte(LF) || s[0].Failure?) then s[1..] else s
  }

  datatype Line = Line(text: seq<byte>, rest: seq<Event>)

  /** One line of at most `room` bytes, and the stream behind it. */
  function Read(s: seq<Event>, room: nat): Line
  {
    if room == 0 || s == [] then Line([], s)
    else if s[0].Failure? then Line([], s[1..])
    else if s[0].b == CR then Line([LF], AfterReturn(s[1..]))
    else if s[0].b == LF then Line([LF], s[1..])
    else
      var l := Read(s[1..], room - 1);
      Line([s[0].b] + l.text, l.rest)
  }

  /** `text` has been read of the line that starts at `start`, `s` comes next, and `ended` says
      whether that was all. */
  ghost predicate Partway(start: seq<Event>, room: nat, text: seq<byte>, s: seq<Event>, ended: bool)
  {
    && |text| <= room
    && var l := if ended then Line([], s) else Read(s, room - |text|);
       Read(start, room) == Line(text + l.text, l.rest)
  }

  /** The four ways on from there. */
  lemma Onward(start: seq<Event>, room: nat, text: seq<byte>, s: seq<Event>)
    requires Partway(start, room, text, s, false) && |text| < room
    ensures s == [] ==> Partway(start, room, text, s, true)
    ensures s != [] && s[0].Failure? ==> Partway(start, room, text, s[1..], true)
    ensures s != [] && s[0] == Byte(CR) ==> Partway(start, room, text + [LF], AfterReturn(s[1..]), true)
    ensures s != [] && s[0].Byte? && s[0].b != CR ==> Partway(start, room, text + [s[0].b], s[1..], s[0].b == LF)
  {
    if s != [] && s[0].Byte? && s[0].b != CR && s[0].b != LF {
      var l := Read(s[1..], room - |text| - 1);
      assert text + ([s[0].b] + l.text) == text + [s[0].b] + l.text;
    }
  }

  /** The branch for a carriage return: a look at the next byte. */
  method FinishReturn(sock: Socket, b: byte) returns (c: byte)
    modifies sock
    ensures c == LF && sock.events == AfterReturn(old(sock.events))
  {
    var n;
    n, c := sock.Receive(b, true);
    if n > 0 && c == LF {
      n, c := sock.Receive(c, false);
    } else {
      c := LF;
    }
  }

  method GetLine(sock: Socket, buf: array<byte>, size: int) returns (i: nat)
    requires 1 <= buf.Length && size <= buf.Length
    modifies sock, buf
    ensures i < buf.Length && (i < size || i == 0)
    ensures Line(buf[..i], sock.events) == Read(old(sock.events), if size > 0 then size - 1 else 0)
    ensures buf[i] == NUL
    ensures forall k :: i < k < buf.Length ==> buf[k] == old(buf[k])
  {
    ghost var room: nat := if size > 0 then size - 1 else 0;
    i := 0;
    var c: byte := NUL;
    var n;
    while i < size - 1 && c != LF
      invariant i <= room
      invariant i < size - 1 ==> i < buf.Length
      invariant Partway(old(sock.events), room, buf[..i], sock.events, c == LF)
      invariant forall k :: i <= k < buf.Length ==> buf[k] == old(buf[k])
      decreases room - i, c != LF
    {
      ghost var s, before := sock.events, buf[..i];
      Onward(old(sock.events), room, before, s);
      n, c := sock.Receive(c, false);
      if n > 0 {
        if c == CR {
          c := FinishReturn(sock, c);
        }
        buf[i] := c;
        assert buf[..i + 1] == before + [c];
        i := i + 1;
      } else {
        c := LF;
      }
    }
    buf[i] := NUL;
  }

  /* ---------------------------------------------------------------------------------------- */

  lemma {:induction false} AfterReturnNormal(s: seq<Event>)
    ensures Normalise([Byte(CR)] + s) == [LF] + Normalise(AfterReturn(s))
  {
    var t := [Byte(CR)] + s;
    assert t[1..] == s;
    if s != [] {
      assert t[1] == s[0] && t[2..] == s[1..];
    }
  }

  /** A line is what normalising the stream starts with, and what is left normalises to the rest. */
  lemma {:induction false} ReadNormal(s: seq<Event>, room: nat)
    ensures var l := Read(s, room); Normalise(s) == l.text + Normalise(l.rest) && |l.text| <= room
  {
    if room > 0 && s != [] && s[0].Byte? {
      if s[0].b == CR {
        assert s == [Byte(CR)] + s[1..];
        AfterReturnNormal(s[1..]);
      } else if s[0].b != LF {
        ReadNormal(s[1..], room - 1);
      }
    }
  }

  /** A line holds a line feed only as its last byte, never a carriage return, and it ends early
      only at a line feed, at a failure or at the end of the stream. */
  lemma {:induction false} ReadShape(s: seq<Event>, room: nat)
    ensures var t := Read(s, room).text;
      && (forall k :: 0 <= k < |t| ==> t[k] != CR && (t[k] == LF ==> k == |t| - 1))
      && (|t| < room && (t == [] || t[|t| - 1] != LF) ==> |t| == |s| || (|t| < |s| && s[|t|].Failure?))
  {
    if room > 0 && s != [] && s[0].Byte? && s[0].b != CR && s[0].b != LF {
      ReadShape(s[1..], room - 1);
    }
  }

  /** Where a line stopped in the stream: never between a carriage return and its line feed. */
  lemma {:induction false} NeverSplit(s: seq<Event>, room: nat)
    ensures var l := Read(s, room);
      && |l.rest| <= |s| && l.rest == s[|s| - |l.rest|..]
      && (l.rest != s && l.rest != [] && l.rest[0] == Byte(LF) ==>
            s[|s| - |l.rest| - 1] != Byte(CR))
      && (room > 0 && s != [] ==> |l.rest| < |s|)
  {
    if room > 0 && s != [] && s[0].Byte? && s[0].b != CR && s[0].b != LF {
      NeverSplit(s[1..], room - 1);
    }
  }

  /** Successive calls with buffers of the given sizes. */
  function ReadAll(s: seq<Event>, sizes: seq<nat>): Line
    decreases |sizes|
  {
    if sizes == [] then Line([], s)
    else
      var l := Read(s, if sizes[0] > 0 then sizes[0] - 1 else 0);
      var m := ReadAll(l.rest, sizes[1..]);
      Line(l.text + m.text, m.rest)
  }

  /** The results of any sequence of calls, one after the other, are the start of the normalised
      stream, and nothing of it is lost. */
  lemma {:induction false} LinesConcatenate(s: seq<Event>, sizes: seq<nat>)
    ensures var m := ReadAll(s, sizes); m.text + Normalise(m.rest) == Normalise(s)
    decreases |sizes|
  {
    if sizes != [] {
      var room := if sizes[0] > 0 then sizes[0] - 1 else 0;
      ReadNormal(s, room);
      LinesConcatenate(Read(s, room).rest, sizes[1..]);
    }
  }

  /** With buffers of at least two bytes every call makes progress, so enough calls give the whole
      stream normalised. */
  lemma {:induction false} LinesComplete(s: seq<Event>, sizes: seq<nat>)
    requires |sizes| >= |s| && forall k :: 0 <= k < |sizes| ==> sizes[k] >= 2
    ensures ReadAll(s, sizes) == Line(Normalise(s), [])
    decreases |sizes|
  {
    if sizes == [] {
      assert s == [];
    } else {
      var room := sizes[0] - 1;
      var l := Read(s, room);
      NeverSplit(s, room);
      ReadNormal(s, room);
      LinesComplete(l.rest, sizes[1..]);
    }
  }

  function Bytes(t: seq<byte>): (s: seq<Event>)
    ensures |s| == |t| && forall k :: 0 <= k < |t| ==> s[k] == Byte(t[k])
  {
    seq(|t|, (k: nat) requires k < |t| => Byte(t[k]))
  }

  /** A stream without carriage returns and failures is left as it is. */
  lemma {:induction false} NoReturnNoChange(t: seq<byte>)
    requires CR !in t
    ensures Normalise(Bytes(t)) == t
  {
    if t != [] {
      assert Bytes(t)[1..] == Bytes(t[1..]);
      NoReturnNoChange(t[1..]);
    }
  }

  lemma {:induction false} NormaliseNoReturn(s: seq<Event>)
    ensures CR !in Normalise(s)
  {
    if s != [] {
      NormaliseNoReturn(s[1..]);
      if |s| > 1 { NormaliseNoReturn(s[2..]); }
    }
  }

  /** Normalising again changes nothing. */
  lemma NormaliseIdempotent(s: seq<Event>)
    ensures Normalise(Bytes(Normalise(s))) == Normalise(s)
  {
    NormaliseNoReturn(s);
    NoReturnNoChange(Normalise(s));
  }
}
