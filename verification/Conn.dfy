// Line framing of the graph application's command connection: what is
// delivered depends on the byte stream, not on how reads cut it up.

module Conn {
  import opened Common

  const NEWLINE: Byte := 10

  // msg_in as far as it is filled, the messages handed to the handler so far,
  // and how often the client was told that a command is too long.
  datatype State = State(pending: seq<Byte>, delivered: seq<seq<Byte>>, tooLong: nat)

  function Step(s: State, b: Byte, max: nat): State {
    if b == NEWLINE then State([], s.delivered + [s.pending], s.tooLong)
    else if |s.pending| < max then s.(pending := s.pending + [b])
    else State([], s.delivered, s.tooLong + 1)
  }

  function Feed(s: State, bytes: seq<Byte>, max: nat): State {
    if bytes == [] then s else Step(Feed(s, bytes[..|bytes| - 1], max), bytes[|bytes| - 1], max)
  }

  // Chunk independence: one read of a + b and a read of a followed by one of b
  // come to the same.
  lemma {:induction false} FeedConcat(s: State, a: seq<Byte>, b: seq<Byte>, max: nat)
    ensures Feed(s, a + b, max) == Feed(Feed(s, a, max), b, max)
    decreases |b|
  {
    if b == [] {
      assert a + b == a;
    } else {
      assert (a + b)[..|a + b| - 1] == a + b[..|b| - 1];
      FeedConcat(s, a, b[..|b| - 1], max);
    }
  }

  function Join(chunks: seq<seq<Byte>>): seq<Byte> {
    if chunks == [] then [] else Join(chunks[..|chunks| - 1]) + chunks[|chunks| - 1]
  }

  function FeedAll(s: State, chunks: seq<seq<Byte>>, max: nat): State {
    if chunks == [] then s else Feed(FeedAll(s, chunks[..|chunks| - 1], max), chunks[|chunks| - 1], max)
  }

  // However many reads there are and however they cut up the stream.
  lemma {:induction false} ChunksDoNotMatter(s: State, chunks: seq<seq<Byte>>, max: nat)
    ensures FeedAll(s, chunks, max) == Feed(s, Join(chunks), max)
  {
    if chunks != [] {
      var n := |chunks| - 1;
      ChunksDoNotMatter(s, chunks[..n], max);
      FeedConcat(s, Join(chunks[..n]), chunks[n], max);
    }
  }

  // The last n mod (max + 1) bytes of a line of n bytes.
  function Kept(line: seq<Byte>, max: nat): (k: seq<Byte>)
    ensures |k| == |line| % (max + 1)
  {
    line[|line| - |line| % (max + 1)..]
  }

  lemma KeptNext(line: seq<Byte>, max: nat)
    requires line != []
    ensures
      var front := line[..|line| - 1];
      if |Kept(front, max)| < max then
        Kept(line, max) == Kept(front, max) + [line[|line| - 1]] && Overflows(line, max) == Overflows(front, max)
      else
        Kept(line, max) == [] && Overflows(line, max) == Overflows(front, max) + 1
  {
    var n, r := |line| - 1, (|line| - 1) % (max + 1);
    DivNext(n, max + 1);
    hide Kept;
    hide Overflows;
    KeptFrom(line[..n], max, r);
    if r < max {
      KeptFrom(line, max, r + 1);
      TailNext(line, r);
    } else {
      KeptFrom(line, max, 0);
    }
    SameOverflows(line, max);
  }

  lemma KeptFrom(line: seq<Byte>, max: nat, r: nat)
    requires |line| % (max + 1) == r
    ensures r <= |line| && Kept(line, max) == line[|line| - r..]
  {}

  lemma SameOverflows(line: seq<Byte>, max: nat)
    ensures Overflows(line, max) == |line| / (max + 1)
    ensures line != [] ==> Overflows(line[..|line| - 1], max) == (|line| - 1) / (max + 1)
  {}

  lemma TailNext(line: seq<Byte>, r: nat)
    requires r < |line|
    ensures line[|line| - 1 - r..] == line[..|line| - 1][|line| - 1 - r..] + [line[|line| - 1]]
  {}

  // How often a line of n bytes overflows: n / (max + 1) times.
  function Overflows(line: seq<Byte>, max: nat): nat {
    |line| / (max + 1)
  }

  // A line without its newline: what is pending is its last n mod (max + 1)
  // bytes, and the client was told n / (max + 1) times.
  lemma {:induction false} LineForm(s: State, line: seq<Byte>, max: nat)
    requires s.pending == [] && NEWLINE !in line
    ensures Feed(s, line, max) == State(Kept(line, max), s.delivered, s.tooLong + Overflows(line, max))
  {
    hide Kept;
    hide Overflows;
    if line == [] {
      KeptNothing(max);
    } else {
      KeptNext(line, max);
      LineForm(s, line[..|line| - 1], max);
      assert line[|line| - 1] in line;
    }
  }

  lemma KeptNothing(max: nat)
    ensures Kept([], max) == [] && Overflows([], max) == 0
  {
    DivUnique(0, max + 1, 0, 0);
  }

  // The stream of some lines, each ended by a newline.
  function Stream(lines: seq<seq<Byte>>): seq<Byte> {
    if lines == [] then [] else Stream(lines[..|lines| - 1]) + (lines[|lines| - 1] + [NEWLINE])
  }

  function AllKept(lines: seq<seq<Byte>>, max: nat): (k: seq<seq<Byte>>)
    ensures |k| == |lines| && forall i :: 0 <= i < |lines| ==> k[i] == Kept(lines[i], max)
  {
    seq(|lines|, i requires 0 <= i < |lines| => Kept(lines[i], max))
  }

  // How often the client is told in the course of some lines.
  function AllOverflows(lines: seq<seq<Byte>>, max: nat): nat {
    if lines == [] then 0
    else AllOverflows(lines[..|lines| - 1], max) + Overflows(lines[|lines| - 1], max)
  }

  // A line is kept whole, and nothing is said, exactly when it is not too long.
  lemma KeptWhole(line: seq<Byte>, max: nat)
    ensures Kept(line, max) == line <==> |line| <= max
    ensures Overflows(line, max) == 0 <==> |line| <= max
  {
    if |line| <= max {
      DivUnique(|line|, max + 1, 0, |line|);
    } else {
      DivStep(|line|, max + 1);
    }
  }

  // So the messages delivered are the lines sent exactly when no line is too
  // long.
  lemma LinesWhole(lines: seq<seq<Byte>>, max: nat)
    ensures AllKept(lines, max) == lines <==> forall i :: 0 <= i < |lines| ==> |lines[i]| <= max
  {
    hide Kept;
    forall i | 0 <= i < |lines| ensures Kept(lines[i], max) == lines[i] <==> |lines[i]| <= max {
      KeptWhole(lines[i], max);
    }
    if AllKept(lines, max) == lines {
      assert forall i :: 0 <= i < |lines| ==> AllKept(lines, max)[i] == Kept(lines[i], max);
    }
  }

  // A line of one byte more than fits: the client is told, and an empty message
  // is delivered all the same.
  lemma OneTooMany(line: seq<Byte>, max: nat)
    requires NEWLINE !in line && |line| == max + 1
    ensures Feed(State([], [], 0), line + [NEWLINE], max) == State([], [[]], 1)
  {
    hide Feed;
    DivUnique(|line|, max + 1, 1, 0);
    LineDelivered(State([], [], 0), line, max);
  }

  // What is delivered of any stream: of every complete line what is kept of it,
  // and the rest of the stream, the last line begun, is pending likewise. The
  // client is told once for every overflow.
  lemma {:induction false} StreamForm(lines: seq<seq<Byte>>, rest: seq<Byte>, max: nat)
    requires (forall i :: 0 <= i < |lines| ==> NEWLINE !in lines[i]) && NEWLINE !in rest
    ensures Feed(State([], [], 0), Stream(lines) + rest, max).delivered == AllKept(lines, max)
    ensures Feed(State([], [], 0), Stream(lines) + rest, max).pending == Kept(rest, max)
    ensures Feed(State([], [], 0), Stream(lines) + rest, max).tooLong == AllOverflows(lines, max) + Overflows(rest, max)
  {
    var init := State([], [], 0);
    LinesForm(lines, max);
    FeedConcat(init, Stream(lines), rest, max);
    LineForm(Feed(init, Stream(lines), max), rest, max);
  }

  lemma {:induction false} LinesForm(lines: seq<seq<Byte>>, max: nat)
    requires forall i :: 0 <= i < |lines| ==> NEWLINE !in lines[i]
    ensures
      var s := Feed(State([], [], 0), Stream(lines), max);
      s.pending == [] && s.delivered == AllKept(lines, max) && s.tooLong == AllOverflows(lines, max)
  {
    hide Kept;
    hide Overflows;
    if lines != [] {
      var n := |lines| - 1;
      LinesForm(lines[..n], max);
      FeedConcat(State([], [], 0), Stream(lines[..n]), lines[n] + [NEWLINE], max);
      LineDelivered(Feed(State([], [], 0), Stream(lines[..n]), max), lines[n], max);
      hide Feed;
      assert AllKept(lines, max) == AllKept(lines[..n], max) + [Kept(lines[n], max)];
    }
  }

  lemma LineDelivered(s: State, line: seq<Byte>, max: nat)
    requires s.pending == [] && NEWLINE !in line
    ensures Feed(s, line + [NEWLINE], max)
      == State([], s.delivered + [Kept(line, max)], s.tooLong + Overflows(line, max))
  {
    hide Kept;
    hide Overflows;
    LineForm(s, line, max);
    var all := line + [NEWLINE];
    assert all[..|all| - 1] == line;
  }

  // Every stream is some lines and the beginning of another.
  lemma {:induction false} EveryStream(stream: seq<Byte>) returns (lines: seq<seq<Byte>>, rest: seq<Byte>)
    ensures stream == Stream(lines) + rest && NEWLINE !in rest
    ensures forall i :: 0 <= i < |lines| ==> NEWLINE !in lines[i]
  {
    if stream == [] {
      lines, rest := [], [];
    } else {
      var n := |stream| - 1;
      var ls, r := EveryStream(stream[..n]);
      assert stream == Stream(ls) + r + [stream[n]];
      if stream[n] == NEWLINE {
        lines, rest := ls + [r], [];
        assert lines[..|ls|] == ls;
        assert Stream(lines) == Stream(ls) + (r + [NEWLINE]);
      } else {
        lines, rest := ls, r + [stream[n]];
      }
    }
  }

  class Connection {
    const msgIn: array<Byte>
    const msgInLenMax: nat
    var msgInLen: nat
    ghost var delivered: seq<seq<Byte>>
    ghost var tooLong: nat

    // conn_init: room for the longest message and the byte that ends it.
    constructor (msgInLenMax: nat)
      requires 0 < msgInLenMax
      ensures this.msgInLenMax == msgInLenMax && Valid() && S() == State([], [], 0) && fresh(msgIn)
    {
      this.msgInLenMax := msgInLenMax;
      msgIn := new Byte[msgInLenMax + 1];
      msgInLen, delivered, tooLong := 0, [], 0;
    }

    ghost predicate Valid()
      reads this
    {
      msgIn.Length == msgInLenMax + 1 && msgInLen <= msgInLenMax
    }

    ghost function S(): State
      requires Valid()
      reads this, msgIn
    {
      State(msgIn[..msgInLen], delivered, tooLong)
    }

    // The byte loop of data_event_handle over what one read returned.
    method DataEventHandle(buf: seq<Byte>)
      requires Valid()
      modifies this, msgIn
      ensures Valid() && S() == Feed(old(S()), buf, msgInLenMax)
    {
      ghost var start := S();
      for i := 0 to |buf|
        invariant Valid() && S() == Feed(start, buf[..i], msgInLenMax)
      {
        assert buf[..i + 1][..i] == buf[..i];
        if buf[i] == NEWLINE {
          ghost var message := msgIn[..msgInLen];
          msgIn[msgInLen] := 0;
          assert msgIn[..msgInLen] == message;
          delivered := delivered + [msgIn[..msgInLen]];
          msgInLen := 0;
        } else if msgInLen < msgInLenMax {
          ghost var before := msgIn[..msgInLen];
          msgIn[msgInLen] := buf[i];
          assert msgIn[..msgInLen + 1] == before + [buf[i]];
          msgInLen := msgInLen + 1;
        } else {
          tooLong := tooLong + 1;
          msgInLen := 0;
        }
      }
      assert buf[..|buf|] == buf;
    }
  }
}
