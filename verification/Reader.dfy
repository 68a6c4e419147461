/** AsyncMessageReaderImpl for version 4: reads messages from chunks of any size, keeps up to 128
  * bytes between calls, and has array memory filled by the transport out of band. */
module Readers {
  import opened Numbers
  import opened Results
  import opened Messages
  import opened Layout
  import opened Pieces
  import opened Restriction
  import opened Frames
  import opened ReaderFrames
  import opened ReaderTurns
  import opened ReaderFields
  import opened ReaderData

  datatype ReadReturn = ReadDone | ReadContinueNoBuffers | ReadContinueBuffers

  // Bytes of the right number as the value they stand for.

  function AsByte(b: Bytes): byte { if |b| == 1 then b[0] else 0 }

  function AsUint16(b: Bytes): uint16
  {
    if |b| == 2 then
      Widths();
      FromLittleBound(b);
      FromLittle(b)
    else 0
  }

  function AsNodeID(b: Bytes): NodeID { if |b| == 16 then b else ZERO_ID }

  lemma AsLittle(v: uint16)
    ensures AsUint16(Little(v, 2)) == v
  {
    hide Little, FromLittle;
    Widths();
    LittleRoundTrip(v, 2);
  }

  class AsyncMessageReader {
    var stateStack: seq<ReadFrame>
    const buf: array<byte>
    var bufReadPos: nat
    var bufAvailPos: nat
    var otherBufs: Bytes
    var messagePos: uint32
    var version: uint16
    var readMessages: seq<Message>
    ghost var taken: Bytes             // every byte read so far, in order
    ghost var wanted: Option<Message>  // the message whose bytes the caller promises to deliver
    ghost var goals: seq<Frame>        // the point reached in its transfer

    /** The bytes at hand: the carry-over buffer, then the buffers of the call. */
    ghost function Ahead(): Bytes
      requires bufReadPos <= bufAvailPos <= buf.Length
      reads this, buf
    {
      buf[bufReadPos..bufAvailPos] + otherBufs
    }

    ghost predicate Framing()
      reads this, buf
    {
      && buf.Length == 128
      && bufReadPos <= bufAvailPos <= 128
      && (bufReadPos == bufAvailPos ==> bufAvailPos == 0)
      && messagePos == Wrap(|taken|)
      && stateStack != []
    }

    /** All bytes ever handed over, read or not. */
    ghost function Stream(): Bytes
      requires Framing()
      reads this, buf
    {
      taken + Ahead()
    }

    // -------------------------------------------------------------- bytes in

    function Distance(limit: uint32): uint32
      reads this
    {
      Wrap(limit - messagePos)
    }

    function Available(): nat
      requires Framing()
      reads this, buf
      ensures Available() == |Ahead()|
    {
      bufAvailPos - bufReadPos + |otherBufs|
    }

    method ReadSomeBytes(limit: uint32, len: nat) returns (r: Result<Bytes>)
      requires Framing()
      modifies `messagePos, `bufReadPos, `bufAvailPos, `otherBufs, `taken
      ensures Framing() && Stream() == old(Stream())
      ensures r.Err? <==> len > 0 && old(Distance(limit)) == 0
      ensures r.Err? ==> taken == old(taken)
      ensures r.Ok? ==>
                && taken == old(taken) + r.value
                && |r.value| <= len && (len > 0 ==> |r.value| <= old(Distance(limit)))
                && (|r.value| < len ==> |r.value| == old(Distance(limit)) || Ahead() == [])
                && (len <= old(Distance(limit)) && len <= old(Available()) ==> |r.value| == len)
      ensures old(Ahead()) == (if r.Ok? then r.value else []) + Ahead()
    {
      hide Wrap;
      if len == 0 { return Ok([]); }
      var n := if len <= Distance(limit) then len else Distance(limit);
      if n == 0 { return Err(ProtocolError); }
      var b := Consume(if n <= Available() then n else Available());
      return Ok(b);
    }

    /** Copies n bytes out of buf and then other_bufs, and moves on. */
    method Consume(n: nat) returns (b: Bytes)
      requires Framing() && n <= Available()
      modifies `messagePos, `bufReadPos, `bufAvailPos, `otherBufs, `taken
      ensures Framing() && Stream() == old(Stream())
      ensures |b| == n && old(Ahead()) == b + Ahead() && taken == old(taken) + b
    {
      hide Wrap;
      var c := if n <= bufAvailPos - bufReadPos then n else bufAvailPos - bufReadPos;
      b := buf[bufReadPos..bufReadPos + c];
      ghost var kept := buf[bufReadPos + c..bufAvailPos];
      assert buf[bufReadPos..bufAvailPos] == b + kept;
      if bufReadPos + c == bufAvailPos {
        bufReadPos, bufAvailPos := 0, 0;
      } else {
        bufReadPos := bufReadPos + c;
      }
      assert buf[bufReadPos..bufAvailPos] == kept;
      ghost var front, behind := b, otherBufs;
      if c < n {
        b := b + otherBufs[..n - c];
        otherBufs := otherBufs[n - c..];
      }
      TakenFirst(front, kept, behind, n);
      WrapStep(messagePos, |taken|, n);
      messagePos := Wrap(messagePos + n);
      StreamSplits(taken, b, Ahead());
      taken := taken + b;
    }

    method ReadAllBytes(limit: uint32, len: nat) returns (r: Outcome<Bytes>)
      requires Framing()
      modifies `messagePos, `bufReadPos, `bufAvailPos, `otherBufs, `taken
      ensures Framing() && Stream() == old(Stream())
      ensures r.Fail? <==> old(Distance(limit)) < len
      ensures r.Wait? ==> |old(Ahead())| < len
      ensures r.Got? ==> |r.value| == len && taken == old(taken) + r.value && old(Ahead()) == r.value + Ahead()
      ensures !r.Got? ==> taken == old(taken) && Ahead() == old(Ahead())
    {
      hide Wrap;
      if Distance(limit) < len { return Fail(ProtocolError); }
      r := Wait;
      if Available() < len { return; }
      var b := ReadSomeBytes(limit, len);
      if b.Err? {
        assert false;
      } else {
        r := Got(b.value);
      }
    }

    method PeekByte(limit: uint32) returns (r: Outcome<byte>)
      requires Framing()
      ensures r.Fail? <==> Distance(limit) == 0
      ensures r.Wait? ==> Ahead() == []
      ensures r.Got? ==> Ahead() != [] && r.value == Ahead()[0]
    {
      hide Wrap;
      if Distance(limit) == 0 { return Fail(ProtocolError); }
      if Available() == 0 { return Wait; }
      return Got(if bufReadPos < bufAvailPos then buf[bufReadPos] else otherBufs[0]);
    }

    /** The bytes of a number whose marker has been seen to be complete. */
    method ReadMarked(limit: uint32, width: nat) returns (r: Outcome<Bytes>)
      requires Framing() && Distance(limit) >= 1 && Ahead() != []
      modifies `messagePos, `bufReadPos, `bufAvailPos, `otherBufs, `taken
      ensures Framing() && Stream() == old(Stream()) && |taken| >= |old(taken)|
      ensures r.Fail? <==> |old(Ahead())| >= 1 + width && old(Distance(limit)) < 1 + width
      ensures r.Wait? <==> |old(Ahead())| < 1 + width
      ensures r.Wait? ==> taken == old(taken) && Ahead() == old(Ahead())
      ensures r.Got? ==>
                && |old(Ahead())| >= 1 + width && r.value == old(Ahead())[1..1 + width]
                && taken == old(taken) + old(Ahead())[..1 + width] && Ahead() == old(Ahead())[1 + width..]
    {
      hide Wrap;
      if Available() < 1 + width { return Wait; }
      var b := ReadAllBytes(limit, 1);
      WrapStep(old(messagePos), |old(taken)|, 1);
      DistanceStep(limit, old(messagePos), messagePos, 1);
      r := ReadAllBytes(limit, width);
      if r.Got? {
        TwoPieces(old(Ahead()), old(taken), b.value, r.value, Ahead());
      }
    }

    method ReadUintX(limit: uint32) returns (r: Outcome<uint32>)
      requires Framing()
      modifies `messagePos, `bufReadPos, `bufAvailPos, `otherBufs, `taken
      ensures Framing() && Stream() == old(Stream()) && |taken| >= |old(taken)|
      ensures var t, d := TakeUintX(old(Ahead())), old(Distance(limit));
        && (r.Fail? <==> d == 0 || t.Invalid? || (t.Took? && d < t.size))
        && (r.Got? ==> t.Took? && r.value == t.value && 0 < t.size <= |old(Ahead())|
                       && taken == old(taken) + old(Ahead())[..t.size] && Ahead() == old(Ahead())[t.size..])
        && (r.Wait? ==> t.Short? && taken == old(taken) && Ahead() == old(Ahead()))
    {
      hide Wrap;
      var b1 := PeekByte(limit);
      if !b1.Got? { return if b1.Wait? then Wait else Fail(b1.error); }
      if b1.value <= 252 {
        var b := ReadAllBytes(limit, 1);
        assert b.value == old(Ahead())[..1];
        return Got(b1.value);
      }
      if b1.value == 255 { return Fail(ProtocolError); }
      var width := if b1.value == 253 then 2 else 4;
      var b := ReadMarked(limit, width);
      if !b.Got? { return if b.Wait? then Wait else Fail(b.error); }
      Widths();
      FromLittleBound(b.value);
      return Got(FromLittle(b.value));
    }

    method ReadIntX(limit: uint32) returns (r: Outcome<int32>)
      requires Framing()
      modifies `messagePos, `bufReadPos, `bufAvailPos, `otherBufs, `taken
      ensures Framing() && Stream() == old(Stream()) && |taken| >= |old(taken)|
      ensures var t, d := TakeIntX(old(Ahead())), old(Distance(limit));
        && (r.Fail? <==> d == 0 || t.Invalid? || (t.Took? && d < t.size))
        && (r.Got? ==> t.Took? && r.value == t.value && 0 < t.size <= |old(Ahead())|
                       && taken == old(taken) + old(Ahead())[..t.size] && Ahead() == old(Ahead())[t.size..])
        && (r.Wait? ==> t.Short? && taken == old(taken) && Ahead() == old(Ahead()))
    {
      hide Wrap;
      var b1 := PeekByte(limit);
      if !b1.Got? { return if b1.Wait? then Wait else Fail(b1.error); }
      if FromTwos8(b1.value) <= 124 {
        var b := ReadAllBytes(limit, 1);
        assert b.value == old(Ahead())[..1];
        return Got(FromTwos8(b1.value));
      }
      if b1.value == 127 { return Fail(ProtocolError); }
      var width := if b1.value == 125 then 2 else 4;
      var b := ReadMarked(limit, width);
      if !b.Got? { return if b.Wait? then Wait else Fail(b.error); }
      Widths();
      FromLittleBound(b.value);
      return Got(FromTwos(FromLittle(b.value), width));
    }

    // -------------------------------------------------------------- one field of a turn

    /** The frame f on top holds what g calls for, and the bytes ahead are those of the transfer. */
    ghost predicate Follows(f: ReadFrame, g: Frame, tail: Bytes)
      requires Framing()
      reads this, buf
    {
      && FrameOk(g.state, g) && TopTracks(f, g)
      && |taken| + |FrameRest(g.state, g)| == g.limit < SIZE
      && Agrees(Ahead(), FrameRest(g.state, g) + tail)
      && (f.state == MessageInit || f.state == HeaderInit || g.limit <= stateStack[0].limit)
    }

    ghost predicate Ready(f: ReadFrame, g: Frame, tail: Bytes)
      reads this, buf
    {
      Framing() && Suits(f) && (wanted.Some? ==> Follows(f, g, tail))
    }

    lemma FollowsAhead(f: ReadFrame, g: Frame, tail: Bytes, p: Bytes, q: Bytes)
      requires Framing() && Follows(f, g, tail) && FrameRest(g.state, g) == p + q
      requires f.state != MessageInit && f.state != HeaderInit
      ensures Distance(f.limit) >= |p| && |taken| + |p| <= g.limit <= stateStack[0].limit
      ensures Agrees(Ahead(), p + (q + tail))
    {
      hide FrameOk, FrameRest;
      LimitCovers(f, g);
      WrapSmall(|taken|);
      WrapSmall(f.limit - |taken|);
      assert p + q + tail == p + (q + tail);
    }

    lemma FieldAhead(f: ReadFrame, g: Frame, tail: Bytes, p: Bytes, g': Frame)
      requires Framing() && Follows(f, g, tail) && Advances(g, p, g')
      requires f.state != MessageInit && f.state != HeaderInit
      ensures Distance(f.limit) >= |p|
      ensures Agrees(Ahead(), p + (FrameRest(g'.state, g') + tail))
      ensures |Ahead()| >= |p| ==> Ahead()[..|p|] == p
    {
      hide FrameOk, FrameRest, Follows;
      FollowsAhead(f, g, tail, p, FrameRest(g'.state, g'));
      AgreesOnFirst(Ahead(), p, FrameRest(g'.state, g') + tail);
    }

    /** R(read_uint_x(…)): an exception if the number is to be rejected, or go on as next(…). */
    method CheckedUintXField(f: ReadFrame, rejected: uint32 -> bool, next: uint32 -> ReadFrame, ghost g: Frame,
                             ghost tail: Bytes,
                      ghost v: uint32, ghost g': Frame)
      returns (move: Move, signal: Signal, ghost flow: Flow)
      requires Ready(f, g, tail) && f.state != MessageInit && f.state != HeaderInit
      requires forall u: uint32 :: Becomes(false, f, next(u), g, [], g')
      requires wanted.Some? ==> Becomes(true, f, next(v), g, UintX(v), g') && !rejected(v)
      modifies `messagePos, `bufReadPos, `bufAvailPos, `otherBufs, `taken
      ensures Framing() && Stream() == old(Stream()) && signal in {Go, Block}
      ensures ReadTurned(wanted.Some?, f, g, old(taken), taken, |Ahead()|, move, flow, signal)
    {
      hide FrameOk, FrameRest, Advances, Turned, TopTracks, KeepTracks, Suits, SameThing, Rank, ReadTurned, UintX,
           TakeUintX, Wrap;
      if wanted.Some? {
        FieldAhead(f, g, tail, UintX(v), g');
        UintXAhead(Ahead(), v, FrameRest(g'.state, g') + tail);
      }
      var r := ReadUintX(f.limit);
      match r {
        case Got(u) =>
          if rejected(u) {
            move, signal, flow := Throw(ProtocolError), Block, Stay(g);
            ReadThrows(f, g, old(taken), taken, |Ahead()|, ProtocolError, flow, signal);
            return;
          }
          move, signal, flow := Keep(next(u)), Go, Stay(g');
          assert Becomes(false, f, next(u), g, [], g');
          ReadField(wanted.Some?, f, next(u), g, UintX(v), g', old(taken), taken, |Ahead()|);
        case Wait =>
          move, signal, flow := Keep(f), Block, Stay(g);
          assert Becomes(false, f, next(0), g, [], g');
          ReadBlocked(wanted.Some?, f, g, UintX(v), g', taken, |Ahead()|);
        case Fail(e) =>
          move, signal, flow := Throw(e), Block, Stay(g);
          ReadThrows(f, g, old(taken), taken, |Ahead()|, e, flow, signal);
      }
    }

    /** R(read_uint_x(…)): go on as next(…). */
    method UintXField(f: ReadFrame, next: uint32 -> ReadFrame, ghost g: Frame, ghost tail: Bytes,
                      ghost v: uint32, ghost g': Frame)
      returns (move: Move, signal: Signal, ghost flow: Flow)
      requires Ready(f, g, tail) && f.state != MessageInit && f.state != HeaderInit
      requires forall u: uint32 :: Becomes(false, f, next(u), g, [], g')
      requires wanted.Some? ==> Becomes(true, f, next(v), g, UintX(v), g')
      modifies `messagePos, `bufReadPos, `bufAvailPos, `otherBufs, `taken
      ensures Framing() && Stream() == old(Stream()) && signal in {Go, Block}
      ensures ReadTurned(wanted.Some?, f, g, old(taken), taken, |Ahead()|, move, flow, signal)
    {
      hide Becomes, Ready, ReadTurned, UintX;
      move, signal, flow := CheckedUintXField(f, u => false, next, g, tail, v, g');
    }

    /** R(read_int_x(…)) */
    method IntXField(f: ReadFrame, next: int32 -> ReadFrame, ghost g: Frame, ghost tail: Bytes,
                     ghost v: int32, ghost g': Frame)
      returns (move: Move, signal: Signal, ghost flow: Flow)
      requires Ready(f, g, tail) && f.state != MessageInit && f.state != HeaderInit
      requires forall u: int32 :: Becomes(false, f, next(u), g, [], g')
      requires Becomes(wanted.Some?, f, next(v), g, IntX(v), g')
      modifies `messagePos, `bufReadPos, `bufAvailPos, `otherBufs, `taken
      ensures Framing() && Stream() == old(Stream()) && signal in {Go, Block}
      ensures ReadTurned(wanted.Some?, f, g, old(taken), taken, |Ahead()|, move, flow, signal)
    {
      hide FrameOk, FrameRest, Advances, Turned, TopTracks, KeepTracks, Suits, SameThing, Rank, ReadTurned, Wrap, IntX,
           TakeIntX;
      if wanted.Some? {
        FieldAhead(f, g, tail, IntX(v), g');
        IntXAhead(Ahead(), v, FrameRest(g'.state, g') + tail);
      }
      var r := ReadIntX(f.limit);
      match r {
        case Got(u) =>
          move, signal, flow := Keep(next(u)), Go, Stay(g');
          assert Becomes(false, f, next(u), g, [], g');
          ReadField(wanted.Some?, f, next(u), g, IntX(v), g', old(taken), taken, |Ahead()|);
        case Wait =>
          move, signal, flow := Keep(f), Block, Stay(g);
          assert Becomes(false, f, next(0), g, [], g');
          ReadBlocked(wanted.Some?, f, g, IntX(v), g', taken, |Ahead()|);
        case Fail(e) =>
          move, signal, flow := Throw(e), Block, Stay(g);
          ReadThrows(f, g, old(taken), taken, |Ahead()|, e, flow, signal);
      }
    }

    /** R(read_all_bytes(…, len)) */
    method BytesField(f: ReadFrame, len: nat, next: Bytes -> ReadFrame, ghost g: Frame, ghost tail: Bytes,
                      ghost p: Bytes, ghost g': Frame)
      returns (move: Move, signal: Signal, ghost flow: Flow)
      requires Ready(f, g, tail) && f.state != MessageInit && f.state != HeaderInit && len > 0
      requires forall b: Bytes :: Becomes(false, f, next(b), g, [], g')
      requires wanted.Some? ==> |p| == len && Becomes(true, f, next(p), g, p, g')
      modifies `messagePos, `bufReadPos, `bufAvailPos, `otherBufs, `taken
      ensures Framing() && Stream() == old(Stream()) && signal in {Go, Block}
      ensures ReadTurned(wanted.Some?, f, g, old(taken), taken, |Ahead()|, move, flow, signal)
      ensures old(|Ahead()|) < len <= old(Distance(f.limit)) ==>
                move == Keep(f) && signal == Block && taken == old(taken)
    {
      hide FrameOk, FrameRest, Advances, Turned, TopTracks, KeepTracks, Suits, SameThing, Rank, ReadTurned, Wrap;
      if wanted.Some? {
        FieldAhead(f, g, tail, p, g');
      }
      var r := ReadAllBytes(f.limit, len);
      match r {
        case Got(b) =>
          assert old(Ahead())[..len] == b;
          move, signal, flow := Keep(next(b)), Go, Stay(g');
          assert Becomes(false, f, next(b), g, [], g');
          ReadField(wanted.Some?, f, next(b), g, p, g', old(taken), taken, |Ahead()|);
        case Wait =>
          move, signal, flow := Keep(f), Block, Stay(g);
          assert Becomes(false, f, next([]), g, [], g');
          ReadBlocked(wanted.Some?, f, g, p, g', taken, |Ahead()|);
        case Fail(e) =>
          move, signal, flow := Throw(e), Block, Stay(g);
          ReadThrows(f, g, old(taken), taken, |Ahead()|, e, flow, signal);
      }
    }

    /** Go on as f' without reading. */
    method Pass(f: ReadFrame, f': ReadFrame, ghost g: Frame, ghost tail: Bytes, ghost g': Frame)
      returns (move: Move, signal: Signal, ghost flow: Flow)
      requires Ready(f, g, tail) && Becomes(wanted.Some?, f, f', g, [], g') && Rank(f'.state) < Rank(f.state)
      ensures ReadTurned(wanted.Some?, f, g, taken, taken, |Ahead()|, move, flow, signal) && signal == Go
    {
      hide FrameOk, FrameRest, Advances, Turned, TopTracks, KeepTracks, Suits, SameThing, Rank, ReadTurned, Wrap;
      move, signal, flow := Keep(f'), Go, Stay(g');
      assert taken + [] == taken;
      ReadField(wanted.Some?, f, f', g, [], g', taken, taken, |Ahead()|);
    }

    /** pop_state, without reading. */
    method End(f: ReadFrame, done: Part, ghost g: Frame, ghost tail: Bytes)
      returns (move: Move, signal: Signal, ghost flow: Flow)
      requires Ready(f, g, tail) && MoveOk(f, Pop(done)) && Rank(f.popState) < LEVEL + Rank(f.state)
      requires wanted.Some? ==> Ends(g, []) && done == Complete(f.part, g.data)
      ensures ReadTurned(wanted.Some?, f, g, taken, taken, |Ahead()|, move, flow, signal) && signal == Go
    {
      hide FrameOk, FrameRest, Advances, Turned, TopTracks, KeepTracks, Suits, SameThing, Rank, ReadTurned, Wrap, Ends,
           Complete, MoveOk;
      move, signal, flow := Pop(done), Go, Leave;
      assert taken + [] == taken;
      ReadEnd(wanted.Some?, f, done, g, [], taken, taken, |Ahead()|);
    }

    /** R(read_all_bytes(…, len)), then pop_state. */
    method BytesEnd(f: ReadFrame, len: nat, done: Bytes -> Part, ghost g: Frame, ghost tail: Bytes, ghost p: Bytes)
      returns (move: Move, signal: Signal, ghost flow: Flow)
      requires Ready(f, g, tail) && f.state != MessageInit && f.state != HeaderInit && len > 0 && !f.part.ArrayPart?
      requires forall b: Bytes :: MoveOk(f, Pop(done(b)))
      requires wanted.Some? ==> |p| == len && Ends(g, p) && done(p) == Complete(f.part, g.data)
      modifies `messagePos, `bufReadPos, `bufAvailPos, `otherBufs, `taken
      ensures Framing() && Stream() == old(Stream()) && signal in {Go, Block}
      ensures ReadTurned(wanted.Some?, f, g, old(taken), taken, |Ahead()|, move, flow, signal)
      ensures old(|Ahead()|) < len <= old(Distance(f.limit)) ==>
                move == Keep(f) && signal == Block && taken == old(taken)
    {
      hide FrameOk, FrameRest, Advances, Turned, TopTracks, KeepTracks, Suits, SameThing, Rank, ReadTurned, Wrap, Ends,
           Complete, MoveOk;
      if wanted.Some? {
        EndAhead(f, g, tail, p);
      }
      var r := ReadAllBytes(f.limit, len);
      match r {
        case Got(b) =>
          assert old(Ahead())[..len] == b;
          move, signal, flow := Pop(done(b)), Go, Leave;
          ReadEnd(wanted.Some?, f, done(b), g, p, old(taken), taken, |Ahead()|);
        case Wait =>
          move, signal, flow := Keep(f), Block, Stay(g);
          EndBlocked(wanted.Some?, f, g, p, taken, |Ahead()|);
        case Fail(e) =>
          move, signal, flow := Throw(e), Block, Stay(g);
          ReadThrows(f, g, old(taken), taken, |Ahead()|, e, flow, signal);
      }
    }

    lemma EndAhead(f: ReadFrame, g: Frame, tail: Bytes, p: Bytes)
      requires Framing() && Follows(f, g, tail) && Ends(g, p)
      requires f.state != MessageInit && f.state != HeaderInit
      ensures Distance(f.limit) >= |p| && FrameOk(g.state, g) && TopTracks(f, g)
      ensures |Ahead()| >= |p| ==> Ahead()[..|p|] == p
    {
      hide FrameOk, FrameRest, Rank, FramePieces, TopTracks;
      assert p + [] == p;
      FollowsAhead(f, g, tail, p, []);
      AgreesOnFirst(Ahead(), p, [] + tail);
    }

    /** push_state(…, limit() - message_pos, …) */
    method PushState(f: ReadFrame, state: State, popState: State, part: Part, param1: nat,
                     ghost g: Frame, ghost tail: Bytes, ghost g': Frame, ghost gc: Frame)
      returns (move: Move, signal: Signal, ghost flow: Flow)
      requires Ready(f, g, tail) && f.state != MessageInit && f.state != HeaderInit && !part.ArrayPart?
      requires MoveOk(f, Push(f, ReadFrame(state, popState, f.limit, part, param1, 0)))
      requires LEVEL + Rank(state) < Rank(f.state)
      requires wanted.Some? ==>
                 && f.limit == g.limit && Pushes(g, g', gc, |taken|)
                 && MoveTracks(f, g, Push(f, ReadFrame(state, popState, f.limit, part, param1, 0)), Enter(g', gc))
      ensures signal == Go && ReadTurned(wanted.Some?, f, g, taken, taken, |Ahead()|, move, flow, signal)
    {
      hide FrameOk, FrameRest, Advances, Turned, TopTracks, KeepTracks, Suits, SameThing, Rank, ReadTurned, Wrap,
           MoveOk, MoveTracks, Pushes;
      var limit := Wrap(messagePos + Distance(f.limit));
      WrapRelative(f.limit, messagePos);
      signal, flow := Go, Enter(g', gc);
      if limit > stateStack[0].limit {
        move := Throw(ProtocolError);
        ReadThrows(f, g, taken, taken, |Ahead()|, ProtocolError, flow, signal);
      } else {
        var child := ReadFrame(state, popState, limit, part, param1, 0);
        move := Push(f, child);
        ReadPush(wanted.Some?, f, f, child, g, g', gc, taken, |Ahead()|);
      }
    }

    lemma TextAhead(f: ReadFrame, g: Frame, tail: Bytes, text: Bytes, next: State)
      requires Framing() && Follows(f, g, tail) && AdvancesText(g, text, next)
      requires f.state != MessageInit && f.state != HeaderInit
      ensures |text| <= UINT32_MAX && Distance(f.limit) >= |UintX(|text|)| + |text|
      ensures Agrees(Ahead(), UintX(|text|) + (text + (FrameRest(next, g) + tail)))
      ensures |taken| + |UintX(|text|)| + |text| <= g.limit <= stateStack[0].limit && g.limit < SIZE
    {
      hide TextBefore, FrameOk, FrameRest, FramePieces, TextPieces, UintX, Rank;
      FollowsAhead(f, g, tail, Counted(text), FrameRest(next, g));
      var q := FrameRest(next, g) + tail;
      assert UintX(|text|) + text + q == UintX(|text|) + (text + q);
    }

    /** read_string4 after the length: as much of the text as is ahead, the rest in a frame of its own. */
    method TextRest(f: ReadFrame, target: Target, next: State, size: uint32, ghost g: Frame, ghost tail: Bytes,
                    ghost text: Bytes, ghost before: Bytes)
      returns (move: Move, signal: Signal, ghost flow: Flow)
      requires Framing() && |before| < |taken| && BecomesText(wanted.Some?, f, target, next, g, text)
      requires wanted.Some? ==>
                 && FrameOk(g.state, g) && size == |text| && taken == before + UintX(|text|)
                 && Agrees(Ahead(), text + (FrameRest(next, g) + tail))
                 && Distance(f.limit) >= |text| && |taken| + |text| <= stateStack[0].limit
      modifies `messagePos, `bufReadPos, `bufAvailPos, `otherBufs, `taken
      ensures Framing() && Stream() == old(Stream()) && signal in {Go, Block}
      ensures ReadTurned(wanted.Some?, f, g, before, taken, |Ahead()|, move, flow, signal)
    {
      hide FrameOk, FrameRest, Advances, Turned, TopTracks, KeepTracks, Suits, SameThing, Rank, ReadTurned, Wrap,
           BecomesText, UintX, TargetSuits, Store, WithText, TextFrame;
      var s := ReadSomeBytes(f.limit, size);
      match s {
        case Ok(value) =>
          if wanted.Some? {
            AgreesOnRest(value, Ahead(), text, FrameRest(next, g) + tail);
            assert before + UintX(|text|) + value == before + (UintX(|text|) + value);
          }
          if |value| == size {
            assert wanted.Some? ==> value == text;
            move, signal, flow := Keep(WithText(f, target, value, next)), Go, Stay(g.(state := next));
            ReadText(wanted.Some?, f, target, next, g, text, value, before, taken, |Ahead()|);
          } else {
            var limit := Wrap(messagePos + (size - |value|));
            if wanted.Some? {
              WrapSmall(|taken|);
              WrapSmall(|taken| + (|text| - |value|));
            }
            signal := Block;
            if limit > stateStack[0].limit {
              move, flow := Throw(ProtocolError), Stay(g);
              ReadThrows(f, g, before, taken, |Ahead()|, ProtocolError, flow, signal);
            } else {
              move := Push(f, TextFrame(target, next, limit, value, size));
              flow := Enter(g, GoalString(text, next, limit, |value|));
              TextInterrupted(wanted.Some?, f, target, next, g, text, value, size, limit, before, taken, |Ahead()|);
            }
          }
        case Err(e) =>
          move, signal, flow := Throw(e), Block, Stay(g);
          ReadThrows(f, g, before, taken, |Ahead()|, e, flow, signal);
      }
    }

    /** R(read_string4(…, next)) into target. */
    method TextField(f: ReadFrame, target: Target, next: State, ghost g: Frame, ghost tail: Bytes, ghost text: Bytes)
      returns (move: Move, signal: Signal, ghost flow: Flow)
      requires Ready(f, g, tail) && f.state != MessageInit && f.state != HeaderInit
      requires BecomesText(wanted.Some?, f, target, next, g, text)
      modifies `messagePos, `bufReadPos, `bufAvailPos, `otherBufs, `taken
      ensures Framing() && Stream() == old(Stream()) && signal in {Go, Block}
      ensures ReadTurned(wanted.Some?, f, g, old(taken), taken, |Ahead()|, move, flow, signal)
    {
      hide FrameOk, FrameRest, Advances, Turned, TopTracks, KeepTracks, Suits, SameThing, Rank, ReadTurned, Wrap,
           BecomesText, AdvancesText, UintX, TakeUintX, TargetSuits, Store;
      ghost var rest := text + (FrameRest(next, g) + tail);
      if wanted.Some? {
        TextAdvances(f, target, next, g, text);
        TextAhead(f, g, tail, text, next);
        UintXAhead(Ahead(), |text|, rest);
        AgreesOnFirst(Ahead(), UintX(|text|), rest);
      }
      var r := ReadUintX(f.limit);
      match r {
        case Got(size) =>
          WrapStep(old(messagePos), |old(taken)|, |taken| - |old(taken)|);
          if wanted.Some? { DistanceStep(f.limit, old(messagePos), messagePos, |UintX(|text|)|); }
          move, signal, flow := TextRest(f, target, next, size, g, tail, text, old(taken));
        case Wait =>
          move, signal, flow := Keep(f), Block, Stay(g);
          TextIntoText(f, target, next, g, text, wanted.Some?);
          TextBlocked(wanted.Some?, f, target, next, g, text, taken, |Ahead()|);
        case Fail(e) =>
          move, signal, flow := Throw(e), Block, Stay(g);
          ReadThrows(f, g, old(taken), taken, |Ahead()|, e, flow, signal);
      }
    }

    // -------------------------------------------------------------- the header

    lemma FollowsGoal(f: ReadFrame, g: Frame, tail: Bytes)
      requires Framing() && Follows(f, g, tail)
      ensures FrameOk(g.state, g) && TopTracks(f, g) && g.limit == |taken| + |FrameRest(g.state, g)| < SIZE
      ensures g.state == f.state && g.popState == f.popState
    {
      hide FrameOk, FrameRest, Holds;
    }

    lemma HeaderGoal(f: ReadFrame, g: Frame, tail: Bytes)
      requires Ready(f, g, tail) && wanted.Some? && f.part.HeaderPart?
      ensures FrameOk(g.state, g) && TopTracks(f, g) && g.data.OfHeader? && g.state == f.state
                && g.popState == f.popState
      ensures PlainHeaderState(f.state) ==> f.part.header == HeaderUpTo(HeaderOf(g), Order(f.state))
      ensures Order(f.state) > 4 ==> f.part.header.messageFlags == HeaderOf(g).messageFlags
      ensures g.limit == HeaderOf(g).headerSize && (f.state != HeaderHeaderSize ==> f.limit == g.limit)
    {
      hide FrameOk, FrameRest, TopTracks, HeaderUpTo;
      FollowsGoal(f, g, tail);
      HeaderHolds(f, g);
    }

    method StepHeaderSize(f: ReadFrame, ghost g: Frame, ghost tail: Bytes)
      returns (move: Move, signal: Signal, ghost flow: Flow)
      requires f.part.HeaderPart? && Ready(f, g, tail) && f.state in {HeaderHeaderSize, HeaderFlags}
      modifies `messagePos, `bufReadPos, `bufAvailPos, `otherBufs, `taken
      ensures Framing() && Stream() == old(Stream()) && signal in {Go, Block}
      ensures ReadTurned(wanted.Some?, f, g, old(taken), taken, |Ahead()|, move, flow, signal)
    {
      hide HeaderTail, HeaderUpTo, KeepTracks, Follows, Becomes, UintX, MoveOk, Advances, ReadTurned, TopTracks,
           FrameRest, FramePieces, EncodeTableFrom, Counted, FromLittle, FlagByte, AsUint16, Zeros, EntryTail,
           ElementTail, RestrictElements, Suits, SameThing;
      var h := f.part.header;
      ghost var gh, w := HeaderOf(g), wanted.Some?;
      if w { HeaderGoal(f, g, tail); HeaderUpToRouting(gh); FlagBytes(gh.messageFlags); }
      HeaderAlways(f, g);
      if f.state == HeaderHeaderSize {
        // limit() = l
        HeaderBecomes(w, f, g, UintX(gh.headerSize), HeaderFlags, gh.headerSize, h.(headerSize := gh.headerSize));
        move, signal, flow := UintXField(f,
                                         (l: uint32) => f.(state := HeaderFlags, limit := l,
                                                           part := HeaderPart(h.(headerSize := l))),
                                         g, tail, gh.headerSize, g.(state := HeaderFlags));
      } else {
        HeaderBecomes(w, f, g, [FlagByte(gh.messageFlags)], HeaderRouting1, f.limit,
                      h.(messageFlags := gh.messageFlags));
        move, signal, flow := BytesField(f, 1,
                                         b => f.(state := HeaderRouting1,
                                                 part := HeaderPart(h.(messageFlags := ByteFlags(AsByte(b))))),
                                         g, tail, [FlagByte(gh.messageFlags)], g.(state := HeaderRouting1));
      }
    }

    method StepHeaderNodes(f: ReadFrame, ghost g: Frame, ghost tail: Bytes)
      returns (move: Move, signal: Signal, ghost flow: Flow)
      requires f.part.HeaderPart? && Ready(f, g, tail) && f.state in {HeaderRouting1, HeaderRouting2}
      modifies `messagePos, `bufReadPos, `bufAvailPos, `otherBufs, `taken
      ensures Framing() && Stream() == old(Stream()) && signal in {Go, Block}
      ensures ReadTurned(wanted.Some?, f, g, old(taken), taken, |Ahead()|, move, flow, signal)
    {
      hide HeaderTail, HeaderUpTo, KeepTracks, Follows, Becomes, UintX, MoveOk, Advances, ReadTurned, TopTracks,
           FrameRest, FramePieces, EncodeTableFrom, Counted, FromLittle, FlagByte, AsUint16, Zeros, EntryTail,
           ElementTail, RestrictElements, Suits, SameThing;
      var h := f.part.header;
      ghost var gh, w := HeaderOf(g), wanted.Some?;
      if w { HeaderGoal(f, g, tail); HeaderUpToRouting(gh); }
      HeaderAlways(f, g);
      if f.state == HeaderRouting1 {
        if !Has(h.messageFlags, ROUTING_INFO) {
          if w { NoRouting(gh); }
          HeaderPasses(w, f, g, HeaderEndpoint1);
          move, signal, flow := Pass(f, f.(state := HeaderEndpoint1), g, tail, g.(state := HeaderEndpoint1));
        } else {
          HeaderBecomes(w, f, g, gh.senderNodeID, HeaderRouting2, f.limit, h.(senderNodeID := gh.senderNodeID));
          move, signal, flow := BytesField(f, 16,
                                           b => f.(state := HeaderRouting2,
                                                   part := HeaderPart(h.(senderNodeID := AsNodeID(b)))),
                                           g, tail, gh.senderNodeID, g.(state := HeaderRouting2));
        }
      } else {
        HeaderBecomes(w, f, g, gh.receiverNodeID, HeaderRouting3, f.limit, h.(receiverNodeID := gh.receiverNodeID));
        move, signal, flow := BytesField(f, 16,
                                         b => f.(state := HeaderRouting3,
                                                 part := HeaderPart(h.(receiverNodeID := AsNodeID(b)))),
                                         g, tail, gh.receiverNodeID, g.(state := HeaderRouting3));
      }
    }

    method StepHeaderNames(f: ReadFrame, ghost g: Frame, ghost tail: Bytes)
      returns (move: Move, signal: Signal, ghost flow: Flow)
      requires f.part.HeaderPart? && Ready(f, g, tail) && f.state in {HeaderRouting3, HeaderRouting4}
      modifies `messagePos, `bufReadPos, `bufAvailPos, `otherBufs, `taken
      ensures Framing() && Stream() == old(Stream()) && signal in {Go, Block}
      ensures ReadTurned(wanted.Some?, f, g, old(taken), taken, |Ahead()|, move, flow, signal)
    {
      hide HeaderTail, HeaderUpTo, KeepTracks, Follows, Becomes, UintX, MoveOk, Advances, ReadTurned, TopTracks,
           FrameRest, FramePieces, EncodeTableFrom, Counted, FromLittle, FlagByte, AsUint16, Zeros, EntryTail,
           ElementTail, RestrictElements, Suits, SameThing;
      var h := f.part.header;
      ghost var gh, w := HeaderOf(g), wanted.Some?;
      if w { HeaderGoal(f, g, tail); HeaderUpToRouting(gh); }
      if f.state == HeaderRouting3 {
        HeaderBecomesText(w, f, g, SenderNodeName, HeaderRouting4, gh.senderNodeName);
        move, signal, flow := TextField(f, SenderNodeName, HeaderRouting4, g, tail, gh.senderNodeName);
      } else {
        HeaderBecomesText(w, f, g, ReceiverNodeName, HeaderEndpoint1, gh.receiverNodeName);
        move, signal, flow := TextField(f, ReceiverNodeName, HeaderEndpoint1, g, tail, gh.receiverNodeName);
      }
    }

    method StepHeaderEndpoints(f: ReadFrame, ghost g: Frame, ghost tail: Bytes)
      returns (move: Move, signal: Signal, ghost flow: Flow)
      requires f.part.HeaderPart? && Ready(f, g, tail) && f.state in {HeaderEndpoint1, HeaderEndpoint2}
      modifies `messagePos, `bufReadPos, `bufAvailPos, `otherBufs, `taken
      ensures Framing() && Stream() == old(Stream()) && signal in {Go, Block}
      ensures ReadTurned(wanted.Some?, f, g, old(taken), taken, |Ahead()|, move, flow, signal)
    {
      hide HeaderTail, HeaderUpTo, KeepTracks, Follows, Becomes, UintX, MoveOk, Advances, ReadTurned, TopTracks,
           FrameRest, FramePieces, EncodeTableFrom, Counted, FromLittle, FlagByte, AsUint16, Zeros, EntryTail,
           ElementTail, RestrictElements, Suits, SameThing;
      var h := f.part.header;
      ghost var gh, w := HeaderOf(g), wanted.Some?;
      if w { HeaderGoal(f, g, tail); HeaderUpToMeta(gh); }
      HeaderAlways(f, g);
      if f.state == HeaderEndpoint1 {
        if !Has(h.messageFlags, ENDPOINT_INFO) {
          if w { NoEndpoints(gh); }
          HeaderPasses(w, f, g, HeaderPriority);
          move, signal, flow := Pass(f, f.(state := HeaderPriority), g, tail, g.(state := HeaderPriority));
        } else {
          HeaderBecomes(w, f, g, UintX(gh.senderEndpoint), HeaderEndpoint2, f.limit,
                        h.(senderEndpoint := gh.senderEndpoint));
          move, signal, flow := UintXField(f,
                                           (u: uint32) => f.(state := HeaderEndpoint2,
                                                             part := HeaderPart(h.(senderEndpoint := u))),
                                           g, tail, gh.senderEndpoint, g.(state := HeaderEndpoint2));
        }
      } else {
        HeaderBecomes(w, f, g, UintX(gh.receiverEndpoint), HeaderPriority, f.limit,
                      h.(receiverEndpoint := gh.receiverEndpoint));
        move, signal, flow := UintXField(f,
                                         (u: uint32) => f.(state := HeaderPriority,
                                                           part := HeaderPart(h.(receiverEndpoint := u))),
                                         g, tail, gh.receiverEndpoint, g.(state := HeaderPriority));
      }
    }

    method StepHeaderPriority(f: ReadFrame, ghost g: Frame, ghost tail: Bytes)
      returns (move: Move, signal: Signal, ghost flow: Flow)
      requires f.part.HeaderPart? && Ready(f, g, tail) && f.state in {HeaderPriority, HeaderMetaInfo}
      modifies `messagePos, `bufReadPos, `bufAvailPos, `otherBufs, `taken
      ensures Framing() && Stream() == old(Stream()) && signal in {Go, Block}
      ensures ReadTurned(wanted.Some?, f, g, old(taken), taken, |Ahead()|, move, flow, signal)
    {
      hide HeaderTail, HeaderUpTo, KeepTracks, Follows, Becomes, UintX, MoveOk, Advances, ReadTurned, TopTracks,
           FrameRest, FramePieces, EncodeTableFrom, Counted, FromLittle, FlagByte, AsUint16, Zeros, EntryTail,
           ElementTail, RestrictElements, Suits, SameThing;
      var h := f.part.header;
      ghost var gh, w := HeaderOf(g), wanted.Some?;
      if w { HeaderGoal(f, g, tail); HeaderUpToMeta(gh); AsLittle(gh.priority); }
      HeaderAlways(f, g);
      if f.state == HeaderPriority {
        if !Has(h.messageFlags, PRIORITY) {
          if w { HeaderAbsent(11, gh); }
          HeaderPasses(w, f, g, HeaderMetaInfo);
          move, signal, flow := Pass(f, f.(state := HeaderMetaInfo), g, tail, g.(state := HeaderMetaInfo));
        } else {
          HeaderBecomes(w, f, g, Little(gh.priority, 2), HeaderMetaInfo, f.limit, h.(priority := gh.priority));
          move, signal, flow := BytesField(f, 2,
                                           b => f.(state := HeaderMetaInfo,
                                                   part := HeaderPart(h.(priority := AsUint16(b)))),
                                           g, tail, Little(gh.priority, 2), g.(state := HeaderMetaInfo));
        }
      } else {
        if !Has(h.messageFlags, HEADER_META_INFO) {
          if w { NoMetaInfo(gh); }
          HeaderPasses(w, f, g, HeaderStringTable1);
          move, signal, flow := Pass(f, f.(state := HeaderStringTable1), g, tail, g.(state := HeaderStringTable1));
        } else {
          HeaderBecomesText(w, f, g, HeaderMetaData, HeaderMessageId1, gh.metaData);
          move, signal, flow := TextField(f, HeaderMetaData, HeaderMessageId1, g, tail, gh.metaData);
        }
      }
    }

    method StepHeaderIds(f: ReadFrame, ghost g: Frame, ghost tail: Bytes)
      returns (move: Move, signal: Signal, ghost flow: Flow)
      requires f.part.HeaderPart? && Ready(f, g, tail) && f.state in {HeaderMessageId1, HeaderMessageId2}
      modifies `messagePos, `bufReadPos, `bufAvailPos, `otherBufs, `taken
      ensures Framing() && Stream() == old(Stream()) && signal in {Go, Block}
      ensures ReadTurned(wanted.Some?, f, g, old(taken), taken, |Ahead()|, move, flow, signal)
    {
      hide HeaderTail, HeaderUpTo, KeepTracks, Follows, Becomes, UintX, MoveOk, Advances, ReadTurned, TopTracks,
           FrameRest, FramePieces, EncodeTableFrom, Counted, FromLittle, FlagByte, AsUint16, Zeros, EntryTail,
           ElementTail, RestrictElements, Suits, SameThing;
      var h := f.part.header;
      ghost var gh, w := HeaderOf(g), wanted.Some?;
      if w { HeaderGoal(f, g, tail); HeaderUpToMeta(gh); AsLittle(gh.messageID); AsLittle(gh.messageResID); }
      HeaderAlways(f, g);
      if f.state == HeaderMessageId1 {
        HeaderBecomes(w, f, g, Little(gh.messageID, 2), HeaderMessageId2, f.limit, h.(messageID := gh.messageID));
        move, signal, flow := BytesField(f, 2,
                                         b => f.(state := HeaderMessageId2,
                                                 part := HeaderPart(h.(messageID := AsUint16(b)))),
                                         g, tail, Little(gh.messageID, 2), g.(state := HeaderMessageId2));
      } else {
        HeaderBecomes(w, f, g, Little(gh.messageResID, 2), HeaderStringTable1, f.limit,
                      h.(messageResID := gh.messageResID));
        move, signal, flow := BytesField(f, 2,
                                         b => f.(state := HeaderStringTable1,
                                                 part := HeaderPart(h.(messageResID := AsUint16(b)))),
                                         g, tail, Little(gh.messageResID, 2), g.(state := HeaderStringTable1));
      }
    }

    method StepHeaderTable(f: ReadFrame, ghost g: Frame, ghost tail: Bytes)
      returns (move: Move, signal: Signal, ghost flow: Flow)
      requires f.part.HeaderPart? && Ready(f, g, tail) && f.state in {HeaderStringTable1, HeaderStringTable2}
      modifies `messagePos, `bufReadPos, `bufAvailPos, `otherBufs, `taken
      ensures Framing() && Stream() == old(Stream()) && signal in {Go, Block}
      ensures ReadTurned(wanted.Some?, f, g, old(taken), taken, |Ahead()|, move, flow, signal)
    {
      hide HeaderTail, HeaderUpTo, KeepTracks, Follows, Becomes, UintX, MoveOk, Advances, ReadTurned, TopTracks,
           FrameRest, FramePieces, EncodeTableFrom, Counted, FromLittle, FlagByte, AsUint16, Zeros, EntryTail,
           ElementTail, RestrictElements, Suits, SameThing;
      var h := f.part.header;
      ghost var gh, w := HeaderOf(g), wanted.Some?;
      if w { HeaderGoal(f, g, tail); HeaderUpToEnd(gh); FollowsGoal(f, g, tail); }
      HeaderAlways(f, g);
      TableBecomes(w, f, g);
      if f.state == HeaderStringTable1 {
        if !Has(h.messageFlags, STRING_TABLE) {
          if w { NoTable(gh); }
          HeaderPasses(w, f, g, HeaderEntryCount);
          move, signal, flow := Pass(f, f.(state := HeaderEntryCount), g, tail, g.(state := HeaderEntryCount));
        } else {
          if w { TableFits(g); }
          move, signal, flow := UintXField(f, (n: uint32) => f.(state := HeaderStringTable2, param1 := n), g, tail,
                                           if w then |gh.stringTable| else 0,
                                               g.(state := HeaderStringTable2, param1 := 0));
        }
      } else if f.param1 == 0 {
        move, signal, flow := Pass(f, f.(state := HeaderEntryCount), g, tail, g.(state := HeaderEntryCount));
      } else {
        TableItemAlways(f, g);
        move, signal, flow := UintXField(f, (code: uint32) => TableItem(f, code), g, tail,
                                         if w then gh.stringTable[g.param1].code else 0,
                                         g.(state := HeaderStringTable3, param1 := g.param1 + 1, param2 := g.param1));
      }
    }

    method StepHeaderTableText(f: ReadFrame, ghost g: Frame, ghost tail: Bytes)
      returns (move: Move, signal: Signal, ghost flow: Flow)
      requires f.part.HeaderPart? && Ready(f, g, tail) && f.state == HeaderStringTable3
      modifies `messagePos, `bufReadPos, `bufAvailPos, `otherBufs, `taken
      ensures Framing() && Stream() == old(Stream()) && signal in {Go, Block}
      ensures ReadTurned(wanted.Some?, f, g, old(taken), taken, |Ahead()|, move, flow, signal)
    {
      hide HeaderTail, HeaderUpTo, KeepTracks, Follows, Becomes, UintX, MoveOk, Advances, ReadTurned, TopTracks,
           FrameRest, FramePieces, EncodeTableFrom, Counted, FromLittle, FlagByte, AsUint16, Zeros, EntryTail,
           ElementTail, RestrictElements, Suits, SameThing;
      ghost var gh, w := HeaderOf(g), wanted.Some?;
      if w { HeaderGoal(f, g, tail); }
      TableTextBecomes(w, f, g);
      move, signal, flow := TextField(f, TableText, HeaderStringTable2, g, tail,
                                      if w then gh.stringTable[g.param2].text else []);
    }

    method StepHeaderCount(f: ReadFrame, ghost g: Frame, ghost tail: Bytes)
      returns (move: Move, signal: Signal, ghost flow: Flow)
      requires f.part.HeaderPart? && Ready(f, g, tail) && f.state == HeaderEntryCount
      modifies `messagePos, `bufReadPos, `bufAvailPos, `otherBufs, `taken
      ensures Framing() && Stream() == old(Stream()) && signal in {Go, Block}
      ensures ReadTurned(wanted.Some?, f, g, old(taken), taken, |Ahead()|, move, flow, signal)
    {
      hide HeaderTail, HeaderUpTo, KeepTracks, Follows, Becomes, UintX, MoveOk, Advances, ReadTurned, TopTracks,
           FrameRest, FramePieces, EncodeTableFrom, Counted, FromLittle, FlagByte, AsUint16, Zeros, EntryTail,
           ElementTail, RestrictElements, Suits, SameThing;
      var h := f.part.header;
      ghost var gh, w := HeaderOf(g), wanted.Some?;
      ghost var g' := g.(state := HeaderExtended1, param1 := 0);
      if w { HeaderGoal(f, g, tail); HeaderHolds(f, g); }
      HeaderAlways(f, g);
      EntryCountBecomes(w, f, g);
      if !Has(h.messageFlags, MULTIPLE_ENTRIES) {
        move, signal, flow := Pass(f, f.(state := HeaderExtended1, part := HeaderPart(h.(entryCount := 1))), g, tail,
                                   g');
      } else {
        // Too many entries in message
        move, signal, flow := CheckedUintXField(f, (c: uint32) => c > UINT16_MAX,
          (c: uint32) => f.(state := HeaderExtended1,
                            part := HeaderPart(h.(entryCount := if c > UINT16_MAX then 0 else c))),
          g, tail, gh.entryCount, g');
      }
    }

    method StepHeaderExtended(f: ReadFrame, ghost g: Frame, ghost tail: Bytes)
      returns (move: Move, signal: Signal, ghost flow: Flow)
      requires f.part.HeaderPart? && f.popState == MessageEntries && Ready(f, g, tail)
                && f.state in {HeaderExtended1, HeaderExtended2}
      modifies `messagePos, `bufReadPos, `bufAvailPos, `otherBufs, `taken
      ensures Framing() && Stream() == old(Stream()) && signal in {Go, Block}
      ensures ReadTurned(wanted.Some?, f, g, old(taken), taken, |Ahead()|, move, flow, signal)
      ensures old(|Ahead()|) < Unsplit(f) <= old(Distance(f.limit)) ==>
                move == Keep(f) && signal == Block && taken == old(taken)
    {
      hide HeaderTail, HeaderUpTo, KeepTracks, Follows, Becomes, UintX, MoveOk, Advances, ReadTurned, TopTracks,
           FrameRest, FramePieces, EncodeTableFrom, Counted, FromLittle, FlagByte, AsUint16, Zeros, EntryTail,
           ElementTail, RestrictElements, Suits, SameThing;
      var h := f.part.header;
      ghost var gh, w := HeaderOf(g), wanted.Some?;
      if w { HeaderGoal(f, g, tail); HeaderUpToEnd(gh); HeaderComplete(f, g); HeaderEnds(g); ExtendedFits(f, g, tail); }
      HeaderAlways(f, g);
      HeaderDone(f);
      if f.state == HeaderExtended1 {
        if !Has(h.messageFlags, EXTENDED) {
          move, signal, flow := End(f, f.part, g, tail);
        } else {
          HeaderBecomes(w, f, g, UintX(|gh.extended|), HeaderExtended2, f.limit, h.(extended := Zeros(|gh.extended|)));
          move, signal, flow := UintXField(f,
                                           (n: uint32) => f.(state := HeaderExtended2,
                                                             part := HeaderPart(h.(extended := Zeros(n)))),
                                           g, tail, if w then |gh.extended| else 0, g.(state := HeaderExtended2));
        }
      } else if |h.extended| > 0 {
        move, signal, flow := BytesEnd(f, |h.extended|, b => HeaderPart(h.(extended := b)), g, tail, gh.extended);
      } else {
        move, signal, flow := End(f, f.part, g, tail);
      }
    }

    lemma ExtendedFits(f: ReadFrame, g: Frame, tail: Bytes)
      requires Ready(f, g, tail) && wanted.Some? && f.part.HeaderPart? && g.data.OfHeader? && g.state == f.state
      ensures f.state == HeaderExtended1 && Has(HeaderOf(g).messageFlags, EXTENDED) ==>
                |HeaderOf(g).extended| <= UINT32_MAX
    {
      hide UintX, HeaderTail;
      HeaderTailStep(19, HeaderOf(g));
      HeaderTailStep(20, HeaderOf(g));
    }

    // -------------------------------------------------------------- entries

    lemma EntryGoal(f: ReadFrame, g: Frame, tail: Bytes)
      requires Ready(f, g, tail) && wanted.Some? && f.part.EntryPart?
      ensures FrameOk(g.state, g) && TopTracks(f, g) && g.data.OfEntry? && g.state == f.state
                && g.popState == f.popState
      ensures IsEntryFieldState(f.state) ==> f.part.entry == EntryUpTo(EntryOf(g), Order(f.state))
      ensures IsEntryFieldState(f.state) && Order(f.state) > 1 ==> f.part.entry.entryFlags == EntryOf(g).entryFlags
      ensures f.state != EntrySize ==> f.limit == g.limit
      ensures g.limit == |taken| + |FrameRest(g.state, g)| < SIZE
    {
      hide FrameOk, FrameRest, TopTracks, EntryUpTo;
      FollowsGoal(f, g, tail);
      EntryHolds(f, g);
    }

    lemma EntrySizeGoal(f: ReadFrame, g: Frame, tail: Bytes)
      requires Ready(f, g, tail) && wanted.Some? && f.part.EntryPart? && f.state == EntrySize && g.data.OfEntry?
      ensures var v := EntryOf(g).entrySize; v >= 4 && Wrap(messagePos + v) == g.limit <= stateStack[0].limit
    {
      hide EntryTail, Wrap, ConsistentElements;
      EntryHolds(f, g);
      EntryLengths(EntryOf(g));
      WrapSmall(|taken|);
      WrapSmall(|taken| + EntryOf(g).entrySize);
    }

    method StepEntrySize(f: ReadFrame, ghost g: Frame, ghost tail: Bytes)
      returns (move: Move, signal: Signal, ghost flow: Flow)
      requires f.part.EntryPart? && Ready(f, g, tail) && f.state in {EntrySize, EntryFlags}
      modifies `messagePos, `bufReadPos, `bufAvailPos, `otherBufs, `taken
      ensures Framing() && Stream() == old(Stream()) && signal in {Go, Block}
      ensures ReadTurned(wanted.Some?, f, g, old(taken), taken, |Ahead()|, move, flow, signal)
    {
      hide HeaderTail, HeaderUpTo, KeepTracks, Follows, Becomes, UintX, MoveOk, Advances, ReadTurned, TopTracks,
           FrameRest, FramePieces, EncodeTableFrom, Counted, FromLittle, FlagByte, AsUint16, Zeros, EntryTail,
           ElementTail, RestrictElements, Suits, SameThing;
      var e := f.part.entry;
      ghost var ge, w := EntryOf(g), wanted.Some?;
      if w { EntryGoal(f, g, tail); EntryUpToNames(ge); FlagBytes(ge.entryFlags); }
      EntryAlways(f, g);
      if f.state == EntrySize {
        var p, messageLen := messagePos, stateStack[0].limit;
        if w { EntrySizeGoal(f, g, tail); }
        EntryBecomes(w, f, g, UintX(ge.entrySize), EntryFlags, Wrap(p + ge.entrySize), e.(entrySize := ge.entrySize));
        var next := (n: uint32) => f.(state := EntryFlags, limit := Wrap(p + n), part := EntryPart(e.(entrySize := n)));
        forall n: uint32 ensures Becomes(false, f, next(n), g, [], g.(state := EntryFlags)) {
          EntryBecomes(false, f, g, [], EntryFlags, Wrap(p + n), e.(entrySize := n));
        }
        // Message entry too short, Message entry out of bounds
        move, signal, flow := CheckedUintXField(f, (n: uint32) => n < 4 || Wrap(p + n) > messageLen, next,
                                                g, tail, ge.entrySize, g.(state := EntryFlags));
      } else {
        EntryBecomes(w, f, g, [FlagByte(ge.entryFlags)], EntryEntryType, f.limit, e.(entryFlags := ge.entryFlags));
        move, signal, flow := BytesField(f, 1,
                                         b => f.(state := EntryEntryType,
                                                 part := EntryPart(e.(entryFlags := ByteFlags(AsByte(b))))),
                                         g, tail, [FlagByte(ge.entryFlags)], g.(state := EntryEntryType));
      }
    }

    method StepEntryType(f: ReadFrame, ghost g: Frame, ghost tail: Bytes)
      returns (move: Move, signal: Signal, ghost flow: Flow)
      requires f.part.EntryPart? && Ready(f, g, tail) && f.state in {EntryEntryType, EntryServicePathStr}
      modifies `messagePos, `bufReadPos, `bufAvailPos, `otherBufs, `taken
      ensures Framing() && Stream() == old(Stream()) && signal in {Go, Block}
      ensures ReadTurned(wanted.Some?, f, g, old(taken), taken, |Ahead()|, move, flow, signal)
    {
      hide HeaderTail, HeaderUpTo, KeepTracks, Follows, Becomes, UintX, MoveOk, Advances, ReadTurned, TopTracks,
           FrameRest, FramePieces, EncodeTableFrom, Counted, FromLittle, FlagByte, AsUint16, Zeros, EntryTail,
           ElementTail, RestrictElements, Suits, SameThing;
      var e := f.part.entry;
      ghost var ge, w := EntryOf(g), wanted.Some?;
      if w { EntryGoal(f, g, tail); EntryUpToNames(ge); AsLittle(ge.entryType); }
      EntryAlways(f, g);
      if f.state == EntryEntryType {
        EntryBecomes(w, f, g, Little(ge.entryType, 2), EntryServicePathStr, f.limit, e.(entryType := ge.entryType));
        move, signal, flow := BytesField(f, 2,
                                         b => f.(state := EntryServicePathStr,
                                                 part := EntryPart(e.(entryType := AsUint16(b)))),
                                         g, tail, Little(ge.entryType, 2), g.(state := EntryServicePathStr));
      } else if Has(e.entryFlags, SERVICE_PATH_STR) {
        EntryBecomesText(w, f, g, ServicePath, EntryServicePathCode, ge.servicePath);
        move, signal, flow := TextField(f, ServicePath, EntryServicePathCode, g, tail, ge.servicePath);
      } else {
        EntryBecomes(w, f, g, [], EntryServicePathCode, f.limit, e);
        move, signal, flow := Pass(f, f.(state := EntryServicePathCode), g, tail, g.(state := EntryServicePathCode));
      }
    }

    method StepEntryService(f: ReadFrame, ghost g: Frame, ghost tail: Bytes)
      returns (move: Move, signal: Signal, ghost flow: Flow)
      requires f.part.EntryPart? && Ready(f, g, tail) && f.state in {EntryServicePathCode, EntryMemberNameStr}
      modifies `messagePos, `bufReadPos, `bufAvailPos, `otherBufs, `taken
      ensures Framing() && Stream() == old(Stream()) && signal in {Go, Block}
      ensures ReadTurned(wanted.Some?, f, g, old(taken), taken, |Ahead()|, move, flow, signal)
    {
      hide HeaderTail, HeaderUpTo, KeepTracks, Follows, Becomes, UintX, MoveOk, Advances, ReadTurned, TopTracks,
           FrameRest, FramePieces, EncodeTableFrom, Counted, FromLittle, FlagByte, AsUint16, Zeros, EntryTail,
           ElementTail, RestrictElements, Suits, SameThing;
      var e := f.part.entry;
      ghost var ge, w := EntryOf(g), wanted.Some?;
      if w { EntryGoal(f, g, tail); EntryUpToNames(ge); }
      EntryAlways(f, g);
      if f.state == EntryServicePathCode {
        if Has(e.entryFlags, SERVICE_PATH_CODE) {
          EntryBecomes(w, f, g, UintX(ge.servicePathCode), EntryMemberNameStr, f.limit,
                       e.(servicePathCode := ge.servicePathCode));
          move, signal, flow := UintXField(f,
                                           (n: uint32) => f.(state := EntryMemberNameStr,
                                                             part := EntryPart(e.(servicePathCode := n))),
                                           g, tail, ge.servicePathCode, g.(state := EntryMemberNameStr));
        } else {
          EntryBecomes(w, f, g, [], EntryMemberNameStr, f.limit, e);
          move, signal, flow := Pass(f, f.(state := EntryMemberNameStr), g, tail, g.(state := EntryMemberNameStr));
        }
      } else if Has(e.entryFlags, MEMBER_NAME_STR) {
        EntryBecomesText(w, f, g, MemberName, EntryMemberNameCode, ge.memberName);
        move, signal, flow := TextField(f, MemberName, EntryMemberNameCode, g, tail, ge.memberName);
      } else {
        EntryBecomes(w, f, g, [], EntryMemberNameCode, f.limit, e);
        move, signal, flow := Pass(f, f.(state := EntryMemberNameCode), g, tail, g.(state := EntryMemberNameCode));
      }
    }

    method StepEntryMember(f: ReadFrame, ghost g: Frame, ghost tail: Bytes)
      returns (move: Move, signal: Signal, ghost flow: Flow)
      requires f.part.EntryPart? && Ready(f, g, tail) && f.state == EntryMemberNameCode
      modifies `messagePos, `bufReadPos, `bufAvailPos, `otherBufs, `taken
      ensures Framing() && Stream() == old(Stream()) && signal in {Go, Block}
      ensures ReadTurned(wanted.Some?, f, g, old(taken), taken, |Ahead()|, move, flow, signal)
    {
      hide HeaderTail, HeaderUpTo, KeepTracks, Follows, Becomes, UintX, MoveOk, Advances, ReadTurned, TopTracks,
           FrameRest, FramePieces, EncodeTableFrom, Counted, FromLittle, FlagByte, AsUint16, Zeros, EntryTail,
           ElementTail, RestrictElements, Suits, SameThing;
      var e := f.part.entry;
      ghost var ge, w := EntryOf(g), wanted.Some?;
      if w { EntryGoal(f, g, tail); EntryUpToNames(ge); }
      EntryAlways(f, g);
      if Has(e.entryFlags, MEMBER_NAME_CODE) {
        EntryBecomes(w, f, g, UintX(ge.memberNameCode), EntryRequestId, f.limit,
                     e.(memberNameCode := ge.memberNameCode));
        move, signal, flow := UintXField(f,
                                         (n: uint32) => f.(state := EntryRequestId,
                                                           part := EntryPart(e.(memberNameCode := n))),
                                         g, tail, ge.memberNameCode, g.(state := EntryRequestId));
      } else {
        EntryBecomes(w, f, g, [], EntryRequestId, f.limit, e);
        move, signal, flow := Pass(f, f.(state := EntryRequestId), g, tail, g.(state := EntryRequestId));
      }
    }

    method StepEntryRequest(f: ReadFrame, ghost g: Frame, ghost tail: Bytes)
      returns (move: Move, signal: Signal, ghost flow: Flow)
      requires f.part.EntryPart? && Ready(f, g, tail) && f.state in {EntryRequestId, EntryMetaInfo}
      modifies `messagePos, `bufReadPos, `bufAvailPos, `otherBufs, `taken
      ensures Framing() && Stream() == old(Stream()) && signal in {Go, Block}
      ensures ReadTurned(wanted.Some?, f, g, old(taken), taken, |Ahead()|, move, flow, signal)
    {
      hide HeaderTail, HeaderUpTo, KeepTracks, Follows, Becomes, UintX, MoveOk, Advances, ReadTurned, TopTracks,
           FrameRest, FramePieces, EncodeTableFrom, Counted, FromLittle, FlagByte, AsUint16, Zeros, EntryTail,
           ElementTail, RestrictElements, Suits, SameThing;
      var e := f.part.entry;
      ghost var ge, w := EntryOf(g), wanted.Some?;
      if w { EntryGoal(f, g, tail); EntryUpToEnd(ge); }
      EntryAlways(f, g);
      if f.state == EntryRequestId {
        if Has(e.entryFlags, REQUEST_ID) {
          EntryBecomes(w, f, g, UintX(ge.requestID), EntryError, f.limit, e.(requestID := ge.requestID));
          move, signal, flow := UintXField(f,
                                           (n: uint32) => f.(state := EntryError,
                                                             part := EntryPart(e.(requestID := n))),
                                           g, tail, ge.requestID, g.(state := EntryError));
        } else {
          EntryBecomes(w, f, g, [], EntryError, f.limit, e);
          move, signal, flow := Pass(f, f.(state := EntryError), g, tail, g.(state := EntryError));
        }
      } else if Has(e.entryFlags, ENTRY_META_INFO) {
        EntryBecomesText(w, f, g, EntryMetaData, EntryExtended1, ge.metaData);
        move, signal, flow := TextField(f, EntryMetaData, EntryExtended1, g, tail, ge.metaData);
      } else {
        EntryBecomes(w, f, g, [], EntryExtended1, f.limit, e);
        move, signal, flow := Pass(f, f.(state := EntryExtended1), g, tail, g.(state := EntryExtended1));
      }
    }

    method StepEntryError(f: ReadFrame, ghost g: Frame, ghost tail: Bytes)
      returns (move: Move, signal: Signal, ghost flow: Flow)
      requires f.part.EntryPart? && Ready(f, g, tail) && f.state == EntryError
      modifies `messagePos, `bufReadPos, `bufAvailPos, `otherBufs, `taken
      ensures Framing() && Stream() == old(Stream()) && signal in {Go, Block}
      ensures ReadTurned(wanted.Some?, f, g, old(taken), taken, |Ahead()|, move, flow, signal)
    {
      hide HeaderTail, HeaderUpTo, KeepTracks, Follows, Becomes, UintX, MoveOk, Advances, ReadTurned, TopTracks,
           FrameRest, FramePieces, EncodeTableFrom, Counted, FromLittle, FlagByte, AsUint16, Zeros, EntryTail,
           ElementTail, RestrictElements, Suits, SameThing;
      var e := f.part.entry;
      ghost var ge, w := EntryOf(g), wanted.Some?;
      if w { EntryGoal(f, g, tail); EntryUpToEnd(ge); AsLittle(ge.error); }
      EntryAlways(f, g);
      if Has(e.entryFlags, ERROR) {
        EntryBecomes(w, f, g, Little(ge.error, 2), EntryMetaInfo, f.limit, e.(error := ge.error));
        move, signal, flow := BytesField(f, 2,
                                         b => f.(state := EntryMetaInfo, part := EntryPart(e.(error := AsUint16(b)))),
                                         g, tail, Little(ge.error, 2), g.(state := EntryMetaInfo));
      } else {
        EntryBecomes(w, f, g, [], EntryMetaInfo, f.limit, e);
        move, signal, flow := Pass(f, f.(state := EntryMetaInfo), g, tail, g.(state := EntryMetaInfo));
      }
    }

    lemma EntryExtendedFits(f: ReadFrame, g: Frame, tail: Bytes)
      requires Ready(f, g, tail) && wanted.Some? && f.part.EntryPart? && g.data.OfEntry? && g.state == f.state
      ensures f.state == EntryExtended1 && Has(EntryOf(g).entryFlags, EXTENDED) ==> |EntryOf(g).extended| <= UINT32_MAX
      ensures f.state == EntryElementCount ==> |EntryOf(g).elements| <= UINT32_MAX
    {
      hide UintX, EntryTail, ConsistentElements;
      EntryTailStep(10, EntryOf(g));
      EntryTailStep(11, EntryOf(g));
      CountOfElements(EntryOf(g));
    }

    method StepEntryExtended1(f: ReadFrame, ghost g: Frame, ghost tail: Bytes)
      returns (move: Move, signal: Signal, ghost flow: Flow)
      requires f.part.EntryPart? && Ready(f, g, tail) && f.state == EntryExtended1
      modifies `messagePos, `bufReadPos, `bufAvailPos, `otherBufs, `taken
      ensures Framing() && Stream() == old(Stream()) && signal in {Go, Block}
      ensures ReadTurned(wanted.Some?, f, g, old(taken), taken, |Ahead()|, move, flow, signal)
    {
      hide HeaderTail, HeaderUpTo, KeepTracks, Follows, Becomes, UintX, MoveOk, Advances, ReadTurned, TopTracks,
           FrameRest, FramePieces, EncodeTableFrom, Counted, FromLittle, FlagByte, AsUint16, Zeros, EntryTail,
           ElementTail, RestrictElements, Suits, SameThing;
      var e := f.part.entry;
      ghost var ge, w := EntryOf(g), wanted.Some?;
      if w { EntryGoal(f, g, tail); EntryUpToEnd(ge); EntryExtendedFits(f, g, tail); }
      EntryAlways(f, g);
      if !Has(e.entryFlags, EXTENDED) {
        EntrySkips(w, f, g);
        move, signal, flow := Pass(f, f.(state := EntryElementCount), g, tail, g.(state := EntryElementCount));
      } else {
        EntryBecomes(w, f, g, UintX(|ge.extended|), EntryExtended2, f.limit, e.(extended := Zeros(|ge.extended|)));
        move, signal, flow := UintXField(f,
                                         (n: uint32) => f.(state := EntryExtended2,
                                                           part := EntryPart(e.(extended := Zeros(n)))),
                                         g, tail, if w then |ge.extended| else 0, g.(state := EntryExtended2));
      }
    }

    method StepEntryExtended2(f: ReadFrame, ghost g: Frame, ghost tail: Bytes)
      returns (move: Move, signal: Signal, ghost flow: Flow)
      requires f.part.EntryPart? && Ready(f, g, tail) && f.state == EntryExtended2
      modifies `messagePos, `bufReadPos, `bufAvailPos, `otherBufs, `taken
      ensures Framing() && Stream() == old(Stream()) && signal in {Go, Block}
      ensures ReadTurned(wanted.Some?, f, g, old(taken), taken, |Ahead()|, move, flow, signal)
      ensures old(|Ahead()|) < Unsplit(f) <= old(Distance(f.limit)) ==>
                move == Keep(f) && signal == Block && taken == old(taken)
    {
      hide HeaderTail, HeaderUpTo, KeepTracks, Follows, Becomes, UintX, MoveOk, Advances, ReadTurned, TopTracks,
           FrameRest, FramePieces, EncodeTableFrom, Counted, FromLittle, FlagByte, AsUint16, Zeros, EntryTail,
           ElementTail, RestrictElements, Suits, SameThing;
      var e := f.part.entry;
      ghost var ge, w := EntryOf(g), wanted.Some?;
      if w { EntryGoal(f, g, tail); EntryHolds(f, g); EntryUpToEnd(ge); }
      EntryAlways(f, g);
      EntryBecomes(w, f, g, ge.extended, EntryElementCount, f.limit, e.(extended := ge.extended));
      if |e.extended| > 0 {
        move, signal, flow := BytesField(f, |e.extended|,
                                         b => f.(state := EntryElementCount, part := EntryPart(e.(extended := b))),
                                         g, tail, ge.extended, g.(state := EntryElementCount));
      } else {
        assert w ==> e.(extended := ge.extended) == e;
        move, signal, flow := Pass(f, f.(state := EntryElementCount), g, tail, g.(state := EntryElementCount));
      }
    }

    method StepEntryElements(f: ReadFrame, ghost g: Frame, ghost tail: Bytes)
      returns (move: Move, signal: Signal, ghost flow: Flow)
      requires f.part.EntryPart? && f.popState == MessageEntries && Ready(f, g, tail)
                && f.state in {EntryElementCount, EntryElements, ElementInit, EntryFinish}
      modifies `messagePos, `bufReadPos, `bufAvailPos, `otherBufs, `taken
      ensures Framing() && Stream() == old(Stream()) && signal in {Go, Block}
      ensures ReadTurned(wanted.Some?, f, g, old(taken), taken, |Ahead()|, move, flow, signal)
    {
      hide HeaderTail, HeaderUpTo, KeepTracks, Follows, Becomes, UintX, MoveOk, Advances, ReadTurned, TopTracks,
           FrameRest, FramePieces, EncodeTableFrom, Counted, FromLittle, FlagByte, AsUint16, Zeros, EntryTail,
           ElementTail, RestrictElements, Suits, SameThing;
      var e := f.part.entry;
      ghost var ge, w := EntryOf(g), wanted.Some?;
      if w { EntryGoal(f, g, tail); EntryExtendedFits(f, g, tail); }
      EntryAlways(f, g);
      EntryMoves(f);
      EntryElementsBecome(w, f, g);
      if f.state == EntryElementCount {
        move, signal, flow := UintXField(f, (c: uint32) => f.(state := EntryElements, param1 := c), g, tail,
                                         if w then |ge.elements| else 0, g.(state := EntryElements, param1 := 0));
      } else if f.state == EntryElements {
        if |e.elements| >= f.param1 {
          move, signal, flow := Pass(f, f.(state := EntryFinish), g, tail, g.(state := EntryFinish));
        } else {
          move, signal, flow := Pass(f, f.(state := ElementInit), g, tail, g.(state := ElementInit));
        }
      } else if f.state == ElementInit {
        if w { EntryElementChild(f, g, |taken|); }
        move, signal, flow := PushState(f, ElementSize, EntryElements, ElementPart(NEW_ELEMENT), 0, g, tail,
                                        g.(param1 := g.param1 + 1), if w then GoalElement(g, ge.elements, |taken|)
                                            else g);
      } else {
        if w { EntryComplete(f, g); EntryEnds(g); EndsAtLimit(g, |taken|); WrapSmall(|taken|); WrapSmall(0); }
        if Distance(f.limit) != 0 {
          // MessageEntry did not consume all data
          move, signal, flow := Throw(ProtocolError), Go, Leave;
          ReadThrows(f, g, taken, taken, |Ahead()|, ProtocolError, flow, signal);
        } else {
          move, signal, flow := End(f, f.part, g, tail);
        }
      }
    }

    // -------------------------------------------------------------- elements

    lemma ElementGoal(f: ReadFrame, g: Frame, tail: Bytes)
      requires Ready(f, g, tail) && wanted.Some? && f.part.ElementPart?
      ensures FrameOk(g.state, g) && TopTracks(f, g) && g.data.OfElement? && g.state == f.state
                && g.popState == f.popState
      ensures IsElementFieldState(f.state) ==> f.part.element == ElementUpTo(ElementOf(g), Order(f.state))
      ensures IsElementFieldState(f.state) && Order(f.state) > 1 ==>
                f.part.element.elementFlags == ElementOf(g).elementFlags
      ensures f.state != ElementSize ==> f.limit == g.limit
      ensures g.limit == |taken| + |FrameRest(g.state, g)| < SIZE
    {
      hide FrameOk, FrameRest, TopTracks, ElementUpTo, RestrictElement;
      FollowsGoal(f, g, tail);
      ElementHolds(f, g);
    }

    lemma ElementSizeGoal(f: ReadFrame, g: Frame, tail: Bytes)
      requires Ready(f, g, tail) && wanted.Some? && f.part.ElementPart? && f.state == ElementSize && g.data.OfElement?
      ensures var v := ElementOf(g).elementSize; v >= 4 && Wrap(messagePos + v) == g.limit <= f.limit
    {
      hide ElementTail, Wrap, ConsistentElements, RestrictElement;
      ElementLengths(ElementOf(g));
      WrapSmall(|taken|);
      WrapSmall(|taken| + ElementOf(g).elementSize);
    }

    method StepElementSize(f: ReadFrame, ghost g: Frame, ghost tail: Bytes)
      returns (move: Move, signal: Signal, ghost flow: Flow)
      requires f.part.ElementPart? && Ready(f, g, tail) && f.state in {ElementSize, ElementFlags}
      modifies `messagePos, `bufReadPos, `bufAvailPos, `otherBufs, `taken
      ensures Framing() && Stream() == old(Stream()) && signal in {Go, Block}
      ensures ReadTurned(wanted.Some?, f, g, old(taken), taken, |Ahead()|, move, flow, signal)
    {
      hide HeaderTail, HeaderUpTo, KeepTracks, Follows, Becomes, UintX, MoveOk, Advances, ReadTurned, TopTracks,
           FrameRest, FramePieces, EncodeTableFrom, Counted, FromLittle, FlagByte, AsUint16, Zeros, EntryTail,
           ElementTail, RestrictElements, Suits, SameThing;
      var el := f.part.element;
      ghost var gl, w := ElementOf(g), wanted.Some?;
      if w { ElementGoal(f, g, tail); ElementUpToNames(gl); FlagBytes(gl.elementFlags); }
      ElementAlways(f, g);
      if f.state == ElementSize {
        var p := messagePos;
        if w { ElementSizeGoal(f, g, tail); }
        ElementBecomes(w, f, g, UintX(gl.elementSize), ElementFlags, Wrap(p + gl.elementSize),
                       el.(elementSize := gl.elementSize));
        var next := (n: uint32) => f.(state := ElementFlags, limit := Wrap(p + n),
                                      part := ElementPart(el.(elementSize := n)));
        forall n: uint32 ensures Becomes(false, f, next(n), g, [], g.(state := ElementFlags)) {
          ElementBecomes(false, f, g, [], ElementFlags, Wrap(p + n), el.(elementSize := n));
        }
        // Message element too short, Message element out of bounds
        move, signal, flow := CheckedUintXField(f, (n: uint32) => n < 4 || Wrap(p + n) > f.limit, next,
                                                g, tail, gl.elementSize, g.(state := ElementFlags));
      } else {
        ElementBecomes(w, f, g, [FlagByte(gl.elementFlags)], ElementNameStr, f.limit,
                       el.(elementFlags := gl.elementFlags));
        move, signal, flow := BytesField(f, 1,
                                         b => f.(state := ElementNameStr,
                                                 part := ElementPart(el.(elementFlags := ByteFlags(AsByte(b))))),
                                         g, tail, [FlagByte(gl.elementFlags)], g.(state := ElementNameStr));
      }
    }

    method StepElementName(f: ReadFrame, ghost g: Frame, ghost tail: Bytes)
      returns (move: Move, signal: Signal, ghost flow: Flow)
      requires f.part.ElementPart? && Ready(f, g, tail) && f.state in {ElementNameStr, ElementNameCode}
      modifies `messagePos, `bufReadPos, `bufAvailPos, `otherBufs, `taken
      ensures Framing() && Stream() == old(Stream()) && signal in {Go, Block}
      ensures ReadTurned(wanted.Some?, f, g, old(taken), taken, |Ahead()|, move, flow, signal)
    {
      hide HeaderTail, HeaderUpTo, KeepTracks, Follows, Becomes, UintX, MoveOk, Advances, ReadTurned, TopTracks,
           FrameRest, FramePieces, EncodeTableFrom, Counted, FromLittle, FlagByte, AsUint16, Zeros, EntryTail,
           ElementTail, RestrictElements, Suits, SameThing;
      var el := f.part.element;
      ghost var gl, w := ElementOf(g), wanted.Some?;
      if w { ElementGoal(f, g, tail); ElementUpToNames(gl); }
      ElementAlways(f, g);
      if f.state == ElementNameStr {
        if Has(el.elementFlags, ELEMENT_NAME_STR) {
          ElementBecomesText(w, f, g, ElementName, ElementNameCode, gl.elementName);
          move, signal, flow := TextField(f, ElementName, ElementNameCode, g, tail, gl.elementName);
        } else {
          ElementBecomes(w, f, g, [], ElementNameCode, f.limit, el);
          move, signal, flow := Pass(f, f.(state := ElementNameCode), g, tail, g.(state := ElementNameCode));
        }
      } else if Has(el.elementFlags, ELEMENT_NAME_CODE) {
        ElementBecomes(w, f, g, UintX(gl.elementNameCode), ElementNumber, f.limit,
                       el.(elementNameCode := gl.elementNameCode));
        move, signal, flow := UintXField(f,
                                         (n: uint32) => f.(state := ElementNumber,
                                                           part := ElementPart(el.(elementNameCode := n))),
                                         g, tail, gl.elementNameCode, g.(state := ElementNumber));
      } else {
        ElementBecomes(w, f, g, [], ElementNumber, f.limit, el);
        move, signal, flow := Pass(f, f.(state := ElementNumber), g, tail, g.(state := ElementNumber));
      }
    }

    method StepElementNumber(f: ReadFrame, ghost g: Frame, ghost tail: Bytes)
      returns (move: Move, signal: Signal, ghost flow: Flow)
      requires f.part.ElementPart? && Ready(f, g, tail) && f.state in {ElementNumber, ElementElementType}
      modifies `messagePos, `bufReadPos, `bufAvailPos, `otherBufs, `taken
      ensures Framing() && Stream() == old(Stream()) && signal in {Go, Block}
      ensures ReadTurned(wanted.Some?, f, g, old(taken), taken, |Ahead()|, move, flow, signal)
    {
      hide HeaderTail, HeaderUpTo, KeepTracks, Follows, Becomes, UintX, MoveOk, Advances, ReadTurned, TopTracks,
           FrameRest, FramePieces, EncodeTableFrom, Counted, FromLittle, FlagByte, AsUint16, Zeros, EntryTail,
           ElementTail, RestrictElements, Suits, SameThing, IntX;
      var el := f.part.element;
      ghost var gl, w := ElementOf(g), wanted.Some?;
      if w { ElementGoal(f, g, tail); ElementUpToNames(gl); AsLittle(gl.elementType); }
      ElementAlways(f, g);
      if f.state == ElementElementType {
        ElementBecomes(w, f, g, Little(gl.elementType, 2), ElementTypeStr, f.limit, el.(elementType := gl.elementType));
        move, signal, flow := BytesField(f, 2,
                                         b => f.(state := ElementTypeStr,
                                                 part := ElementPart(el.(elementType := AsUint16(b)))),
                                         g, tail, Little(gl.elementType, 2), g.(state := ElementTypeStr));
      } else if Has(el.elementFlags, ELEMENT_NUMBER) {
        ElementBecomes(w, f, g, IntX(gl.elementNumber), ElementElementType, f.limit,
                       el.(elementNumber := gl.elementNumber));
        move, signal, flow := IntXField(f,
                                        (n: int32) => f.(state := ElementElementType,
                                                         part := ElementPart(el.(elementNumber := n))),
                                        g, tail, gl.elementNumber, g.(state := ElementElementType));
      } else {
        ElementBecomes(w, f, g, [], ElementElementType, f.limit, el);
        move, signal, flow := Pass(f, f.(state := ElementElementType), g, tail, g.(state := ElementElementType));
      }
    }

    method StepElementTypeName(f: ReadFrame, ghost g: Frame, ghost tail: Bytes)
      returns (move: Move, signal: Signal, ghost flow: Flow)
      requires f.part.ElementPart? && Ready(f, g, tail) && f.state in {ElementTypeStr, ElementTypeCode}
      modifies `messagePos, `bufReadPos, `bufAvailPos, `otherBufs, `taken
      ensures Framing() && Stream() == old(Stream()) && signal in {Go, Block}
      ensures ReadTurned(wanted.Some?, f, g, old(taken), taken, |Ahead()|, move, flow, signal)
    {
      hide HeaderTail, HeaderUpTo, KeepTracks, Follows, Becomes, UintX, MoveOk, Advances, ReadTurned, TopTracks,
           FrameRest, FramePieces, EncodeTableFrom, Counted, FromLittle, FlagByte, AsUint16, Zeros, EntryTail,
           ElementTail, RestrictElements, Suits, SameThing;
      var el := f.part.element;
      ghost var gl, w := ElementOf(g), wanted.Some?;
      if w { ElementGoal(f, g, tail); ElementUpToEnd(gl); }
      ElementAlways(f, g);
      if f.state == ElementTypeStr {
        if Has(el.elementFlags, ELEMENT_TYPE_NAME_STR) {
          ElementBecomesText(w, f, g, ElementTypeName, ElementTypeCode, gl.elementTypeName);
          move, signal, flow := TextField(f, ElementTypeName, ElementTypeCode, g, tail, gl.elementTypeName);
        } else {
          ElementBecomes(w, f, g, [], ElementTypeCode, f.limit, el);
          move, signal, flow := Pass(f, f.(state := ElementTypeCode), g, tail, g.(state := ElementTypeCode));
        }
      } else if Has(el.elementFlags, ELEMENT_TYPE_NAME_CODE) {
        ElementBecomes(w, f, g, UintX(gl.elementTypeNameCode), ElementMetaInfo, f.limit,
                       el.(elementTypeNameCode := gl.elementTypeNameCode));
        move, signal, flow := UintXField(f,
                                         (n: uint32) => f.(state := ElementMetaInfo,
                                                           part := ElementPart(el.(elementTypeNameCode := n))),
                                         g, tail, gl.elementTypeNameCode, g.(state := ElementMetaInfo));
      } else {
        ElementBecomes(w, f, g, [], ElementMetaInfo, f.limit, el);
        move, signal, flow := Pass(f, f.(state := ElementMetaInfo), g, tail, g.(state := ElementMetaInfo));
      }
    }

    lemma ElementExtendedFits(f: ReadFrame, g: Frame, tail: Bytes)
      requires Ready(f, g, tail) && wanted.Some? && f.part.ElementPart? && g.data.OfElement? && g.state == f.state
      ensures f.state == ElementExtended1 && Has(ElementOf(g).elementFlags, EXTENDED) ==>
                |ElementOf(g).extended| <= UINT32_MAX
    {
      hide UintX, ElementTail, ConsistentElement, RestrictElement;
      ElementTailStep(9, ElementOf(g));
      ElementTailStep(10, ElementOf(g));
    }

    method StepElementMeta(f: ReadFrame, ghost g: Frame, ghost tail: Bytes)
      returns (move: Move, signal: Signal, ghost flow: Flow)
      requires f.part.ElementPart? && Ready(f, g, tail) && f.state == ElementMetaInfo
      modifies `messagePos, `bufReadPos, `bufAvailPos, `otherBufs, `taken
      ensures Framing() && Stream() == old(Stream()) && signal in {Go, Block}
      ensures ReadTurned(wanted.Some?, f, g, old(taken), taken, |Ahead()|, move, flow, signal)
    {
      hide HeaderTail, HeaderUpTo, KeepTracks, Follows, Becomes, UintX, MoveOk, Advances, ReadTurned, TopTracks,
           FrameRest, FramePieces, EncodeTableFrom, Counted, FromLittle, FlagByte, AsUint16, Zeros, EntryTail,
           ElementTail, RestrictElements, Suits, SameThing;
      var el := f.part.element;
      ghost var gl, w := ElementOf(g), wanted.Some?;
      if w { ElementGoal(f, g, tail); ElementUpToEnd(gl); }
      ElementAlways(f, g);
      if Has(el.elementFlags, ELEMENT_META_INFO) {
        ElementBecomesText(w, f, g, ElementMetaData, ElementExtended1, gl.metaData);
        move, signal, flow := TextField(f, ElementMetaData, ElementExtended1, g, tail, gl.metaData);
      } else {
        ElementBecomes(w, f, g, [], ElementExtended1, f.limit, el);
        move, signal, flow := Pass(f, f.(state := ElementExtended1), g, tail, g.(state := ElementExtended1));
      }
    }

    method StepElementExtended1(f: ReadFrame, ghost g: Frame, ghost tail: Bytes)
      returns (move: Move, signal: Signal, ghost flow: Flow)
      requires f.part.ElementPart? && Ready(f, g, tail) && f.state == ElementExtended1
      modifies `messagePos, `bufReadPos, `bufAvailPos, `otherBufs, `taken
      ensures Framing() && Stream() == old(Stream()) && signal in {Go, Block}
      ensures ReadTurned(wanted.Some?, f, g, old(taken), taken, |Ahead()|, move, flow, signal)
    {
      hide HeaderTail, HeaderUpTo, KeepTracks, Follows, Becomes, UintX, MoveOk, Advances, ReadTurned, TopTracks,
           FrameRest, FramePieces, EncodeTableFrom, Counted, FromLittle, FlagByte, AsUint16, Zeros, EntryTail,
           ElementTail, RestrictElements, Suits, SameThing;
      var el := f.part.element;
      ghost var gl, w := ElementOf(g), wanted.Some?;
      if w { ElementGoal(f, g, tail); ElementUpToEnd(gl); ElementExtendedFits(f, g, tail); }
      ElementAlways(f, g);
      if !Has(el.elementFlags, EXTENDED) {
        ElementSkips(w, f, g);
        move, signal, flow := Pass(f, f.(state := ElementDataCount), g, tail, g.(state := ElementDataCount));
      } else {
        ElementBecomes(w, f, g, UintX(|gl.extended|), ElementExtended2, f.limit, el.(extended := Zeros(|gl.extended|)));
        move, signal, flow := UintXField(f,
                                         (n: uint32) => f.(state := ElementExtended2,
                                                           part := ElementPart(el.(extended := Zeros(n)))),
                                         g, tail, if w then |gl.extended| else 0, g.(state := ElementExtended2));
      }
    }

    method StepElementExtended2(f: ReadFrame, ghost g: Frame, ghost tail: Bytes)
      returns (move: Move, signal: Signal, ghost flow: Flow)
      requires f.part.ElementPart? && Ready(f, g, tail) && f.state == ElementExtended2
      modifies `messagePos, `bufReadPos, `bufAvailPos, `otherBufs, `taken
      ensures Framing() && Stream() == old(Stream()) && signal in {Go, Block}
      ensures ReadTurned(wanted.Some?, f, g, old(taken), taken, |Ahead()|, move, flow, signal)
      ensures old(|Ahead()|) < Unsplit(f) <= old(Distance(f.limit)) ==>
                move == Keep(f) && signal == Block && taken == old(taken)
    {
      hide HeaderTail, HeaderUpTo, KeepTracks, Follows, Becomes, UintX, MoveOk, Advances, ReadTurned, TopTracks,
           FrameRest, FramePieces, EncodeTableFrom, Counted, FromLittle, FlagByte, AsUint16, Zeros, EntryTail,
           ElementTail, RestrictElements, Suits, SameThing;
      var el := f.part.element;
      ghost var gl, w := ElementOf(g), wanted.Some?;
      if w { ElementGoal(f, g, tail); ElementHolds(f, g); ElementUpToEnd(gl); }
      ElementAlways(f, g);
      ElementBecomes(w, f, g, gl.extended, ElementDataCount, f.limit, el.(extended := gl.extended));
      if |el.extended| > 0 {
        move, signal, flow := BytesField(f, |el.extended|,
                                         b => f.(state := ElementDataCount, part := ElementPart(el.(extended := b))),
                                         g, tail, gl.extended, g.(state := ElementDataCount));
      } else {
        assert w ==> el.(extended := gl.extended) == el;
        move, signal, flow := Pass(f, f.(state := ElementDataCount), g, tail, g.(state := ElementDataCount));
      }
    }

    method StepElementData(f: ReadFrame, ghost g: Frame, ghost tail: Bytes)
      returns (move: Move, signal: Signal, ghost flow: Flow)
      requires f.part.ElementPart? && f.popState in {EntryElements, ElementNested2} && Ready(f, g, tail)
                && f.state in {ElementDataCount, ElementData, ElementFinishData, ElementNested1}
      modifies `messagePos, `bufReadPos, `bufAvailPos, `otherBufs, `taken
      ensures Framing() && Stream() == old(Stream()) && signal in {Go, Block}
      ensures ReadTurned(wanted.Some?, f, g, old(taken), taken, |Ahead()|, move, flow, signal)
    {
      hide HeaderTail, HeaderUpTo, KeepTracks, Follows, Becomes, UintX, MoveOk, Advances, ReadTurned, TopTracks,
           FrameRest, FramePieces, EncodeTableFrom, Counted, FromLittle, FlagByte, AsUint16, Zeros, EntryTail,
           ElementTail, RestrictElements, Suits, SameThing;
      var el := f.part.element;
      ghost var gl, w := ElementOf(g), wanted.Some?;
      if w { ElementGoal(f, g, tail); ElementDataTurns(g); }
      ElementAlways(f, g);
      ElementMoves(f);
      ElementDataBecomes(w, f, g);
      if f.state == ElementDataCount {
        move, signal, flow := UintXField(f,
                                         (n: uint32) => f.(state := ElementData,
                                                           part := ElementPart(el.(dataCount := n))),
                                         g, tail, gl.dataCount, g.(state := ElementData));
      } else if f.state == ElementData {
        if el.elementType == VOID_T {
          if w { ElementComplete(f, g); }
          move, signal, flow := End(f, f.part, g, tail);
        } else if IsArrayType(el.elementType) {
          move, signal, flow := Pass(f, f.(state := ElementArray1), g, tail, g.(state := ElementArray1));
        } else if IsNestedType(el.elementType) {
          move, signal, flow := Pass(f, f.(state := ElementNested1), g, tail, g.(state := ElementNested1));
        } else {
          // Invalid data type
          move, signal, flow := Throw(DataTypeError), Go, Leave;
          ReadThrows(f, g, taken, taken, |Ahead()|, DataTypeError, flow, signal);
        }
      } else if f.state == ElementFinishData {
        if w { ElementComplete(f, g); EndsAtLimit(g, |taken|); WrapSmall(|taken|); WrapSmall(0); }
        if Distance(f.limit) != 0 {
          // Element did not consume all data
          move, signal, flow := Throw(ProtocolError), Go, Leave;
          ReadThrows(f, g, taken, taken, |Ahead()|, ProtocolError, flow, signal);
        } else {
          move, signal, flow := End(f, f.part, g, tail);
        }
      } else {
        if w { NestedChild(f, g, |taken|); }
        move, signal, flow := PushState(f, ElementNested2, ElementFinishData,
                                        NestedPart(el.elementType, el.elementTypeName, []),
          el.dataCount, g, tail, g,
          if w then Frame(ElementNested2, ElementFinishData, g.limit, OfNested(gl.data.elements), 0, 0) else g);
      }
    }

    method StepNested(f: ReadFrame, ghost g: Frame, ghost tail: Bytes)
      returns (move: Move, signal: Signal, ghost flow: Flow)
      requires f.part.NestedPart? && f.state == ElementNested2 && f.popState == ElementFinishData && Ready(f, g, tail)
      modifies `messagePos, `bufReadPos, `bufAvailPos, `otherBufs, `taken
      ensures Framing() && Stream() == old(Stream()) && signal in {Go, Block}
      ensures ReadTurned(wanted.Some?, f, g, old(taken), taken, |Ahead()|, move, flow, signal)
    {
      hide HeaderTail, HeaderUpTo, KeepTracks, Follows, Becomes, UintX, MoveOk, Advances, ReadTurned, TopTracks,
           FrameRest, FramePieces, EncodeTableFrom, Counted, FromLittle, FlagByte, AsUint16, Zeros, EntryTail,
           ElementTail, RestrictElements, Suits, SameThing;
      ghost var w := wanted.Some?;
      if w { FollowsGoal(f, g, tail); NestedHolds(f, g); }
      NestedMoves(f);
      if |f.part.elements| >= f.param1 {
        if w { NestedEnds(g); }
        move, signal, flow := End(f, f.part, g, tail);
      } else {
        if w { NestedElementChild(f, g, |taken|); }
        move, signal, flow := PushState(f, ElementSize, ElementNested2, ElementPart(NEW_ELEMENT), 0, g, tail,
                                        g.(param1 := g.param1 + 1), if w then GoalElement(g, g.data.elements, |taken|)
                                            else g);
      }
    }

    // -------------------------------------------------------------- arrays and strings

    lemma Array1Goal(f: ReadFrame, g: Frame, tail: Bytes)
      requires Ready(f, g, tail) && wanted.Some? && f.part.ElementPart? && f.state == ElementArray1
      ensures FrameOk(g.state, g) && TopTracks(f, g)
      ensures IsArrayType(f.part.element.elementType)
      ensures RRArrayElementSize(f.part.element.elementType) * f.part.element.dataCount == |MemoryOf(g)| < SIZE
      ensures Distance(f.limit) >= |MemoryOf(g)| && Agrees(Ahead(), MemoryOf(g) + tail)
      ensures g.limit == |taken| + |MemoryOf(g)| <= stateStack[0].limit
    {
      hide FrameOk, FrameRest, TopTracks, RRArrayElementSize;
      FollowsGoal(f, g, tail);
      ArrayGoal(f, g);
      var b := MemoryOf(g);
      assert b + [] == b && [] + tail == tail;
      FollowsAhead(f, g, tail, b, []);
    }

    method StepArray1(f: ReadFrame, ghost g: Frame, ghost tail: Bytes)
      returns (move: Move, signal: Signal, ghost flow: Flow)
      requires f.part.ElementPart? && f.state == ElementArray1 && Ready(f, g, tail)
      modifies `messagePos, `bufReadPos, `bufAvailPos, `otherBufs, `taken
      ensures Framing() && Stream() == old(Stream()) && signal in {Go, Yield}
      ensures ReadTurned(wanted.Some?, f, g, old(taken), taken, |Ahead()|, move, flow, signal)
    {
      hide HeaderTail, HeaderUpTo, KeepTracks, Follows, Becomes, UintX, MoveOk, Advances, ReadTurned, TopTracks,
           FrameRest, FramePieces, EncodeTableFrom, Counted, FromLittle, FlagByte, AsUint16, Zeros, EntryTail,
           ElementTail, RestrictElements, Suits, SameThing, FrameOk, RRArrayElementSize, MemoryOf, IsArrayType;
      var el := f.part.element;
      ghost var w := wanted.Some?;
      ArraySuits(f);
      if w { Array1Goal(f, g, tail); }
      var n := RRArrayElementSize(el.elementType) * el.dataCount;
      if n >= SIZE {
        // the array cannot be allocated
        move, signal, flow := Throw(OutOfMemory), Go, Leave;
        ReadThrows(f, g, taken, taken, |Ahead()|, OutOfMemory, flow, signal);
        return;
      }
      var r := ReadSomeBytes(f.limit, n);
      match r {
        case Err(e) =>
          move, signal, flow := Throw(e), Go, Leave;
          ReadThrows(f, g, old(taken), taken, |Ahead()|, e, flow, signal);
        case Ok(value) =>
          if w { AgreesOnRest(value, Ahead(), MemoryOf(g), tail); }
          move, signal, flow := ArrayReceived(f, value, n, g, old(taken));
      }
    }

    /** The array is complete, or goes on in a frame of its own. */
    method ArrayReceived(f: ReadFrame, value: Bytes, n: nat, ghost g: Frame, ghost before: Bytes)
      returns (move: Move, signal: Signal, ghost flow: Flow)
      requires Framing() && f.part.ElementPart? && f.state == ElementArray1 && |value| <= n < SIZE
      requires IsArrayType(f.part.element.elementType)
      requires n == RRArrayElementSize(f.part.element.elementType) * f.part.element.dataCount
      requires |before| <= |taken|
      requires wanted.Some? ==>
                 && FrameOk(g.state, g) && TopTracks(f, g) && taken == before + value && n == |MemoryOf(g)|
                 && value == MemoryOf(g)[..|value|] && (|value| < n ==> Ahead() == [])
                 && g.limit == |before| + n <= stateStack[0].limit
      ensures signal in {Go, Yield}
      ensures ReadTurned(wanted.Some?, f, g, before, taken, |Ahead()|, move, flow, signal)
    {
      hide HeaderTail, HeaderUpTo, KeepTracks, Follows, Becomes, UintX, MoveOk, Advances, ReadTurned, TopTracks,
           FrameRest, FramePieces, EncodeTableFrom, Counted, FromLittle, FlagByte, AsUint16, Zeros, EntryTail,
           ElementTail, RestrictElements, Suits, SameThing, FrameOk, ArrayTaken, RRArrayElementSize, MemoryOf,
           IsArrayType;
      ghost var w, b := wanted.Some?, MemoryOf(g);
      if |value| >= n {
        move, signal, flow := Keep(ArrayTaken(f, value)), Go, Stay(g.(state := ElementFinishData));
        if w { assert b[..n] == b; }
        ArrayWhole(w, f, g, value, before, taken, |Ahead()|);
      } else {
        var limit := Wrap(messagePos + (n - |value|));
        if w { WrapSmall(|taken|); WrapSmall(|taken| + (n - |value|)); }
        WholeArray(f.part.element.elementType, f.part.element.dataCount);
        signal := Yield;
        if limit > stateStack[0].limit {
          move, flow := Throw(ProtocolError), Stay(g);
          ReadThrows(f, g, before, taken, |Ahead()|, ProtocolError, flow, signal);
        } else {
          move := Push(f, ArrayBegun(f, value, n, limit));
          flow := Enter(g, Frame(ElementArray2, ElementFinishData, limit, OfArray(b), |value|, n));
          ArrayPart1(w, f, g, value, n, limit, before, taken, |Ahead()|);
        }
      }
    }

    /** buffer_copy from other_bufs into the array. */
    method TakeOther(l: nat) returns (b: Bytes)
      requires Framing() && bufAvailPos == 0
      modifies `messagePos, `otherBufs, `taken
      ensures Framing() && Stream() == old(Stream()) && Ahead() == otherBufs
      ensures old(otherBufs) == b + otherBufs && taken == old(taken) + b
      ensures |b| <= l && (|b| < l ==> otherBufs == [])
    {
      hide Wrap;
      b := if l <= |otherBufs| then otherBufs[..l] else otherBufs;
      otherBufs := otherBufs[|b|..];
      assert Ahead() == otherBufs && taken + (b + otherBufs) == (taken + b) + otherBufs;
      TakeOutOfBand(b);
    }

    /** message_pos += |b|: the bytes are in the array already. */
    method TakeOutOfBand(b: Bytes)
      requires Framing()
      modifies `messagePos, `taken
      ensures Framing() && taken == old(taken) + b && Ahead() == old(Ahead())
    {
      hide Wrap;
      WrapStep(messagePos, |taken|, |b|);
      messagePos := Wrap(messagePos + |b|);
      taken := taken + b;
    }

    /** The bytes come from other_bufs or, when the transport filled them in itself, as cont. */
    method StepArray2(f: ReadFrame, cont: Bytes, ghost g: Frame, ghost tail: Bytes)
      returns (move: Move, signal: Signal, ghost flow: Flow)
      requires Framing() && f.part.ArrayPart? && Suits(f) && f.popState == ElementFinishData
      requires wanted.Some? ==>
                 && FrameOk(g.state, g) && TopTracks(f, g) && bufAvailPos == 0
                 && (cont == [] || otherBufs == []) && f.param1 + |cont| <= f.param2
                 && Agrees(cont + otherBufs, FrameRest(g.state, g) + tail)
      modifies `messagePos, `otherBufs, `taken
      ensures Framing() && signal in {Go, Yield}
      ensures !move.Throw? ==>
                && Stream() == old(taken) + (cont + old(Ahead())) && |taken| >= |old(taken)| + |cont|
                && (cont != [] ==> old(Ahead()) == [])
      ensures ReadTurned(wanted.Some?, f, g, old(taken), taken, |Ahead()|, move, flow, signal)
    {
      hide HeaderTail, HeaderUpTo, KeepTracks, Follows, Becomes, UintX, MoveOk, Advances, ReadTurned, TopTracks,
           FrameRest, FramePieces, EncodeTableFrom, Counted, FromLittle, FlagByte, AsUint16, Zeros, EntryTail,
           ElementTail, RestrictElements, Suits, SameThing, ArrayMore, FrameOk;
      ArrayRoom(f);
      move, signal, flow := Throw(InvalidOperation), Go, Leave;
      if bufAvailPos != 0 || (|otherBufs| != 0 && |cont| != 0) {
        // Invalid stream position for async read; both kinds of buffers at the same time
        ReadThrows(f, g, taken, taken, |Ahead()|, InvalidOperation, flow, signal);
        return;
      }
      assert Ahead() == otherBufs;
      if |cont| == 0 {
        assert cont + otherBufs == otherBufs;
        move, signal, flow := FillFromBuffers(f, g, tail);
      } else if |cont| > f.param2 - f.param1 {
        move := Throw(ProtocolError);   // Stream reading error
        ReadThrows(f, g, taken, taken, |Ahead()|, ProtocolError, flow, signal);
      } else {
        assert otherBufs == [] && cont + otherBufs == cont;
        if wanted.Some? {
          ArrayHolds(f, g);
          assert cont + [] == cont;
          AgreesOnRest(cont, [], FrameRest(g.state, g), tail);
        }
        TakeOutOfBand(cont);
        move, signal, flow := ArrayFilled(f, cont, g, old(taken));
      }
    }

    method FillFromBuffers(f: ReadFrame, ghost g: Frame, ghost tail: Bytes)
      returns (move: Move, signal: Signal, ghost flow: Flow)
      requires Framing() && f.part.ArrayPart? && Suits(f) && f.popState == ElementFinishData && bufAvailPos == 0
      requires wanted.Some? ==>
                 && FrameOk(g.state, g) && TopTracks(f, g) && Agrees(otherBufs, FrameRest(g.state, g) + tail)
      modifies `messagePos, `otherBufs, `taken
      ensures Framing() && signal in {Go, Yield} && Stream() == old(Stream()) && |taken| >= |old(taken)|
      ensures ReadTurned(wanted.Some?, f, g, old(taken), taken, |Ahead()|, move, flow, signal)
    {
      hide HeaderTail, HeaderUpTo, KeepTracks, Follows, Becomes, UintX, MoveOk, Advances, ReadTurned, TopTracks,
           FrameRest, FramePieces, EncodeTableFrom, Counted, FromLittle, FlagByte, AsUint16, Zeros, EntryTail,
           ElementTail, RestrictElements, Suits, SameThing, ArrayMore, FrameOk;
      ArrayRoom(f);
      var b := TakeOther(f.param2 - f.param1);
      if wanted.Some? {
        ArrayHolds(f, g);
        AgreesOnRest(b, otherBufs, FrameRest(g.state, g), tail);
      }
      move, signal, flow := ArrayFilled(f, b, g, old(taken));
    }

    method ArrayFilled(f: ReadFrame, b: Bytes, ghost g: Frame, ghost before: Bytes)
      returns (move: Move, signal: Signal, ghost flow: Flow)
      requires Framing() && f.part.ArrayPart? && Suits(f) && f.popState == ElementFinishData
      requires f.param1 + |b| <= f.param2 && taken == before + b
      requires wanted.Some? ==>
                 && FrameOk(g.state, g) && TopTracks(f, g) && b <= g.data.memory[f.param1..]
                 && (f.param1 + |b| < f.param2 ==> Ahead() == [])
      ensures signal in {Go, Yield}
      ensures ReadTurned(wanted.Some?, f, g, before, taken, |Ahead()|, move, flow, signal)
    {
      hide HeaderTail, HeaderUpTo, KeepTracks, Follows, Becomes, UintX, MoveOk, Advances, ReadTurned, TopTracks,
           FrameRest, FramePieces, EncodeTableFrom, Counted, FromLittle, FlagByte, AsUint16, Zeros, EntryTail,
           ElementTail, RestrictElements, Suits, SameThing, ArrayMore, FrameOk;
      ArrayContinues(wanted.Some?, f, g, b, before, taken, |Ahead()|);
      if f.param1 + |b| >= f.param2 {
        move, signal, flow := Pop(ArrayMore(f, b).part), Go, Leave;
      } else {
        move, signal, flow := Keep(ArrayMore(f, b)), Yield, Stay(g.(param1 := g.param1 + |b|));
      }
    }

    method StepString(f: ReadFrame, ghost g: Frame, ghost tail: Bytes)
      returns (move: Move, signal: Signal, ghost flow: Flow)
      requires f.part.StringPart? && f.state == HeaderString && IsFieldState(f.popState) && Ready(f, g, tail)
      modifies `messagePos, `bufReadPos, `bufAvailPos, `otherBufs, `taken
      ensures Framing() && Stream() == old(Stream()) && signal in {Go, Block}
      ensures ReadTurned(wanted.Some?, f, g, old(taken), taken, |Ahead()|, move, flow, signal)
    {
      hide HeaderTail, HeaderUpTo, KeepTracks, Follows, Becomes, UintX, MoveOk, Advances, ReadTurned, TopTracks,
           FrameRest, FramePieces, EncodeTableFrom, Counted, FromLittle, FlagByte, AsUint16, Zeros, EntryTail,
           ElementTail, RestrictElements, Suits, SameThing, StringMore;
      ghost var w := wanted.Some?;
      StringSuits(f);
      if w {
        FollowsGoal(f, g, tail);
        StringHolds(f, g);
        assert FrameRest(g.state, g) + [] == FrameRest(g.state, g);
        FollowsAhead(f, g, tail, FrameRest(g.state, g), []);
        assert [] + tail == tail;
      }
      var s := ReadSomeBytes(f.limit, f.part.size - f.param1);
      match s {
        case Err(e) =>
          move, signal, flow := Throw(e), Block, Leave;
          ReadThrows(f, g, old(taken), taken, |Ahead()|, e, flow, signal);
        case Ok(b) =>
          if w { AgreesOnRest(b, Ahead(), FrameRest(g.state, g), tail); }
          StringContinues(w, f, g, b, old(taken), taken, |Ahead()|);
          if f.param1 + |b| == f.part.size {
            move, signal, flow := Pop(StringMore(f, b).part), Go, Leave;
          } else {
            move, signal, flow := Keep(StringMore(f, b)), Block, Stay(g.(param1 := g.param1 + |b|));
          }
      }
    }

    lemma StringSuits(f: ReadFrame)
      requires f.part.StringPart? && Suits(f)
      ensures f.param1 < f.part.size
    {
    }

    // -------------------------------------------------------------- the message

    lemma MessageGoal(f: ReadFrame, g: Frame, tail: Bytes)
      requires Ready(f, g, tail) && wanted.Some? && f.part.MessagePart?
      ensures FrameOk(g.state, g) && TopTracks(f, g) && g.data.OfMessage? && g.state == f.state
      ensures f.state != MessageInit && f.state != HeaderInit ==> f.limit == g.limit
      ensures f.state == HeaderInit ==>
                && f.limit == 12 && taken == [] && GoalMessage(g).header.messageSize >= 12
                && Agrees(Ahead(), Encode(GoalMessage(g)) + tail)
      ensures f.state == MessageDone ==> g.limit == |taken| < SIZE
    {
      hide FrameOk, TopTracks, Encode, Consistent;
      FollowsGoal(f, g, tail);
      MessageHolds(f, g);
      if f.state == HeaderInit {
        WholeEncoding(g);
        HeaderSizes(GoalMessage(g));
      }
    }

    lemma PreambleAhead(m: Message, tail: Bytes)
      requires Framing() && Agrees(Ahead(), Encode(m) + tail) && |Ahead()| >= PREAMBLE
      ensures Ahead()[..PREAMBLE] == Preamble(m.header.messageSize)
    {
      hide Encode, Preamble, HeaderTail, EncodeEntries;
      EncodeBegins(m);
      var p, q := Preamble(m.header.messageSize), HeaderTail(3, m.header) + EncodeEntries(m.entries);
      assert p + q + tail == p + (q + tail);
      AgreesOnFirst(Ahead(), p, q + tail);
    }

    /** The first 12 bytes must be there at once. */
    method StepHeaderInit(f: ReadFrame, ghost g: Frame, ghost tail: Bytes)
      returns (move: Move, signal: Signal, ghost flow: Flow)
      requires f.part.MessagePart? && f.state == HeaderInit && Ready(f, g, tail) && (wanted.Some? ==> |Ahead()| >= 12)
      modifies `messagePos, `bufReadPos, `bufAvailPos, `otherBufs, `taken, `version
      ensures Framing() && Stream() == old(Stream()) && signal == Go
      ensures ReadTurned(wanted.Some?, f, g, old(taken), taken, |Ahead()|, move, flow, signal)
    {
      hide HeaderTail, HeaderUpTo, KeepTracks, Follows, Becomes, UintX, MoveOk, Advances, ReadTurned, TopTracks,
           FrameRest, FramePieces, EncodeTableFrom, Counted, FromLittle, FlagByte, AsUint16, Zeros, EntryTail,
           ElementTail, RestrictElements, Suits, SameThing, FrameOk, Encode, FromLittle;
      ghost var w := wanted.Some?;
      if w {
        MessageGoal(f, g, tail);
        PreambleAhead(GoalMessage(g), tail);
        WrapSmall(|taken|);
        WrapSmall(f.limit - |taken|);
      }
      move, signal, flow := Throw(ProtocolError), Go, Enter(g, GoalHeader(g));
      if Available() < 12 {
        // Initial message header not available
        ReadThrows(f, g, taken, taken, |Ahead()|, ProtocolError, flow, signal);
        return;
      }
      // magic, message size and version, each of which throws when it crosses the limit
      var b := ReadAllBytes(f.limit, PREAMBLE);
      if !b.Got? || b.value[..4] != MAGIC {
        // Message limit error, Invalid message magic
        if w {
          assert b.Got? ==> b.value == old(Ahead())[..PREAMBLE];
          PreambleMagic(GoalMessage(g).header.messageSize);
        }
        ReadThrows(f, g, old(taken), taken, |Ahead()|, ProtocolError, flow, signal);
        return;
      }
      var size := AsUint32(b.value[4..8]);
      version := AsUint16(b.value[8..10]);
      if w {
        assert b.value == old(Ahead())[..PREAMBLE];
        PreambleMagic(GoalMessage(g).header.messageSize);
        WrapSmall(size as int - PREAMBLE);
        WrapSmall(|taken|);
        WrapSmall(size);
      }
      var limit := Wrap(messagePos + Wrap(size as int - PREAMBLE));
      if limit > size {
        // Invalid message limit
        ReadThrows(f, g, old(taken), taken, |Ahead()|, ProtocolError, flow, signal);
      } else {
        move := Push(f.(limit := size), HeaderBegun(size, limit));
        HeaderBegins(w, f, g, size, limit, old(taken), taken, |Ahead()|);
      }
    }

    method StepMessage(f: ReadFrame, ghost g: Frame, ghost tail: Bytes)
      returns (move: Move, signal: Signal, ghost flow: Flow)
      requires f.part.MessagePart? && f.state in {MessageInit, MessageEntries, EntryInit, MessageDone}
                && Ready(f, g, tail)
      modifies `readMessages
      ensures Framing() && signal in {Go, Finish}
      ensures ReadTurned(wanted.Some?, f, g, taken, taken, |Ahead()|, move, flow, signal)
      ensures readMessages == old(readMessages) + if signal == Finish then [f.part.message] else []
      ensures signal == Finish ==>
                && f.state == MessageDone && move == Keep(f)
                && messagePos == f.limit == f.part.message.header.messageSize
    {
      hide HeaderTail, HeaderUpTo, KeepTracks, Follows, Becomes, UintX, MoveOk, Advances, ReadTurned, TopTracks,
           FrameRest, FramePieces, EncodeTableFrom, Counted, FromLittle, FlagByte, AsUint16, Zeros, EntryTail,
           ElementTail, RestrictElements, Suits, SameThing, FrameOk, Encode, Consistent;
      ghost var w := wanted.Some?;
      if w { MessageGoal(f, g, tail); }
      MessageMoves(f);
      if f.state == MessageInit {
        MessageBegins(w, f, g);
        move, signal, flow := Pass(f, f.(state := HeaderInit, part := MessagePart(NEW_MESSAGE)), g, tail,
                                   g.(state := HeaderInit, param1 := 0));
      } else if f.state == MessageEntries {
        MessageEntriesBecome(w, f, g);
        if w { MessageHolds(f, g); }
        if |f.part.message.entries| >= f.part.message.header.entryCount {
          move, signal, flow := Pass(f, f.(state := MessageDone), g, tail, g.(state := MessageDone));
        } else {
          move, signal, flow := Pass(f, f.(state := EntryInit), g, tail, g.(state := EntryInit));
        }
      } else if f.state == EntryInit {
        if w { FollowsGoal(f, g, tail); EntryChild(f, g, |taken|); }
        move, signal, flow := PushState(f, EntrySize, MessageEntries, EntryPart(NEW_ENTRY), 0, g, tail,
                                        g.(param1 := g.param1 + 1), if w then GoalEntry(g, |taken|) else g);
      } else {
        if w { WrapSmall(|taken|); WrapSmall(0); }
        signal, flow := Go, Stay(g);
        if Distance(f.limit) != 0 {
          // Message did not consume all data
          move := Throw(ProtocolError);
          ReadThrows(f, g, taken, taken, |Ahead()|, ProtocolError, flow, signal);
        } else {
          WrapZero(f.limit, messagePos);
          readMessages := readMessages + [f.part.message];
          move, signal := Keep(f), Finish;
          MessageFinished(w, f, g, taken, |Ahead()|);
        }
      }
    }

    method StepHeader(f: ReadFrame, ghost g: Frame, ghost tail: Bytes)
      returns (move: Move, signal: Signal, ghost flow: Flow)
      requires f.part.HeaderPart? && f.popState == MessageEntries && HeaderHeaderSize <= f.state <= HeaderExtended2
                && Ready(f, g, tail)
      modifies `messagePos, `bufReadPos, `bufAvailPos, `otherBufs, `taken
      ensures Framing() && Stream() == old(Stream()) && signal in {Go, Block}
      ensures ReadTurned(wanted.Some?, f, g, old(taken), taken, |Ahead()|, move, flow, signal)
      ensures old(|Ahead()|) < Unsplit(f) <= old(Distance(f.limit)) ==>
                move == Keep(f) && signal == Block && taken == old(taken)
    {
      hide Ready, ReadTurned;
      if f.state <= HeaderFlags { move, signal, flow := StepHeaderSize(f, g, tail); }
      else if f.state <= HeaderRouting2 { move, signal, flow := StepHeaderNodes(f, g, tail); }
      else if f.state <= HeaderRouting4 { move, signal, flow := StepHeaderNames(f, g, tail); }
      else if f.state <= HeaderEndpoint2 { move, signal, flow := StepHeaderEndpoints(f, g, tail); }
      else if f.state <= HeaderMetaInfo { move, signal, flow := StepHeaderPriority(f, g, tail); }
      else if f.state <= HeaderMessageId2 { move, signal, flow := StepHeaderIds(f, g, tail); }
      else if f.state <= HeaderStringTable2 { move, signal, flow := StepHeaderTable(f, g, tail); }
      else if f.state == HeaderStringTable3 { move, signal, flow := StepHeaderTableText(f, g, tail); }
      else if f.state == HeaderEntryCount { move, signal, flow := StepHeaderCount(f, g, tail); }
      else { move, signal, flow := StepHeaderExtended(f, g, tail); }
    }

    method StepEntry(f: ReadFrame, ghost g: Frame, ghost tail: Bytes)
      returns (move: Move, signal: Signal, ghost flow: Flow)
      requires f.part.EntryPart? && f.popState == MessageEntries && IsEntryState(f.state) && Ready(f, g, tail)
      modifies `messagePos, `bufReadPos, `bufAvailPos, `otherBufs, `taken
      ensures Framing() && Stream() == old(Stream()) && signal in {Go, Block}
      ensures ReadTurned(wanted.Some?, f, g, old(taken), taken, |Ahead()|, move, flow, signal)
      ensures old(|Ahead()|) < Unsplit(f) <= old(Distance(f.limit)) ==>
                move == Keep(f) && signal == Block && taken == old(taken)
    {
      hide Ready, ReadTurned;
      if f.state in {EntrySize, EntryFlags} { move, signal, flow := StepEntrySize(f, g, tail); }
      else if f.state in {EntryEntryType, EntryServicePathStr} { move, signal, flow := StepEntryType(f, g, tail); }
      else if f.state in {EntryServicePathCode, EntryMemberNameStr} {
        move, signal, flow := StepEntryService(f, g, tail);
      }
      else if f.state == EntryMemberNameCode { move, signal, flow := StepEntryMember(f, g, tail); }
      else if f.state in {EntryRequestId, EntryMetaInfo} { move, signal, flow := StepEntryRequest(f, g, tail); }
      else if f.state == EntryError { move, signal, flow := StepEntryError(f, g, tail); }
      else if f.state == EntryExtended1 { move, signal, flow := StepEntryExtended1(f, g, tail); }
      else if f.state == EntryExtended2 { move, signal, flow := StepEntryExtended2(f, g, tail); }
      else { move, signal, flow := StepEntryElements(f, g, tail); }
    }

    method StepElement(f: ReadFrame, ghost g: Frame, ghost tail: Bytes)
      returns (move: Move, signal: Signal, ghost flow: Flow)
      requires f.part.ElementPart? && f.popState in {EntryElements, ElementNested2} && IsElementState(f.state)
                && Ready(f, g, tail)
      modifies `messagePos, `bufReadPos, `bufAvailPos, `otherBufs, `taken
      ensures Framing() && Stream() == old(Stream()) && signal in {Go, Block, Yield}
      ensures ReadTurned(wanted.Some?, f, g, old(taken), taken, |Ahead()|, move, flow, signal)
      ensures old(|Ahead()|) < Unsplit(f) <= old(Distance(f.limit)) ==>
                move == Keep(f) && signal == Block && taken == old(taken)
    {
      hide Ready, ReadTurned;
      if f.state in {ElementSize, ElementFlags} { move, signal, flow := StepElementSize(f, g, tail); }
      else if f.state in {ElementNameStr, ElementNameCode} { move, signal, flow := StepElementName(f, g, tail); }
      else if f.state in {ElementNumber, ElementElementType} { move, signal, flow := StepElementNumber(f, g, tail); }
      else if f.state in {ElementTypeStr, ElementTypeCode} { move, signal, flow := StepElementTypeName(f, g, tail); }
      else if f.state == ElementMetaInfo { move, signal, flow := StepElementMeta(f, g, tail); }
      else if f.state == ElementExtended1 { move, signal, flow := StepElementExtended1(f, g, tail); }
      else if f.state == ElementExtended2 { move, signal, flow := StepElementExtended2(f, g, tail); }
      else if f.state == ElementArray1 { move, signal, flow := StepArray1(f, g, tail); }
      else { move, signal, flow := StepElementData(f, g, tail); }
    }

    // -------------------------------------------------------------- one turn of the switch

    ghost predicate Starting()
      requires stateStack != []
      reads this
    {
      TopOf(stateStack).state in {MessageInit, HeaderInit}
    }

    ghost predicate InTransit()
      requires wanted.Some?
      reads `wanted, `stateStack, `goals, `taken
    {
      AtPoint(wanted.value, stateStack, goals, taken)
    }

    /** In a call. */
    ghost predicate Reading()
      reads this, buf
    {
      && Framing() && WellFormed(stateStack)
      && (wanted.Some? ==> InTransit() && Agrees(Stream(), Encode(wanted.value)))
    }

    lemma ReadingFollows()
      requires Reading() && wanted.Some?
      ensures Follows(TopOf(stateStack), Top(goals), Tail(goals))
      ensures |Encode(wanted.value)| < SIZE && taken <= Encode(wanted.value)
      ensures Starting() ==> taken == []
    {
      hide FrameOk, FrameRest, TopTracks, Rest, Good, Encode, Consistent, RestPieces, Stands, Suits;
      var m, st := wanted.value, Top(goals).state;
      HeaderSizes(m);
      GoodTop(goals, st, |taken|);
      RestTop(goals, st);
      LimitsNest(goals, st, |taken|);
      assert |taken| + |Rest(goals, st)| == |Encode(m)|;
      AgreesOnFirst(Stream(), taken, Rest(goals, st));
      assert Stream()[..|taken|] == taken && Stream()[|taken|..] == Ahead();
      BottomTracks(stateStack, goals);
      if Starting() { StartIsWhole(stateStack, goals); }
    }

    /** The measure of the read loop, after the bytes ahead: depth and rank of the stack. */
    ghost function Measure(): nat
      requires stateStack != []
      reads this
    {
      LEVEL * |stateStack| + Rank(TopOf(stateStack).state)
    }

    /** The case of the switch for the frame on top. */
    method Step(f: ReadFrame, ghost g: Frame, ghost tail: Bytes)
      returns (move: Move, signal: Signal, ghost flow: Flow)
      requires Ready(f, g, tail) && !f.part.ArrayPart? && (f.part.MessagePart? || exists below :: Stands(below, f))
      requires wanted.Some? && f.state in {MessageInit, HeaderInit} ==> |Ahead()| >= 12
      modifies `messagePos, `bufReadPos, `bufAvailPos, `otherBufs, `taken, `version, `readMessages
      ensures Framing() && Stream() == old(Stream())
      ensures ReadTurned(wanted.Some?, f, g, old(taken), taken, |Ahead()|, move, flow, signal)
      ensures signal == Finish ==>
                && f.state == MessageDone && f.part.MessagePart? && move == Keep(f)
                && messagePos == f.limit == f.part.message.header.messageSize
      ensures readMessages == old(readMessages) + if signal == Finish then [f.part.message] else []
      ensures old(|Ahead()|) < Unsplit(f) <= old(Distance(f.limit)) ==>
                move == Keep(f) && signal == Block && taken == old(taken)
    {
      hide Ready, ReadTurned, Suits, Stands;
      ReadySuits(f, g, tail);
      match f.part {
        case MessagePart(_) =>
          if f.state == HeaderInit { move, signal, flow := StepHeaderInit(f, g, tail); }
          else { move, signal, flow := StepMessage(f, g, tail); }
        case HeaderPart(_) => move, signal, flow := StepHeader(f, g, tail);
        case EntryPart(_) => move, signal, flow := StepEntry(f, g, tail);
        case ElementPart(_) => move, signal, flow := StepElement(f, g, tail);
        case NestedPart(_, _, _) => move, signal, flow := StepNested(f, g, tail);
        case StringPart(_, _, _) => move, signal, flow := StepString(f, g, tail);
      }
    }

    lemma ReadySuits(f: ReadFrame, g: Frame, tail: Bytes)
      requires Ready(f, g, tail) && !f.part.ArrayPart? && (f.part.MessagePart? || exists below :: Stands(below, f))
      ensures Suits(f) && Framing()
      ensures f.part.MessagePart? ==> IsMessageState(f.state)
      ensures f.part.HeaderPart? ==> f.popState == MessageEntries && HeaderHeaderSize <= f.state <= HeaderExtended2
      ensures f.part.EntryPart? ==> f.popState == MessageEntries && IsEntryState(f.state)
      ensures f.part.ElementPart? ==> f.popState in {EntryElements, ElementNested2} && IsElementState(f.state)
      ensures f.part.NestedPart? ==> f.popState == ElementFinishData && f.state == ElementNested2
      ensures f.part.StringPart? ==> f.state == HeaderString && IsFieldState(f.popState)
    {
      hide Follows;
    }

    /** push_state, pop_state or the change to the frame on top. */
    method Enact(f: ReadFrame, move: Move, signal: Signal, ghost g: Frame, ghost flow: Flow, ghost before: Bytes)
      requires WellFormed(stateStack) && f == TopOf(stateStack) && Framing() && !move.Throw?
      requires ReadTurned(wanted.Some?, f, g, before, taken, |Ahead()|, move, flow, signal)
      requires wanted.Some? ==> goals != [] && g == Top(goals) && Tracks(stateStack, goals)
      modifies `stateStack, `goals
      ensures Framing() && WellFormed(stateStack)
      ensures move == Keep(f) ==> stateStack == old(stateStack)
      ensures move.Push? ==> |stateStack| > 1
      ensures signal == Yield <==> TopOf(stateStack).part.ArrayPart?
      ensures signal == Go ==> |before| < |taken| || Measure() < old(Measure())
      ensures wanted.Some? ==>
                && Applicable(old(goals), flow) && goals == Apply(old(goals), flow) && Tracks(stateStack, goals)
                && Turned(g, before, taken, Even(|Ahead()| + |taken| - |before|), Even(|Ahead()|), flow, signal)
                && (signal == Block || signal == Yield ==> |Ahead()| < |FlowRest(flow)|)
    {
      hide Suits, Stands, SameThing, Turned, MoveTracks, MoveOk, Rank, Tracks, FrameRest, Joined;
      MoveKeepsWellFormed(stateStack, move);
      ArrayOnTop(stateStack, move);
      if signal == Go {
        if |before| == |taken| { MoveSinks(stateStack, move); }
      }
      if wanted.Some? {
        MoveKeepsTracks(stateStack, goals, move, flow);
        goals := Apply(goals, flow);
      }
      stateStack := Moved(stateStack, move);
    }

    /** The pieces that are still to be read. */
    ghost function Goal(): seq<Piece>
      reads `goals
    {
      if goals == [] then [] else RestPieces(goals, Top(goals).state)
    }

    /** What a turn that ended with the signal says about the rest of the call. */
    ghost predicate Stopped(signal: Signal, messages: seq<Message>)
      requires Framing()
      reads this, buf
    {
      && (signal == Yield <==> TopOf(stateStack).part.ArrayPart?)
      && (signal == Finish ==>
            && TopOf(stateStack).part.MessagePart? && TopOf(stateStack).state == MessageDone
            && messagePos == TopOf(stateStack).limit == TopOf(stateStack).part.message.header.messageSize
            && readMessages == messages + [TopOf(stateStack).part.message]
            && (wanted.Some? ==>
                  TopOf(stateStack).part.message == RestrictMessage(wanted.value) && taken == Encode(wanted.value)))
      && (signal != Finish ==> readMessages == messages)
      && (wanted.Some? && (signal == Block || signal == Yield) ==>
            && |Stream()| < |Encode(wanted.value)|
            && Stuck(Goal(), Even(|Ahead()|))
            && (signal == Yield ==> Ahead() == []))
    }

    /** The extended block at hand is longer than what is ahead. */
    ghost predicate Starved()
      requires Framing()
      reads this, buf
    {
      var f := TopOf(stateStack);
      |Ahead()| < Unsplit(f) <= Distance(f.limit)
    }

    /** One pass through the switch. */
    method Turn() returns (r: Result<Signal>)
      requires Reading() && !TopOf(stateStack).part.ArrayPart?
      requires wanted.Some? ==> |Stream()| >= 12
      modifies `stateStack, `goals, `messagePos, `bufReadPos, `bufAvailPos, `otherBufs, `taken, `version, `readMessages
      ensures wanted.Some? ==> r.Ok?
      ensures old(Starved()) ==> r == Ok(Block) && stateStack == old(stateStack) && taken == old(taken)
      ensures r.Ok? ==>
                && Reading() && Stream() == old(Stream()) && |taken| >= |old(taken)|
                && (r.value == Go ==> |taken| > |old(taken)| || Measure() < old(Measure()))
                && Stopped(r.value, old(readMessages))
                && (wanted.Some? ==> Crosses(old(Goal()), |taken| - |old(taken)|, Goal(), Even(old(|Ahead()|))))
    {
      hide AtPoint, FrameRest, ReadTurned, Turned, Encode, Follows, Suits, Stands, Tracks, Apply, Tail, FlowRest,
           RestrictMessage, Rank, RestPieces, Crosses, Stuck;
      var f := TopOf(stateStack);
      ghost var g, tail := Frame(MessageInit, MessageInit, 0, OfMessage(NEW_MESSAGE), 0, 0), [];
      if wanted.Some? {
        PointHasGoal(wanted.value, stateStack, goals, taken);
        g, tail := Top(goals), Tail(goals);
        ReadingFollows();
      }
      StackStands(stateStack);
      var move, signal, flow := Step(f, g, tail);
      if move.Throw? {
        TurnGrows(wanted.Some?, f, g, old(taken), taken, |Ahead()|, move, flow, signal);
        return Err(move.error);
      }
      TurnGrows(wanted.Some?, f, g, old(taken), taken, |Ahead()|, move, flow, signal);
      Enact(f, move, signal, g, flow, old(taken));
      if wanted.Some? {
        var start := |Ahead()| + |taken| - |old(taken)|;
        PointHasGoal(wanted.value, old(stateStack), old(goals), old(taken));
        TurnKeepsPoint(wanted.value, old(stateStack), old(goals), old(taken), taken, start, |Ahead()|, flow, signal,
                       stateStack);
        if signal == Finish { FinishedMessage(wanted.value, stateStack, goals, taken); }
      }
      return Ok(signal);
    }

    /** The first pass of a call that finds an array on top. */
    method TurnArray(cont: Bytes) returns (r: Result<Signal>)
      requires Framing() && WellFormed(stateStack) && TopOf(stateStack).part.ArrayPart?
      requires wanted.Some? ==>
                 && InTransit() && bufAvailPos == 0 && (cont == [] || otherBufs == [])
                 && TopOf(stateStack).param1 + |cont| <= TopOf(stateStack).param2
                 && Agrees(taken + (cont + otherBufs), Encode(wanted.value))
      modifies `stateStack, `goals, `messagePos, `otherBufs, `taken
      ensures wanted.Some? ==> r.Ok?
      ensures r.Ok? ==>
                && Reading() && Stream() == old(taken) + (cont + old(Ahead())) && |taken| >= |old(taken)| + |cont|
                && (cont != [] ==> old(Ahead()) == [])
                && Stopped(r.value, readMessages) && r.value != Finish
                && (wanted.Some? ==> Crosses(old(Goal()), |taken| - |old(taken)|, Goal(),
                                             Even(|cont| + old(|Ahead()|))))
    {
      hide AtPoint, FrameRest, ReadTurned, Turned, Encode, Suits, Stands, Tracks, Apply, Tail, FlowRest,
           RestrictMessage, Rank, Wrap, Agrees, RestPieces, Crosses, Stuck;
      var f := TopOf(stateStack);
      ghost var g, tail := Frame(MessageInit, MessageInit, 0, OfMessage(NEW_MESSAGE), 0, 0), [];
      if wanted.Some? {
        PointHasGoal(wanted.value, stateStack, goals, taken);
        g, tail := Top(goals), Tail(goals);
        PointFollows(wanted.value, stateStack, goals, taken, cont + otherBufs);
        assert Ahead() == otherBufs;
      }
      StackStands(stateStack);
      var move, signal, flow := StepArray2(f, cont, g, tail);
      TurnGrows(wanted.Some?, f, g, old(taken), taken, |Ahead()|, move, flow, signal);
      if move.Throw? { return Err(move.error); }
      Enact(f, move, signal, g, flow, old(taken));
      if wanted.Some? {
        var start := |Ahead()| + |taken| - |old(taken)|;
        TurnKeepsPoint(wanted.value, old(stateStack), old(goals), old(taken), taken, start, |Ahead()|, flow, signal,
                       stateStack);
        assert old(taken) + (cont + old(Ahead())) == taken + Ahead();
      }
      return Ok(signal);
    }

    lemma ArraysNeverStarve()
      requires Framing() && TopOf(stateStack).part.ArrayPart?
      ensures !Starved()
    {
    }

    /** What the transport has put into the array on top, if there is one. */
    method TakeFilled(cont: Bytes) returns (r: Result<Signal>)
      requires Framing() && WellFormed(stateStack)
      requires wanted.Some? ==> InTransit() && Expected(cont)
      modifies `stateStack, `goals, `messagePos, `otherBufs, `taken
      ensures wanted.Some? ==> r.Ok?
      ensures TopOf(old(stateStack)).part.ArrayPart? ||
              (r == Ok(Go) && stateStack == old(stateStack) && taken == old(taken) && messagePos == old(messagePos)
               && otherBufs == old(otherBufs) && goals == old(goals))
      ensures r.Ok? ==>
                && Reading() && r.value != Finish && Stopped(r.value, readMessages)
                && var filled := if TopOf(old(stateStack)).part.ArrayPart? then cont else [];
                   && Stream() == old(taken) + (filled + old(Ahead())) && |taken| >= |old(taken)| + |filled|
                   && (filled != [] ==> old(Ahead()) == [])
      ensures wanted.Some? ==> Crosses(old(Goal()), |taken| - |old(taken)|, Goal(), Even(|cont| + old(|Ahead()|)))
    {
      hide AtPoint, Encode, RestrictMessage, Agrees, Crosses, Stuck, AsyncMessageReader.Goal, WellFormed;
      if !TopOf(stateStack).part.ArrayPart? {
        CrossesNone(Goal(), Even(|cont| + |Ahead()|));
        assert [] + Ahead() == Ahead();
        return Ok(Go);
      }
      StackStands(stateStack);
      ArrayRoom(TopOf(stateStack));
      r := TurnArray(cont);
    }

    /** A pass in a call that began with n bytes read and the pieces ps left. */
    method TurnOn(ghost ps: seq<Piece>, ghost n: nat, ghost start: nat) returns (r: Result<Signal>)
      requires Reading() && !TopOf(stateStack).part.ArrayPart? && n <= |taken| && |Ahead()| <= start
      requires wanted.Some? ==> |Stream()| >= 12 && Crosses(ps, |taken| - n, Goal(), Even(start))
      modifies `stateStack, `goals, `messagePos, `bufReadPos, `bufAvailPos, `otherBufs, `taken, `version, `readMessages
      ensures wanted.Some? ==> r.Ok?
      ensures old(Starved()) ==> r == Ok(Block) && stateStack == old(stateStack) && taken == old(taken)
      ensures r.Ok? ==>
                && Reading() && Stream() == old(Stream()) && |taken| >= |old(taken)|
                && (r.value == Go ==> |taken| > |old(taken)| || Measure() < old(Measure()))
                && Stopped(r.value, old(readMessages))
                && (wanted.Some? ==> Crosses(ps, |taken| - n, Goal(), Even(start)))
    {
      hide AtPoint, Encode, RestrictMessage, Rank, Agrees, Crosses, Stuck, AsyncMessageReader.Goal, WellFormed, Unsplit,
           AsyncMessageReader.Stopped, AsyncMessageReader.InTransit;
      ghost var goal, k, ahead := Goal(), |taken| - n, |Ahead()|;
      r := Turn();
      if r.Ok? && wanted.Some? {
        ghost var more := |taken| - n - k;
        assert Crosses(goal, more, Goal(), Even(ahead));
        CrossesOn(ps, k, goal, more, Goal(), ahead, start);
        assert k + more == |taken| - n;
      }
    }

    lemma GoesOn(messages: seq<Message>)
      requires Framing() && Stopped(Go, messages)
      ensures readMessages == messages && !TopOf(stateStack).part.ArrayPart?
    {
    }

    /** The loop around the switch. */
    method Run(cont: Bytes) returns (r: Result<Signal>)
      requires Framing() && WellFormed(stateStack)
      requires wanted.Some? ==> InTransit() && Expected(cont)
      modifies `stateStack, `goals, `messagePos, `bufReadPos, `bufAvailPos, `otherBufs, `taken, `version, `readMessages
      ensures wanted.Some? ==> r.Ok?
      ensures old(Starved()) ==> r == Ok(Block) && stateStack == old(stateStack) && taken == old(taken)
      ensures r.Ok? ==>
                && Reading() && r.value != Go && Stopped(r.value, old(readMessages))
                && var filled := if TopOf(old(stateStack)).part.ArrayPart? then cont else [];
                   && Stream() == old(taken) + (filled + old(Ahead())) && |taken| >= |old(taken)| + |filled|
                   && (filled != [] ==> old(Ahead()) == [])
      ensures wanted.Some? ==> Crosses(old(Goal()), |taken| - |old(taken)|, Goal(), Even(|cont| + old(|Ahead()|)))
    {
      hide AtPoint, Encode, RestrictMessage, Rank, Agrees, Crosses, Stuck, AsyncMessageReader.Goal, WellFormed, Unsplit,
           AsyncMessageReader.Stopped;
      ghost var starved, start := Starved(), |cont| + |Ahead()|;
      if TopOf(stateStack).part.ArrayPart? { ArraysNeverStarve(); }
      r := TakeFilled(cont);
      if r.Err? { return; }
      var signal := r.value;
      ghost var stream, least := Stream(), |taken|;
      while signal == Go
        invariant Reading() && Stream() == stream && |taken| >= least
        invariant Stopped(signal, old(readMessages))
        invariant wanted.Some? ==> Crosses(old(Goal()), |taken| - |old(taken)|, Goal(), Even(start))
        invariant starved ==> signal in {Go, Block} && stateStack == old(stateStack) && taken == old(taken)
        invariant starved && signal == Go ==> Starved()
        decreases signal == Go, |Ahead()|, Measure()
      {
        GoesOn(old(readMessages));
        r := TurnOn(old(Goal()), |old(taken)|, start);
        if r.Err? { return; }
        signal := r.value;
      }
      return Ok(signal);
    }

    // -------------------------------------------------------------- the interface

    /** The bytes carried over from one call to the next. */
    ghost function Carry(): Bytes
      requires bufReadPos <= bufAvailPos <= buf.Length
      reads this, buf
    {
      buf[bufReadPos..bufAvailPos]
    }

    /** Between calls. */
    ghost predicate Valid()
      reads this, buf
    {
      && Framing() && WellFormed(stateStack)
      && (wanted.Some? ==> InTransit() && (TopOf(stateStack).part.ArrayPart? ==> Carry() == []))
    }

    /** The size of next_continue_read_bufs: what the array on top still lacks. */
    function Lacking(): nat
      requires stateStack != []
      reads this
    {
      var f := TopOf(stateStack);
      if f.part.ArrayPart? && f.param1 <= f.param2 then f.param2 - f.param1 else 0
    }

    /** The extended block at hand is longer than the carried bytes and n more. */
    ghost predicate Starves(n: nat)
      requires Framing()
      reads this, buf
    {
      var f := TopOf(stateStack);
      |Carry()| + n < Unsplit(f) <= Distance(f.limit)
    }

    /** The bytes the transport has put where the last call asked for them. */
    ghost function Filled(cont: Bytes): Bytes
      requires stateStack != []
      reads this
    {
      if TopOf(stateStack).part.ArrayPart? then cont else []
    }

    /** Everything read or handed over so far, in order. */
    ghost function Offered(chunk: Bytes, cont: Bytes): Bytes
      requires Framing()
      reads this, buf
    {
      taken + Carry() + Filled(cont) + chunk
    }

    /** During a call: what is ahead is the stream of the wanted message. */
    ghost predicate Expected(cont: Bytes)
      requires Framing() && wanted.Some?
      reads this, buf
    {
      && |taken| + |cont| + |Ahead()| >= 12
      && if TopOf(stateStack).part.ArrayPart? then
           && bufAvailPos == 0 && (cont == [] || otherBufs == []) && |cont| <= Lacking()
           && Agrees(taken + (cont + otherBufs), Encode(wanted.value))
         else
           cont == [] && Agrees(Stream(), Encode(wanted.value))
    }

    /** Moves any remaining data to the beginning of the buffer. */
    method Compact()
      requires Framing()
      modifies buf, `bufReadPos, `bufAvailPos
      ensures Framing() && bufReadPos == 0 && Carry() == old(Carry())
    {
      hide Wrap;
      ghost var before := Carry();
      if bufAvailPos > 0 {
        if bufReadPos == bufAvailPos {
          assert false;   // reading the last byte has set both to 0
        } else {
          var n := bufAvailPos - bufReadPos;
          ShiftDown(n);
          bufReadPos, bufAvailPos := 0, n;
        }
      }
      assert Carry() == before;
    }

    method ShiftDown(n: nat)
      requires bufReadPos + n <= buf.Length
      modifies buf
      ensures buf[..n] == old(buf[bufReadPos..bufReadPos + n])
    {
      forall i | 0 <= i < n { buf[i] := buf[bufReadPos + i]; }
    }

    /** Copies what fits of other_bufs behind the data in the buffer. */
    method TopUp()
      requires Framing() && bufReadPos == 0
      modifies buf, `bufAvailPos, `otherBufs
      ensures Framing() && bufReadPos == 0 && old(Carry() + otherBufs) == Carry() + otherBufs
      ensures otherBufs != [] ==> |Carry()| == 128
      ensures |otherBufs| <= old(|otherBufs|)
    {
      hide Wrap;
      ghost var before := Carry();
      var n := if |otherBufs| <= 128 - bufAvailPos then |otherBufs| else 128 - bufAvailPos;
      var b := otherBufs[..n];
      forall i | 0 <= i < n { buf[bufAvailPos + i] := b[i]; }
      bufAvailPos := bufAvailPos + n;
      assert Carry() == before + b;
      assert otherBufs == b + otherBufs[n..];
      assert (before + b) + otherBufs[n..] == before + (b + otherBufs[n..]);
      otherBufs := otherBufs[n..];
    }

    method PrepareContinue(offered: nat) returns (used: nat)
      requires Framing() && |Ahead()| <= offered + 128
      modifies buf, `bufReadPos, `bufAvailPos, `otherBufs
      ensures Framing() && old(Ahead()) == Carry() + otherBufs
      ensures otherBufs != [] ==> |Carry()| == 128
      ensures |otherBufs| <= offered && used == offered - |otherBufs|
    {
      hide Wrap;
      ghost var n := |Ahead()|;
      Compact();
      if |otherBufs| > 0 {
        TopUp();
      }
      assert n == |Carry()| + |otherBufs|;
      used := offered - |otherBufs|;
    }

    constructor (ghost expected: Option<Message>)
      requires expected.Some? ==> Consistent(expected.value)
      ensures Valid() && fresh(buf) && wanted == expected && taken == [] && Carry() == [] && readMessages == []
    {
      hide AtPoint, Consistent;
      buf := new byte[128];
      bufReadPos, bufAvailPos, otherBufs := 0, 0, [];
      messagePos, version := 0, 2;
      readMessages := [];
      stateStack := [ReadFrame(MessageInit, MessageInit, 12, MessagePart(NEW_MESSAGE), 0, 0)];
      taken, wanted := [], expected;
      goals := if expected.Some? then [GoalStart(expected.value)] else [];
      new;
      if expected.Some? { StartPoint(expected.value, stateStack, goals, MessageInit); }
    }

    /** Starts over; the caller may state which message it is about to hand over. */
    method Reset(ghost expected: Option<Message>)
      requires Valid() && (expected.Some? ==> Consistent(expected.value))
      modifies this
      ensures Valid() && wanted == expected && taken == [] && Carry() == [] && readMessages == []
    {
      hide AtPoint, Wrap, Consistent;
      WrapSmall(0);
      version := 2;
      bufAvailPos := 0;
      bufReadPos := 0;
      readMessages := [];
      messagePos := 0;
      stateStack := [ReadFrame(MessageInit, MessageInit, 12, MessagePart(NEW_MESSAGE), 0, 0)];
      taken, wanted := [], expected;
      goals := if expected.Some? then [GoalStart(expected.value)] else [];
      if expected.Some? { StartPoint(expected.value, stateStack, goals, MessageInit); }
    }

    /** The end of a call: what is left of the chunk goes into the buffer or back to the caller. */
    method HandBack(chunk: Bytes, ghost filled: Bytes, ghost t: Bytes, ghost c: Bytes) returns (used: nat)
      requires Framing() && Stream() == t + (filled + (c + chunk)) && |taken| >= |t| + |filled| && |c| <= 128
      requires filled != [] ==> c + chunk == []
      modifies buf, `bufReadPos, `bufAvailPos, `otherBufs
      ensures Framing() && used <= |chunk| && |Carry()| <= 128 && (used < |chunk| ==> |Carry()| == 128)
      ensures taken + Carry() == t + c + filled + [] + chunk[..used]
      ensures old(|Stream()|) == |t + c + filled + chunk| && old(|Ahead()|) == |Carry()| + |chunk| - used
    {
      hide Wrap;
      used := PrepareContinue(|chunk|);
      Conserved(t, c, filled, chunk, taken, Carry(), otherBufs);
    }

    lemma CarriedOver(chunk: Bytes, cont: Bytes)
      requires Valid() && otherBufs == chunk && |cont| <= Lacking() && (cont == [] || chunk == [])
      requires wanted.Some? && Agrees(Offered(chunk, cont), Encode(wanted.value)) && |Offered(chunk, cont)| >= 12
      ensures InTransit() && Expected(cont)
    {
      hide Encode, AtPoint, WellFormed, Agrees, Wrap;
      if TopOf(stateStack).part.ArrayPart? {
        assert taken + Carry() + cont + chunk == taken + (cont + chunk);
      } else {
        assert cont == [];
        assert taken + Carry() + [] + chunk == taken + (Carry() + chunk);
      }
    }

    lemma Finished(signal: Signal, m: Message, messages: seq<Message>)
      requires Framing() && wanted == Some(m) && InTransit() && Stopped(signal, messages) && signal != Go
      ensures signal == Finish <==> |Stream()| >= |Encode(m)|
      ensures signal != Finish ==> !HandFitsIn(m, |taken|, Even(|Ahead()|))
      ensures signal == Finish ==> taken == Encode(m) && readMessages == messages + [RestrictMessage(m)]
    {
      hide Encode, RestrictMessage, Wrap, MessagePieces, RestPieces, Fits;
      PiecesCover(m);
    }

    /** The message read last says that it ends here. */
    predicate DoneAt(pos: uint32)
      reads `readMessages
    {
      readMessages != [] && readMessages[|readMessages| - 1].header.messageSize == pos
    }

    lemma CallEnds(signal: Signal, messages: seq<Message>)
      requires Framing() && Stopped(signal, messages)
      ensures signal == Yield <==> TopOf(stateStack).part.ArrayPart?
      ensures signal == Finish ==> DoneAt(messagePos)
      ensures messages <= readMessages && |readMessages| == |messages| + if signal == Finish then 1 else 0
      ensures wanted.Some? && signal == Yield ==> Ahead() == []
    {
    }

    /** The loop, on the chunk behind what was carried over. */
    method ReadOn(chunk: Bytes, cont: Bytes) returns (s: Result<Signal>)
      requires Valid()
      requires wanted.Some? ==>
                 && Agrees(Offered(chunk, cont), Encode(wanted.value)) && |Offered(chunk, cont)| >= 12
                 && |cont| <= Lacking() && (cont == [] || chunk == [])
      modifies this
      ensures wanted == old(wanted) && (wanted.Some? ==> s.Ok?)
      ensures s.Ok? ==>
                && Framing() && WellFormed(stateStack) && s.value != Go
                && Stream() == old(taken) + (old(Filled(cont)) + (old(Carry()) + chunk))
                && |taken| >= |old(taken)| + |old(Filled(cont))|
                && (old(Filled(cont)) != [] ==> old(Carry()) + chunk == [])
                && (s.value == Yield <==> Lacking() > 0)
                && (s.value == Finish ==> DoneAt(messagePos))
                && old(readMessages) <= readMessages
                && |readMessages| == |old(readMessages)| + if s.value == Finish then 1 else 0
      ensures old(Starves(|chunk|)) ==> s == Ok(Block) && stateStack == old(stateStack) && taken == old(taken)
      ensures wanted.Some? ==>
                && InTransit() && (s.value == Yield ==> Ahead() == [])
                && (s.value == Finish <==> |Stream()| >= |Encode(wanted.value)|)
                && (s.value == Finish ==>
                      taken == Encode(wanted.value) && readMessages == old(readMessages)
                          + [RestrictMessage(wanted.value)])
                && (s.value != Finish ==> !HandFitsIn(wanted.value, |taken|, Even(|Ahead()|)))
                && Crosses(old(Goal()), |taken| - |old(taken)|, Goal(), Even(128 + |chunk| + |cont|))
    {
      hide AtPoint, Encode, RestrictMessage, Rank, Suits, Stands, Agrees, WellFormed, Wrap, Expected, HandFitsIn,
           Crosses, Stuck, AsyncMessageReader.Goal, AsyncMessageReader.Stopped, AsyncMessageReader.DoneAt;
      otherBufs := chunk;
      assert Starved() == old(Starves(|chunk|));
      hide Unsplit, Starved, Starves;
      if wanted.Some? { CarriedOver(chunk, cont); }
      ghost var goal, start := Goal(), |cont| + |Ahead()|;
      assert goal == old(Goal()) && start <= 128 + |chunk| + |cont|;
      s := Run(cont);
      if s.Ok? {
        StackStands(stateStack);
        OnlyArraysLack();
        CallEnds(s.value, old(readMessages));
        if wanted.Some? {
          Finished(s.value, wanted.value, old(readMessages));
          CrossesRoom(goal, |taken| - |old(taken)|, Goal(), Even(start), Even(128 + |chunk| + |cont|));
        }
      }
    }

    /** Read4: takes the next bytes of the stream, however they are cut, and ends on every input.
      *
      * When they are the bytes of a consistent message it throws nothing, reads on to the end of
      * what is offered, and is done exactly when the whole message has been offered. */
    method Read4(chunk: Bytes, cont: Bytes) returns (r: Result<ReadReturn>, used: nat)
      requires Valid()
      requires wanted.Some? ==>
                 && Agrees(Offered(chunk, cont), Encode(wanted.value)) && |Offered(chunk, cont)| >= 12
                 && |cont| <= Lacking() && (cont == [] || chunk == [])
      modifies this, buf
      // conservation: every byte offered is read, carried over, or reported as unused, in order
      ensures r.Ok? ==> Valid() && used <= |chunk|
      ensures r.Ok? ==> taken + Carry() == old(Offered([], cont)) + chunk[..used]
      ensures r.Ok? ==> messagePos == Wrap(|taken|) && |Carry()| <= 128 && (used < |chunk| ==> |Carry()| == 128)
      // the result says what the next call needs
      ensures r.Ok? ==> (r.value == ReadContinueBuffers <==> Lacking() > 0)
      // done means that as many bytes have been read as the message says
      ensures r == Ok(ReadDone) ==> DoneAt(messagePos)
      ensures r.Ok? ==> |readMessages| == |old(readMessages)| + (if r.value == ReadDone then 1 else 0)
      ensures r.Ok? ==> old(readMessages) <= readMessages
      // an extended block must be ahead as a whole
      ensures old(Starves(|chunk|)) ==>
                && r == Ok(ReadContinueNoBuffers) && stateStack == old(stateStack) && taken == old(taken)
      // a wanted message
      ensures wanted == old(wanted)
      ensures wanted.Some? ==>
                && r.Ok?
                && (r.value == ReadDone <==> |old(Offered(chunk, cont))| >= |Encode(wanted.value)|)
                && (r.value == ReadDone ==>
                      taken == Encode(wanted.value) && readMessages == old(readMessages)
                          + [RestrictMessage(wanted.value)])
                // chunk bytes are left over only when the piece at hand fits neither the buffer nor the chunk
                && (r.value != ReadDone && used < |chunk| ==>
                    !HandFitsIn(wanted.value, |taken|, Even(128 + |chunk| - used)))
                // what is read are whole pieces and parts of what may be cut, and all of them have fitted
                && |old(taken)| <= |taken|
                && Crosses(old(Goal()), |taken| - |old(taken)|, Goal(), Even(128 + |chunk| + |cont|))
    {
      hide AtPoint, Encode, RestrictMessage, Agrees, WellFormed, Wrap, HandFitsIn, Crosses, AsyncMessageReader.Goal,
           AsyncMessageReader.Starves, AsyncMessageReader.InTransit, AsyncMessageReader.Stream,
               AsyncMessageReader.Ahead;
      var s := ReadOn(chunk, cont);
      if s.Err? { return Err(s.error), 0; }
      OnlyArraysLack();
      used := HandBack(chunk, old(Filled(cont)), old(taken), old(Carry()));
      r := Ok(match s.value
              case Finish => ReadDone
              case Yield => ReadContinueBuffers
              case _ => ReadContinueNoBuffers);
    }

    lemma OnlyArraysLack()
      requires WellFormed(stateStack)
      ensures TopOf(stateStack).part.ArrayPart? <==> Lacking() > 0
    {
      hide WellFormed;
      ArrayLacks(stateStack);
    }

    method GetNextMessage() returns (r: Result<Message>)
      requires Valid()
      modifies `readMessages
      ensures Valid()
      ensures r.Ok? <==> old(readMessages) != []
      ensures r.Ok? ==> old(readMessages) == [r.value] + readMessages
      ensures r.Err? ==> readMessages == old(readMessages)
    {
      hide AtPoint, WellFormed;
      if readMessages == [] { return Err(InvalidOperation); }
      r := Ok(readMessages[0]);
      readMessages := readMessages[1..];
    }
  }

  /** n bytes of what is in the buffer, and then of what is behind it. */
  lemma TakenFirst(front: Bytes, kept: Bytes, behind: Bytes, n: nat)
    requires |front| <= n <= |front| + |behind| && (|front| < n ==> kept == [])
    ensures (front + kept) + behind == (front + behind[..n - |front|]) + (kept + behind[n - |front|..])
  {}

  lemma StreamSplits(taken: Bytes, b: Bytes, ahead: Bytes)
    ensures taken + (b + ahead) == (taken + b) + ahead
  {}

  lemma CrossesOn(ps: seq<Piece>, n: nat, mid: seq<Piece>, k: nat, rest: seq<Piece>, ahead: nat, start: nat)
    requires Crosses(ps, n, mid, Even(start)) && Crosses(mid, k, rest, Even(ahead)) && ahead <= start
    ensures Crosses(ps, n + k, rest, Even(start))
  {
    hide Crosses;
    CrossesRoom(mid, k, rest, Even(ahead), Even(start));
    CrossesMore(ps, n, mid, k, rest, Even(start));
  }

  lemma TextIntoText(f: ReadFrame, target: Target, next: State, g: Frame, text: Bytes, wanted: bool)
    requires BecomesText(wanted, f, target, next, g, text)
    ensures !f.part.ArrayPart?
  {
    hide AdvancesText, KeepTracks, Store;
  }

  lemma TextAdvances(f: ReadFrame, target: Target, next: State, g: Frame, text: Bytes)
    requires BecomesText(true, f, target, next, g, text)
    ensures AdvancesText(g, text, next)
  {
    hide AdvancesText, KeepTracks, Store, TargetSuits;
  }

  lemma LimitCovers(f: ReadFrame, g: Frame)
    requires TopTracks(f, g) && f.state != MessageInit && f.state != HeaderInit
    ensures f.limit >= g.limit
  {
  }

  lemma TwoPieces(a: Bytes, t: Bytes, p: Bytes, q: Bytes, rest: Bytes)
    requires a == p + (q + rest)
    ensures a[..|p| + |q|] == p + q && a[|p|..|p| + |q|] == q && a[|p| + |q|..] == rest
    ensures (t + p) + q == t + a[..|p| + |q|]
  {
  }

  lemma DistanceStep(limit: uint32, pos: uint32, pos': uint32, n: nat)
    requires Wrap(limit - pos) >= n && pos' == Wrap(pos + n)
    ensures Wrap(limit - pos') == Wrap(limit - pos) - n
  {
    var q := (pos + n) / SIZE;
    assert pos' == pos + n - SIZE * q;
    var d := Wrap(limit - pos);
    var r := (limit - pos) / SIZE;
    assert limit - pos == d + SIZE * r;
    assert limit - pos' == (d - n) + SIZE * (r + q);
  }

  lemma WrapRelative(limit: uint32, pos: uint32)
    ensures Wrap(pos + Wrap(limit - pos)) == limit
  {
    var d := Wrap(limit - pos);
    var q := (limit - pos) / SIZE;
    assert pos + d == limit - SIZE * q;
  }

  /** What was read and is carried over is what was offered, less what is left of the chunk. */
  lemma Conserved(t: Bytes, c: Bytes, filled: Bytes, chunk: Bytes, t': Bytes, c': Bytes, left: Bytes)
    requires t' + (c' + left) == t + (filled + (c + chunk)) && |left| <= |chunk|
    requires filled != [] ==> c + chunk == []
    ensures t' + c' == t + c + filled + [] + chunk[..|chunk| - |left|]
    ensures |t + c + filled + chunk| == |t'| + |c'| + |left|
  {
    var all := t + (filled + (c + chunk));
    assert all == t + c + filled + chunk;
    assert all == (t + c + filled + [] + chunk[..|chunk| - |left|]) + chunk[|chunk| - |left|..];
    assert all[..|t'| + |c'|] == t' + c';
  }

  lemma ArrayLacks(fs: seq<ReadFrame>)
    requires WellFormed(fs)
    ensures TopOf(fs).part.ArrayPart? ==> TopOf(fs).param1 < TopOf(fs).param2
  {
    hide Stands;
  }

  lemma WrapZero(limit: uint32, pos: uint32)
    requires Wrap(limit - pos) == 0
    ensures pos == limit
  {
  }

  lemma WrapStep(pos: uint32, n: nat, k: nat)
    requires pos == Wrap(n)
    ensures Wrap(pos + k) == Wrap(n + k)
  {
    assert n == pos + SIZE * (n / SIZE);
  }
}
