/** One turn of the reader's switch, beside the turn of the transfer it follows. */
module ReaderTurns {
  import opened Numbers
  import opened Results
  import opened Messages
  import opened Layout
  import opened Pieces
  import opened Restriction
  import opened Frames
  import opened ReaderFrames

  /** A read primitive: the value, `false` for want of bytes, or an exception. */
  datatype Outcome<+T> = Got(value: T) | Wait | Fail(error: Error)

  // ---------------------------------------------------------------- the bytes ahead

  /** The one continues the other. */
  predicate Agrees(a: Bytes, b: Bytes) { a <= b || b <= a }

  lemma AgreesOnFirst(ahead: Bytes, p: Bytes, q: Bytes)
    requires Agrees(ahead, p + q)
    ensures |ahead| >= |p| ==> ahead[..|p|] == p && Agrees(ahead[|p|..], q)
    ensures |ahead| < |p| ==> ahead <= p
  {
    if |ahead| >= |p| {
      assert (p + q)[..|p|] == p && (p + q)[|p|..] == q;
      if ahead <= p + q {
        assert ahead[..|p|] == (p + q)[..|p|] && ahead[|p|..] <= q;
      } else {
        assert ahead[..|p + q|] == p + q;
        assert ahead[..|p|] == p && q <= ahead[|p|..];
      }
    }
  }

  /** After b has been taken off, the bytes ahead agree with what is left. */
  lemma AgreesOnRest(b: Bytes, ahead: Bytes, p: Bytes, q: Bytes)
    requires Agrees(b + ahead, p + q) && |b| <= |p|
    ensures b == p[..|b|] && Agrees(ahead, p[|b|..] + q)
  {
    assert p + q == p[..|b|] + (p[|b|..] + q);
    AgreesOnFirst(b + ahead, p[..|b|], p[|b|..] + q);
    assert (b + ahead)[..|b|] == b && (b + ahead)[|b|..] == ahead;
  }

  lemma UintXAhead(ahead: Bytes, v: uint32, q: Bytes)
    requires Agrees(ahead, UintX(v) + q)
    ensures TakeUintX(ahead) == if |ahead| >= |UintX(v)| then Took(v, |UintX(v)|) else Short
  {
    hide UintX, TakeUintX;
    var p := UintX(v);
    AgreesOnFirst(ahead, p, q);
    if |ahead| >= |p| {
      assert ahead == p + ahead[|p|..];
      UintXPrefix(ahead, v, ahead[|p|..]);
    } else {
      assert p + [] == p;
      UintXPrefix(ahead, v, []);
    }
  }

  lemma IntXAhead(ahead: Bytes, v: int32, q: Bytes)
    requires Agrees(ahead, IntX(v) + q)
    ensures TakeIntX(ahead) == if |ahead| >= |IntX(v)| then Took(v, |IntX(v)|) else Short
  {
    hide IntX, TakeIntX;
    var p := IntX(v);
    AgreesOnFirst(ahead, p, q);
    if |ahead| >= |p| {
      assert ahead == p + ahead[|p|..];
      IntXPrefix(ahead, v, ahead[|p|..]);
    } else {
      assert p + [] == p;
      IntXPrefix(ahead, v, []);
    }
  }

  // ---------------------------------------------------------------- one turn

  /** The move leaves an array on top, to be filled by the transport. */
  predicate AwaitsArray(move: Move)
  {
    match move
    case Keep(f) => f.part.ArrayPart?
    case Push(_, child) => child.part.ArrayPart?
    case _ => false
  }

  /** A turn on frame f took the bytes read from `before` to `after` with `room` bytes left ahead.
    * Whatever the bytes were the stack stays well formed and the loop comes to an end; if they are
    * those of the message wanted, nothing is thrown, the turn is the transfer's turn on g, and it
    * stops only where the bytes ahead do not reach the end of the frame. */
  predicate ReadTurned(wanted: bool, f: ReadFrame, g: Frame, before: Bytes, after: Bytes, room: nat,
                       move: Move, flow: Flow, signal: Signal)
  {
    && |before| <= |after|
    && (!move.Throw? ==>
          && MoveOk(f, move)
          && (signal == Go ==> |before| < |after| || Sinks(f, move))
          && (signal == Yield <==> AwaitsArray(move)))
    && (wanted ==>
          && Turned(g, before, after, Even(room + |after| - |before|), Even(room), flow, signal)
          && MoveTracks(f, g, move, flow)
          && (signal == Block || signal == Yield ==> room < |FlowRest(flow)|))
  }

  /** f' is f with something new read; it holds what g' calls for. */
  predicate Becomes(wanted: bool, f: ReadFrame, f': ReadFrame, g: Frame, p: Bytes, g': Frame)
  {
    && SameThing(f, f') && Suits(f') && !f.part.ArrayPart?
    && (wanted ==> Advances(g, p, g') && KeepTracks(f, f', g, g'))
  }

  lemma ReadField(wanted: bool, f: ReadFrame, f': ReadFrame, g: Frame, p: Bytes, g': Frame,
                  before: Bytes, after: Bytes, room: nat)
    requires Becomes(wanted, f, f', g, p, g') && (wanted ==> FrameOk(g.state, g))
    requires |before| <= |after| && (wanted ==> after == before + p)
    requires |before| < |after| || Rank(f'.state) < Rank(f.state)
    ensures ReadTurned(wanted, f, g, before, after, room, Keep(f'), Stay(g'), Go)
  {
    hide FrameOk, FrameRest, Advances, Turned, KeepTracks, Suits, Rank;
    KindStays(f, f');
    ArrayKindStays(f, f');
    if wanted {
      FieldTurned(g, p, g', before, after, Even(room + |p|), Even(room), Stay(g'), Go);
    }
  }

  lemma ArrayKindStays(f: ReadFrame, f': ReadFrame)
    requires SameThing(f, f')
    ensures f.part.ArrayPart? <==> f'.part.ArrayPart?
  {
  }

  /** R(false): not enough bytes for p. */
  lemma ReadBlocked(wanted: bool, f: ReadFrame, g: Frame, p: Bytes, g': Frame, before: Bytes, room: nat)
    requires Suits(f) && !f.part.ArrayPart?
    requires wanted ==> FrameOk(g.state, g) && TopTracks(f, g) && Advances(g, p, g') && room < |p|
    ensures ReadTurned(wanted, f, g, before, before, room, Keep(f), Stay(g), Block)
  {
    hide FrameOk, FrameRest, Advances, Turned, TopTracks, Suits;
    SameAsItself(f);
    if wanted {
      AdvanceLength(g, p, g');
      FieldTurned(g, p, g', before, before, Even(room), Even(room), Stay(g), Block);
    }
  }

  lemma SameAsItself(f: ReadFrame)
    ensures SameThing(f, f)
  {
  }

  lemma ReadThrows(f: ReadFrame, g: Frame, before: Bytes, after: Bytes, room: nat, e: Error, flow: Flow, signal: Signal)
    requires |before| <= |after|
    ensures ReadTurned(false, f, g, before, after, room, Throw(e), flow, signal)
  {
  }

  /** pop_state after the last bytes p of the frame. */
  lemma ReadEnd(wanted: bool, f: ReadFrame, done: Part, g: Frame, p: Bytes, before: Bytes, after: Bytes, room: nat)
    requires MoveOk(f, Pop(done))
    requires |before| <= |after| && (wanted ==> after == before + p)
    requires |before| < |after| || Rank(f.popState) < LEVEL + Rank(f.state)
    requires wanted ==> FrameOk(g.state, g) && Ends(g, p) && done == Complete(f.part, g.data)
    ensures ReadTurned(wanted, f, g, before, after, room, Pop(done), Leave, Go)
  {
    hide FrameOk, FrameRest, Ends, Turned, Complete, Rank;
    if wanted {
      EndTurned(g, p, before, after, Even(room + |p|), Even(room), Leave, Go);
    }
  }

  lemma EndBlocked(wanted: bool, f: ReadFrame, g: Frame, p: Bytes, before: Bytes, room: nat)
    requires Suits(f) && !f.part.ArrayPart?
    requires wanted ==> FrameOk(g.state, g) && TopTracks(f, g) && Ends(g, p) && room < |p|
    ensures ReadTurned(wanted, f, g, before, before, room, Keep(f), Stay(g), Block)
  {
    hide FrameOk, FrameRest, Turned, TopTracks, Suits;
    SameAsItself(f);
    if wanted {
      EndTurned(g, p, before, before, Even(room), Even(room), Stay(g), Block);
    }
  }

  /** push_state(child) without reading. */
  lemma ReadPush(wanted: bool, f: ReadFrame, f': ReadFrame, child: ReadFrame, g: Frame, g': Frame, gc: Frame,
                 before: Bytes, room: nat)
    requires MoveOk(f, Push(f', child)) && !child.part.ArrayPart?
    requires LEVEL + Rank(child.state) < Rank(f.state)
    requires wanted ==> Pushes(g, g', gc, |before|) && MoveTracks(f, g, Push(f', child), Enter(g', gc))
    ensures ReadTurned(wanted, f, g, before, before, room, Push(f', child), Enter(g', gc), Go)
  {
    hide Pushes, Turned, MoveTracks, MoveOk, Rank;
    if wanted {
      PushTurned(g, g', gc, before, Even(room), Even(room));
    }
  }

  // ---------------------------------------------------------------- strings

  function TextFrame(target: Target, next: State, limit: uint32, text: Bytes, size: nat): ReadFrame
  {
    ReadFrame(HeaderString, next, limit, StringPart(target, text, size), |text|, 0)
  }

  /** f once the string for target is in. */
  function WithText(f: ReadFrame, target: Target, text: Bytes, next: State): ReadFrame
  {
    f.(state := next, part := Store(f.part, target, text))
  }

  /** Reading a string into target takes f to the state next. */
  predicate BecomesText(wanted: bool, f: ReadFrame, target: Target, next: State, g: Frame, text: Bytes)
  {
    && TargetSuits(f.part, target, next)
    && (wanted ==> AdvancesText(g, text, next) && KeepTracks(f, WithText(f, target, text, next), g, g.(state := next)))
  }

  lemma TextSuits(f: ReadFrame, target: Target, next: State, text: Bytes)
    requires TargetSuits(f.part, target, next)
    ensures SameThing(f, WithText(f, target, text, next)) && Suits(WithText(f, target, text, next))
    ensures !f.part.ArrayPart?
  {
  }

  /** All of the string was ahead. */
  lemma ReadText(wanted: bool, f: ReadFrame, target: Target, next: State, g: Frame, text: Bytes, value: Bytes,
                 before: Bytes, after: Bytes, room: nat)
    requires BecomesText(wanted, f, target, next, g, text) && (wanted ==> FrameOk(g.state, g))
    requires |before| < |after| && (wanted ==> after == before + Counted(text) && value == text)
    ensures ReadTurned(wanted, f, g, before, after, room, Keep(WithText(f, target, value, next)),
                       Stay(g.(state := next)), Go)
  {
    hide FrameOk, FrameRest, AdvancesText, Turned, KeepTracks, Counted, Suits, SameThing, Rank, TargetSuits, Store;
    TextSuits(f, target, next, value);
    ArrayKindStays(f, WithText(f, target, value, next));
    if wanted {
      CountedLength(text);
      TextTurned(g, text, next, before, after, Even(room + |Counted(text)|), Even(room), Stay(g.(state := next)), Go);
    }
  }

  lemma CountedLength(text: Bytes)
    ensures |Counted(text)| == |UintX(|text|)| + |text|
  {
  }

  lemma TextBlocked(wanted: bool, f: ReadFrame, target: Target, next: State, g: Frame, text: Bytes,
                    before: Bytes, room: nat)
    requires Suits(f) && !f.part.ArrayPart? && BecomesText(wanted, f, target, next, g, text)
    requires wanted ==> FrameOk(g.state, g) && TopTracks(f, g) && room < |UintX(|text|)|
    ensures ReadTurned(wanted, f, g, before, before, room, Keep(f), Stay(g), Block)
  {
    hide FrameOk, FrameRest, AdvancesText, Turned, TopTracks, Suits, TargetSuits, Store;
    SameAsItself(f);
    if wanted {
      AdvanceTextLength(g, text, next);
      TextTurned(g, text, next, before, before, Even(room), Even(room), Stay(g), Block);
    }
  }

  function GoalString(text: Bytes, next: State, limit: nat, n: nat): Frame
  {
    Frame(HeaderString, next, limit, OfString(text), n, 0)
  }

  /** The string goes on in a frame of its own. */
  lemma TextInterrupted(wanted: bool, f: ReadFrame, target: Target, next: State, g: Frame, text: Bytes,
                        value: Bytes, size: nat, limit: uint32, before: Bytes, after: Bytes, room: nat)
    requires BecomesText(wanted, f, target, next, g, text) && |value| < size
    requires |before| < |after|
    requires wanted ==>
               && FrameOk(g.state, g) && room == 0 && size == |text| && value == text[..|value|]
               && after == before + (UintX(|text|) + value) && limit == |after| + (|text| - |value|)
    ensures ReadTurned(wanted, f, g, before, after, room, Push(f, TextFrame(target, next, limit, value, size)),
                       Enter(g, GoalString(text, next, limit, |value|)), Block)
  {
    hide FrameOk, AdvancesText, KeepTracks, FrameRest, FramePieces, Crosses, Stuck, TextPieces, Store, TargetSuits,
         UintX, FlowOk;
    SameAsItself(f);
    if wanted {
      var child := TextFrame(target, next, limit, value, size);
      var gc := GoalString(text, next, limit, |value|);
      TextTurned(g, text, next, before, after, Even(room + |UintX(|text|)| + |value|), Even(room), Enter(g, gc), Block);
      assert Attach(f, next, Complete(child.part, gc.data)) == WithText(f, target, text, next);
    }
  }
}
