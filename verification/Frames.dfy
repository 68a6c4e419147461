/** The state stack of AsyncMessageWriterImpl: what is still to be written by a stack, and when
  * a stack is a point in the writing of a consistent message. */
module Frames {
  import opened Numbers
  import opened Messages
  import opened Layout
  import opened Pieces

  datatype FrameData =
    | OfMessage(message: Message)
    | OfHeader(header: MessageHeader)
    | OfEntry(entry: MessageEntry)
    | OfElement(element: MessageElement)
    | OfNested(elements: seq<MessageElement>)
    | OfArray(memory: Bytes)
    | OfString(text: Bytes)

  /** state_data: popState becomes the state of the frame below when this one is popped. */
  datatype Frame = Frame(state: State, popState: State, limit: nat, data: FrameData, param1: nat, param2: nat)

  /** What one turn of the switch does to the stack. */
  datatype Flow =
    | Stay(frame: Frame)                  // the top frame changed
    | Leave                               // pop_state
    | Enter(frame: Frame, child: Frame)   // push_state

  /** How the turn ends: go on, the field did not fit, return at once, or message done. */
  datatype Signal = Go | Block | Yield | Finish

  /** The bytes frame f still has to write itself when it is in state st. */
  function FrameRest(st: State, f: Frame): Bytes
  {
    match f.data
    case OfMessage(m) => MessageRest(st, m, f.param1)
    case OfHeader(h) => HeaderRest(st, h, if st == HeaderStringTable3 then f.param2 else f.param1)
    case OfEntry(e) => EntryRest(st, e, f.param1)
    case OfElement(el) => ElementRest(st, el)
    case OfNested(es) => EncodeElementsFrom(es, f.param1)
    case OfArray(b) => if f.param1 <= |b| then b[f.param1..] else []
    case OfString(s) => if f.param1 <= |s| then s[f.param1..] else []
  }

  /** And in which pieces. */
  function FramePieces(st: State, f: Frame): seq<Piece>
  {
    match f.data
    case OfMessage(m) => MessagePiecesFrom(st, m, f.param1)
    case OfHeader(h) => HeaderPiecesFrom(st, h, if st == HeaderStringTable3 then f.param2 else f.param1)
    case OfEntry(e) => EntryPiecesFrom(st, e, f.param1)
    case OfElement(el) => ElementPiecesFrom(st, el)
    case OfNested(es) => ElementsPiecesFrom(es, f.param1)
    case OfArray(b) => if f.param1 <= |b| then Uncopied(|b| - f.param1) else []
    case OfString(s) => if f.param1 <= |s| then Cuttable(|s| - f.param1) else []
  }

  predicate HeaderStateOk(st: State, h: MessageHeader, p1: nat, p2: nat)
  {
    && IsHeaderState(st)
    && (Order(st) < 16 ==> p1 == 0)
    && (st == HeaderRouting2 || st == HeaderRouting3 || st == HeaderRouting4 ==> Has(h.messageFlags, ROUTING_INFO))
    && (st == HeaderEndpoint2 ==> Has(h.messageFlags, ENDPOINT_INFO))
    && (st == HeaderMessageId1 || st == HeaderMessageId2 ==> Has(h.messageFlags, HEADER_META_INFO))
    && (st == HeaderStringTable2 ==> Has(h.messageFlags, STRING_TABLE) && p1 <= |h.stringTable|)
    && (st == HeaderStringTable3 ==> Has(h.messageFlags, STRING_TABLE) && p2 < |h.stringTable| && p1 == p2 + 1)
    && (st == HeaderExtended2 ==> Has(h.messageFlags, EXTENDED))
  }

  /** State st can be reached in frame f. */
  predicate FrameOk(st: State, f: Frame)
  {
    match f.data
    case OfMessage(m) =>
      && IsMessageState(st) && Consistent(m) && f.param1 <= |m.entries|
      && (st == EntryInit ==> f.param1 < |m.entries|)
      && (st == MessageInit || st == HeaderInit ==> f.param1 == 0)
    case OfHeader(h) => HeaderStateOk(st, h, f.param1, f.param2)
    case OfEntry(e) =>
      && IsEntryState(st) && ConsistentElements(e.elements)
      && (IsEntryFieldState(st) ==> f.param1 == 0)
      && (st == EntryExtended2 ==> Has(e.entryFlags, EXTENDED))
      && (st == EntryElements ==> f.param1 <= |e.elements|)
      && (st == ElementInit ==> f.param1 < |e.elements|)
    case OfElement(el) =>
      && IsElementState(st) && ConsistentElement(el)
      && (st == ElementExtended2 ==> Has(el.elementFlags, EXTENDED))
      && (st == ElementArray1 ==> el.data.ArrayData?)
      && (st == ElementNested1 ==> el.data.NestedData?)
    case OfNested(es) => st == ElementNested2 && f.param1 <= |es| && ConsistentElements(es)
    case OfArray(b) => st == ElementArray2 && f.param1 < |b| && |b| == f.param2
    case OfString(s) => st == HeaderString && f.param1 < |s|
  }

  /** Frame f may stand on frame below: it is for the part of below's thing that was begun last. */
  predicate Linked(below: Frame, f: Frame)
  {
    match f.data
    case OfMessage(_) => false
    case OfHeader(h) => below.data.OfMessage? && f.popState == MessageEntries && below.param1 == 0
        && h == below.data.message.header
    case OfEntry(e) =>
      && below.data.OfMessage? && f.popState == MessageEntries
      && 0 < below.param1 <= |below.data.message.entries| && e == below.data.message.entries[below.param1 - 1]
    case OfElement(el) =>
      || (below.data.OfEntry? && f.popState == EntryElements && LastBegun(below.data.entry.elements, below.param1, el))
      || (below.data.OfNested? && f.popState == ElementNested2 && LastBegun(below.data.elements, below.param1, el))
    case OfNested(es) =>
      && below.data.OfElement? && f.popState == ElementFinishData
      && below.data.element.data.NestedData? && es == below.data.element.data.elements
    case OfArray(b) =>
      && below.data.OfElement? && f.popState == ElementFinishData
      && below.data.element.data.ArrayData? && b == below.data.element.data.items.memory
    case OfString(s) => TextBefore(below.data, f.popState, s)
  }

  /** The field before that of state st is the string s; no block comes between. */
  predicate TextBefore(data: FrameData, st: State, s: Bytes)
  {
    match data
    case OfHeader(_) => IsHeaderState(st)
    case OfEntry(e) => IsEntryFieldState(st) && 0 < Order(st) <= 10 && EntryField(Order(st) - 1, e) == Counted(s)
    case OfElement(el) => IsElementFieldState(st) && 0 < Order(st) <= 9 && ElementField(Order(st) - 1, el) == Counted(s)
    case _ => false
  }

  predicate LastBegun(es: seq<MessageElement>, i: nat, el: MessageElement) { 0 < i <= |es| && el == es[i - 1] }

  function Top(fs: seq<Frame>): Frame
    requires fs != []
  {
    fs[|fs| - 1]
  }

  function Below(fs: seq<Frame>): seq<Frame>
    requires fs != []
  {
    fs[..|fs| - 1]
  }

  /** Everything the stack still has to write when its top frame is in state st: each frame
    * finishes in turn and leaves the one below in its pop state. */
  function Rest(fs: seq<Frame>, st: State): Bytes
    requires fs != []
    decreases |fs|
  {
    FrameRest(st, Top(fs)) + (if |fs| == 1 then [] else Rest(Below(fs), Top(fs).popState))
  }

  function RestPieces(fs: seq<Frame>, st: State): seq<Piece>
    requires fs != []
    decreases |fs|
  {
    FramePieces(st, Top(fs)) + (if |fs| == 1 then [] else RestPieces(Below(fs), Top(fs).popState))
  }

  /** Every frame's limit is exactly the position at which it will have written everything. */
  predicate Good(fs: seq<Frame>, st: State, pos: nat)
    requires fs != []
    decreases |fs|
  {
    var f := Top(fs);
    && FrameOk(st, f)
    && f.limit == pos + |FrameRest(st, f)|
    && if |fs| == 1 then f.data.OfMessage?
       else Linked(Top(Below(fs)), f) && Good(Below(fs), f.popState, f.limit)
  }

  lemma {:induction false} LimitsNest(fs: seq<Frame>, st: State, pos: nat)
    requires fs != [] && Good(fs, st, pos)
    ensures pos <= Top(fs).limit <= fs[0].limit
    ensures fs[0].limit == pos + |Rest(fs, st)|
    ensures fs[0].data.OfMessage?
    decreases |fs|
  {
    hide FrameOk, FrameRest, Linked;
    if |fs| > 1 {
      LimitsNest(Below(fs), Top(fs).popState, Top(fs).limit);
    }
  }

  // ---------------------------------------------------------------- pushes and pops

  predicate Applicable(fs: seq<Frame>, flow: Flow)
  {
    fs != [] && (flow.Leave? ==> |fs| >= 2)
  }

  /** push_state and pop_state. */
  function Apply(fs: seq<Frame>, flow: Flow): (r: seq<Frame>)
    requires Applicable(fs, flow)
    ensures r != []
  {
    match flow
    case Stay(f) => Below(fs) + [f]
    case Enter(f, child) => Below(fs) + [f] + [child]
    case Leave => Below(Below(fs)) + [Top(Below(fs)).(state := Top(fs).popState)]
  }

  /** What the frame at hand still has to write after a turn. */
  function FlowRest(flow: Flow): Bytes
  {
    match flow
    case Stay(f) => FrameRest(f.state, f)
    case Enter(f, child) => FrameRest(child.state, child) + FrameRest(child.popState, f)
    case Leave => []
  }

  function FlowPieces(flow: Flow): seq<Piece>
  {
    match flow
    case Stay(f) => FramePieces(f.state, f)
    case Enter(f, child) => FramePieces(child.state, child) + FramePieces(child.popState, f)
    case Leave => []
  }

  predicate SameFrame(f: Frame, g: Frame)
  {
    g.data == f.data && g.popState == f.popState && g.limit == f.limit
  }

  /** A turn of the switch on frame f that ended at position pos kept the frame in order. */
  predicate FlowOk(f: Frame, flow: Flow, pos: nat)
  {
    match flow
    case Stay(g) => SameFrame(f, g) && FrameOk(g.state, g)
    case Enter(g, child) =>
      && SameFrame(f, g) && Linked(g, child)
      && FrameOk(child.state, child) && FrameOk(child.popState, g)
      && child.limit == pos + |FrameRest(child.state, child)|
    case Leave => !f.data.OfMessage?
  }

  function Tail(fs: seq<Frame>): Bytes
    requires fs != []
  {
    if |fs| == 1 then [] else Rest(Below(fs), Top(fs).popState)
  }

  predicate GoodBelow(fs: seq<Frame>)
    requires fs != []
  {
    |fs| >= 2 ==> Good(Below(fs), Top(fs).popState, Top(fs).limit)
  }

  lemma GoodTop(fs: seq<Frame>, st: State, pos: nat)
    requires fs != [] && Good(fs, st, pos)
    ensures FrameOk(st, Top(fs))
    ensures Top(fs).limit == pos + |FrameRest(st, Top(fs))|
    ensures |fs| == 1 <==> Top(fs).data.OfMessage?
    ensures GoodBelow(fs)
    ensures |fs| >= 2 ==> Linked(Top(Below(fs)), Top(fs))
  {
    hide FrameOk, FrameRest;
  }

  lemma RestTop(fs: seq<Frame>, st: State)
    requires fs != []
    ensures Rest(fs, st) == FrameRest(st, Top(fs)) + Tail(fs)
  {
    hide FrameRest;
  }

  lemma StayKeepsGood(fs: seq<Frame>, g: Frame, pos: nat, pos': nat)
    requires fs != [] && Good(fs, Top(fs).state, pos)
    requires SameFrame(Top(fs), g) && FrameOk(g.state, g)
    requires g.limit == pos' + |FrameRest(g.state, g)|
    ensures Good(Below(fs) + [g], g.state, pos')
    ensures Rest(Below(fs) + [g], g.state) == FrameRest(g.state, g) + Tail(fs)
  {
    hide FrameOk, FrameRest;
    var r := Below(fs) + [g];
    assert Top(r) == g && Below(r) == Below(fs);
  }

  lemma EnterKeepsGood(fs: seq<Frame>, g: Frame, child: Frame, pos: nat, pos': nat)
    requires fs != [] && Good(fs, Top(fs).state, pos)
    requires FlowOk(Top(fs), Enter(g, child), pos')
    requires g.limit == child.limit + |FrameRest(child.popState, g)|
    ensures Good(Below(fs) + [g] + [child], child.state, pos')
    ensures Rest(Below(fs) + [g] + [child], child.state)
         == FrameRest(child.state, child) + (FrameRest(child.popState, g) + Tail(fs))
  {
    hide FrameOk, FrameRest;
    var mid := Below(fs) + [g];
    var r := mid + [child];
    assert Top(mid) == g && Below(mid) == Below(fs);
    assert Top(r) == child && Below(r) == mid;
    assert Good(mid, child.popState, child.limit);
    assert Rest(mid, child.popState) == FrameRest(child.popState, g) + Tail(fs);
  }

  lemma LeaveKeepsGood(fs: seq<Frame>)
    requires |fs| >= 2 && GoodBelow(fs)
    ensures var r := Apply(fs, Leave);
            && Good(r, Top(r).state, Top(fs).limit)
            && Rest(r, Top(r).state) == Tail(fs)
  {
    hide FrameOk, FrameRest;
    var r := Apply(fs, Leave);
    var st := Top(fs).popState;
    var b := Top(Below(fs));
    assert Top(r) == b.(state := st) && Below(r) == Below(Below(fs));
    SameRest(b, st);
  }

  /** Where the stack fs was a point of a writing with `out` written, r is one with out' written. */
  predicate Continues(fs: seq<Frame>, out: Bytes, r: seq<Frame>, out': Bytes)
  {
    && fs != [] && r != []
    && Good(r, Top(r).state, |out'|)
    && out' + Rest(r, Top(r).state) == out + Rest(fs, Top(fs).state)
  }

  lemma ApplyStay(fs: seq<Frame>, g: Frame, out: Bytes, out': Bytes)
    requires fs != [] && Good(fs, Top(fs).state, |out|)
    requires SameFrame(Top(fs), g) && FrameOk(g.state, g) && g.limit == |out'| + |FrameRest(g.state, g)|
    requires out' + FrameRest(g.state, g) == out + FrameRest(Top(fs).state, Top(fs))
    ensures Continues(fs, out, Apply(fs, Stay(g)), out')
  {
    hide FrameOk, FrameRest, Linked, Good, Rest, Tail, SameFrame;
    StayKeepsGood(fs, g, |out|, |out'|);
    RestTop(fs, Top(fs).state);
    var a, b, t := FrameRest(Top(fs).state, Top(fs)), FrameRest(g.state, g), Tail(fs);
    assert out + (a + t) == (out + a) + t && out' + (b + t) == (out' + b) + t;
  }

  lemma ApplyEnter(fs: seq<Frame>, g: Frame, child: Frame, out: Bytes, out': Bytes)
    requires fs != [] && Good(fs, Top(fs).state, |out|)
    requires FlowOk(Top(fs), Enter(g, child), |out'|)
    requires g.limit == child.limit + |FrameRest(child.popState, g)|
    requires out' + (FrameRest(child.state, child) + FrameRest(child.popState, g))
          == out + FrameRest(Top(fs).state, Top(fs))
    ensures Continues(fs, out, Apply(fs, Enter(g, child)), out')
  {
    hide FrameOk, FrameRest, Linked, Good, Rest, Tail, FlowOk;
    EnterKeepsGood(fs, g, child, |out|, |out'|);
    RestTop(fs, Top(fs).state);
    var a, b, c, t := FrameRest(Top(fs).state, Top(fs)), FrameRest(child.state, child),
                      FrameRest(child.popState, g), Tail(fs);
    assert out + (a + t) == (out + a) + t && out' + (b + (c + t)) == (out' + (b + c)) + t;
  }

  lemma ApplyLeave(fs: seq<Frame>, out: Bytes, out': Bytes)
    requires |fs| >= 2 && Good(fs, Top(fs).state, |out|)
    requires out' == out + FrameRest(Top(fs).state, Top(fs)) && |out'| == Top(fs).limit
    ensures Continues(fs, out, Apply(fs, Leave), out')
  {
    hide FrameOk, FrameRest, Linked, Good, Rest, Tail;
    GoodTop(fs, Top(fs).state, |out|);
    LeaveKeepsGood(fs);
    RestTop(fs, Top(fs).state);
    var a, t := FrameRest(Top(fs).state, Top(fs)), Tail(fs);
    assert out + (a + t) == (out + a) + t;
  }

  /** The stack after the turn is a point of the same writing, as many bytes further on. */
  lemma ApplyKeepsGood(fs: seq<Frame>, flow: Flow, out: Bytes, out': Bytes)
    requires fs != [] && Good(fs, Top(fs).state, |out|)
    requires FlowOk(Top(fs), flow, |out'|)
    requires out' + FlowRest(flow) == out + FrameRest(Top(fs).state, Top(fs))
    ensures Applicable(fs, flow) && Continues(fs, out, Apply(fs, flow), out')
  {
    hide FrameOk, FrameRest, Linked, Good, Continues, Apply;
    GoodTop(fs, Top(fs).state, |out|);
    assert |out'| + |FlowRest(flow)| == |out| + |FrameRest(Top(fs).state, Top(fs))|;
    match flow {
      case Stay(g) => ApplyStay(fs, g, out, out');
      case Enter(g, child) => ApplyEnter(fs, g, child, out, out');
      case Leave =>
        assert out' + [] == out';
        ApplyLeave(fs, out, out');
    }
  }

  /** The stale state of a frame below the top does not matter. */
  lemma SameRest(f: Frame, st: State)
    ensures FrameRest(st, f.(state := st)) == FrameRest(st, f)
    ensures FrameOk(st, f.(state := st)) == FrameOk(st, f)
    ensures FramePieces(st, f.(state := st)) == FramePieces(st, f)
  {
  }

  // ---------------------------------------------------------------- one turn of the switch

  /** A move without output lowers the measure. */
  predicate Lower(f: Frame, flow: Flow)
  {
    match flow
    case Stay(g) => Rank(g.state) < Rank(f.state)
    case Leave => Rank(f.popState) < LEVEL + Rank(f.state)
    case Enter(_, child) => LEVEL + Rank(child.state) < Rank(f.state)
  }

  /** Array memory is handed out only by the call that starts with it on top. */
  predicate NoArray(flow: Flow)
  {
    match flow
    case Stay(g) => !g.data.OfArray?
    case Enter(_, child) => !child.data.OfArray?
    case Leave => true
  }

  /** One turn on frame f took the output from `before` to `after`, with `start` to begin with and
    * `room` left: what it wrote and what it leaves are what the frame had to write, piece by piece,
    * and it stops only when the next piece does not fit. */
  predicate Turned(f: Frame, before: Bytes, after: Bytes, start: Room, room: Room, flow: Flow, signal: Signal)
  {
    && FlowOk(f, flow, |after|)
    && after + FlowRest(flow) == before + FrameRest(f.state, f)
    && |before| <= |after|
    && Crosses(FramePieces(f.state, f), |after| - |before|, FlowPieces(flow), start)
    && (signal == Go ==> (|before| < |after| || Lower(f, flow)) && NoArray(flow))
    && (signal == Yield ==> room.quota == 0)
    && (signal == Block || signal == Yield ==> FlowRest(flow) != [] && Stuck(FlowPieces(flow), room))
    && (signal == Finish ==> FlowRest(flow) == [] && f.data.OfMessage? && flow == Stay(f))
  }

  /** Frame f writes p and then is g. */
  predicate Advances(f: Frame, p: Bytes, g: Frame)
  {
    && SameFrame(f, g) && FrameOk(g.state, g) && !f.data.OfArray?
    && FrameRest(f.state, f) == p + FrameRest(g.state, g)
    && FramePieces(f.state, f) == Once(|p|) + FramePieces(g.state, g)
    && (p == [] ==> Rank(g.state) < Rank(f.state))
  }

  lemma AdvanceLength(f: Frame, p: Bytes, g: Frame)
    requires Advances(f, p, g)
    ensures |FrameRest(f.state, f)| >= |p|
  {
    hide FrameRest, FramePieces, FrameOk, Rank;
  }

  /** n bytes go over at once, or do not fit. */
  predicate GoesAtOnce(n: nat, start: Room, room: Room, signal: Signal)
  {
    if signal == Go then n <= start.quota && n <= start.work else room.quota < n || room.work < n
  }

  lemma StuckAtOnce(n: nat, rest: seq<Piece>, room: Room)
    requires room.quota < n || room.work < n
    ensures Stuck(Once(n) + rest, room)
  {
  }

  lemma FieldTurned(f: Frame, p: Bytes, g: Frame, before: Bytes, after: Bytes, start: Room, room: Room, flow: Flow,
                    signal: Signal)
    requires Advances(f, p, g) && FrameOk(f.state, f) && GoesAtOnce(|p|, start, room, signal)
    requires signal == Go ==> flow == Stay(g) && after == before + p
    requires signal != Go ==> signal == Block && flow == Stay(f) && after == before
    ensures Turned(f, before, after, start, room, flow, signal)
  {
    hide FrameRest, FramePieces, FrameOk, Rank, Crosses, Stuck, Once;
    if signal == Go {
      assert (before + p) + FrameRest(g.state, g) == before + (p + FrameRest(g.state, g));
      CrossesOnce(|p|, FramePieces(g.state, g), start);
    } else {
      CrossesNone(FramePieces(f.state, f), start);
      StuckAtOnce(|p|, FramePieces(g.state, g), room);
    }
  }

  /** Frame f writes p, all it has left, and is popped. */
  predicate Ends(f: Frame, p: Bytes)
  {
    && FrameRest(f.state, f) == p && !f.data.OfMessage?
    && FramePieces(f.state, f) == Once(|p|)
    && (p == [] ==> Rank(f.popState) < LEVEL + Rank(f.state))
  }

  lemma EndTurned(f: Frame, p: Bytes, before: Bytes, after: Bytes, start: Room, room: Room, flow: Flow, signal: Signal)
    requires Ends(f, p) && FrameOk(f.state, f) && GoesAtOnce(|p|, start, room, signal)
    requires signal == Go ==> flow == Leave && after == before + p
    requires signal != Go ==> signal == Block && flow == Stay(f) && after == before
    ensures Turned(f, before, after, start, room, flow, signal)
  {
    hide FrameRest, FramePieces, FrameOk, Rank, Crosses, Stuck, Once;
    assert Once(|p|) + [] == Once(|p|);
    if signal == Go {
      assert after + [] == after;
      CrossesOnce(|p|, [], start);
    } else {
      CrossesNone(FramePieces(f.state, f), start);
      StuckAtOnce(|p|, [], room);
    }
  }

  /** Frame f, continued as g, hands over to child. */
  predicate Pushes(f: Frame, g: Frame, child: Frame, pos: nat)
  {
    && FlowOk(f, Enter(g, child), pos) && !child.data.OfArray?
    && FrameRest(f.state, f) == FrameRest(child.state, child) + FrameRest(child.popState, g)
    && FramePieces(f.state, f) == FramePieces(child.state, child) + FramePieces(child.popState, g)
    && LEVEL + Rank(child.state) < Rank(f.state)
  }

  lemma PushTurned(f: Frame, g: Frame, child: Frame, out: Bytes, start: Room, room: Room)
    requires Pushes(f, g, child, |out|)
    ensures Turned(f, out, out, start, room, Enter(g, child), Go)
  {
    hide FrameRest, FramePieces, FrameOk, Rank, Linked, Crosses;
    CrossesNone(FramePieces(f.state, f), start);
  }

  /** Frame f writes text behind its length and then is in state next. */
  predicate AdvancesText(f: Frame, text: Bytes, next: State)
  {
    && FrameOk(next, f)
    && FrameRest(f.state, f) == Counted(text) + FrameRest(next, f)
    && FramePieces(f.state, f) == TextPieces(text) + FramePieces(next, f)
    && (f.data.OfHeader? || f.data.OfEntry? || f.data.OfElement?)
    && TextBefore(f.data, next, text)
  }

  lemma AdvanceTextLength(f: Frame, text: Bytes, next: State)
    requires AdvancesText(f, text, next)
    ensures |FrameRest(f.state, f)| >= |Counted(text)|
  {
    hide FrameRest, FramePieces, TextPieces, FrameOk, Rank, Counted;
  }

  /** The string frame left behind when only the first param1 bytes of a text went out. */
  predicate Interrupted(f: Frame, flow: Flow, text: Bytes, next: State, pos: nat)
  {
    && flow.Enter? && flow.frame == f
    && flow.child.param1 < |text|
    && flow.child == Frame(HeaderString, next, pos + (|text| - flow.child.param1), OfString(text), flow.child.param1, 0)
  }

  lemma TextTurned(f: Frame, text: Bytes, next: State, before: Bytes, after: Bytes, start: Room, room: Room,
                   flow: Flow, signal: Signal)
    requires AdvancesText(f, text, next) && FrameOk(f.state, f)
    requires signal == Go ==> flow == Stay(f.(state := next)) && after == before + Counted(text)
    requires signal != Go ==> signal == Block
    requires GoesAtOnce(|UintX(|text|)|, start, room, if flow.Enter? then Go else signal)
    requires signal == Block && flow.Stay? ==> flow == Stay(f) && after == before
    requires signal == Block && !flow.Stay? ==>
               && Interrupted(f, flow, text, next, |after|) && (room.quota == 0 || room.work == 0)
               && after == before + (UintX(|text|) + text[..flow.child.param1])
    ensures Turned(f, before, after, start, room, flow, signal)
  {
    hide Rank, UintX, FrameRest, FramePieces, FrameOk, TextBefore, Crosses, Stuck, TextPieces, Once, Cuttable;
    SameRest(f, next);
    var rest, pieces := FrameRest(next, f), FramePieces(next, f);
    if flow.Enter? {
      StringFrame(flow.child, text);
      InterruptedBytes(before, UintX(|text|), text, flow.child.param1, rest);
      CrossesText(text, flow.child.param1, pieces, start);
      StuckText(|text| - flow.child.param1, pieces, room);
    } else if signal == Go {
      assert (before + Counted(text)) + rest == before + (Counted(text) + rest);
      CrossesText(text, |text|, pieces, start);
      assert Cuttable(0) + pieces == pieces by { NothingLeft(pieces); }
    } else {
      CrossesNone(FramePieces(f.state, f), start);
      StuckBeforeText(text, pieces, room);
    }
  }

  lemma NothingLeft(pieces: seq<Piece>)
    ensures Cuttable(0) + pieces == pieces
  {
  }

  lemma StuckText(n: nat, rest: seq<Piece>, room: Room)
    requires n > 0 && (room.quota == 0 || room.work == 0)
    ensures Stuck(Cuttable(n) + rest, room)
  {
  }

  lemma StuckBeforeText(text: Bytes, rest: seq<Piece>, room: Room)
    requires room.quota < |UintX(|text|)| || room.work < |UintX(|text|)|
    ensures Stuck(TextPieces(text) + rest, room)
  {
    hide UintX;
  }

  lemma StringFrame(child: Frame, text: Bytes)
    requires child.data == OfString(text) && child.param1 < |text|
    ensures FrameRest(HeaderString, child) == text[child.param1..]
    ensures FramePieces(HeaderString, child) == Cuttable(|text| - child.param1)
    ensures FrameOk(HeaderString, child)
  {
  }

  lemma InterruptedBytes(out: Bytes, l: Bytes, text: Bytes, n: nat, rest: Bytes)
    requires n <= |text|
    ensures (out + (l + text[..n])) + (text[n..] + rest) == out + ((l + text) + rest)
  {
    assert text == text[..n] + text[n..];
  }

  // ---------------------------------------------------------------- header turns

  predicate PlainHeaderState(st: State)
  {
    IsHeaderState(st) && st != HeaderStringTable2 && st != HeaderStringTable3
  }

  /** The next field in order. */
  lemma HeaderAdvances(f: Frame, p: Bytes, next: State)
    requires f.data.OfHeader? && FrameOk(f.state, f) && FrameOk(next, f)
    requires PlainHeaderState(f.state) && PlainHeaderState(next) && Order(next) == Order(f.state) + 1
    requires p == HeaderField(Order(f.state), f.data.header) && !IsHeaderText(Order(f.state))
    ensures Advances(f, p, f.(state := next))
  {
    hide HeaderField, FrameOk, HeaderTail, HeaderPieces;
    SameRest(f, next);
    HeaderTailStep(Order(f.state), f.data.header);
    HeaderPiecesStep(Order(f.state), f.data.header);
  }

  lemma HeaderAdvancesText(f: Frame, text: Bytes, next: State)
    requires f.data.OfHeader? && FrameOk(f.state, f) && FrameOk(next, f)
    requires PlainHeaderState(f.state) && PlainHeaderState(next) && Order(next) == Order(f.state) + 1
    requires HeaderField(Order(f.state), f.data.header) == Counted(text)
    requires HeaderFieldPieces(Order(f.state), f.data.header) == TextPieces(text)
    ensures AdvancesText(f, text, next)
  {
    hide HeaderField, HeaderFieldPieces, FrameOk, HeaderTail, HeaderPieces, Counted, TextPieces;
    HeaderTailStep(Order(f.state), f.data.header);
    HeaderPiecesStep(Order(f.state), f.data.header);
  }

  /** A group whose flag is off is passed over. */
  lemma HeaderJumps(f: Frame, next: State)
    requires f.data.OfHeader? && FrameOk(f.state, f) && FrameOk(next, f)
    requires PlainHeaderState(f.state) && PlainHeaderState(next) && Order(f.state) < Order(next)
    requires HeaderTail(Order(f.state), f.data.header) == HeaderTail(Order(next), f.data.header)
    ensures Advances(f, [], f.(state := next))
  {
    hide HeaderField, HeaderFieldPieces, FrameOk, HeaderTail, HeaderPieces;
    SameRest(f, next);
    HeaderPassesOver(Order(f.state), Order(next), f.data.header);
    var t, ps := HeaderTail(Order(next), f.data.header), HeaderPieces(Order(next), f.data.header);
    assert [] + t == t && Once(0) + ps == ps;
  }

  /** The string table: its count, then code and text of each item. */
  lemma TableAdvances(f: Frame)
    requires f.data.OfHeader? && FrameOk(f.state, f)
    ensures f.state == HeaderStringTable1 && Has(f.data.header.messageFlags, STRING_TABLE) ==>
              Advances(f, UintX(|f.data.header.stringTable|), f.(state := HeaderStringTable2, param1 := 0))
    ensures f.state == HeaderStringTable2 && f.param1 == |f.data.header.stringTable| ==>
              Advances(f, [], f.(state := HeaderEntryCount))
    ensures f.state == HeaderStringTable2 && f.param1 < |f.data.header.stringTable| ==>
              Advances(f, UintX(f.data.header.stringTable[f.param1].code),
                       f.(state := HeaderStringTable3, param1 := f.param1 + 1, param2 := f.param1))
    ensures f.state == HeaderStringTable3 ==>
              AdvancesText(f, f.data.header.stringTable[f.param2].text, HeaderStringTable2)
  {
    hide FrameRest, FrameOk, Advances, AdvancesText;
    if f.state == HeaderStringTable1 && Has(f.data.header.messageFlags, STRING_TABLE) { TableBegins(f); }
    if f.state == HeaderStringTable2 && f.param1 == |f.data.header.stringTable| { TableIsOver(f); }
    if f.state == HeaderStringTable2 && f.param1 < |f.data.header.stringTable| { TableCodeAdvances(f); }
    if f.state == HeaderStringTable3 { TableTextAdvances(f); }
  }

  lemma TableBegins(f: Frame)
    requires f.data.OfHeader? && FrameOk(f.state, f)
    requires f.state == HeaderStringTable1 && Has(f.data.header.messageFlags, STRING_TABLE)
    ensures Advances(f, UintX(|f.data.header.stringTable|), f.(state := HeaderStringTable2, param1 := 0))
  {
    hide HeaderTail, Counted, UintX, EncodeTableFrom, HeaderField, HeaderPieces, TablePiecesFrom, Once;
    HeaderTailStep(15, f.data.header);
    WholeTable(f.data.header);
    CountField(f.data.header);
    TablePiecesBegin(f.data.header);
  }

  lemma TablePiecesBegin(h: MessageHeader)
    requires Has(h.messageFlags, STRING_TABLE)
    ensures HeaderPieces(15, h) == Once(|HeaderField(15, h)|)
              + (TablePiecesFrom(h.stringTable, 0) + HeaderPieces(18, h))
  {
    hide HeaderPieces, TablePieces, UintX, HeaderField;
    HeaderPiecesStep(15, h);
    HeaderPiecesStep(16, h);
    HeaderPiecesStep(17, h);
    assert h.stringTable[0..] == h.stringTable;
    assert HeaderField(17, h) == [] by { ItemTextField(h); }
    assert Once(0) + HeaderPieces(18, h) == HeaderPieces(18, h);
  }

  lemma ItemTextField(h: MessageHeader)
    ensures HeaderField(17, h) == []
  {
  }

  lemma CountField(h: MessageHeader)
    requires Has(h.messageFlags, STRING_TABLE)
    ensures HeaderField(15, h) == UintX(|h.stringTable|)
  {
  }

  lemma TableIsOver(f: Frame)
    requires f.data.OfHeader? && FrameOk(f.state, f) && f.state == HeaderStringTable2
              && f.param1 == |f.data.header.stringTable|
    ensures Advances(f, [], f.(state := HeaderEntryCount))
  {
    hide HeaderTail, Counted, UintX, EncodeTableFrom, HeaderPieces, TablePiecesFrom;
    TableFromStep(f.data.header.stringTable, f.param1);
    TablePiecesStep(f.data.header.stringTable, f.param1);
    var t, ps := HeaderTail(18, f.data.header), HeaderPieces(18, f.data.header);
    assert [] + t == t && [] + ([] + t) == t;
    assert [] + ps == ps && [] + ([] + ps) == ps;
  }

  lemma TableCodeAdvances(f: Frame)
    requires f.data.OfHeader? && FrameOk(f.state, f) && f.state == HeaderStringTable2
              && f.param1 < |f.data.header.stringTable|
    ensures Advances(f, UintX(f.data.header.stringTable[f.param1].code),
                     f.(state := HeaderStringTable3, param1 := f.param1 + 1, param2 := f.param1))
  {
    hide HeaderTail, Counted, UintX, EncodeTableFrom, HeaderPieces, TablePiecesFrom, TextPieces, Once;
    var h, i := f.data.header, f.param1;
    TableFromStep(h.stringTable, i);
    TablePiecesStep(h.stringTable, i);
    Regroup(UintX(h.stringTable[i].code), Counted(h.stringTable[i].text), EncodeTableFrom(h.stringTable, i + 1),
            HeaderTail(18, h));
    Regroup(Once(|UintX(h.stringTable[i].code)|), TextPieces(h.stringTable[i].text),
            TablePiecesFrom(h.stringTable, i + 1), HeaderPieces(18, h));
  }

  lemma Regroup<T>(a: seq<T>, b: seq<T>, c: seq<T>, t: seq<T>)
    ensures (a + (b + c)) + t == a + (b + (c + t))
  {
  }

  lemma TableTextAdvances(f: Frame)
    requires f.data.OfHeader? && FrameOk(f.state, f) && f.state == HeaderStringTable3
    ensures AdvancesText(f, f.data.header.stringTable[f.param2].text, HeaderStringTable2)
  {
    hide HeaderTail, Counted, UintX, EncodeTableFrom, HeaderPieces, TablePiecesFrom, TextPieces;
  }

  lemma EntryCountAdvances(f: Frame)
    requires f.data.OfHeader? && FrameOk(f.state, f) && f.state == HeaderEntryCount
    ensures var h := f.data.header;
            var p := if Has(h.messageFlags, MULTIPLE_ENTRIES) then UintX(h.entryCount) else [];
            Advances(f, p, f.(state := HeaderExtended1, param1 := 0))
  {
    hide HeaderTail, UintX, HeaderPieces;
    HeaderTailStep(18, f.data.header);
    HeaderPiecesStep(18, f.data.header);
  }

  lemma HeaderEnds(f: Frame)
    requires f.data.OfHeader? && FrameOk(f.state, f) && f.popState == MessageEntries
    ensures f.state == HeaderExtended1 && !Has(f.data.header.messageFlags, EXTENDED) ==> Ends(f, [])
    ensures f.state == HeaderExtended2 ==> Ends(f, f.data.header.extended)
  {
    hide HeaderTail, HeaderPieces;
    var h := f.data.header;
    if !Has(h.messageFlags, EXTENDED) {
      NoExtended(h);
      HeaderTailStep(21, h);
      HeaderPassesOver(19, 21, h);
    }
    HeaderTailStep(20, h);
    HeaderTailStep(21, h);
    HeaderPiecesStep(20, h);
    HeaderPiecesStep(21, h);
    assert h.extended + [] == h.extended && Once(|h.extended|) + [] == Once(|h.extended|);
  }

  // ---------------------------------------------------------------- entry and element turns

  lemma EntryAdvances(f: Frame, p: Bytes, next: State)
    requires f.data.OfEntry? && FrameOk(f.state, f) && FrameOk(next, f)
    requires IsEntryFieldState(f.state) && IsEntryFieldState(next) && Order(next) == Order(f.state) + 1
    requires p == EntryField(Order(f.state), f.data.entry)
    requires if p == [] then Order(f.state) > 0 else !IsEntryText(Order(f.state))
    ensures Advances(f, p, f.(state := next))
  {
    hide EntryField, EntryFieldPieces, FrameOk, EntryTail, EntryPieces, Once;
    SameRest(f, next);
    EntryTailStep(Order(f.state), f.data.entry);
    EntryPiecesStep(Order(f.state), f.data.entry);
    EntryFieldAtOnce(Order(f.state), f.data.entry);
  }

  lemma EntryFieldAtOnce(k: nat, e: MessageEntry)
    requires EntryField(k, e) == [] || !IsEntryText(k)
    ensures EntryFieldPieces(k, e) == Once(|EntryField(k, e)|)
  {
    hide EntryField, EntryFieldPieces;
    if EntryField(k, e) == [] {
      EntryFieldCovers(k, e);
      NoneLeft(EntryFieldPieces(k, e));
    } else {
      AtOnceUnlessText(k, e);
    }
  }

  lemma AtOnceUnlessText(k: nat, e: MessageEntry)
    requires !IsEntryText(k)
    ensures EntryFieldPieces(k, e) == Once(|EntryField(k, e)|)
  {
    hide EntryField;
  }

  lemma EntryAdvancesText(f: Frame, text: Bytes, next: State)
    requires f.data.OfEntry? && FrameOk(f.state, f) && FrameOk(next, f)
    requires IsEntryFieldState(f.state) && IsEntryFieldState(next) && Order(next) == Order(f.state) + 1
    requires EntryField(Order(f.state), f.data.entry) == Counted(text) && Order(next) <= 10
    requires EntryFieldPieces(Order(f.state), f.data.entry) == TextPieces(text)
    ensures AdvancesText(f, text, next)
  {
    hide EntryField, EntryFieldPieces, FrameOk, EntryTail, EntryPieces, Counted, TextPieces;
    EntryTailStep(Order(f.state), f.data.entry);
    EntryPiecesStep(Order(f.state), f.data.entry);
  }

  /** No extended block: on to the element count. */
  lemma EntrySkipsExtended(f: Frame)
    requires f.data.OfEntry? && FrameOk(f.state, f) && f.state == EntryExtended1
    requires !Has(f.data.entry.entryFlags, EXTENDED)
    ensures Advances(f, [], f.(state := EntryElementCount))
  {
    hide EntryTail, EntryPieces, EntryField, EntryFieldPieces;
    var e := f.data.entry;
    EntryTailStep(10, e);
    EntryTailStep(11, e);
    EntryPiecesStep(10, e);
    EntryPiecesStep(11, e);
    NoEntryBlock(e);
    var t, ps := EntryTail(12, e), EntryPieces(12, e);
    assert [] + ([] + t) == t && [] + t == t;
    assert [] + ([] + ps) == ps && [] + ps == ps;
  }

  lemma NoEntryBlock(e: MessageEntry)
    requires !Has(e.entryFlags, EXTENDED)
    ensures EntryField(10, e) == EntryField(11, e) == [] && EntryFieldPieces(10, e) == EntryFieldPieces(11, e) == []
  {
  }

  lemma EntryCountsElements(f: Frame)
    requires f.data.OfEntry? && FrameOk(f.state, f) && f.state == EntryElementCount
    ensures Advances(f, UintX(|f.data.entry.elements|), f.(state := EntryElements, param1 := 0))
  {
    hide EntryTail, UintX, EntryField, ConsistentElements, EntryPieces, Once;
    var es := f.data.entry.elements;
    EntryTailStep(12, f.data.entry);
    EntryTailStep(13, f.data.entry);
    EntryPiecesStep(12, f.data.entry);
    EntryPiecesStep(13, f.data.entry);
    assert es[0..] == es;
    LastEntryField(f.data.entry);
  }

  lemma LastEntryField(e: MessageEntry)
    ensures EntryField(12, e) == UintX(|e.elements|)
  {
  }

  lemma EntryElementTurns(f: Frame)
    requires f.data.OfEntry? && FrameOk(f.state, f) && f.state == EntryElements
    ensures Advances(f, [], f.(state := if f.param1 == |f.data.entry.elements| then EntryFinish else ElementInit))
  {
    hide EntryTail, ConsistentElements, EntryPieces;
    ElementsFromStep(f.data.entry.elements, f.param1);
    ElementsPiecesStep(f.data.entry.elements, f.param1);
    var t, ps := EncodeElementsFrom(f.data.entry.elements, f.param1),
        ElementsPiecesFrom(f.data.entry.elements, f.param1);
    assert [] + t == t && Once(0) + ps == ps;
  }

  lemma EntryEnds(f: Frame)
    requires f.data.OfEntry? && FrameOk(f.state, f) && f.state == EntryFinish && f.popState == MessageEntries
    ensures Ends(f, [])
  {
    hide ConsistentElements;
  }

  /** Handing over to the next element of an entry or of a nested list. */
  lemma ElementPushes(f: Frame, es: seq<MessageElement>, pos: nat)
    requires FrameOk(f.state, f) && f.param1 < |es|
    requires (f.data == OfNested(es) && f.state == ElementNested2)
          || (f.data.OfEntry? && f.data.entry.elements == es && f.state == ElementInit)
    ensures var el := es[f.param1];
            Pushes(f, f.(param1 := f.param1 + 1),
                   Frame(ElementSize, if f.data.OfNested? then ElementNested2 else EntryElements,
                         pos + el.elementSize, OfElement(el), 0, 0), pos)
  {
    hide ElementTail, ElementPieces;
    ElementsFromStep(es, f.param1);
    ElementsPiecesStep(es, f.param1);
    ConsistentElementAt(es, f.param1);
  }

  lemma ElementAdvances(f: Frame, p: Bytes, next: State)
    requires f.data.OfElement? && FrameOk(f.state, f) && FrameOk(next, f)
    requires IsElementFieldState(f.state) && IsElementFieldState(next) && Order(next) == Order(f.state) + 1
    requires p == ElementField(Order(f.state), f.data.element)
    requires if p == [] then Order(f.state) > 0 else !IsElementText(Order(f.state))
    ensures Advances(f, p, f.(state := next))
  {
    hide ElementField, ElementFieldPieces, FrameOk, ElementTail, ElementPieces, Once;
    SameRest(f, next);
    ElementTailStep(Order(f.state), f.data.element);
    ElementPiecesStep(Order(f.state), f.data.element);
    ElementFieldAtOnce(Order(f.state), f.data.element);
  }

  lemma ElementFieldAtOnce(k: nat, el: MessageElement)
    requires ElementField(k, el) == [] || !IsElementText(k)
    ensures ElementFieldPieces(k, el) == Once(|ElementField(k, el)|)
  {
    hide ElementField, ElementFieldPieces;
    if ElementField(k, el) == [] {
      ElementFieldCovers(k, el);
      NoneLeft(ElementFieldPieces(k, el));
    } else {
      AtOnceUnlessElementText(k, el);
    }
  }

  lemma AtOnceUnlessElementText(k: nat, el: MessageElement)
    requires !IsElementText(k)
    ensures ElementFieldPieces(k, el) == Once(|ElementField(k, el)|)
  {
    hide ElementField;
  }

  lemma ElementAdvancesText(f: Frame, text: Bytes, next: State)
    requires f.data.OfElement? && FrameOk(f.state, f) && FrameOk(next, f)
    requires IsElementFieldState(f.state) && IsElementFieldState(next) && Order(next) == Order(f.state) + 1
    requires ElementField(Order(f.state), f.data.element) == Counted(text) && Order(next) <= 9
    requires ElementFieldPieces(Order(f.state), f.data.element) == TextPieces(text)
    ensures AdvancesText(f, text, next)
  {
    hide ElementField, ElementFieldPieces, FrameOk, ElementTail, ElementPieces, Counted, TextPieces;
    ElementTailStep(Order(f.state), f.data.element);
    ElementPiecesStep(Order(f.state), f.data.element);
  }

  lemma ElementSkipsExtended(f: Frame)
    requires f.data.OfElement? && FrameOk(f.state, f) && f.state == ElementExtended1
    requires !Has(f.data.element.elementFlags, EXTENDED)
    ensures Advances(f, [], f.(state := ElementDataCount))
  {
    hide ElementTail, ConsistentElement, ElementPieces, ElementField, ElementFieldPieces;
    var el := f.data.element;
    ElementTailStep(9, el);
    ElementTailStep(10, el);
    ElementPiecesStep(9, el);
    ElementPiecesStep(10, el);
    NoElementBlock(el);
    var t, ps := ElementTail(11, el), ElementPieces(11, el);
    assert [] + ([] + t) == t && [] + t == t;
    assert [] + ([] + ps) == ps && [] + ps == ps;
  }

  lemma NoElementBlock(el: MessageElement)
    requires !Has(el.elementFlags, EXTENDED)
    ensures ElementField(9, el) == ElementField(10, el) == []
              && ElementFieldPieces(9, el) == ElementFieldPieces(10, el) == []
  {
  }

  lemma ElementDataTurns(f: Frame)
    requires f.data.OfElement? && FrameOk(f.state, f)
    ensures var el := f.data.element;
      && (f.state == ElementDataCount ==> Advances(f, UintX(el.dataCount), f.(state := ElementData)))
      && (f.state == ElementData && el.elementType == VOID_T && f.popState in {EntryElements, ElementNested2} ==>
          Ends(f, []))
      && (f.state == ElementData && IsArrayType(el.elementType) ==> Advances(f, [], f.(state := ElementArray1)))
      && (f.state == ElementData && IsNestedType(el.elementType) ==> Advances(f, [], f.(state := ElementNested1)))
      && (f.state == ElementData ==>
          el.elementType == VOID_T || IsArrayType(el.elementType) || IsNestedType(el.elementType))
      && (f.state == ElementFinishData && f.popState in {EntryElements, ElementNested2} ==> Ends(f, []))
  {
    hide ElementTail, UintX, ElementPieces;
    var el := f.data.element;
    ElementTailStep(11, el);
    ElementTailStep(12, el);
    ElementPiecesStep(11, el);
    ElementPiecesStep(12, el);
    var t, ps := EncodeContent(el.data), ContentPieces(el.data);
    assert [] + t == t && Once(0) + ps == ps;
  }

  lemma NestedPushes(f: Frame, pos: nat)
    requires f.data.OfElement? && f.state == ElementNested1 && FrameOk(f.state, f)
    requires f.limit == pos + |FrameRest(f.state, f)|
    ensures Pushes(f, f, Frame(ElementNested2, ElementFinishData, f.limit, OfNested(f.data.element.data.elements), 0,
                               0), pos)
  {
    var es := f.data.element.data.elements;
    assert es[0..] == es;
    assert EncodeElements(es) + [] == EncodeElements(es) && ElementsPieces(es) + [] == ElementsPieces(es);
  }

  lemma NestedEnds(f: Frame)
    requires f.data.OfNested? && FrameOk(f.state, f) && f.param1 == |f.data.elements| && f.popState == ElementFinishData
    ensures Ends(f, [])
  {
    ElementsFromStep(f.data.elements, f.param1);
    ElementsPiecesStep(f.data.elements, f.param1);
  }

  // ---------------------------------------------------------------- message turns

  lemma MessageStarts(f: Frame)
    requires f.data.OfMessage? && FrameOk(f.state, f) && f.state == MessageInit
    ensures Advances(f, [], f.(state := HeaderInit, param1 := 0))
  {
    hide Consistent, Encode, MessagePieces;
    var t, ps := Encode(f.data.message), MessagePieces(f.data.message);
    assert [] + t == t && Once(0) + ps == ps;
  }

  lemma HeaderPushes(f: Frame, pos: nat)
    requires f.data.OfMessage? && FrameOk(f.state, f) && f.state == HeaderInit
    ensures var h := f.data.message.header;
            Pushes(f, f, Frame(HeaderMagic, MessageEntries, pos + h.headerSize, OfHeader(h), 0, 0), pos)
  {
    hide HeaderTail, EncodeEntries, HeaderPieces, EntriesPieces, Rank, FrameRest, FramePieces, FrameOk;
    var m := f.data.message;
    var child := Frame(HeaderMagic, MessageEntries, pos + m.header.headerSize, OfHeader(m.header), 0, 0);
    HeaderFrame(child);
    WholeMessage(f);
    HeaderRanks();
  }

  lemma HeaderFrame(child: Frame)
    requires child.data.OfHeader? && child.param1 == 0
    ensures FrameOk(HeaderMagic, child)
    ensures FrameRest(HeaderMagic, child) == HeaderTail(0, child.data.header)
    ensures FramePieces(HeaderMagic, child) == HeaderPieces(0, child.data.header)
  {
    hide HeaderTail, HeaderPieces;
  }

  lemma WholeMessage(f: Frame)
    requires f.data.OfMessage? && FrameOk(HeaderInit, f)
    ensures var m := f.data.message;
      && FrameOk(MessageEntries, f) && f.param1 == 0
      && FrameRest(HeaderInit, f) == HeaderTail(0, m.header) + EncodeEntries(m.entries)
      && FrameRest(MessageEntries, f) == EncodeEntries(m.entries)
      && m.header.headerSize == |HeaderTail(0, m.header)|
      && FramePieces(HeaderInit, f) == HeaderPieces(0, m.header) + EntriesPieces(m.entries)
      && FramePieces(MessageEntries, f) == EntriesPieces(m.entries)
  {
    hide HeaderTail, ConsistentEntries, EncodeEntries, HeaderPieces, EntriesPieces;
    assert f.data.message.entries[0..] == f.data.message.entries;
  }

  lemma HeaderRanks()
    ensures LEVEL + Rank(HeaderMagic) < Rank(HeaderInit)
  {
  }

  lemma MessageTurns(f: Frame)
    requires f.data.OfMessage? && FrameOk(f.state, f) && f.state == MessageEntries
    ensures Advances(f, [], f.(state := if f.param1 == |f.data.message.entries| then MessageDone else EntryInit))
  {
    hide Consistent, EntryTail, EntryPieces;
    EntriesFromStep(f.data.message.entries, f.param1);
    EntriesPiecesStep(f.data.message.entries, f.param1);
    var t, ps := EncodeEntriesFrom(f.data.message.entries, f.param1),
        EntriesPiecesFrom(f.data.message.entries, f.param1);
    assert [] + t == t && Once(0) + ps == ps;
  }

  lemma EntryPushes(f: Frame, pos: nat)
    requires f.data.OfMessage? && FrameOk(f.state, f) && f.state == EntryInit
    ensures var e := f.data.message.entries[f.param1];
            Pushes(f, f.(param1 := f.param1 + 1),
                   Frame(EntrySize, MessageEntries, pos + e.entrySize, OfEntry(e), 0, 0), pos)
  {
    hide EntryTail, Encode, ConsistentHeader, EntryPieces;
    EntriesFromStep(f.data.message.entries, f.param1);
    EntriesPiecesStep(f.data.message.entries, f.param1);
    ConsistentEntryAt(f.data.message.entries, f.param1);
  }

  lemma EndsAtLimit(f: Frame, pos: nat)
    requires Ends(f, []) && f.limit == pos + |FrameRest(f.state, f)|
    ensures f.limit == pos
  {
    hide FrameRest, Rank;
  }

  // ---------------------------------------------------------------- arrays and strings

  /** k bytes of the array went out; the rest, if any, waits for the next call. */
  lemma ArrayTurned(f: Frame, k: nat, before: Bytes, after: Bytes, start: Room, room: Room, flow: Flow, signal: Signal)
    requires f.data.OfElement? && f.state == ElementArray1 && FrameOk(f.state, f)
    requires var b := f.data.element.data.items.memory;
             && k <= |b| && k <= start.quota && after == before + b[..k]
             && f.limit == |before| + |b|
             && (k == |b| ==> flow == Stay(f.(state := ElementFinishData)) && signal == Go)
             && (k < |b| ==>
                   && flow == Enter(f, Frame(ElementArray2, ElementFinishData, |after| + (|b| - k), OfArray(b), k, |b|))
                   && signal == Yield && room.quota == 0)
    ensures Turned(f, before, after, start, room, flow, signal)
  {
    hide ElementTail, ConsistentElement, Crosses, ElementPieces, Uncopied, Stuck;
    var b := f.data.element.data.items.memory;
    assert b == b[..k] + b[k..];
    assert (before + b[..k]) + (b[k..] + []) == before + (b[..k] + b[k..]);
    CrossesMemory(|b|, k, start);
    assert Uncopied(|b| - k) + [] == Uncopied(|b| - k);
    if k == |b| {
      assert b[..k] == b;
      assert after + [] == after;
      assert Uncopied(0) == [] by { NoMemory(); }
    } else {
      StuckMemory(|b| - k, room);
    }
  }

  lemma NoMemory()
    ensures Uncopied(0) == []
  {
  }

  lemma StuckMemory(n: nat, room: Room)
    requires n > 0 && room.quota == 0
    ensures Stuck(Uncopied(n), room)
  {
  }

  lemma CrossesMemory(n: nat, k: nat, start: Room)
    requires k <= n && k <= start.quota
    ensures Crosses(Uncopied(n), k, Uncopied(n - k), start)
  {
    if n > 0 {
      CrossesSome(Memory(n), k, [], start);
      assert [Memory(n)] + [] == Uncopied(n);
    }
  }

  lemma Array2Turned(f: Frame, n: nat, before: Bytes, after: Bytes, start: Room, room: Room, flow: Flow, signal: Signal)
    requires f.data.OfArray? && FrameOk(f.state, f) && f.popState == ElementFinishData
    requires var b := f.data.memory;
             && f.param1 + n <= |b| && n <= start.quota && after == before + b[f.param1..f.param1 + n]
             && (f.param1 + n == |b| ==> flow == Leave && signal == Go)
             && (f.param1 + n < |b| ==> flow == Stay(f.(param1 := f.param1 + n)) && signal == Yield && room.quota == 0)
    ensures Turned(f, before, after, start, room, flow, signal)
  {
    hide Crosses;
    MemoryParts(f.data.memory, f.param1, n, before);
    CrossesMemory(|f.data.memory| - f.param1, n, start);
  }

  lemma MemoryParts(b: Bytes, i: nat, n: nat, before: Bytes)
    requires i + n <= |b|
    ensures (before + b[i..i + n]) + b[i + n..] == before + b[i..]
    ensures i + n == |b| ==> b[i..i + n] == b[i..] && b[i + n..] == [] && (before + b[i..]) + [] == before + b[i..]
  {
    assert b[i..] == b[i..i + n] + b[i + n..];
  }

  lemma StringTurned(f: Frame, n: nat, before: Bytes, after: Bytes, start: Room, room: Room, flow: Flow, signal: Signal)
    requires f.data.OfString? && FrameOk(f.state, f) && IsFieldState(f.popState)
    requires var s := f.data.text;
             && f.param1 + n <= |s| && n <= start.quota && n <= start.work && after == before
                 + s[f.param1..f.param1 + n]
             && (f.param1 + n == |s| ==> flow == Leave && signal == Go)
             && (f.param1 + n < |s| ==>
                   flow == Stay(f.(param1 := f.param1 + n)) && signal == Block && (room.quota == 0 || room.work == 0))
    ensures Turned(f, before, after, start, room, flow, signal)
  {
    hide Crosses;
    MemoryParts(f.data.text, f.param1, n, before);
    CrossesString(|f.data.text| - f.param1, n, start);
  }

  lemma CrossesString(n: nat, k: nat, start: Room)
    requires k <= n && k <= start.quota && k <= start.work
    ensures Crosses(Cuttable(n), k, Cuttable(n - k), start)
  {
    if n > 0 {
      CrossesSome(Text(n), k, [], start);
      assert [Text(n)] + [] == Cuttable(n);
    }
  }

  lemma DoneTurned(f: Frame, out: Bytes, start: Room, room: Room)
    requires f.data.OfMessage? && f.state == MessageDone && FrameOk(f.state, f)
    ensures Turned(f, out, out, start, room, Stay(f), Finish)
    ensures FrameRest(f.state, f) == []
  {
    hide Consistent, Crosses;
    CrossesNone(FramePieces(f.state, f), start);
  }

  // ---------------------------------------------------------------- the whole stack

  /** Termination: a turn that writes nothing and goes on lowers depth and rank together. */
  lemma ApplyLowers(fs: seq<Frame>, flow: Flow)
    requires Applicable(fs, flow) && Lower(Top(fs), flow)
    ensures LEVEL * |Apply(fs, flow)| + Rank(Top(Apply(fs, flow)).state) < LEVEL * |fs| + Rank(Top(fs).state)
  {
    hide Rank;
  }

  lemma BottomStays(fs: seq<Frame>, flow: Flow, pos: nat)
    requires Applicable(fs, flow) && FlowOk(Top(fs), flow, pos)
    ensures Apply(fs, flow)[0].data == fs[0].data && Apply(fs, flow)[0].limit == fs[0].limit
  {
    hide FrameOk, FrameRest, Linked;
  }

  /** What the frame below says about the frame on top. */
  lemma LinkedPops(below: Frame, f: Frame)
    requires Linked(below, f)
    ensures f.data.OfHeader? || f.data.OfEntry? ==> f.popState == MessageEntries
    ensures f.data.OfElement? ==> f.popState == EntryElements || f.popState == ElementNested2
    ensures f.data.OfNested? || f.data.OfArray? ==> f.popState == ElementFinishData
    ensures f.data.OfString? ==> IsFieldState(f.popState)
    ensures !below.data.OfArray? && !f.data.OfMessage?
  {
  }

  function TailPieces(fs: seq<Frame>): seq<Piece>
    requires fs != []
  {
    if |fs| == 1 then [] else RestPieces(Below(fs), Top(fs).popState)
  }

  lemma RestPiecesTop(fs: seq<Frame>, st: State)
    requires fs != []
    ensures RestPieces(fs, st) == FramePieces(st, Top(fs)) + TailPieces(fs)
  {
    hide FramePieces;
  }

  lemma ApplyPieces(fs: seq<Frame>, flow: Flow)
    requires Applicable(fs, flow) && (flow.Stay? ==> flow.frame.popState == Top(fs).popState)
    requires flow.Enter? ==> flow.frame.popState == Top(fs).popState
    ensures var r := Apply(fs, flow); RestPieces(r, Top(r).state) == FlowPieces(flow) + TailPieces(fs)
  {
    hide FramePieces;
    var r := Apply(fs, flow);
    RestPiecesTop(r, Top(r).state);
    match flow {
      case Stay(g) => assert Top(r) == g && Below(r) == Below(fs);
      case Enter(g, child) =>
        var mid := Below(fs) + [g];
        assert Top(mid) == g && Below(mid) == Below(fs) && Top(r) == child && Below(r) == mid;
        RestPiecesTop(mid, child.popState);
        var a, b, t := FramePieces(child.state, child), FramePieces(child.popState, g), TailPieces(fs);
        assert a + (b + t) == (a + b) + t;
      case Leave =>
        var b, st := Top(Below(fs)), Top(fs).popState;
        assert Top(r) == b.(state := st) && Below(r) == Below(Below(fs));
        SameRest(b, st);
        RestPiecesTop(Below(fs), st);
        assert [] + TailPieces(fs) == TailPieces(fs);
    }
  }

  /** The pieces that a turn takes are the first of the whole stack. */
  lemma ApplyTakes(fs: seq<Frame>, flow: Flow, n: nat, start: Room, pos: nat)
    requires Applicable(fs, flow) && FlowOk(Top(fs), flow, pos)
    requires Crosses(FramePieces(Top(fs).state, Top(fs)), n, FlowPieces(flow), start)
    ensures var r := Apply(fs, flow); Crosses(RestPieces(fs, Top(fs).state), n, RestPieces(r, Top(r).state), start)
  {
    hide FramePieces, RestPieces, Crosses, FrameOk, FrameRest, Linked;
    RestPiecesTop(fs, Top(fs).state);
    ApplyPieces(fs, flow);
    CrossesAppend(FramePieces(Top(fs).state, Top(fs)), n, FlowPieces(flow), start, TailPieces(fs));
  }

  lemma ApplyStuck(fs: seq<Frame>, flow: Flow, room: Room, pos: nat)
    requires Applicable(fs, flow) && FlowOk(Top(fs), flow, pos) && Stuck(FlowPieces(flow), room)
    ensures var r := Apply(fs, flow); Stuck(RestPieces(r, Top(r).state), room)
  {
    hide FramePieces, RestPieces, FrameOk, FrameRest, Linked, FlowPieces, Apply;
    ApplyPieces(fs, flow);
  }

  /** A turn on the top frame, seen from the whole stack. */
  lemma TurnedKeepsStack(fs: seq<Frame>, out: Bytes, out': Bytes, start: Room, room: Room, flow: Flow, signal: Signal)
    requires fs != [] && Good(fs, Top(fs).state, |out|)
    requires Turned(Top(fs), out, out', start, room, flow, signal)
    ensures Applicable(fs, flow) && Continues(fs, out, Apply(fs, flow), out')
    ensures Apply(fs, flow)[0].data == fs[0].data && Apply(fs, flow)[0].limit == fs[0].limit
    ensures |out| <= |out'|
    ensures var r := Apply(fs, flow);
      && Crosses(RestPieces(fs, Top(fs).state), |out'| - |out|, RestPieces(r, Top(r).state), start)
      && (signal == Go ==> !Top(r).data.OfArray?)
      && (signal == Go && |out| == |out'| ==>
            LEVEL * |r| + Rank(Top(r).state) < LEVEL * |fs| + Rank(Top(fs).state))
      && (signal == Yield ==> room.quota == 0)
      && (signal == Block || signal == Yield ==>
          Rest(r, Top(r).state) != [] && Stuck(RestPieces(r, Top(r).state), room))
      && (signal == Finish ==> Rest(r, Top(r).state) == [])
      && (flow.Enter? ==> Top(r) == flow.child)
  {
    hide FrameRest, FramePieces, FrameOk, Linked, Good, Rest, Rank, Continues, FlowOk, Crosses, Stuck, RestPieces,
         FlowPieces;
    var f := Top(fs);
    GoodTop(fs, f.state, |out|);
    ApplyKeepsGood(fs, flow, out, out');
    ApplyTakes(fs, flow, |out'| - |out|, start, |out'|);
    if signal == Block || signal == Yield { ApplyStuck(fs, flow, room, |out'|); }
    BottomStays(fs, flow, |out'|);
    if signal == Go && |out| == |out'| {
      ApplyLowers(fs, flow);
    }
    assert f == fs[|fs| - 1];
    var r := Apply(fs, flow);
    if |fs| >= 2 {
      LinkedPops(Top(Below(fs)), f);
      assert flow.Leave? ==> Top(r).data == Top(Below(fs)).data;
    }
    ApplyRest(fs, flow);
  }

  lemma ApplyRest(fs: seq<Frame>, flow: Flow)
    requires Applicable(fs, flow)
    ensures var r := Apply(fs, flow);
      && (!flow.Leave? && FlowRest(flow) != [] ==> Rest(r, Top(r).state) != [])
      && (|fs| == 1 && flow.Stay? && FlowRest(flow) == [] ==> Rest(r, Top(r).state) == [])
  {
    hide FrameRest;
    var r := Apply(fs, flow);
    match flow {
      case Stay(g) => assert Top(r) == g;
      case Enter(g, child) =>
        assert Top(r) == child && Below(r) == Below(fs) + [g] && Top(Below(r)) == g;
      case Leave =>
    }
  }
}
