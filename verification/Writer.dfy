/** AsyncMessageWriterImpl for version 4: writes a message under any sequence of quotas and
  * work buffers, mixing copied bytes with slices of array memory. */
module Writers {
  import opened Numbers
  import opened Results
  import opened Messages
  import opened Layout
  import opened Pieces
  import opened Sizes
  import opened Frames
  import opened WireBytes

  datatype WriteReturn = WriteDone | WriteContinue | WriteLast

  function Join(bufs: seq<Bytes>): Bytes
  {
    if bufs == [] then [] else Join(bufs[..|bufs| - 1]) + bufs[|bufs| - 1]
  }

  lemma JoinAppend(bufs: seq<Bytes>, b: Bytes)
    ensures Join(bufs + [b]) == Join(bufs) + b
  {
    assert (bufs + [b])[..|bufs|] == bufs;
  }

  class AsyncMessageWriter {
    var stateStack: seq<Frame>
    var messagePos: nat
    var quotaPos: nat
    var workTotal: nat           // buffer_size(work_bufs)
    var workFree: nat            // buffer_size(current_work_bufs)
    var pending: Bytes           // copied between current_work_bufs_start and current_work_bufs
    var writeBufs: seq<Bytes>    // write_bufs of the call in progress
    var workBufsUsed: Option<nat>
    ghost var emitted: Bytes     // the output so far, in order
    ghost var delivered: Bytes   // the write_bufs of earlier calls
    ghost var message: Message

    /** The output so far is what was handed out and what still waits in the work buffer. */
    ghost predicate Framing()
      reads this
    {
      && messagePos == |emitted|
      && messagePos <= quotaPos
      && workFree <= workTotal <= workFree + |emitted| - |delivered|
      && emitted == delivered + Join(writeBufs) + pending
    }

    /** Reset, or some way into writing `message`. */
    ghost predicate Valid()
      reads this
    {
      && messagePos == |emitted|
      && (stateStack != [] ==>
            && Consistent(message)
            && Good(stateStack, Top(stateStack).state, messagePos)
            && stateStack[0].data == OfMessage(message)
            && emitted + Rest(stateStack, Top(stateStack).state) == Encode(message)
            && CutsTo(MessagePieces(message), messagePos, Ahead()))
    }

    /** The pieces that are still to be written. */
    ghost function Ahead(): seq<Piece>
      requires stateStack != []
      reads `stateStack
    {
      RestPieces(stateStack, Top(stateStack).state)
    }

    constructor ()
      ensures Valid() && stateStack == []
    {
      stateStack, messagePos, quotaPos := [], 0, 0;
      workTotal, workFree, pending, writeBufs, workBufsUsed := 0, 0, [], [], None;
      emitted, delivered := [], [];
    }

    method Reset()
      modifies this
      ensures Valid() && stateStack == []
    {
      messagePos := 0;
      quotaPos := 0;
      stateStack := [];
      emitted := [];
    }

    // -------------------------------------------------------------- bytes out

    method PrepareContinue()
      requires Framing()
      modifies `writeBufs, `pending, `workBufsUsed
      ensures Framing() && pending == []
      ensures workBufsUsed == Some(workTotal - workFree)
      ensures Join(writeBufs) == old(Join(writeBufs) + pending)
    {
      if |pending| > 0 {
        JoinAppend(writeBufs, pending);
        writeBufs := writeBufs + [pending];
        pending := [];
      }
      workBufsUsed := Some(workTotal - workFree);
    }

    method WriteSomeBytes(limit: nat, p: Bytes) returns (r: Result<nat>)
      requires Framing() && messagePos <= limit
      modifies `messagePos, `workFree, `pending, `emitted
      ensures Framing()
      ensures r.Err? <==> |p| > 0 && limit == old(messagePos)
      ensures r.Ok? ==>
                && r.value <= |p| && messagePos == old(messagePos) + r.value <= limit
                && emitted == old(emitted) + p[..r.value]
                && workFree == old(workFree) - r.value
                && (r.value < |p| ==> messagePos == limit || messagePos == quotaPos || workFree == 0)
      ensures r.Err? ==> emitted == old(emitted) && messagePos == old(messagePos) && workFree == old(workFree)
    {
      if |p| == 0 { return Ok(0); }
      var len := if |p| <= limit - messagePos then |p| else limit - messagePos;
      if len == 0 { return Err(ProtocolError); }
      len := if len <= quotaPos - messagePos then len else quotaPos - messagePos;
      var n := if len <= workFree then len else workFree;
      assert delivered + Join(writeBufs) + (pending + p[..n]) == (delivered + Join(writeBufs) + pending) + p[..n];
      pending := pending + p[..n];
      workFree := workFree - n;
      messagePos := messagePos + n;
      emitted := emitted + p[..n];
      return Ok(n);
    }

    method WriteAllBytes(limit: nat, p: Bytes) returns (r: Result<bool>)
      requires Framing() && messagePos <= limit
      modifies `messagePos, `workFree, `pending, `emitted
      ensures Framing()
      ensures r.Err? <==> limit - old(messagePos) < |p|
      ensures r == Ok(true) ==> emitted == old(emitted) + p && workFree == old(workFree) - |p|
      ensures r != Ok(true) ==> emitted == old(emitted) && messagePos == old(messagePos) && workFree == old(workFree)
      ensures r == Ok(false) ==> quotaPos - messagePos < |p| || workFree < |p|
    {
      if limit - messagePos < |p| { return Err(ProtocolError); }
      if quotaPos - messagePos < |p| || workFree < |p| { return Ok(false); }
      var n := WriteSomeBytes(limit, p);
      assert n == Ok(|p|);
      return Ok(true);
    }

    /** What this call may hand out and copy in all. */
    ghost function Offered(): Room
      requires Framing()
      reads this
    {
      Room(quotaPos - |delivered|, workTotal)
    }

    /** What the quota and the work buffers still take. */
    ghost function Left(): Room
      requires Framing()
      reads this
    {
      Room(quotaPos - messagePos, workFree)
    }

    /** R(write_all_bytes(p)): `success` is what follows when all of p went out. */
    method Put(f: Frame, p: Bytes, success: Flow) returns (flow: Flow, signal: Signal)
      requires Framing() && messagePos + |p| <= f.limit
      modifies `messagePos, `workFree, `pending, `emitted
      ensures Framing()
      ensures signal == Go ==> flow == success && emitted == old(emitted) + p
      ensures signal != Go ==>
                && signal == Block && flow == Stay(f) && emitted == old(emitted) && workFree == old(workFree)
      ensures GoesAtOnce(|p|, Offered(), Left(), signal)
    {
      flow, signal := Stay(f), Block;
      var r := WriteAllBytes(f.limit, p);
      if r.Err? {
        assert false;   // Message limit error
      } else if r.value {
        flow, signal := success, Go;
      }
    }

    /** R(write_string4(…)): the length is atomic, the text may be interrupted. */
    method PutString(f: Frame, text: Bytes, next: State) returns (flow: Flow, signal: Signal)
      requires Framing() && messagePos + |Counted(text)| <= f.limit
      modifies `messagePos, `workFree, `pending, `emitted
      ensures Framing()
      ensures signal == Go || signal == Block
      ensures signal == Go ==> flow == Stay(f.(state := next)) && emitted == old(emitted) + Counted(text)
      ensures signal == Block && flow.Stay? ==>
                flow == Stay(f) && emitted == old(emitted) && workFree == old(workFree)
      ensures GoesAtOnce(|UintX(|text|)|, Offered(), Left(), if flow.Enter? then Go else signal)
      ensures signal == Block && !flow.Stay? ==>
                && Interrupted(f, flow, text, next, messagePos) && (Left().quota == 0 || Left().work == 0)
                && emitted == old(emitted) + (UintX(|text|) + text[..flow.child.param1])
    {
      hide UintX, Join;
      flow, signal := Stay(f), Block;
      var r := WriteAllBytes(f.limit, UintX(|text|));
      if r.Err? {
        assert false;   // Message limit error
      } else if r.value {
        var n := WriteSomeBytes(f.limit, text);
        if n.Err? {
          assert false;   // Message limit error
        } else if n.value == |text| {
          assert text[..n.value] == text;
          assert old(emitted) + UintX(|text|) + text == old(emitted) + (UintX(|text|) + text);
          flow, signal := Stay(f.(state := next)), Go;
        } else {
          flow := Enter(f, Frame(HeaderString, next, messagePos + (|text| - n.value), OfString(text), n.value, 0));
        }
      }
    }

    // -------------------------------------------------------------- one turn of the switch

    /** The frame is in order and its limit is where it ends. */
    ghost predicate Ready(f: Frame)
      reads this
    {
      Framing() && FrameOk(f.state, f) && f.limit == messagePos + |FrameRest(f.state, f)|
    }

    /** R(write_all_bytes(p)), then go on as g. */
    method Field(f: Frame, p: Bytes, g: Frame) returns (flow: Flow, signal: Signal)
      requires Ready(f) && Advances(f, p, g)
      modifies `messagePos, `workFree, `pending, `emitted
      ensures Framing() && Turned(f, old(emitted), emitted, Offered(), Left(), flow, signal) && signal in {Go, Block}
    {
      hide FrameRest, FrameOk, Rank, FramePieces, Advances, Turned, Join;
      AdvanceLength(f, p, g);
      flow, signal := Put(f, p, Stay(g));
      FieldTurned(f, p, g, old(emitted), emitted, Offered(), Left(), flow, signal);
    }

    /** Go on as g without writing. */
    method Jump(f: Frame, g: Frame) returns (flow: Flow, signal: Signal)
      requires Ready(f) && Advances(f, [], g)
      ensures Turned(f, emitted, emitted, Offered(), Left(), flow, signal) && signal == Go
    {
      hide FrameRest, FrameOk, Rank, FramePieces, Advances, Turned, Join;
      flow, signal := Stay(g), Go;
      assert emitted + [] == emitted;
      FieldTurned(f, [], g, emitted, emitted, Offered(), Left(), flow, signal);
    }

    /** R(write_all_bytes(p)), then pop_state. */
    method Last(f: Frame, p: Bytes) returns (flow: Flow, signal: Signal)
      requires Ready(f) && Ends(f, p)
      modifies `messagePos, `workFree, `pending, `emitted
      ensures Framing() && Turned(f, old(emitted), emitted, Offered(), Left(), flow, signal) && signal in {Go, Block}
    {
      hide FrameRest, FrameOk, Rank, FramePieces, Turned, Join;
      flow, signal := Put(f, p, Leave);
      EndTurned(f, p, old(emitted), emitted, Offered(), Left(), flow, signal);
    }

    /** pop_state */
    method Pop(f: Frame) returns (flow: Flow, signal: Signal)
      requires Ready(f) && Ends(f, [])
      ensures Turned(f, emitted, emitted, Offered(), Left(), flow, signal) && signal == Go
    {
      hide FrameRest, FrameOk, Rank, FramePieces, Ends, Turned, Join;
      flow, signal := Leave, Go;
      assert emitted + [] == emitted;
      EndTurned(f, [], emitted, emitted, Offered(), Left(), flow, signal);
    }

    /** push_state(child) */
    method Push(f: Frame, g: Frame, child: Frame) returns (flow: Flow, signal: Signal)
      requires Ready(f) && Pushes(f, g, child, messagePos)
      ensures Turned(f, emitted, emitted, Offered(), Left(), flow, signal) && signal == Go && flow == Enter(g, child)
    {
      hide Pushes, Turned, Join, FrameOk, FrameRest;
      PushTurned(f, g, child, emitted, Offered(), Left());
      flow, signal := Enter(g, child), Go;
    }

    /** R(write_string4(text, next)) */
    method Text(f: Frame, text: Bytes, next: State) returns (flow: Flow, signal: Signal)
      requires Ready(f) && AdvancesText(f, text, next)
      modifies `messagePos, `workFree, `pending, `emitted
      ensures Framing() && Turned(f, old(emitted), emitted, Offered(), Left(), flow, signal) && signal in {Go, Block}
    {
      hide FrameRest, FrameOk, Rank, FramePieces, AdvancesText, Turned, Join, UintX, Counted;
      AdvanceTextLength(f, text, next);
      flow, signal := PutString(f, text, next);
      TextTurned(f, text, next, old(emitted), emitted, Offered(), Left(), flow, signal);
    }

    method StepHeaderStart(f: Frame) returns (flow: Flow, signal: Signal)
      requires f.data.OfHeader? && Ready(f) && HeaderMagic <= f.state <= HeaderFlags
      modifies `messagePos, `workFree, `pending, `emitted
      ensures Framing() && Turned(f, old(emitted), emitted, Offered(), Left(), flow, signal) && signal in {Go, Block}
    {
      hide HeaderTail, Turned, Join, Advances, AdvancesText, Ends, Rank, FramePieces, FrameRest, EncodeTableFrom;
      var h := f.data.header;
      flow, signal := Stay(f), Block;
      if f.state == HeaderMagic {
        HeaderAdvances(f, MAGIC, HeaderMessageSize);
        flow, signal := Field(f, MAGIC, f.(state := HeaderMessageSize));
      } else if f.state == HeaderMessageSize {
        HeaderAdvances(f, Little(h.messageSize, 4), HeaderVersion);
        flow, signal := Field(f, Little(h.messageSize, 4), f.(state := HeaderVersion));
      } else if f.state == HeaderVersion {
        HeaderAdvances(f, Little(VERSION, 2), HeaderHeaderSize);
        flow, signal := Field(f, Little(VERSION, 2), f.(state := HeaderHeaderSize));
      } else if f.state == HeaderHeaderSize {
        HeaderAdvances(f, UintX(h.headerSize), HeaderFlags);
        flow, signal := Field(f, UintX(h.headerSize), f.(state := HeaderFlags));
      } else if f.state == HeaderFlags {
        HeaderAdvances(f, [FlagByte(h.messageFlags)], HeaderRouting1);
        flow, signal := Field(f, [FlagByte(h.messageFlags)], f.(state := HeaderRouting1));
      } else {
        assert false;   // Invalid write state
      }
    }

    method StepHeaderRouting(f: Frame) returns (flow: Flow, signal: Signal)
      requires f.data.OfHeader? && Ready(f) && HeaderRouting1 <= f.state <= HeaderEndpoint2
      modifies `messagePos, `workFree, `pending, `emitted
      ensures Framing() && Turned(f, old(emitted), emitted, Offered(), Left(), flow, signal) && signal in {Go, Block}
    {
      hide HeaderTail, Turned, Join, Advances, AdvancesText, Ends, Rank, FramePieces, FrameRest, EncodeTableFrom;
      var h := f.data.header;
      flow, signal := Stay(f), Block;
      if f.state == HeaderRouting1 {
        if !Has(h.messageFlags, ROUTING_INFO) {
          NoRouting(h);
          HeaderJumps(f, HeaderEndpoint1);
          flow, signal := Jump(f, f.(state := HeaderEndpoint1));
        } else {
          HeaderAdvances(f, h.senderNodeID, HeaderRouting2);
          flow, signal := Field(f, h.senderNodeID, f.(state := HeaderRouting2));
        }
      } else if f.state == HeaderRouting2 {
        HeaderAdvances(f, h.receiverNodeID, HeaderRouting3);
        flow, signal := Field(f, h.receiverNodeID, f.(state := HeaderRouting3));
      } else if f.state == HeaderRouting3 {
        HeaderAdvancesText(f, h.senderNodeName, HeaderRouting4);
        flow, signal := Text(f, h.senderNodeName, HeaderRouting4);
      } else if f.state == HeaderRouting4 {
        HeaderAdvancesText(f, h.receiverNodeName, HeaderEndpoint1);
        flow, signal := Text(f, h.receiverNodeName, HeaderEndpoint1);
      } else if f.state == HeaderEndpoint1 {
        if !Has(h.messageFlags, ENDPOINT_INFO) {
          NoEndpoints(h);
          HeaderJumps(f, HeaderPriority);
          flow, signal := Jump(f, f.(state := HeaderPriority));
        } else {
          HeaderAdvances(f, UintX(h.senderEndpoint), HeaderEndpoint2);
          flow, signal := Field(f, UintX(h.senderEndpoint), f.(state := HeaderEndpoint2));
        }
      } else if f.state == HeaderEndpoint2 {
        HeaderAdvances(f, UintX(h.receiverEndpoint), HeaderPriority);
        flow, signal := Field(f, UintX(h.receiverEndpoint), f.(state := HeaderPriority));
      } else {
        assert false;   // Invalid write state
      }
    }

    method StepHeaderMeta(f: Frame) returns (flow: Flow, signal: Signal)
      requires f.data.OfHeader? && Ready(f) && HeaderPriority <= f.state <= HeaderMessageId2
      modifies `messagePos, `workFree, `pending, `emitted
      ensures Framing() && Turned(f, old(emitted), emitted, Offered(), Left(), flow, signal) && signal in {Go, Block}
    {
      hide HeaderTail, Turned, Join, Advances, AdvancesText, Ends, Rank, FramePieces, FrameRest, EncodeTableFrom;
      var h := f.data.header;
      flow, signal := Stay(f), Block;
      if f.state == HeaderPriority {
        if !Has(h.messageFlags, PRIORITY) {
          HeaderAbsent(11, h);
          HeaderJumps(f, HeaderMetaInfo);
          flow, signal := Jump(f, f.(state := HeaderMetaInfo));
        } else {
          HeaderAdvances(f, Little(h.priority, 2), HeaderMetaInfo);
          flow, signal := Field(f, Little(h.priority, 2), f.(state := HeaderMetaInfo));
        }
      } else if f.state == HeaderMetaInfo {
        if !Has(h.messageFlags, HEADER_META_INFO) {
          NoMetaInfo(h);
          HeaderJumps(f, HeaderStringTable1);
          flow, signal := Jump(f, f.(state := HeaderStringTable1));
        } else {
          HeaderAdvancesText(f, h.metaData, HeaderMessageId1);
          flow, signal := Text(f, h.metaData, HeaderMessageId1);
        }
      } else if f.state == HeaderMessageId1 {
        HeaderAdvances(f, Little(h.messageID, 2), HeaderMessageId2);
        flow, signal := Field(f, Little(h.messageID, 2), f.(state := HeaderMessageId2));
      } else if f.state == HeaderMessageId2 {
        HeaderAdvances(f, Little(h.messageResID, 2), HeaderStringTable1);
        flow, signal := Field(f, Little(h.messageResID, 2), f.(state := HeaderStringTable1));
      } else {
        assert false;   // Invalid write state
      }
    }

    method StepHeaderTable(f: Frame) returns (flow: Flow, signal: Signal)
      requires f.data.OfHeader? && Ready(f) && HeaderStringTable1 <= f.state <= HeaderStringTable3
      modifies `messagePos, `workFree, `pending, `emitted
      ensures Framing() && Turned(f, old(emitted), emitted, Offered(), Left(), flow, signal) && signal in {Go, Block}
    {
      hide HeaderTail, Turned, Join, Advances, AdvancesText, Ends, Rank, FramePieces, FrameRest, EncodeTableFrom;
      var h := f.data.header;
      flow, signal := Stay(f), Block;
      if f.state == HeaderStringTable1 {
        if !Has(h.messageFlags, STRING_TABLE) {
          NoTable(h);
          HeaderJumps(f, HeaderEntryCount);
          flow, signal := Jump(f, f.(state := HeaderEntryCount));
        } else {
          TableAdvances(f);
          flow, signal := Field(f, UintX(|h.stringTable|), f.(state := HeaderStringTable2, param1 := 0));
        }
      } else if f.state == HeaderStringTable2 {
        TableAdvances(f);
        if f.param1 == |h.stringTable| {
          flow, signal := Jump(f, f.(state := HeaderEntryCount));
        } else {
          var code := h.stringTable[f.param1].code;
          flow, signal := Field(f, UintX(code),
                                f.(state := HeaderStringTable3, param1 := f.param1 + 1, param2 := f.param1));
        }
      } else if f.state == HeaderStringTable3 {
        TableAdvances(f);
        flow, signal := Text(f, h.stringTable[f.param2].text, HeaderStringTable2);
      } else {
        assert false;   // Invalid write state
      }
    }

    method StepHeaderEnd(f: Frame) returns (flow: Flow, signal: Signal)
      requires f.data.OfHeader? && f.popState == MessageEntries && Ready(f)
                && HeaderEntryCount <= f.state <= HeaderExtended2
      modifies `messagePos, `workFree, `pending, `emitted
      ensures Framing() && Turned(f, old(emitted), emitted, Offered(), Left(), flow, signal) && signal in {Go, Block}
    {
      hide HeaderTail, Turned, Join, Advances, AdvancesText, Ends, Rank, FramePieces, FrameRest, EncodeTableFrom;
      var h := f.data.header;
      flow, signal := Stay(f), Block;
      if f.state == HeaderEntryCount {
        EntryCountAdvances(f);
        if Has(h.messageFlags, MULTIPLE_ENTRIES) {
          flow, signal := Field(f, UintX(h.entryCount), f.(state := HeaderExtended1, param1 := 0));
        } else {
          flow, signal := Jump(f, f.(state := HeaderExtended1, param1 := 0));
        }
      } else if f.state == HeaderExtended1 {
        HeaderEnds(f);
        if !Has(h.messageFlags, EXTENDED) {
          flow, signal := Pop(f);
        } else {
          HeaderAdvances(f, UintX(|h.extended|), HeaderExtended2);
          flow, signal := Field(f, UintX(|h.extended|), f.(state := HeaderExtended2));
        }
      } else if f.state == HeaderExtended2 {
        HeaderEnds(f);
        if |h.extended| > 0 {
          flow, signal := Last(f, h.extended);
        } else {
          flow, signal := Pop(f);
        }
      } else {
        assert false;   // Invalid write state
      }
    }

    method StepEntryStart(f: Frame) returns (flow: Flow, signal: Signal)
      requires f.data.OfEntry? && Ready(f) && EntrySize <= f.state <= EntryServicePathCode
      modifies `messagePos, `workFree, `pending, `emitted
      ensures Framing() && Turned(f, old(emitted), emitted, Offered(), Left(), flow, signal) && signal in {Go, Block}
    {
      hide EntryTail, Turned, Join, Advances, AdvancesText, Ends, Pushes, Rank, FramePieces, FrameRest;
      var e := f.data.entry;
      flow, signal := Stay(f), Block;
      if f.state == EntrySize {
        EntryAdvances(f, UintX(e.entrySize), EntryFlags);
        flow, signal := Field(f, UintX(e.entrySize), f.(state := EntryFlags));
      } else if f.state == EntryFlags {
        EntryAdvances(f, [FlagByte(e.entryFlags)], EntryEntryType);
        flow, signal := Field(f, [FlagByte(e.entryFlags)], f.(state := EntryEntryType));
      } else if f.state == EntryEntryType {
        EntryAdvances(f, Little(e.entryType, 2), EntryServicePathStr);
        flow, signal := Field(f, Little(e.entryType, 2), f.(state := EntryServicePathStr));
      } else if f.state == EntryServicePathStr {
        if Has(e.entryFlags, SERVICE_PATH_STR) {
          EntryAdvancesText(f, e.servicePath, EntryServicePathCode);
          flow, signal := Text(f, e.servicePath, EntryServicePathCode);
        } else {
          EntryAdvances(f, [], EntryServicePathCode);
          flow, signal := Jump(f, f.(state := EntryServicePathCode));
        }
      } else if f.state == EntryServicePathCode {
        if Has(e.entryFlags, SERVICE_PATH_CODE) {
          EntryAdvances(f, UintX(e.servicePathCode), EntryMemberNameStr);
          flow, signal := Field(f, UintX(e.servicePathCode), f.(state := EntryMemberNameStr));
        } else {
          EntryAdvances(f, [], EntryMemberNameStr);
          flow, signal := Jump(f, f.(state := EntryMemberNameStr));
        }
      } else {
        assert false;   // Invalid write state
      }
    }

    method StepEntryNames(f: Frame) returns (flow: Flow, signal: Signal)
      requires f.data.OfEntry? && Ready(f) && EntryMemberNameStr <= f.state <= EntryMetaInfo
      modifies `messagePos, `workFree, `pending, `emitted
      ensures Framing() && Turned(f, old(emitted), emitted, Offered(), Left(), flow, signal) && signal in {Go, Block}
    {
      hide EntryTail, Turned, Join, Advances, AdvancesText, Ends, Pushes, Rank, FramePieces, FrameRest;
      var e := f.data.entry;
      flow, signal := Stay(f), Block;
      if f.state == EntryMemberNameStr {
        if Has(e.entryFlags, MEMBER_NAME_STR) {
          EntryAdvancesText(f, e.memberName, EntryMemberNameCode);
          flow, signal := Text(f, e.memberName, EntryMemberNameCode);
        } else {
          EntryAdvances(f, [], EntryMemberNameCode);
          flow, signal := Jump(f, f.(state := EntryMemberNameCode));
        }
      } else if f.state == EntryMemberNameCode {
        if Has(e.entryFlags, MEMBER_NAME_CODE) {
          EntryAdvances(f, UintX(e.memberNameCode), EntryRequestId);
          flow, signal := Field(f, UintX(e.memberNameCode), f.(state := EntryRequestId));
        } else {
          EntryAdvances(f, [], EntryRequestId);
          flow, signal := Jump(f, f.(state := EntryRequestId));
        }
      } else if f.state == EntryRequestId {
        if Has(e.entryFlags, REQUEST_ID) {
          EntryAdvances(f, UintX(e.requestID), EntryError);
          flow, signal := Field(f, UintX(e.requestID), f.(state := EntryError));
        } else {
          EntryAdvances(f, [], EntryError);
          flow, signal := Jump(f, f.(state := EntryError));
        }
      } else if f.state == EntryError {
        if Has(e.entryFlags, ERROR) {
          EntryAdvances(f, Little(e.error, 2), EntryMetaInfo);
          flow, signal := Field(f, Little(e.error, 2), f.(state := EntryMetaInfo));
        } else {
          EntryAdvances(f, [], EntryMetaInfo);
          flow, signal := Jump(f, f.(state := EntryMetaInfo));
        }
      } else if f.state == EntryMetaInfo {
        if Has(e.entryFlags, ENTRY_META_INFO) {
          EntryAdvancesText(f, e.metaData, EntryExtended1);
          flow, signal := Text(f, e.metaData, EntryExtended1);
        } else {
          EntryAdvances(f, [], EntryExtended1);
          flow, signal := Jump(f, f.(state := EntryExtended1));
        }
      } else {
        assert false;   // Invalid write state
      }
    }

    method StepEntryElements(f: Frame) returns (flow: Flow, signal: Signal)
      requires f.data.OfEntry? && f.popState == MessageEntries && Ready(f)
                && (EntryExtended1 <= f.state || f.state == EntryFinish)
      modifies `messagePos, `workFree, `pending, `emitted
      ensures Framing() && Turned(f, old(emitted), emitted, Offered(), Left(), flow, signal) && signal in {Go, Block}
    {
      hide EntryTail, Turned, Join, Advances, AdvancesText, Ends, Pushes, Rank, FramePieces, FrameRest;
      var e := f.data.entry;
      flow, signal := Stay(f), Block;
      if f.state == EntryExtended1 {
        if !Has(e.entryFlags, EXTENDED) {
          EntrySkipsExtended(f);
          flow, signal := Jump(f, f.(state := EntryElementCount));
        } else {
          EntryAdvances(f, UintX(|e.extended|), EntryExtended2);
          flow, signal := Field(f, UintX(|e.extended|), f.(state := EntryExtended2));
        }
      } else if f.state == EntryExtended2 {
        EntryAdvances(f, e.extended, EntryElementCount);
        if |e.extended| > 0 {
          flow, signal := Field(f, e.extended, f.(state := EntryElementCount));
        } else {
          flow, signal := Jump(f, f.(state := EntryElementCount));
        }
      } else if f.state == EntryElementCount {
        EntryCountsElements(f);
        flow, signal := Field(f, UintX(|e.elements|), f.(state := EntryElements, param1 := 0));
      } else if f.state == EntryElements {
        EntryElementTurns(f);
        if f.param1 >= |e.elements| {
          flow, signal := Jump(f, f.(state := EntryFinish));
        } else {
          flow, signal := Jump(f, f.(state := ElementInit));
        }
      } else if f.state == ElementInit {
        var el := e.elements[f.param1];
        ElementPushes(f, e.elements, messagePos);
        flow, signal := Push(f, f.(param1 := f.param1 + 1),
                             Frame(ElementSize, EntryElements, messagePos + el.elementSize, OfElement(el), 0, 0));
      } else if f.state == EntryFinish {
        EntryEnds(f);
        EndsAtLimit(f, messagePos);
        if f.limit - messagePos != 0 {
          assert false;   // MessageEntry did not write all data
        }
        flow, signal := Pop(f);
      } else {
        assert false;   // Invalid write state
      }
    }

    method StepElementStart(f: Frame) returns (flow: Flow, signal: Signal)
      requires f.data.OfElement? && Ready(f) && ElementSize <= f.state <= ElementElementType
      modifies `messagePos, `workFree, `pending, `emitted
      ensures Framing() && Turned(f, old(emitted), emitted, Offered(), Left(), flow, signal) && signal in {Go, Block}
    {
      hide ElementTail, Turned, Join, Advances, AdvancesText, Ends, Pushes, Rank, FramePieces, FrameRest,
           ConsistentElement;
      var el := f.data.element;
      flow, signal := Stay(f), Block;
      if f.state == ElementSize {
        ElementAdvances(f, UintX(el.elementSize), ElementFlags);
        flow, signal := Field(f, UintX(el.elementSize), f.(state := ElementFlags));
      } else if f.state == ElementFlags {
        ElementAdvances(f, [FlagByte(el.elementFlags)], ElementNameStr);
        flow, signal := Field(f, [FlagByte(el.elementFlags)], f.(state := ElementNameStr));
      } else if f.state == ElementNameStr {
        if Has(el.elementFlags, ELEMENT_NAME_STR) {
          ElementAdvancesText(f, el.elementName, ElementNameCode);
          flow, signal := Text(f, el.elementName, ElementNameCode);
        } else {
          ElementAdvances(f, [], ElementNameCode);
          flow, signal := Jump(f, f.(state := ElementNameCode));
        }
      } else if f.state == ElementNameCode {
        if Has(el.elementFlags, ELEMENT_NAME_CODE) {
          ElementAdvances(f, UintX(el.elementNameCode), ElementNumber);
          flow, signal := Field(f, UintX(el.elementNameCode), f.(state := ElementNumber));
        } else {
          ElementAdvances(f, [], ElementNumber);
          flow, signal := Jump(f, f.(state := ElementNumber));
        }
      } else if f.state == ElementNumber {
        if Has(el.elementFlags, ELEMENT_NUMBER) {
          ElementAdvances(f, IntX(el.elementNumber), ElementElementType);
          flow, signal := Field(f, IntX(el.elementNumber), f.(state := ElementElementType));
        } else {
          ElementAdvances(f, [], ElementElementType);
          flow, signal := Jump(f, f.(state := ElementElementType));
        }
      } else if f.state == ElementElementType {
        ElementAdvances(f, Little(el.elementType, 2), ElementTypeStr);
        flow, signal := Field(f, Little(el.elementType, 2), f.(state := ElementTypeStr));
      } else {
        assert false;   // Invalid write state
      }
    }

    method StepElementEnd(f: Frame) returns (flow: Flow, signal: Signal)
      requires f.data.OfElement? && Ready(f) && ElementTypeStr <= f.state <= ElementDataCount
      modifies `messagePos, `workFree, `pending, `emitted
      ensures Framing() && Turned(f, old(emitted), emitted, Offered(), Left(), flow, signal) && signal in {Go, Block}
    {
      hide ElementTail, Turned, Join, Advances, AdvancesText, Ends, Pushes, Rank, FramePieces, FrameRest,
           ConsistentElement;
      var el := f.data.element;
      flow, signal := Stay(f), Block;
      if f.state == ElementTypeStr {
        if Has(el.elementFlags, ELEMENT_TYPE_NAME_STR) {
          ElementAdvancesText(f, el.elementTypeName, ElementTypeCode);
          flow, signal := Text(f, el.elementTypeName, ElementTypeCode);
        } else {
          ElementAdvances(f, [], ElementTypeCode);
          flow, signal := Jump(f, f.(state := ElementTypeCode));
        }
      } else if f.state == ElementTypeCode {
        if Has(el.elementFlags, ELEMENT_TYPE_NAME_CODE) {
          ElementAdvances(f, UintX(el.elementTypeNameCode), ElementMetaInfo);
          flow, signal := Field(f, UintX(el.elementTypeNameCode), f.(state := ElementMetaInfo));
        } else {
          ElementAdvances(f, [], ElementMetaInfo);
          flow, signal := Jump(f, f.(state := ElementMetaInfo));
        }
      } else if f.state == ElementMetaInfo {
        if Has(el.elementFlags, ELEMENT_META_INFO) {
          ElementAdvancesText(f, el.metaData, ElementExtended1);
          flow, signal := Text(f, el.metaData, ElementExtended1);
        } else {
          ElementAdvances(f, [], ElementExtended1);
          flow, signal := Jump(f, f.(state := ElementExtended1));
        }
      } else if f.state == ElementExtended1 {
        if !Has(el.elementFlags, EXTENDED) {
          ElementSkipsExtended(f);
          flow, signal := Jump(f, f.(state := ElementDataCount));
        } else {
          ElementAdvances(f, UintX(|el.extended|), ElementExtended2);
          flow, signal := Field(f, UintX(|el.extended|), f.(state := ElementExtended2));
        }
      } else if f.state == ElementExtended2 {
        ElementAdvances(f, el.extended, ElementDataCount);
        if |el.extended| > 0 {
          flow, signal := Field(f, el.extended, f.(state := ElementDataCount));
        } else {
          flow, signal := Jump(f, f.(state := ElementDataCount));
        }
      } else if f.state == ElementDataCount {
        ElementDataTurns(f);
        flow, signal := Field(f, UintX(el.dataCount), f.(state := ElementData));
      } else {
        assert false;   // Invalid write state
      }
    }

    method StepElementData(f: Frame) returns (flow: Flow, signal: Signal)
      requires f.data.OfElement? && f.popState in {EntryElements, ElementNested2} && Ready(f)
        && f.state in {ElementData, ElementFinishData, ElementNested1}
      modifies `messagePos, `workFree, `pending, `emitted
      ensures Framing() && Turned(f, old(emitted), emitted, Offered(), Left(), flow, signal) && signal in {Go, Block}
    {
      hide ElementTail, Turned, Join, Advances, AdvancesText, Ends, Pushes, Rank, FramePieces, FrameRest,
           ConsistentElement;
      var el := f.data.element;
      flow, signal := Stay(f), Block;
      if f.state == ElementData {
        ElementDataTurns(f);
        if el.elementType == VOID_T {
          flow, signal := Pop(f);
        } else if IsArrayType(el.elementType) {
          flow, signal := Jump(f, f.(state := ElementArray1));
        } else if IsNestedType(el.elementType) {
          flow, signal := Jump(f, f.(state := ElementNested1));
        } else {
          assert false;   // Invalid data type
        }
      } else if f.state == ElementFinishData {
        ElementDataTurns(f);
        EndsAtLimit(f, messagePos);
        if f.limit - messagePos != 0 {
          assert false;   // Element did not write all data
        }
        flow, signal := Pop(f);
      } else if f.state == ElementNested1 {
        NestedPushes(f, messagePos);
        flow, signal := Push(f, f, Frame(ElementNested2, ElementFinishData, messagePos + (f.limit - messagePos),
                                         OfNested(el.data.elements), 0, 0));
      } else {
        assert false;   // Invalid write state
      }
    }

    method StepNested(f: Frame) returns (flow: Flow, signal: Signal)
      requires f.data.OfNested? && f.popState == ElementFinishData && Ready(f)
      modifies `messagePos, `workFree, `pending, `emitted
      ensures Framing() && Turned(f, old(emitted), emitted, Offered(), Left(), flow, signal) && signal in {Go, Block}
    {
      hide ElementTail, Turned, Join, Ends, Pushes, Rank, FramePieces, FrameRest;
      var es := f.data.elements;
      if f.param1 >= |es| {
        NestedEnds(f);
        flow, signal := Pop(f);
      } else {
        var el := es[f.param1];
        ElementPushes(f, es, messagePos);
        flow, signal := Push(f, f.(param1 := f.param1 + 1),
                             Frame(ElementSize, ElementNested2, messagePos + el.elementSize, OfElement(el), 0, 0));
      }
    }

    /** Array memory: small arrays are copied, others are handed out as they are. */
    method StepArray1(f: Frame) returns (flow: Flow, signal: Signal)
      requires f.data.OfElement? && f.state == ElementArray1 && Ready(f)
      modifies `messagePos, `workFree, `pending, `emitted, `writeBufs, `workBufsUsed
      ensures Framing() && Turned(f, old(emitted), emitted, Offered(), Left(), flow, signal) && signal in {Go, Yield}
      ensures signal == Yield ==> pending == []
    {
      hide Turned, ElementTail, ConsistentElement, Join;
      var b := f.data.element.data.items.memory;
      var n := |b|;
      flow, signal := Stay(f.(state := ElementFinishData)), Go;
      if n > f.limit - messagePos {
        assert false;   // Invalid write array length
      }
      if n <= 255 {
        var r := WriteAllBytes(f.limit, b);
        if r == Ok(true) {
          assert b[..n] == b;
          ArrayTurned(f, n, old(emitted), emitted, Offered(), Left(), flow, signal);
          return;
        }
      }
      PrepareContinue();
      var p := quotaPos - messagePos;
      if n <= p {
        HandOut(b);
        assert b[..n] == b;
        ArrayTurned(f, n, old(emitted), emitted, Offered(), Left(), flow, signal);
      } else {
        HandOut(b[..p]);
        flow := Enter(f, Frame(ElementArray2, ElementFinishData, messagePos + (n - p), OfArray(b), p, n));
        signal := Yield;
        ArrayTurned(f, p, old(emitted), emitted, Offered(), Left(), flow, signal);
      }
    }

    method StepArray2(f: Frame) returns (flow: Flow, signal: Signal)
      requires f.data.OfArray? && f.popState == ElementFinishData && Ready(f) && pending == []
      modifies `messagePos, `emitted, `writeBufs
      ensures Framing() && Turned(f, old(emitted), emitted, Offered(), Left(), flow, signal) && signal in {Go, Yield}
      ensures pending == []
    {
      hide Turned, Join;
      var q := quotaPos - messagePos;
      var l := f.param2 - f.param1;
      var n := if q < l then q else l;
      HandOut(f.data.memory[f.param1..f.param1 + n]);
      if n >= l {
        flow, signal := Leave, Go;
      } else {
        flow, signal := Stay(f.(param1 := f.param1 + n)), Yield;
      }
      Array2Turned(f, n, old(emitted), emitted, Offered(), Left(), flow, signal);
    }

    /** write_bufs.push_back of array memory, once the work buffer has been handed out. */
    method HandOut(b: Bytes)
      requires Framing() && pending == [] && |b| <= quotaPos - messagePos
      modifies `messagePos, `emitted, `writeBufs
      ensures Framing() && emitted == old(emitted) + b
    {
      JoinAppend(writeBufs, b);
      assert delivered + (Join(writeBufs) + b) + [] == (delivered + Join(writeBufs) + []) + b;
      writeBufs := writeBufs + [b];
      messagePos := messagePos + |b|;
      emitted := emitted + b;
    }

    method StepString(f: Frame) returns (flow: Flow, signal: Signal)
      requires f.data.OfString? && IsFieldState(f.popState) && Ready(f)
      modifies `messagePos, `workFree, `pending, `emitted
      ensures Framing() && Turned(f, old(emitted), emitted, Offered(), Left(), flow, signal) && signal in {Go, Block}
    {
      hide Turned, Join;
      var s := f.data.text;
      flow, signal := Stay(f), Block;
      var n := WriteSomeBytes(f.limit, s[f.param1..]);
      if n.Err? {
        assert false;   // Message limit error
      } else {
        assert s[f.param1..][..n.value] == s[f.param1..f.param1 + n.value];
        if f.param1 + n.value == |s| {
          flow, signal := Leave, Go;
        } else {
          flow := Stay(f.(param1 := f.param1 + n.value));
        }
        StringTurned(f, n.value, old(emitted), emitted, Offered(), Left(), flow, signal);
      }
    }

    method StepMessage(f: Frame) returns (flow: Flow, signal: Signal)
      requires f.data.OfMessage? && |stateStack| == 1 && Ready(f)
      modifies `writeBufs, `pending, `workBufsUsed
      ensures Framing() && Turned(f, old(emitted), emitted, Offered(), Left(), flow, signal) && signal in {Go, Finish}
      ensures signal == Finish ==> pending == []
      ensures signal == Go ==> pending == old(pending) && writeBufs == old(writeBufs)
    {
      hide Turned, Join, Advances, Pushes, Rank, FramePieces, FrameRest, Consistent;
      var m := f.data.message;
      flow, signal := Stay(f), Finish;
      if f.state == MessageInit {
        if |stateStack| != 1 {
          assert false;   // AsyncMessageWriter not initialized
        }
        MessageStarts(f);
        flow, signal := Jump(f, f.(state := HeaderInit, param1 := 0));
      } else if f.state == HeaderInit {
        HeaderPushes(f, messagePos);
        flow, signal := Push(f, f, Frame(HeaderMagic, MessageEntries, messagePos
                                         + m.header.headerSize, OfHeader(m.header), 0, 0));
      } else if f.state == MessageEntries {
        MessageTurns(f);
        if f.param1 >= |m.entries| {
          flow, signal := Jump(f, f.(state := MessageDone));
        } else {
          flow, signal := Jump(f, f.(state := EntryInit));
        }
      } else if f.state == EntryInit {
        var e := m.entries[f.param1];
        EntryPushes(f, messagePos);
        flow, signal := Push(f, f.(param1 := f.param1 + 1),
                             Frame(EntrySize, MessageEntries, messagePos + e.entrySize, OfEntry(e), 0, 0));
      } else {
        DoneTurned(f, emitted, Offered(), Left());
        if f.limit - messagePos != 0 {
          assert false;   // Message did not write all data
        }
        PrepareContinue();
        DoneTurned(f, emitted, Offered(), Left());
      }
    }

    method StepHeader(f: Frame) returns (flow: Flow, signal: Signal)
      requires f.data.OfHeader? && f.popState == MessageEntries && Ready(f)
      modifies `messagePos, `workFree, `pending, `emitted
      ensures Framing() && Turned(f, old(emitted), emitted, Offered(), Left(), flow, signal) && signal in {Go, Block}
    {
      hide Turned, Join, FrameRest;
      if f.state <= HeaderFlags { flow, signal := StepHeaderStart(f); }
      else if f.state <= HeaderEndpoint2 { flow, signal := StepHeaderRouting(f); }
      else if f.state <= HeaderMessageId2 { flow, signal := StepHeaderMeta(f); }
      else if f.state <= HeaderStringTable3 { flow, signal := StepHeaderTable(f); }
      else { flow, signal := StepHeaderEnd(f); }
    }

    method StepEntry(f: Frame) returns (flow: Flow, signal: Signal)
      requires f.data.OfEntry? && f.popState == MessageEntries && Ready(f)
      modifies `messagePos, `workFree, `pending, `emitted
      ensures Framing() && Turned(f, old(emitted), emitted, Offered(), Left(), flow, signal) && signal in {Go, Block}
    {
      hide Turned, Join, FrameRest;
      if EntrySize <= f.state <= EntryServicePathCode { flow, signal := StepEntryStart(f); }
      else if EntryMemberNameStr <= f.state <= EntryMetaInfo { flow, signal := StepEntryNames(f); }
      else { flow, signal := StepEntryElements(f); }
    }

    method StepElement(f: Frame) returns (flow: Flow, signal: Signal)
      requires f.data.OfElement? && f.popState in {EntryElements, ElementNested2} && Ready(f)
      modifies `messagePos, `workFree, `pending, `emitted, `writeBufs, `workBufsUsed
      ensures Framing() && Turned(f, old(emitted), emitted, Offered(), Left(), flow, signal)
                && signal in {Go, Block, Yield}
      ensures signal == Yield ==> pending == []
    {
      hide Turned, Join, FrameRest, ConsistentElement;
      if f.state <= ElementElementType { flow, signal := StepElementStart(f); }
      else if f.state <= ElementDataCount { flow, signal := StepElementEnd(f); }
      else if f.state == ElementArray1 { flow, signal := StepArray1(f); }
      else { flow, signal := StepElementData(f); }
    }

    method Step(f: Frame) returns (flow: Flow, signal: Signal)
      requires Ready(f)
      requires f.data.OfMessage? ==> |stateStack| == 1
      requires !f.data.OfMessage? ==> exists below :: Linked(below, f)
      requires f.data.OfArray? ==> pending == []
      modifies `messagePos, `workFree, `pending, `emitted, `writeBufs, `workBufsUsed
      ensures Framing() && Turned(f, old(emitted), emitted, Offered(), Left(), flow, signal)
      ensures signal == Yield || signal == Finish ==> pending == []
    {
      hide Turned, Join, FrameRest, FrameOk, Linked;
      if !f.data.OfMessage? {
        ghost var below :| Linked(below, f);
        LinkedPops(below, f);
      }
      match f.data {
        case OfMessage(_) => flow, signal := StepMessage(f);
        case OfHeader(_) => flow, signal := StepHeader(f);
        case OfEntry(_) => flow, signal := StepEntry(f);
        case OfElement(_) => flow, signal := StepElement(f);
        case OfNested(_) => flow, signal := StepNested(f);
        case OfArray(_) => flow, signal := StepArray2(f);
        case OfString(_) => flow, signal := StepString(f);
      }
    }

    /** The measure of the write loop: bytes to write, then depth and rank of the stack. */
    ghost function Measure(): nat
      requires stateStack != []
      reads this
    {
      LEVEL * |stateStack| + Rank(Top(stateStack).state)
    }

    /** In a call: the stack is a point of the writing and the output is accounted for. */
    ghost predicate Writing()
      reads this
    {
      && Framing() && Valid() && stateStack != []
      && (Top(stateStack).data.OfArray? ==> pending == [])
    }

    /** One pass through the switch. */
    method Turn() returns (signal: Signal)
      requires Writing()
      modifies `stateStack, `messagePos, `workFree, `pending, `emitted, `writeBufs, `workBufsUsed
      ensures Framing() && Valid() && stateStack != []
      ensures |emitted| >= |old(emitted)|
      ensures signal == Go ==> Writing() && (|emitted| > |old(emitted)| || Measure() < old(Measure()))
      ensures Crosses(old(Ahead()), |emitted| - |old(emitted)|, Ahead(), Offered())
      ensures signal == Block || signal == Yield ==> |emitted| < |Encode(message)| && Stuck(Ahead(), Left())
      ensures signal == Yield || signal == Finish ==> pending == []
      ensures signal == Finish ==> emitted == Encode(message)
    {
      hide Join, FrameRest, FrameOk, Linked, Good, Rest, Rank, Consistent, Turned, Apply, FlowOk, Encode,
           MessagePieces, RestPieces, Crosses, Stuck, CutsTo;
      var f := Top(stateStack);
      GoodTop(stateStack, f.state, messagePos);
      var flow;
      flow, signal := Step(f);
      TurnedKeepsStack(stateStack, old(emitted), emitted, Offered(), Left(), flow, signal);
      if flow.Leave? && |stateStack| <= 1 {
        assert false;   // Message writer stack empty
      }
      ghost var r := Apply(stateStack, flow);
      LimitsNest(r, Top(r).state, messagePos);
      if flow.Enter? && flow.child.limit > stateStack[0].limit {
        assert false;   // Invalid message limit
      }
      CutOn(MessagePieces(message), |old(emitted)|, Ahead(), |emitted| - |old(emitted)|, RestPieces(r, Top(r).state),
            Offered());
      stateStack := Apply(stateStack, flow);
      assert emitted + [] == emitted;
    }

    // -------------------------------------------------------------- the interface

    /** BeginWrite for version 4. The writer is in order exactly when the message in full fits 32 bits. */
    method BeginWrite(m: Message) returns (r: Result<()>)
      requires Valid()
      modifies this
      ensures r.Err? ==> stateStack == old(stateStack) && messagePos == old(messagePos)
      ensures r.Ok? <==> old(stateStack) == [] && UpdateMessage4(m).Ok?
      ensures r.Ok? ==>
                && stateStack != [] && message == UpdateMessage4(m).value && emitted == []
                && (FullMessage(m) <= UINT32_MAX <==> Consistent(message))
                && (Consistent(message) ==> Valid())
    {
      hide Rest, UpdateMessage4, FullMessage, Consistent, MessagePieces, RestPieces;
      if stateStack != [] { return Err(InvalidOperation); }
      var u := UpdateMessage4(m);
      if u.Err? { return Err(u.error); }
      stateStack := [Frame(MessageInit, MessageInit, u.value.header.messageSize, OfMessage(u.value), 0, 0)];
      messagePos := 0;
      message := u.value;
      emitted := [];
      ComputedSizeIsExact(m);
      if Consistent(message) {
        StartIsGood(message, stateStack);
      }
      return Ok(());
    }

    /** The loop around the switch; R's prepare_continue when a field did not fit. */
    method Run() returns (signal: Signal)
      requires Writing()
      modifies `stateStack, `messagePos, `workFree, `pending, `emitted, `writeBufs, `workBufsUsed
      ensures Framing() && Valid() && stateStack != [] && pending == []
      ensures |old(emitted)| <= |emitted| <= |Encode(message)|
      ensures signal == Finish <==> emitted == Encode(message)
      ensures Crosses(old(Ahead()), |emitted| - |old(emitted)|, Ahead(), Offered())
      ensures signal != Finish ==> |emitted| < |Encode(message)| && Stuck(Ahead(), Left())
    {
      hide Join, FrameRest, FrameOk, Linked, Good, Rest, Rank, Consistent, Encode, MessagePieces, RestPieces, Crosses,
           Stuck, CutsTo;
      signal := Go;
      CrossesNone(Ahead(), Offered());
      RestFits(stateStack, emitted, message);
      while signal == Go
        invariant Framing() && Valid() && stateStack != []
        invariant |old(emitted)| <= |emitted| <= |Encode(message)|
        invariant signal == Go ==> Writing()
        invariant signal == Finish ==> emitted == Encode(message)
        invariant Crosses(old(Ahead()), |emitted| - |old(emitted)|, Ahead(), Offered())
        invariant signal == Block || signal == Yield ==> |emitted| < |Encode(message)| && Stuck(Ahead(), Left())
        invariant signal == Yield || signal == Finish ==> pending == []
        decreases signal == Go, |Encode(message)| - |emitted|, Measure()
      {
        ghost var n, ps := |emitted|, Ahead();
        signal := Turn();
        CrossesMore(old(Ahead()), n - |old(emitted)|, ps, |emitted| - n, Ahead(), Offered());
        RestFits(stateStack, emitted, message);
      }
      if signal == Block {
        PrepareContinue();
      }
    }

    /** Write4: the next bytes of the encoding, as many as the quota and the work buffer allow. */
    method Write4(writeQuota: nat, workBufs: nat)
      returns (r: WriteReturn, bufs: seq<Bytes>, used: Option<nat>)
      requires Valid() && stateStack != []
      modifies this
      ensures Valid() && stateStack != [] && message == old(message)
      // the buffers hold exactly the next bytes, within the quota
      ensures emitted == old(emitted) + Join(bufs)
      ensures |Join(bufs)| <= writeQuota
      ensures emitted <= Encode(message) && StartsMessage(emitted, |Encode(message)|)
      // the result says whether bytes remain
      ensures r == WriteContinue <==> |emitted| < |Encode(message)|
      ensures r == WriteDone <==> old(emitted) == Encode(message)
      // what goes out are whole pieces and parts of what may be cut, and all of them have fitted
      ensures Crosses(old(Ahead()), |emitted| - |old(emitted)|, Ahead(), Room(writeQuota, workBufs))
      // something goes out exactly when the piece at hand fits
      ensures |old(emitted)| < |Encode(message)| ==>
                (|emitted| > |old(emitted)| <==> Fits(AtHand(message, |old(emitted)|), Room(writeQuota, workBufs)))
    {
      hide Join, FrameRest, FrameOk, Linked, Good, Rest, Rank, Consistent, Encode, MessagePieces, RestPieces, Crosses,
           Stuck, Fits, StartsMessage;
      BottomLimit(stateStack, message, emitted, messagePos);
      RestFits(stateStack, emitted, message);
      workTotal, workFree, pending, writeBufs, workBufsUsed := workBufs, workBufs, [], [], None;
      delivered := emitted;
      EmptyJoin();
      assert delivered + [] + [] == emitted;
      CrossesNone(Ahead(), Room(writeQuota, workBufs));
      ConsistentStarts(message, emitted);
      if stateStack[0].limit - messagePos == 0 {
        return WriteDone, [], workBufsUsed;
      }
      quotaPos := messagePos + writeQuota;
      var signal := Run();
      RestFits(stateStack, emitted, message);
      HandFits(message, old(Ahead()), |old(emitted)|, |emitted| - |old(emitted)|, Ahead(), Offered(), Left(),
               signal == Finish);
      ConsistentStarts(message, emitted);
      bufs, used := writeBufs, workBufsUsed;
      assert delivered + Join(writeBufs) + [] == delivered + Join(writeBufs);
      r := if signal != Finish then WriteContinue else if |Join(writeBufs)| > 0 then WriteLast else WriteDone;
    }

    method WriteRemaining() returns (n: nat)
      requires Valid() && stateStack != []
      ensures n == |Encode(message)| - |emitted|
    {
      hide Good, Rest, Encode, Consistent;
      LimitsNest(stateStack, Top(stateStack).state, messagePos);
      RestFits(stateStack, emitted, message);
      n := stateStack[0].limit - messagePos;
    }
  }

  lemma EmptyJoin()
    ensures Join([]) == []
  {
  }

  lemma RestFits(fs: seq<Frame>, out: Bytes, m: Message)
    requires fs != [] && out + Rest(fs, Top(fs).state) == Encode(m)
    ensures out <= Encode(m) && |out| <= |Encode(m)|
    ensures |out| + |Rest(fs, Top(fs).state)| == |Encode(m)|
  {
    hide Rest, Encode;
  }

  lemma BottomLimit(fs: seq<Frame>, m: Message, out: Bytes, pos: nat)
    requires fs != [] && Good(fs, Top(fs).state, pos) && |out| == pos
    requires out + Rest(fs, Top(fs).state) == Encode(m)
    ensures fs[0].limit == |Encode(m)|
  {
    hide Good, Rest, Encode;
    LimitsNest(fs, Top(fs).state, pos);
    RestFits(fs, out, m);
  }

  lemma StartIsGood(m: Message, fs: seq<Frame>)
    requires Consistent(m)
    requires fs == [Frame(MessageInit, MessageInit, m.header.messageSize, OfMessage(m), 0, 0)]
    ensures Good(fs, MessageInit, 0)
    ensures [] + Rest(fs, MessageInit) == Encode(m)
    ensures CutsTo(MessagePieces(m), 0, RestPieces(fs, MessageInit))
  {
    hide Encode, ConsistentEntries, ConsistentHeader, MessagePieces;
    assert MessagePieces(m) + [] == MessagePieces(m);
  }

  /** Where nothing went out the piece at hand does not fit what was offered. */
  lemma HandFits(m: Message, ps: seq<Piece>, n: nat, k: nat, rest: seq<Piece>, start: Room, room: Room, done: bool)
    requires CutsTo(MessagePieces(m), n, ps) && n < |Encode(m)| && Crosses(ps, k, rest, start)
    requires !done ==> Stuck(rest, room)
    requires k == 0 ==> room == start && !done
    ensures k > 0 <==> Fits(AtHand(m, n), start)
  {
    hide Encode, MessagePieces;
    PiecesCover(m);
  }

  /** Each call, by its number and the bytes that have gone out, takes the piece at hand. */
  ghost predicate EachFits(m: Message, quotas: (nat, nat) -> nat, works: (nat, nat) -> nat)
  {
    forall k, n :: HandFitsIn(m, n, Room(quotas(k, n), works(k, n)))
  }

  /** Quota independence: whatever quotas and work buffers the caller offers, as long as each takes the
    * piece at hand, the calls together emit the one encoding. */
  method WriteAll(writer: AsyncMessageWriter, quotas: (nat, nat) -> nat, works: (nat, nat) -> nat)
    returns (bufs: seq<Bytes>)
    requires writer.Valid() && writer.stateStack != [] && writer.emitted == []
    requires EachFits(writer.message, quotas, works)
    modifies writer
    ensures writer.message == old(writer.message)
    ensures Join(bufs) == Encode(writer.message) && StartsMessage(Join(bufs), |Join(bufs)|)
  {
    hide Join, Encode, Fits, AtHand, Crosses, AsyncMessageWriter.Valid, AsyncMessageWriter.Ahead, StartsMessage;
    bufs := [];
    var k, n := 0, 0;
    EmptyJoin();
    while true
      invariant writer.Valid() && writer.stateStack != [] && writer.message == old(writer.message)
      invariant Join(bufs) == writer.emitted <= Encode(writer.message) && n == |writer.emitted|
      decreases |Encode(writer.message)| - |writer.emitted|
    {
      assert n < |Encode(writer.message)| ==> HandFitsIn(writer.message, n, Room(quotas(k, n), works(k, n)));
      var r, b, _ := writer.Write4(quotas(k, n), works(k, n));
      JoinJoin(bufs, b);
      bufs := bufs + b;
      n := |Join(bufs)|;
      if r != WriteContinue { break; }
      k := k + 1;
    }
  }

  /** at[i]: how many bytes had gone out before the i-th of some calls; end: after the last. */
  function Behind(at: seq<nat>, end: nat, i: nat): nat { if i + 1 < |at| then at[i + 1] else end }

  /** A call hands out something exactly when the piece at hand fits. */
  ghost predicate GoesOnIfFits(m: Message, at: seq<nat>, end: nat, quotas: nat -> nat, works: nat -> nat)
  {
    forall i | 0 <= i < |at| :: at[i] < |Encode(m)|
        && (Behind(at, end, i) > at[i] <==> HandFitsIn(m, at[i], Room(quotas(i), works(i))))
  }

  ghost predicate AllCallsFit(m: Message, at: seq<nat>, quotas: nat -> nat, works: nat -> nat)
  {
    forall i | 0 <= i < |at| :: HandFitsIn(m, at[i], Room(quotas(i), works(i)))
  }

  ghost predicate Within(quotas: nat -> nat, works: nat -> nat, most: Room)
  {
    forall k :: quotas(k) <= most.quota && works(k) <= most.work
  }

  lemma OneMoreCall(m: Message, at: seq<nat>, end: nat, end': nat, quotas: nat -> nat, works: nat -> nat)
    requires GoesOnIfFits(m, at, end, quotas, works) && end < |Encode(m)| && end <= end'
    requires end' > end <==> HandFitsIn(m, end, Room(quotas(|at|), works(|at|)))
    requires AllCallsFit(m, at, quotas, works) ==> end >= |at|
    ensures GoesOnIfFits(m, at + [end], end', quotas, works)
    ensures AllCallsFit(m, at + [end], quotas, works) ==> end' >= |at| + 1
  {
    hide HandFitsIn, Encode;
    var more := at + [end];
    forall i | 0 <= i < |more|
      ensures more[i] < |Encode(m)| && (Behind(more, end', i) > more[i] <==>
                                        HandFitsIn(m, more[i], Room(quotas(i), works(i))))
    {
      if i < |at| { assert more[i] == at[i] && Behind(more, end', i) == Behind(at, end, i); }
    }
    if AllCallsFit(m, more, quotas, works) {
      assert forall i | 0 <= i < |at| :: more[i] == at[i];
      assert more[|at|] == end;
    }
  }

  /** Some calls, with any quotas and work buffers. They hand out the beginning of the encoding; each of
    * them goes on exactly if the piece at hand fits. When it always does the message is done in time, and
    * while there is a piece that no call takes it never is. */
  method WriteInCalls(writer: AsyncMessageWriter, quotas: nat -> nat, works: nat -> nat, calls: nat, ghost most: Room)
    returns (bufs: seq<Bytes>, at: seq<nat>, done: bool)
    requires writer.Valid() && writer.stateStack != [] && writer.emitted == []
    modifies writer
    ensures writer.message == old(writer.message)
    ensures Join(bufs) <= Encode(writer.message) && (done <==> Join(bufs) == Encode(writer.message))
    ensures |at| <= calls && GoesOnIfFits(writer.message, at, |Join(bufs)|, quotas, works)
    ensures AllCallsFit(writer.message, at, quotas, works) && calls >= |Encode(writer.message)| ==> done
    ensures Within(quotas, works, most) && !AllFit(MessagePieces(writer.message), most) ==> !done
  {
    hide Join, Encode, Fits, AtHand, Crosses, MessagePieces, AllFit, AsyncMessageWriter.Ahead, GoesOnIfFits,
        AllCallsFit, CutsTo,
         Passed, Good, Rest, Consistent;
    ghost var m := writer.message;
    ghost var within := Within(quotas, works, most);
    bufs, at, done := [], [], false;
    EmptyJoin();
    NoCallsYet(m, quotas, works, most);
    while |at| < calls && !done
      invariant writer.Valid() && writer.stateStack != [] && writer.message == m && |at| <= calls
      invariant Join(bufs) == writer.emitted <= Encode(m) && (done <==> Join(bufs) == Encode(m))
      invariant GoesOnIfFits(m, at, |Join(bufs)|, quotas, works)
      invariant AllCallsFit(m, at, quotas, works) ==> |Join(bufs)| >= |at|
      invariant within ==> Passed(MessagePieces(m), |Join(bufs)|, most)
      decreases calls - |at|
    {
      var k := |at|;
      ghost var n, ps := |Join(bufs)|, writer.Ahead();
      at := at + [|Join(bufs)|];
      var r, b, _ := writer.Write4(quotas(k), works(k));
      JoinJoin(bufs, b);
      bufs := bufs + b;
      done := r != WriteContinue;
      OneMoreCall(m, at[..k], n, |Join(bufs)|, quotas, works);
      assert at[..k] + [n] == at;
      if within {
        PassedOn(MessagePieces(m), n, ps, |Join(bufs)| - n, writer.Ahead(), Room(quotas(k), works(k)), most);
      }
    }
    if within && done {
      PiecesCover(m);
      AllPassed(MessagePieces(m), most);
    }
  }

  lemma NoCallsYet(m: Message, quotas: nat -> nat, works: nat -> nat, most: Room)
    ensures GoesOnIfFits(m, [], 0, quotas, works) && Passed(MessagePieces(m), 0, most)
    ensures Encode(m) != []
  {
    EncodingIsSome(m);
  }

  lemma EncodingIsSome(m: Message)
    ensures Encode(m) != []
  {
    hide EncodeEntries;
    HeaderTailStep(0, m.header);
  }

  /** The exact condition for quotas and work buffers of one size: with calls enough the message goes
    * out if and only if they take each of its pieces. */
  method WriteEvenly(writer: AsyncMessageWriter, quota: nat, work: nat, calls: nat)
    returns (bufs: seq<Bytes>, done: bool)
    requires writer.Valid() && writer.stateStack != [] && writer.emitted == [] && calls >= |Encode(writer.message)|
    modifies writer
    ensures writer.message == old(writer.message)
    ensures done <==> Join(bufs) == Encode(writer.message)
    ensures done <==> AllFit(MessagePieces(writer.message), Room(quota, work))
  {
    hide Join, Encode, Fits, AtHand, MessagePieces, AllFit, AsyncMessageWriter.Valid;
    ghost var m, room := writer.message, Room(quota, work);
    var quotas, works := _ => quota, _ => work;
    var at;
    bufs, at, done := WriteInCalls(writer, quotas, works, calls, room);
    assert Within(quotas, works, room);
    if AllFit(MessagePieces(m), room) {
      forall i | 0 <= i < |at| ensures HandFitsIn(m, at[i], Room(quotas(i), works(i))) {
        assert at[i] < |Encode(m)|;
        AllAtHandFit(m, at[i], room);
      }
    }
  }

  lemma {:induction false} JoinJoin(a: seq<Bytes>, b: seq<Bytes>)
    ensures Join(a + b) == Join(a) + Join(b)
  {
    hide Join;
    if b == [] {
      assert a + b == a;
      EmptyJoin();
      assert Join(a) + [] == Join(a);
    } else {
      var front, last := b[..|b| - 1], b[|b| - 1];
      JoinJoin(a, front);
      assert b == front + [last] && a + b == (a + front) + [last];
      JoinAppend(a + front, last);
      JoinAppend(front, last);
      assert (Join(a) + Join(front)) + last == Join(a) + (Join(front) + last);
    }
  }
}
