/** What of a message goes over at once and what may be cut: the pieces of the layout, in order. */
module Pieces {
  import opened Numbers
  import opened Messages
  import opened Layout

  type Positive = n: nat | n > 0 witness 1

  datatype Piece =
    | AtOnce(len: Positive)   // a number, a flags byte, a node id, the length of a string, an extended block
    | Text(len: Positive)     // the bytes of a string
    | Memory(len: Positive)   // the bytes of an array, which need not be copied

  /** What a call may still hand out, and what it may still copy. */
  datatype Room = Room(quota: nat, work: nat)

  /** A reader's: the bytes ahead. */
  function Even(n: nat): Room { Room(n, n) }

  /** Some of p can go out. */
  predicate Fits(p: Piece, room: Room)
  {
    match p
    case AtOnce(n) => n <= room.quota && n <= room.work
    case Text(_) => room.quota > 0 && room.work > 0
    case Memory(_) => room.quota > 0
  }

  predicate AllFit(ps: seq<Piece>, room: Room) { forall p | p in ps :: Fits(p, room) }

  function Total(ps: seq<Piece>): nat
  {
    if ps == [] then 0 else ps[0].len + Total(ps[1..])
  }

  function Shorter(p: Piece, n: nat): Piece
    requires n < p.len
  {
    match p
    case AtOnce(len) => AtOnce(len - n)
    case Text(len) => Text(len - n)
    case Memory(len) => Memory(len - n)
  }

  /** What is left behind the first n bytes. */
  function Cut(ps: seq<Piece>, n: nat): seq<Piece>
    requires n <= Total(ps)
  {
    if n == 0 then ps
    else if ps[0].len <= n then Cut(ps[1..], n - ps[0].len)
    else [Shorter(ps[0], n)] + ps[1..]
  }

  predicate CutsTo(ps: seq<Piece>, n: nat, rest: seq<Piece>) { n <= Total(ps) && Cut(ps, n) == rest }

  /** Behind n bytes no piece that goes over at once is split. */
  predicate NoneSplit(ps: seq<Piece>, n: nat)
  {
    || n == 0
    || (ps != [] && if n < ps[0].len then !ps[0].AtOnce? else NoneSplit(ps[1..], n - ps[0].len))
  }

  /** Every piece that the first n bytes are of has fitted. */
  predicate Passed(ps: seq<Piece>, n: nat, room: Room)
  {
    n == 0 || (ps != [] && Fits(ps[0], room) && (n > ps[0].len ==> Passed(ps[1..], n - ps[0].len, room)))
  }

  /** The first n bytes of ps have gone over, with `start` to begin with, and rest is left. */
  predicate Crosses(ps: seq<Piece>, n: nat, rest: seq<Piece>, start: Room)
  {
    CutsTo(ps, n, rest) && NoneSplit(ps, n) && Passed(ps, n, start)
  }

  /** Nothing more can go over. */
  predicate Stuck(ps: seq<Piece>, room: Room) { ps != [] && !Fits(ps[0], room) }

  // ---------------------------------------------------------------- lists of pieces

  lemma {:induction false} TotalAppend(a: seq<Piece>, b: seq<Piece>)
    ensures Total(a + b) == Total(a) + Total(b)
  {
    if a == [] {
      assert a + b == b;
    } else {
      TotalAppend(a[1..], b);
      assert (a + b)[1..] == a[1..] + b;
    }
  }

  lemma {:induction false} CutTotal(ps: seq<Piece>, n: nat)
    requires n <= Total(ps)
    ensures Total(Cut(ps, n)) == Total(ps) - n
  {
    if n > 0 {
      if ps[0].len <= n {
        CutTotal(ps[1..], n - ps[0].len);
      } else {
        assert Cut(ps, n)[1..] == ps[1..];
      }
    }
  }

  lemma {:induction false} CutAppend(a: seq<Piece>, b: seq<Piece>, n: nat)
    requires n <= Total(a)
    ensures n <= Total(a + b) && Cut(a + b, n) == Cut(a, n) + b
  {
    TotalAppend(a, b);
    if n > 0 {
      assert (a + b)[0] == a[0] && (a + b)[1..] == a[1..] + b;
      if a[0].len <= n {
        CutAppend(a[1..], b, n - a[0].len);
      } else {
        var p := Shorter(a[0], n);
        assert [p] + (a[1..] + b) == ([p] + a[1..]) + b;
      }
    }
  }

  lemma {:induction false} CutTwice(ps: seq<Piece>, n: nat, k: nat)
    requires n <= Total(ps) && k <= Total(ps) - n
    ensures k <= Total(Cut(ps, n)) && Cut(Cut(ps, n), k) == Cut(ps, n + k)
  {
    CutTotal(ps, n);
    if n > 0 && k > 0 {
      var tail := ps[1..];
      if ps[0].len <= n {
        CutTwice(tail, n - ps[0].len, k);
      } else {
        assert Cut(ps, n)[1..] == tail;
      }
    }
  }

  lemma {:induction false} NoneSplitAppend(a: seq<Piece>, b: seq<Piece>, n: nat)
    requires NoneSplit(a, n)
    ensures NoneSplit(a + b, n)
  {
    if n > 0 {
      assert (a + b)[1..] == a[1..] + b;
      if n >= a[0].len { NoneSplitAppend(a[1..], b, n - a[0].len); }
    }
  }

  lemma {:induction false} NoneSplitMore(ps: seq<Piece>, n: nat, k: nat)
    requires n <= Total(ps) && NoneSplit(ps, n) && NoneSplit(Cut(ps, n), k)
    ensures NoneSplit(ps, n + k)
  {
    if n > 0 && k > 0 {
      var len := ps[0].len;
      if len <= n {
        NoneSplitMore(ps[1..], n - len, k);
        assert n - len + k == n + k - len;
      } else {
        assert Cut(ps, n)[1..] == ps[1..];
      }
    }
  }

  lemma {:induction false} PassedAppend(a: seq<Piece>, b: seq<Piece>, n: nat, room: Room)
    requires Passed(a, n, room)
    ensures Passed(a + b, n, room)
  {
    if n > 0 {
      assert (a + b)[1..] == a[1..] + b;
      if n > a[0].len { PassedAppend(a[1..], b, n - a[0].len, room); }
    }
  }

  lemma {:induction false} PassedMore(ps: seq<Piece>, n: nat, k: nat, room: Room)
    requires n <= Total(ps) && Passed(ps, n, room) && Passed(Cut(ps, n), k, room)
    ensures Passed(ps, n + k, room)
  {
    if n > 0 && k > 0 {
      var len := ps[0].len;
      if len <= n {
        if n > len { PassedMore(ps[1..], n - len, k, room); } else { assert Cut(ps[1..], 0) == ps[1..]; }
        assert Passed(ps[1..], n - len + k, room);
        assert n - len + k == n + k - len;
      } else {
        assert Cut(ps, n)[1..] == ps[1..];
      }
    }
  }

  lemma {:induction false} PassedRoom(ps: seq<Piece>, n: nat, small: Room, room: Room)
    requires Passed(ps, n, small) && small.quota <= room.quota && small.work <= room.work
    ensures Passed(ps, n, room)
  {
    if n > 0 && n > ps[0].len { PassedRoom(ps[1..], n - ps[0].len, small, room); }
  }

  lemma {:induction false} AllPassed(ps: seq<Piece>, room: Room)
    requires Passed(ps, Total(ps), room)
    ensures AllFit(ps, room)
  {
    if ps != [] {
      assert ps[1..] != [] ==> Total(ps[1..]) > 0;
      if ps[1..] != [] { AllPassed(ps[1..], room); }
      assert ps == [ps[0]] + ps[1..];
    }
  }

  /** A part of what fits fits. */
  lemma {:induction false} CutFits(ps: seq<Piece>, n: nat, room: Room)
    requires n <= Total(ps) && AllFit(ps, room)
    ensures AllFit(Cut(ps, n), room)
  {
    if n > 0 {
      var tail := ps[1..];
      assert forall p | p in tail :: p in ps;
      if ps[0].len <= n {
        CutFits(tail, n - ps[0].len, room);
      } else {
        assert ps[0] in ps;
      }
    }
  }

  lemma NoneLeft(ps: seq<Piece>)
    ensures Total(ps) == 0 <==> ps == []
  {
  }

  // ---------------------------------------------------------------- the pieces of the layout

  function Once(n: nat): seq<Piece> { if n == 0 then [] else [AtOnce(n)] }

  function Cuttable(n: nat): seq<Piece> { if n == 0 then [] else [Text(n)] }

  function Uncopied(n: nat): seq<Piece> { if n == 0 then [] else [Memory(n)] }

  /** A string: its length, then its text. */
  function TextPieces(s: Bytes): seq<Piece> { Once(|UintX(|s|)|) + Cuttable(|s|) }

  function TextWhen(on: bool, s: Bytes): seq<Piece> { if on then TextPieces(s) else [] }

  predicate IsElementText(k: nat) { k == 2 || k == 6 || k == 8 }

  function ElementFieldPieces(k: nat, el: MessageElement): seq<Piece>
  {
    if k == 2 then TextWhen(Has(el.elementFlags, ELEMENT_NAME_STR), el.elementName)
    else if k == 6 then TextWhen(Has(el.elementFlags, ELEMENT_TYPE_NAME_STR), el.elementTypeName)
    else if k == 8 then TextWhen(Has(el.elementFlags, ELEMENT_META_INFO), el.metaData)
    else Once(|ElementField(k, el)|)
  }

  function ElementPieces(k: nat, el: MessageElement): seq<Piece>
    decreases el, 100 - k
  {
    if k < ELEMENT_FIELDS then ElementFieldPieces(k, el) + ElementPieces(k + 1, el)
    else ContentPieces(el.data)
  }

  function ContentPieces(data: ElementContent): seq<Piece>
    decreases data, 0
  {
    match data
    case NoData => []
    case ArrayData(a) => Uncopied(|a.memory|)
    case NestedData(_, _, es) => ElementsPieces(es)
  }

  function ElementsPieces(es: seq<MessageElement>): seq<Piece>
    decreases es, 0
  {
    if es == [] then [] else ElementPieces(0, es[0]) + ElementsPieces(es[1..])
  }

  function ElementsPiecesFrom(es: seq<MessageElement>, i: nat): seq<Piece>
  {
    if i <= |es| then ElementsPieces(es[i..]) else []
  }

  function ElementPiecesFrom(st: State, el: MessageElement): seq<Piece>
  {
    if IsElementFieldState(st) then ElementPieces(Order(st), el)
    else if st == ElementData || st == ElementArray1 || st == ElementNested1 then ContentPieces(el.data)
    else []
  }

  predicate IsEntryText(k: nat) { k == 3 || k == 5 || k == 9 }

  function EntryFieldPieces(k: nat, e: MessageEntry): seq<Piece>
  {
    if k == 3 then TextWhen(Has(e.entryFlags, SERVICE_PATH_STR), e.servicePath)
    else if k == 5 then TextWhen(Has(e.entryFlags, MEMBER_NAME_STR), e.memberName)
    else if k == 9 then TextWhen(Has(e.entryFlags, ENTRY_META_INFO), e.metaData)
    else Once(|EntryField(k, e)|)
  }

  function EntryPieces(k: nat, e: MessageEntry): seq<Piece>
    decreases 100 - k
  {
    if k < ENTRY_FIELDS then EntryFieldPieces(k, e) + EntryPieces(k + 1, e)
    else ElementsPieces(e.elements)
  }

  function EntryPiecesFrom(st: State, e: MessageEntry, i: nat): seq<Piece>
  {
    if IsEntryFieldState(st) then EntryPieces(Order(st), e)
    else if st == EntryElements || st == ElementInit then ElementsPiecesFrom(e.elements, i)
    else []
  }

  function EntriesPieces(es: seq<MessageEntry>): seq<Piece>
  {
    if es == [] then [] else EntryPieces(0, es[0]) + EntriesPieces(es[1..])
  }

  function EntriesPiecesFrom(es: seq<MessageEntry>, i: nat): seq<Piece>
  {
    if i <= |es| then EntriesPieces(es[i..]) else []
  }

  predicate IsHeaderText(k: nat) { k == 7 || k == 8 || k == 12 || k == 16 }

  function HeaderFieldPieces(k: nat, h: MessageHeader): seq<Piece>
  {
    if k == 7 then TextWhen(Has(h.messageFlags, ROUTING_INFO), h.senderNodeName)
    else if k == 8 then TextWhen(Has(h.messageFlags, ROUTING_INFO), h.receiverNodeName)
    else if k == 12 then TextWhen(Has(h.messageFlags, HEADER_META_INFO), h.metaData)
    else if k == 16 then if Has(h.messageFlags, STRING_TABLE) then TablePieces(h.stringTable) else []
    else Once(|HeaderField(k, h)|)
  }

  function HeaderPieces(k: nat, h: MessageHeader): seq<Piece>
    decreases 100 - k
  {
    if k < HEADER_FIELDS then HeaderFieldPieces(k, h) + HeaderPieces(k + 1, h) else []
  }

  function TablePieces(table: seq<TableEntry>): seq<Piece>
  {
    if table == [] then []
    else Once(|UintX(table[0].code)|) + (TextPieces(table[0].text) + TablePieces(table[1..]))
  }

  function TablePiecesFrom(table: seq<TableEntry>, i: nat): seq<Piece>
  {
    if i <= |table| then TablePieces(table[i..]) else []
  }

  function HeaderPiecesFrom(st: State, h: MessageHeader, i: nat): seq<Piece>
  {
    if st == HeaderStringTable2 then TablePiecesFrom(h.stringTable, i) + HeaderPieces(18, h)
    else if st == HeaderStringTable3 then
      if i < |h.stringTable| then
        TextPieces(h.stringTable[i].text) + (TablePiecesFrom(h.stringTable, i + 1) + HeaderPieces(18, h))
      else []
    else HeaderPieces(Order(st), h)
  }

  function MessagePieces(m: Message): seq<Piece>
  {
    HeaderPieces(0, m.header) + EntriesPieces(m.entries)
  }

  function MessagePiecesFrom(st: State, m: Message, i: nat): seq<Piece>
  {
    if st == MessageInit || st == HeaderInit then MessagePieces(m)
    else if st == MessageEntries || st == EntryInit then EntriesPiecesFrom(m.entries, i)
    else []
  }

  /** The piece at hand behind the first n bytes of the encoding. */
  function AtHand(m: Message, n: nat): Piece
    requires n < |Encode(m)|
  {
    PiecesCover(m);
    CutTotal(MessagePieces(m), n);
    Cut(MessagePieces(m), n)[0]
  }

  lemma CrossesNone(ps: seq<Piece>, start: Room)
    ensures Crosses(ps, 0, ps, start)
  {
  }

  lemma CrossesAppend(ps: seq<Piece>, n: nat, rest: seq<Piece>, start: Room, tail: seq<Piece>)
    requires Crosses(ps, n, rest, start)
    ensures Crosses(ps + tail, n, rest + tail, start)
  {
    CutAppend(ps, tail, n);
    NoneSplitAppend(ps, tail, n);
    PassedAppend(ps, tail, n, start);
  }

  lemma CrossesOnce(n: nat, rest: seq<Piece>, start: Room)
    requires n <= start.quota && n <= start.work
    ensures Crosses(Once(n) + rest, n, rest, start)
  {
    if n == 0 {
      assert Once(n) + rest == rest;
    } else {
      assert (Once(n) + rest)[1..] == rest && Cut(rest, 0) == rest;
    }
  }

  /** n bytes of what may be cut. */
  lemma CrossesSome(p: Piece, n: nat, rest: seq<Piece>, start: Room)
    requires n <= p.len && !p.AtOnce? && (n > 0 ==> Fits(p, start))
    ensures Crosses([p] + rest, n, if n == p.len then rest else [Shorter(p, n)] + rest, start)
  {
    assert ([p] + rest)[1..] == rest && Cut(rest, 0) == rest;
  }

  lemma CrossesMore(ps: seq<Piece>, n: nat, mid: seq<Piece>, k: nat, rest: seq<Piece>, start: Room)
    requires Crosses(ps, n, mid, start) && Crosses(mid, k, rest, start)
    ensures Crosses(ps, n + k, rest, start)
  {
    CutTotal(ps, n);
    CutTwice(ps, n, k);
    NoneSplitMore(ps, n, k);
    PassedMore(ps, n, k, start);
  }

  /** The length of a string and n bytes of its text. */
  lemma CrossesText(s: Bytes, n: nat, rest: seq<Piece>, start: Room)
    requires n <= |s| && |UintX(|s|)| <= start.quota && |UintX(|s|)| <= start.work
    ensures Crosses(TextPieces(s) + rest, |UintX(|s|)| + n, Cuttable(|s| - n) + rest, start)
  {
    hide Crosses, UintX, Once;
    var u, t := |UintX(|s|)|, Cuttable(|s|) + rest;
    assert TextPieces(s) + rest == Once(u) + t;
    CrossesOnce(u, t, start);
    if s != [] {
      UintXIsSome(|s|);
      CrossesSome(Text(|s|), n, rest, start);
      assert t == [Text(|s|)] + rest;
      assert Cuttable(|s| - n) + rest == if n == |s| then rest else [Shorter(Text(|s|), n)] + rest;
      CrossesMore(TextPieces(s) + rest, u, t, n, Cuttable(|s| - n) + rest, start);
    }
  }

  lemma UintXIsSome(n: nat)
    ensures |UintX(n)| > 0
  {
  }

  /** The piece at hand behind n bytes, if there is one, fits. */
  predicate HandFitsIn(m: Message, n: nat, room: Room) { n < |Encode(m)| ==> Fits(AtHand(m, n), room) }

  lemma CutOn(all: seq<Piece>, n: nat, ps: seq<Piece>, k: nat, rest: seq<Piece>, start: Room)
    requires CutsTo(all, n, ps) && Crosses(ps, k, rest, start)
    ensures CutsTo(all, n + k, rest)
  {
    CutTotal(all, n);
    CutTwice(all, n, k);
  }

  lemma PassedOn(all: seq<Piece>, n: nat, ps: seq<Piece>, k: nat, rest: seq<Piece>, room: Room, most: Room)
    requires CutsTo(all, n, ps) && Crosses(ps, k, rest, room) && Passed(all, n, most)
    requires room.quota <= most.quota && room.work <= most.work
    ensures Passed(all, n + k, most)
  {
    PassedRoom(ps, k, room, most);
    PassedMore(all, n, k, most);
  }

  lemma AllAtHandFit(m: Message, n: nat, room: Room)
    requires AllFit(MessagePieces(m), room) && n < |Encode(m)|
    ensures Fits(AtHand(m, n), room)
  {
    hide Encode, MessagePieces;
    PiecesCover(m);
    CutTotal(MessagePieces(m), n);
    CutFits(MessagePieces(m), n, room);
  }

  lemma CrossesRoom(ps: seq<Piece>, n: nat, rest: seq<Piece>, small: Room, room: Room)
    requires Crosses(ps, n, rest, small) && small.quota <= room.quota && small.work <= room.work
    ensures Crosses(ps, n, rest, room)
  {
    PassedRoom(ps, n, small, room);
  }

  // ---------------------------------------------------------------- the pieces are the encoding

  lemma TextLength(s: Bytes)
    ensures Total(TextPieces(s)) == |Counted(s)|
  {
    TotalAppend(Once(|UintX(|s|)|), Cuttable(|s|));
  }

  lemma {:induction false} TableCovers(table: seq<TableEntry>)
    ensures Total(TablePieces(table)) == |EncodeTable(table)|
  {
    hide UintX, Counted, TextPieces;
    if table != [] {
      TableCovers(table[1..]);
      TextLength(table[0].text);
      TotalAppend(TextPieces(table[0].text), TablePieces(table[1..]));
      TotalAppend(Once(|UintX(table[0].code)|), TextPieces(table[0].text) + TablePieces(table[1..]));
    }
  }

  lemma HeaderFieldCovers(k: nat, h: MessageHeader)
    ensures Total(HeaderFieldPieces(k, h)) == |HeaderField(k, h)|
  {
    hide UintX, Counted, TextPieces, Little, EncodeTable, TablePieces;
    TextLength(h.senderNodeName);
    TextLength(h.receiverNodeName);
    TextLength(h.metaData);
    TableCovers(h.stringTable);
  }

  lemma {:induction false} HeaderCovers(k: nat, h: MessageHeader)
    ensures Total(HeaderPieces(k, h)) == |HeaderTail(k, h)|
    decreases 100 - k
  {
    hide HeaderField, HeaderFieldPieces;
    if k < HEADER_FIELDS {
      HeaderFieldCovers(k, h);
      HeaderCovers(k + 1, h);
      TotalAppend(HeaderFieldPieces(k, h), HeaderPieces(k + 1, h));
    }
  }

  lemma ElementFieldCovers(k: nat, el: MessageElement)
    ensures Total(ElementFieldPieces(k, el)) == |ElementField(k, el)|
  {
    hide UintX, Counted, TextPieces, Little, IntX;
    TextLength(el.elementName);
    TextLength(el.elementTypeName);
    TextLength(el.metaData);
  }

  lemma {:induction false} ElementCovers(k: nat, el: MessageElement)
    ensures Total(ElementPieces(k, el)) == |ElementTail(k, el)|
    decreases el, 100 - k
  {
    hide ElementField, ElementFieldPieces;
    if k < ELEMENT_FIELDS {
      ElementFieldCovers(k, el);
      ElementCovers(k + 1, el);
      TotalAppend(ElementFieldPieces(k, el), ElementPieces(k + 1, el));
    } else if el.data.NestedData? {
      ElementsCover(el.data.elements);
    }
  }

  lemma {:induction false} ElementsCover(es: seq<MessageElement>)
    ensures Total(ElementsPieces(es)) == |EncodeElements(es)|
    decreases es, 0
  {
    hide ElementPieces, ElementTail;
    if es != [] {
      ElementCovers(0, es[0]);
      ElementsCover(es[1..]);
      TotalAppend(ElementPieces(0, es[0]), ElementsPieces(es[1..]));
    }
  }

  lemma EntryFieldCovers(k: nat, e: MessageEntry)
    ensures Total(EntryFieldPieces(k, e)) == |EntryField(k, e)|
  {
    hide UintX, Counted, TextPieces, Little;
    TextLength(e.servicePath);
    TextLength(e.memberName);
    TextLength(e.metaData);
  }

  lemma {:induction false} EntryCovers(k: nat, e: MessageEntry)
    ensures Total(EntryPieces(k, e)) == |EntryTail(k, e)|
    decreases 100 - k
  {
    hide EntryField, EntryFieldPieces;
    if k < ENTRY_FIELDS {
      EntryFieldCovers(k, e);
      EntryCovers(k + 1, e);
      TotalAppend(EntryFieldPieces(k, e), EntryPieces(k + 1, e));
    } else {
      ElementsCover(e.elements);
    }
  }

  lemma {:induction false} EntriesCover(es: seq<MessageEntry>)
    ensures Total(EntriesPieces(es)) == |EncodeEntries(es)|
  {
    hide EntryPieces, EntryTail;
    if es != [] {
      EntryCovers(0, es[0]);
      EntriesCover(es[1..]);
      TotalAppend(EntryPieces(0, es[0]), EntriesPieces(es[1..]));
    }
  }

  /** The pieces of a message are as long as its encoding. */
  lemma PiecesCover(m: Message)
    ensures Total(MessagePieces(m)) == |Encode(m)|
  {
    hide HeaderPieces, HeaderTail, EntriesPieces, EncodeEntries;
    HeaderCovers(0, m.header);
    EntriesCover(m.entries);
    TotalAppend(HeaderPieces(0, m.header), EntriesPieces(m.entries));
  }

  // ---------------------------------------------------------------- one piece after the other

  lemma HeaderPiecesStep(k: nat, h: MessageHeader)
    ensures HeaderPieces(k, h) == if k < HEADER_FIELDS then HeaderFieldPieces(k, h) + HeaderPieces(k + 1, h) else []
  {
    hide HeaderFieldPieces;
  }

  lemma EntryPiecesStep(k: nat, e: MessageEntry)
    ensures EntryPieces(k, e) ==
            if k < ENTRY_FIELDS then EntryFieldPieces(k, e) + EntryPieces(k + 1, e) else ElementsPieces(e.elements)
  {
    hide EntryFieldPieces;
  }

  lemma ElementPiecesStep(k: nat, el: MessageElement)
    ensures ElementPieces(k, el) ==
            if k < ELEMENT_FIELDS then ElementFieldPieces(k, el) + ElementPieces(k + 1, el) else ContentPieces(el.data)
  {
    hide ElementFieldPieces, ContentPieces;
  }

  lemma ElementsPiecesStep(es: seq<MessageElement>, i: nat)
    requires i <= |es|
    ensures i < |es| ==> ElementsPiecesFrom(es, i) == ElementPieces(0, es[i]) + ElementsPiecesFrom(es, i + 1)
    ensures i == |es| ==> ElementsPiecesFrom(es, i) == []
  {
    hide ElementPieces;
    if i < |es| { assert es[i..][1..] == es[i + 1..]; }
  }

  lemma EntriesPiecesStep(es: seq<MessageEntry>, i: nat)
    requires i <= |es|
    ensures i < |es| ==> EntriesPiecesFrom(es, i) == EntryPieces(0, es[i]) + EntriesPiecesFrom(es, i + 1)
    ensures i == |es| ==> EntriesPiecesFrom(es, i) == []
  {
    hide EntryPieces;
    if i < |es| { assert es[i..][1..] == es[i + 1..]; }
  }

  lemma TablePiecesStep(table: seq<TableEntry>, i: nat)
    requires i <= |table|
    ensures i < |table| ==>
              TablePiecesFrom(table, i) == Once(|UintX(table[i].code)|)
                  + (TextPieces(table[i].text) + TablePiecesFrom(table, i + 1))
    ensures i == |table| ==> TablePiecesFrom(table, i) == []
  {
    hide TextPieces, UintX;
    if i < |table| { assert table[i..][1..] == table[i + 1..]; }
  }

  /** Fields without bytes have no pieces. */
  lemma {:induction false} HeaderPassesOver(k: nat, j: nat, h: MessageHeader)
    requires k <= j && HeaderTail(k, h) == HeaderTail(j, h)
    ensures HeaderPieces(k, h) == HeaderPieces(j, h)
    decreases 100 - k
  {
    hide HeaderField, HeaderFieldPieces, HeaderTail, HeaderPieces;
    HeaderPiecesStep(k, h);
    HeaderTailStep(k, h);
    if k < HEADER_FIELDS && k < j {
      HeaderShrinks(k + 1, j, h);
      HeaderFieldCovers(k, h);
      NoneLeft(HeaderFieldPieces(k, h));
      assert HeaderField(k, h) == [] && HeaderField(k, h) + HeaderTail(k + 1, h) == HeaderTail(k + 1, h);
      HeaderPassesOver(k + 1, j, h);
      assert [] + HeaderPieces(k + 1, h) == HeaderPieces(k + 1, h);
    } else if k < j {
      HeaderPiecesStep(j, h);
    }
  }

  lemma {:induction false} HeaderShrinks(k: nat, j: nat, h: MessageHeader)
    requires k <= j
    ensures |HeaderTail(j, h)| <= |HeaderTail(k, h)|
    decreases j - k
  {
    hide HeaderField;
    if k < j {
      HeaderTailStep(k, h);
      if k < HEADER_FIELDS { HeaderShrinks(k + 1, j, h); }
    }
  }
}
