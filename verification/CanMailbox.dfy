/** CAN transmit mailboxes and receive FIFOs: encoding and decoding of messages. */
module CanMailbox {

  const TYPEID_STD: bv32 := 0
  const TYPEID_EXT: bv32 := 4

  /** The four words of a transmit or receive mailbox. */
  datatype Mailbox = Mailbox(mid: bv32, dlen: bv32, low: bv32, high: bv32)

  /** CAN_TxMessage_T, with its eight data bytes. */
  datatype TxMessage = TxMessage(
    stdID: bv32, extID: bv32, typeID: bv32, remoteTxReq: bv32, dataLengthCode: bv32, data: seq<bv32>)
  {
    /** The ranges the structure documents. */
    predicate InRange()
    {
      && (typeID == TYPEID_STD || typeID == TYPEID_EXT) && (remoteTxReq == 0 || remoteTxReq == 2)
      && stdID <= 0x7FF && extID <= 0x1FFF_FFFF && dataLengthCode <= 0xFF
      && |data| == 8 && forall i :: 0 <= i < 8 ==> data[i] <= 0xFF
    }
  }

  /** CAN_RxMessage_T. */
  datatype RxMessage = RxMessage(
    stdID: bv32, extID: bv32, typeID: bv32, remoteTxReq: bv32,
    dataLengthCode: bv32, filterMatchIndex: bv32, data: seq<bv32>)

  const EMPTY_FLAG: seq<bv32> := [0x0400_0000, 0x0800_0000, 0x1000_0000]

  /** Whether the empty flag of mailbox k is set. */
  predicate IsEmpty(txsts: bv32, k: nat)
    requires k < 3
  {
    txsts & EMPTY_FLAG[k] == EMPTY_FLAG[k]
  }

  /** The status words of the tests, one read each. */
  type Reads = sts: seq<bv32> | |sts| == 3 witness [0, 0, 0]

  /** The mailbox with the lowest number whose empty flag is set when it is tested, or 3. */
  function EmptyMailbox(sts: Reads): (k: nat)
    ensures k <= 3 && (k < 3 ==> IsEmpty(sts[k], k))
    ensures forall j :: 0 <= j < k && j < 3 ==> !IsEmpty(sts[j], j)
  {
    if IsEmpty(sts[0], 0) then 0
    else if IsEmpty(sts[1], 1) then 1
    else if IsEmpty(sts[2], 2) then 2
    else 3
  }

  /** The flags of the three mailboxes, one at a time. */
  lemma EmptyFlags()
    ensures EmptyMailbox([0x0400_0000, 0x0400_0000, 0x0400_0000]) == 0
    ensures EmptyMailbox([0x0800_0000, 0x0800_0000, 0x0800_0000]) == 1
    ensures EmptyMailbox([0x1000_0000, 0x1000_0000, 0x1000_0000]) == 2
    ensures EmptyMailbox([0xE3FF_FFFF, 0xE3FF_FFFF, 0xE3FF_FFFF]) == 3
  {
  }

  /** The hardware only ever sets an empty flag between two reads; it is the driver that
      fills mailboxes. */
  ghost predicate OnlyEmptying(sts: Reads)
  {
    forall i, j, k :: 0 <= i <= j < 3 && 0 <= k < 3 && IsEmpty(sts[i], k) ==> IsEmpty(sts[j], k)
  }

  /** Whatever the hardware empties meanwhile, a mailbox that was empty at the start is
      not passed over, and the one selected is still empty at the end. */
  lemma SelectsEmpty(sts: Reads)
    requires OnlyEmptying(sts)
    ensures EmptyMailbox(sts) < 3 ==> IsEmpty(sts[2], EmptyMailbox(sts))
    ensures forall k :: 0 <= k < 3 && IsEmpty(sts[0], k) ==> EmptyMailbox(sts) <= k
  {
    var k := EmptyMailbox(sts);
    if k < 3 {
      assert IsEmpty(sts[k], k);
    }
  }

  // ----- Encoding -----

  /** The identifier word, before the transmission request. */
  function IdWord(mid: bv32, typeID: bv32, stdID: bv32, extID: bv32, remote: bv32): bv32
  {
    if typeID == TYPEID_STD then (mid & 1) | ((stdID << 21) | remote)
    else (mid & 1) | ((extID << 3) | typeID | remote)
  }

  /** The identifier word with the transmission request. */
  function Requested(w: bv32): (r: bv32)
    ensures IsRequest(r)
  {
    w | 1
  }

  /** Bit 0 of an identifier word asks for transmission. */
  predicate IsRequest(mid: bv32) { mid & 1 == 1 }

  /** The caller's structure after the call: the length code is cut to four bits. */
  function Masked(m: TxMessage): TxMessage { m.(dataLengthCode := m.dataLengthCode & 0x0F) }

  /** The length word: the low four bits replaced. */
  function LengthWord(prior: bv32, code: bv32): (r: bv32)
    ensures code <= 0xF ==> LengthIs(r, prior, code)
  {
    (prior & 0xFFFF_FFF0) | code
  }

  /** The low four bits are the code, the others those of the prior word. */
  predicate LengthIs(w: bv32, prior: bv32, code: bv32)
  {
    w & 0xF == code && w & 0xFFFF_FFF0 == prior & 0xFFFF_FFF0
  }

  lemma CodeFits(code: bv32)
    ensures code & 0x0F <= 0xF
  {
  }

  /** Four bytes, the first in the low byte. */
  function Pack(b0: bv32, b1: bv32, b2: bv32, b3: bv32): bv32
  {
    (b3 << 24) | (b2 << 16) | (b1 << 8) | b0
  }

  /** The mailbox words of a message whose length code has four bits. */
  function EncodeMasked(box: Mailbox, m: TxMessage): Mailbox
    requires |m.data| == 8
  {
    Mailbox(Requested(IdWord(box.mid, m.typeID, m.stdID, m.extID, m.remoteTxReq)),
            LengthWord(box.dlen, m.dataLengthCode),
            Pack(m.data[0], m.data[1], m.data[2], m.data[3]),
            Pack(m.data[4], m.data[5], m.data[6], m.data[7]))
  }

  function Encode(box: Mailbox, m: TxMessage): Mailbox
    requires |m.data| == 8
  {
    EncodeMasked(box, Masked(m))
  }

  // ----- Decoding -----

  function Byte(w: bv32, k: nat): bv32
    requires k < 4
  {
    if k == 0 then w & 0xFF
    else if k == 1 then (w >> 8) & 0xFF
    else if k == 2 then (w >> 16) & 0xFF
    else (w >> 24) & 0xFF
  }

  /** CAN_RxMessage on the words of a FIFO; `before` is the caller's structure, of
      which only the identifier of the other kind survives. */
  function Decode(box: Mailbox, before: RxMessage): RxMessage
  {
    var typeID := box.mid & 4;
    RxMessage(
      if typeID == TYPEID_STD then (box.mid >> 21) & 0x7FF else before.stdID,
      if typeID == TYPEID_STD then before.extID else (box.mid >> 3) & 0x1FFF_FFFF,
      typeID,
      (box.mid >> 1) & 1,
      box.dlen & 0xF,
      (box.dlen >> 8) & 0xFF,
      [Byte(box.low, 0), Byte(box.low, 1), Byte(box.low, 2), Byte(box.low, 3),
       Byte(box.high, 0), Byte(box.high, 1), Byte(box.high, 2), Byte(box.high, 3)])
  }

  // ----- Round trip -----

  lemma StdWord(m: bv32, id: bv32, rtr: bv32)
    requires m <= 1 && id <= 0x7FF && (rtr == 0 || rtr == 2)
    ensures var w := m | ((id << 21) | rtr) | 1;
      w & 4 == 0 && (w >> 21) & 0x7FF == id && (w >> 1) & 1 == rtr >> 1
  {
  }

  lemma ExtWord(m: bv32, id: bv32, rtr: bv32)
    requires m <= 1 && id <= 0x1FFF_FFFF && (rtr == 0 || rtr == 2)
    ensures var w := m | ((id << 3) | TYPEID_EXT | rtr) | 1;
      w & 4 == 4 && (w >> 3) & 0x1FFF_FFFF == id && (w >> 1) & 1 == rtr >> 1
  {
    ExtBits(m, id, rtr);
    var w := m | ((id << 3) | TYPEID_EXT | rtr) | 1;
    assert (w >> 1) & 1 == (w & 2) >> 1;
    assert id & 0x1FFF_FFFF == id;
  }

  lemma LengthCode(prior: bv32, dlc: bv32)
    ensures LengthWord(prior, dlc & 0x0F) & 0xF == dlc & 0x0F
  {
  }

  lemma PackedByte0(b0: bv32, b1: bv32, b2: bv32, b3: bv32)
    requires b0 <= 0xFF
    ensures Byte(Pack(b0, b1, b2, b3), 0) == b0
  {
  }

  lemma PackedByte1(b0: bv32, b1: bv32, b2: bv32, b3: bv32)
    requires b0 <= 0xFF && b1 <= 0xFF
    ensures Byte(Pack(b0, b1, b2, b3), 1) == b1
  {
  }

  lemma PackedByte2(b0: bv32, b1: bv32, b2: bv32, b3: bv32)
    requires b0 <= 0xFF && b1 <= 0xFF && b2 <= 0xFF
    ensures Byte(Pack(b0, b1, b2, b3), 2) == b2
  {
  }

  lemma PackedByte3(b0: bv32, b1: bv32, b2: bv32, b3: bv32)
    requires b0 <= 0xFF && b1 <= 0xFF && b2 <= 0xFF && b3 <= 0xFF
    ensures Byte(Pack(b0, b1, b2, b3), 3) == b3
  {
  }

  lemma PackedBytes(b0: bv32, b1: bv32, b2: bv32, b3: bv32)
    requires b0 <= 0xFF && b1 <= 0xFF && b2 <= 0xFF && b3 <= 0xFF
    ensures var w := Pack(b0, b1, b2, b3);
      Byte(w, 0) == b0 && Byte(w, 1) == b1 && Byte(w, 2) == b2 && Byte(w, 3) == b3
  {
    PackedByte0(b0, b1, b2, b3);
    PackedByte1(b0, b1, b2, b3);
    PackedByte2(b0, b1, b2, b3);
    PackedByte3(b0, b1, b2, b3);
  }

  lemma LowBit(mid: bv32)
    ensures mid & 1 <= 1
  {
  }

  /** What the mailbox words of a message decode to: the same type, identifier, low
      four bits of the length code and bytes; a remote request of 2 reads back as 1. */
  lemma RoundTrip(box: Mailbox, m: TxMessage, before: RxMessage)
    requires m.InRange()
    ensures var r := Decode(Encode(box, m), before);
      && r.typeID == m.typeID
      && (m.typeID == TYPEID_STD ==> r.stdID == m.stdID && r.extID == before.extID)
      && (m.typeID == TYPEID_EXT ==> r.extID == m.extID && r.stdID == before.stdID)
      && r.remoteTxReq == m.remoteTxReq >> 1
      && r.dataLengthCode == m.dataLengthCode & 0x0F
      && r.data == m.data
  {
    IdRoundTrip(box.mid, m);
    LengthCode(box.dlen, m.dataLengthCode);
    PackedBytes(m.data[0], m.data[1], m.data[2], m.data[3]);
    PackedBytes(m.data[4], m.data[5], m.data[6], m.data[7]);
  }

  lemma IdRoundTrip(mid: bv32, m: TxMessage)
    requires m.InRange()
    ensures var w := Requested(IdWord(mid, m.typeID, m.stdID, m.extID, m.remoteTxReq));
      && w & 4 == m.typeID && (w >> 1) & 1 == m.remoteTxReq >> 1
      && (m.typeID == TYPEID_STD ==> (w >> 21) & 0x7FF == m.stdID)
      && (m.typeID == TYPEID_EXT ==> (w >> 3) & 0x1FFF_FFFF == m.extID)
  {
    LowBit(mid);
    if m.typeID == TYPEID_STD {
      StdWord(mid & 1, m.stdID, m.remoteTxReq);
    } else {
      ExtWord(mid & 1, m.extID, m.remoteTxReq);
    }
  }

  // ----- The mailbox, bit by bit -----

  /** The identifier word of a message: the transmission request in bit 0, the remote flag,
      the type and the identifier above it. */
  predicate IdIs(mid: bv32, m: TxMessage)
  {
    && IsRequest(mid) && mid & 2 == m.remoteTxReq && mid & 4 == m.typeID
    && (m.typeID == 0 ==> mid >> 21 == m.stdID && mid & 0x001F_FFF8 == 0)
    && (m.typeID == 4 ==> mid >> 3 == m.extID)
  }

  /** The words of a mailbox that is to send message m: the identifier word, the length code
      in the low four bits of the length word, whose other bits are those of `dlen`, and
      the data with the first byte lowest. */
  ghost predicate Carries(box: Mailbox, dlen: bv32, m: TxMessage)
    requires |m.data| == 8
  {
    && IdIs(box.mid, m) && LengthIs(box.dlen, dlen, m.dataLengthCode & 0x0F)
    && BytesAre(box.low, m.data[0], m.data[1], m.data[2], m.data[3])
    && BytesAre(box.high, m.data[4], m.data[5], m.data[6], m.data[7])
  }

  predicate BytesAre(w: bv32, b0: bv32, b1: bv32, b2: bv32, b3: bv32)
  {
    w & 0xFF == b0 && (w >> 8) & 0xFF == b1 && (w >> 16) & 0xFF == b2 && w >> 24 == b3
  }

  lemma PackIsBytes(b0: bv32, b1: bv32, b2: bv32, b3: bv32)
    requires b0 <= 0xFF && b1 <= 0xFF && b2 <= 0xFF && b3 <= 0xFF
    ensures BytesAre(Pack(b0, b1, b2, b3), b0, b1, b2, b3)
  {
    PackedBytes(b0, b1, b2, b3);
    TopByte(b0, b1, b2, b3);
  }

  lemma TopByte(b0: bv32, b1: bv32, b2: bv32, b3: bv32)
    requires b0 <= 0xFF && b1 <= 0xFF && b2 <= 0xFF && b3 <= 0xFF
    ensures Pack(b0, b1, b2, b3) >> 24 == b3
  {
  }

  lemma StdBits(m: bv32, id: bv32, rtr: bv32)
    requires m <= 1 && id <= 0x7FF && (rtr == 0 || rtr == 2)
    ensures var w := m | ((id << 21) | rtr) | 1;
      w & 1 == 1 && w & 2 == rtr && w & 4 == 0 && w >> 21 == id && w & 0x001F_FFF8 == 0
  {
  }

  lemma ExtBits(m: bv32, id: bv32, rtr: bv32)
    requires m <= 1 && id <= 0x1FFF_FFFF && (rtr == 0 || rtr == 2)
    ensures var w := m | ((id << 3) | TYPEID_EXT | rtr) | 1;
      w & 1 == 1 && w & 2 == rtr && w & 4 == 4 && w >> 3 == id
  {
  }

  lemma IdEncoded(mid: bv32, m: TxMessage)
    requires m.InRange()
    ensures IdIs(Requested(IdWord(mid, m.typeID, m.stdID, m.extID, m.remoteTxReq)), m)
  {
    LowBit(mid);
    if m.typeID == TYPEID_STD {
      StdBits(mid & 1, m.stdID, m.remoteTxReq);
    } else {
      ExtBits(mid & 1, m.extID, m.remoteTxReq);
    }
  }

  lemma EncodeCarries(box: Mailbox, m: TxMessage)
    requires m.InRange()
    ensures Carries(Encode(box, m), box.dlen, m)
  {
    IdEncoded(box.mid, m);
    CodeFits(m.dataLengthCode);
    PackIsBytes(m.data[0], m.data[1], m.data[2], m.data[3]);
    PackIsBytes(m.data[4], m.data[5], m.data[6], m.data[7]);
  }

  /** Whatever the message, transmission is requested and the length word keeps its other bits. */
  lemma AlwaysRequested(box: Mailbox, m: TxMessage)
    requires |m.data| == 8
    ensures IsRequest(Encode(box, m).mid)
    ensures LengthIs(Encode(box, m).dlen, box.dlen, m.dataLengthCode & 0x0F)
  {
    CodeFits(m.dataLengthCode);
  }

  /** A standard data frame with identifier 0x123 and the bytes 1 to 8, in a clear mailbox. */
  lemma StandardFrame()
    ensures Encode(Mailbox(0, 0, 0, 0), TxMessage(0x123, 0, 0, 0, 8, [1, 2, 3, 4, 5, 6, 7, 8])) ==
            Mailbox(0x2460_0001, 8, 0x0403_0201, 0x0807_0605)
  {
  }

  /** The filter match index is in bits 8 to 15 of the received length word. */
  lemma FilterIndexReadBack(box: Mailbox, before: RxMessage, index: bv32, rest: bv32)
    requires index <= 0xFF && rest & 0xFF00 == 0 && box.dlen == rest | (index << 8)
    ensures Decode(box, before).filterMatchIndex == index
  {
  }

  // ----- The driver -----

  class Can {
    const txMailBox: array<Mailbox>
    const rxMailBox: array<Mailbox>
    var released: seq<nat>

    ghost predicate Ok()
      reads this
    {
      txMailBox.Length == 3 && rxMailBox.Length == 2 && txMailBox != rxMailBox
    }

    constructor (tx: array<Mailbox>, rx: array<Mailbox>)
      requires tx.Length == 3 && rx.Length == 2 && tx != rx
      ensures Ok() && txMailBox == tx && rxMailBox == rx && released == []
    {
      txMailBox, rxMailBox, released := tx, rx, [];
    }

    /** CAN_TxMessage: only the lowest-numbered empty mailbox is written; with none
        empty nothing changes and 3 is returned. Test k of the status register reads
        sts[k]. `kept` is the caller's structure afterwards, its length code masked. */
    method TxMessage(m: TxMessage, sts: Reads) returns (box: nat, kept: TxMessage)
      requires Ok() && |m.data| == 8
      modifies txMailBox
      ensures Ok() && box == EmptyMailbox(sts)
      ensures box == 3 ==> txMailBox[..] == old(txMailBox[..]) && kept == m
      ensures box < 3 ==> txMailBox[..] == old(txMailBox[..])[box := Encode(old(txMailBox[box]), m)]
      ensures box < 3 ==> kept == m.(dataLengthCode := m.dataLengthCode & 0x0F)
      ensures box < 3 && m.InRange() ==> Carries(txMailBox[box], old(txMailBox[..])[box].dlen, m)
      ensures box < 3 ==> IsRequest(txMailBox[box].mid)
      ensures box < 3 ==> LengthIs(txMailBox[box].dlen, old(txMailBox[..])[box].dlen, m.dataLengthCode & 0x0F)
    {
      kept := m;
      box := SelectMailbox(sts);
      if box == 3 {
        return;
      }
      kept := Masked(m);
      var words := FillMailbox(txMailBox[box], kept);
      AlwaysRequested(txMailBox[box], m);
      if m.InRange() {
        EncodeCarries(txMailBox[box], m);
      }
      txMailBox[box] := words;
    }

    /** The register writes of CAN_TxMessage, ending with the transmission request. */
    static method FillMailbox(box: Mailbox, m: TxMessage) returns (words: Mailbox)
      requires |m.data| == 8
      ensures words == EncodeMasked(box, m)
    {
      words := box;
      var id := WriteId(words.mid, m);
      words := words.(mid := id);
      words := words.(dlen := LengthWord(words.dlen, m.dataLengthCode));
      words := words.(low := Pack(m.data[0], m.data[1], m.data[2], m.data[3]));
      words := words.(high := Pack(m.data[4], m.data[5], m.data[6], m.data[7]));
      words := words.(mid := Requested(words.mid));
    }

    /** The identifier word. */
    static method WriteId(mid: bv32, m: TxMessage) returns (w: bv32)
      ensures w == IdWord(mid, m.typeID, m.stdID, m.extID, m.remoteTxReq)
    {
      w := mid & 1;
      if m.typeID == TYPEID_STD {
        w := w | ((m.stdID << 21) | m.remoteTxReq);
      } else {
        w := w | ((m.extID << 3) | m.typeID | m.remoteTxReq);
      }
    }

    static method SelectMailbox(sts: Reads) returns (box: nat)
      ensures box == EmptyMailbox(sts)
    {
      if IsEmpty(sts[0], 0) {
        box := 0;
      } else if IsEmpty(sts[1], 1) {
        box := 1;
      } else if IsEmpty(sts[2], 2) {
        box := 2;
      } else {
        box := 3;
      }
    }

    /** CAN_RxMessage: the message of a FIFO is decoded and that FIFO is released. */
    method RxMessage(fifo: nat, before: RxMessage) returns (r: RxMessage)
      requires Ok() && fifo < 2
      modifies this`released
      ensures r == Decode(rxMailBox[fifo], before)
      ensures released == old(released) + [fifo]
    {
      var words := rxMailBox[fifo];
      r := before.(typeID := words.mid & 4);
      if r.typeID == TYPEID_STD {
        r := r.(stdID := (words.mid >> 21) & 0x7FF);
      } else {
        r := r.(extID := (words.mid >> 3) & 0x1FFF_FFFF);
      }
      r := r.(remoteTxReq := (words.mid >> 1) & 1,
              dataLengthCode := words.dlen & 0xF,
              filterMatchIndex := (words.dlen >> 8) & 0xFF,
              data := [Byte(words.low, 0), Byte(words.low, 1), Byte(words.low, 2), Byte(words.low, 3),
                       Byte(words.high, 0), Byte(words.high, 1), Byte(words.high, 2), Byte(words.high, 3)]);
      released := released + [fifo];
    }
  }
}
