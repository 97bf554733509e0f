/** The flash controller driver: bounded waiting, and the erase, program and
    option-byte sequences with every error exit. */
module FlashController {
  import opened Words

  /** A 32-bit word. */
  type Word = w: int | 0 <= w < TWO32

  /** The bitwise complement of a word. */
  function Complement(w: Word): Word { 0xFFFF_FFFF - w }

  datatype Status = BUSY | ERROR_PG | ERROR_WRP | COMPLETE | TIMEOUT

  /** The operation-select bits of the control register. */
  datatype Bit = PG | PAGEERA | MASSERA | OBE | OBP

  datatype OptionByte = RDP | USER | WRP(k: nat) | DATA(address: Word)

  /** What reaches the flash array: half-word writes, option-byte writes and started erases. */
  datatype Operation =
    | WriteHalf(address: Word, data: Word)
    | WriteOption(reg: OptionByte, data: Word)
    | StartErase(bit: Bit, page: Word)

  /** The controller as the driver leaves it after each access.
      bits: the operation-select bits that are set;
      address: the address register;
      keyed: the option-byte keys were written;
      ready: a wait has ended without error and no operation was issued since;
      ok: so far, at most one bit was ever set, and every operation found the
          controller ready, with exactly the bit it needs;
      done: the operations issued. */
  datatype Flash = Flash(
    bits: set<Bit>,
    address: Word,
    keyed: bool,
    ready: bool,
    ok: bool,
    done: seq<Operation>)
  {
    function Waited(s: Status): Flash { this.(ready := s == COMPLETE) }

    function Set(b: Bit): Flash { this.(bits := bits + {b}, ok := ok && bits <= {b}) }

    function Clear(b: Bit): Flash { this.(bits := bits - {b}) }

    function Address(a: Word): Flash { this.(address := a) }

    function Keys(): Flash { this.(keyed := true) }

    function Start(b: Bit): Flash
    {
      this.(ready := false,
            ok := ok && ready && bits == {b} && (b == OBE ==> keyed),
            done := done + [StartErase(b, address)])
    }

    function Program(a: Word, data: Word): Flash
    {
      this.(ready := false, ok := ok && ready && bits == {PG}, done := done + [WriteHalf(a, data)])
    }

    function ProgramOption(reg: OptionByte, data: Word): Flash
    {
      this.(ready := false, ok := ok && ready && keyed && bits == {OBP},
            done := done + [WriteOption(reg, data)])
    }
  }

  // ----- Waiting -----

  /** The status register at one instant. */
  datatype Sts = Sts(busy: bool, pe: bool, wpe: bool)

  /** FMC_ReadStatus starting at instant t: up to three separate reads. */
  function StatusAt(hw: nat -> Sts, t: nat): Status
  {
    if hw(t).busy then BUSY
    else if hw(t + 1).pe then ERROR_PG
    else if hw(t + 2).wpe then ERROR_WRP
    else COMPLETE
  }

  /** FMC_WaitForLastOperation starting at instant t. */
  function WaitResult(hw: nat -> Sts, t: nat, timeOut: nat): Status
    decreases timeOut
  {
    if timeOut == 0 then TIMEOUT
    else if hw(t).busy then WaitResult(hw, t + 1, timeOut - 1)
    else StatusAt(hw, t)
  }

  /** The instant after that wait: a busy poll takes one read, any other up to three. */
  function WaitEnd(hw: nat -> Sts, t: nat, timeOut: nat): nat
    decreases timeOut
  {
    if hw(t).busy then if timeOut == 0 then t + 1 else WaitEnd(hw, t + 1, timeOut - 1)
    else if hw(t + 1).pe then t + 2
    else t + 3
  }

  /** A wait reports the first poll that is not busy if there is one among the
      first timeOut polls, and TIMEOUT exactly when there is none. */
  lemma {:induction false} WaitIsFirstIdlePoll(hw: nat -> Sts, t: nat, timeOut: nat)
    ensures WaitResult(hw, t, timeOut) != BUSY
    ensures WaitResult(hw, t, timeOut) == TIMEOUT <==> forall j :: t <= j < t + timeOut ==> hw(j).busy
    ensures forall j :: t <= j < t + timeOut && !hw(j).busy && (forall i :: t <= i < j ==> hw(i).busy) ==>
      WaitResult(hw, t, timeOut) == StatusAt(hw, j)
    decreases timeOut
  {
    if timeOut > 0 && hw(t).busy {
      WaitIsFirstIdlePoll(hw, t + 1, timeOut - 1);
    }
  }

  // ----- The calls -----

  datatype Call =
    | ErasePage(page: Word)
    | EraseAllPage
    | EraseOptionBytes(readProtected: bool)
    | ProgramWord(address: Word, word: Word)
    | ProgramHalfWord(address: Word, half: Word)
    | ProgramOptionByteData(address: Word, data: Word)
    | EnableWriteProtection(pages: Word)
    | EnableReadOutProtection
    | DisableReadOutProtection
    | ConfigUserOptionByte(user: Word)

  /** The results of a call's waits: the first one, and those after each operation. */
  type Waits = seq<Status>

  ghost predicate WaitsOk(ws: Waits)
  {
    |ws| == 5 && forall k :: 0 <= k < 5 ==> ws[k] != BUSY
  }

  function EraseRun(f: Flash, b: Bit, ws: Waits): (Flash, Status)
    requires |ws| == 5
  {
    (f.Start(b).Waited(ws[1]).Clear(b), ws[1])
  }

  /** Erasing the option bytes and writing RDP, shared by the read-protection
      calls; `failBit` is the bit cleared when the erase fails. */
  function RewriteRdp(f: Flash, rdp: Word, failBit: Bit, ws: Waits): (Flash, Status)
    requires |ws| == 5
  {
    var g := f.Keys().Set(OBE).Start(OBE).Waited(ws[1]);
    if ws[1] == COMPLETE then
      var h := g.Clear(OBE).Set(OBP).ProgramOption(RDP, rdp).Waited(ws[2]);
      (if ws[2] != TIMEOUT then h.Clear(OBP) else h, ws[2])
    else (if ws[1] != TIMEOUT then g.Clear(failBit) else g, ws[1])
  }

  /** One option write whose bit is cleared only after a timeout. */
  function OptionWrite(f: Flash, reg: OptionByte, data: Word, ws: Waits): (Flash, Status)
    requires |ws| == 5
  {
    var g := f.Set(OBP).ProgramOption(reg, data).Waited(ws[1]);
    (if ws[1] == TIMEOUT then g.Clear(OBP) else g, ws[1])
  }

  /** Byte k of a word, the least significant first. */
  function ByteAt(w: nat, k: nat): (b: Word)
    ensures b <= 0xFF
    decreases k
  {
    if k == 0 then w % 0x100 else ByteAt(w / 0x100, k - 1)
  }

  /** The step of FMC_EnableWriteProtection for byte k of the complemented mask. */
  function ProtectByte(fs: (Flash, Status), pages: Word, k: nat, w: Status): (Flash, Status)
    requires k < 4
  {
    var data := ByteAt(Complement(pages), k);
    if fs.1 == COMPLETE && data != 0xFF then
      (fs.0.ProgramOption(WRP(k), data).Waited(w), w)
    else fs
  }

  /** The first k bytes, after the keys and OBP. */
  function ProtectBytes(f: Flash, pages: Word, ws: Waits, k: nat): (Flash, Status)
    requires |ws| == 5 && k <= 4
  {
    if k == 0 then (f.Keys().Set(OBP), COMPLETE)
    else ProtectByte(ProtectBytes(f, pages, ws, k - 1), pages, k - 1, ws[k])
  }

  function Protect(f: Flash, pages: Word, ws: Waits): (Flash, Status)
    requires |ws| == 5
  {
    var (g, s) := ProtectBytes(f, pages, ws, 4);
    (if s != TIMEOUT then g.Clear(OBP) else g, s)
  }

  function WordRun(f: Flash, address: Word, word: Word, ws: Waits): (Flash, Status)
    requires |ws| == 5
  {
    var g := f.Set(PG).Program(address, word % TWO16).Waited(ws[1]);
    if ws[1] == COMPLETE then
      (g.Program((address + 2) % TWO32, word / TWO16).Waited(ws[2]).Clear(PG), ws[2])
    else (g.Clear(PG), ws[1])
  }

  function HalfWordRun(f: Flash, address: Word, half: Word, ws: Waits): (Flash, Status)
    requires |ws| == 5
  {
    (f.Set(PG).Program(address, half % TWO16).Waited(ws[1]).Clear(PG), ws[1])
  }

  /** The part of a call after its first wait has succeeded. */
  function Body(g: Flash, c: Call, ws: Waits): (Flash, Status)
    requires |ws| == 5
  {
    match c
    case ErasePage(page) => EraseRun(g.Set(PAGEERA).Address(page), PAGEERA, ws)
    case EraseAllPage => EraseRun(g.Set(MASSERA), MASSERA, ws)
    case EraseOptionBytes(protected) => RewriteRdp(g, if protected then 0x00 else 0xA5, OBP, ws)
    case ProgramWord(address, word) => WordRun(g, address, word, ws)
    case ProgramHalfWord(address, half) => HalfWordRun(g, address, half, ws)
    case ProgramOptionByteData(address, data) => OptionWrite(g.Keys(), DATA(address), data % 0x100, ws)
    case EnableWriteProtection(pages) => Protect(g, pages, ws)
    case EnableReadOutProtection => RewriteRdp(g, 0x00, OBE, ws)
    case DisableReadOutProtection => RewriteRdp(g, 0xA5, OBE, ws)
    case ConfigUserOptionByte(user) => OptionWrite(g, USER, 0xF8 + user % 8, ws)
  }

  /** A whole call, given the results of its waits. */
  function Do(f: Flash, c: Call, ws: Waits): (Flash, Status)
    requires |ws| == 5
  {
    var g := (if c.ConfigUserOptionByte? then f.Keys() else f).Waited(ws[0]);
    if ws[0] == COMPLETE then Body(g, c, ws) else (g, ws[0])
  }

  // ----- Single calls -----

  /** Nothing is selected and nothing has gone wrong. */
  predicate Idle(f: Flash) { f.ok && f.bits == {} }

  /** The outcomes after which the driver leaves no bit selected. The erase and
      program calls always do. The protection calls do unless an operation timed
      out. FMC_EraseOptionBytes also does not after a failed erase, because it
      clears OBP instead of OBE; the two option writes leave OBP set unless they
      time out. */
  predicate LeavesIdle(c: Call, ws: Waits)
    requires |ws| == 5
  {
    ws[0] != COMPLETE ||
    match c
    case ErasePage(_) => true
    case EraseAllPage => true
    case ProgramWord(_, _) => true
    case ProgramHalfWord(_, _) => true
    case EraseOptionBytes(_) => ws[1] == COMPLETE && ws[2] != TIMEOUT
    case EnableReadOutProtection => ws[1] != TIMEOUT && (ws[1] == COMPLETE ==> ws[2] != TIMEOUT)
    case DisableReadOutProtection => ws[1] != TIMEOUT && (ws[1] == COMPLETE ==> ws[2] != TIMEOUT)
    case ProgramOptionByteData(_, _) => ws[1] == TIMEOUT
    case ConfigUserOptionByte(_) => ws[1] == TIMEOUT
    case EnableWriteProtection(pages) => ProtectStatus(pages, ws, 4) != TIMEOUT
  }

  /** The status of FMC_EnableWriteProtection after its first k bytes. */
  function ProtectStatus(pages: Word, ws: Waits, k: nat): Status
    requires |ws| == 5 && k <= 4
  {
    if k == 0 then COMPLETE
    else
      var before := ProtectStatus(pages, ws, k - 1);
      if before == COMPLETE && ByteAt(Complement(pages), k - 1) != 0xFF then ws[k] else before
  }

  /** The writes a page mask needs among its first k bytes: one for each non-zero byte. */
  function Needed(pages: Word, k: nat): seq<Operation>
    requires k <= 4
  {
    if k == 0 then []
    else Needed(pages, k - 1) +
         (if ByteAt(pages, k - 1) != 0 then [WriteOption(WRP(k - 1), ByteAt(Complement(pages), k - 1))] else [])
  }

  /** A word is determined by its bytes. */
  lemma BytesMakeWord(w: Word)
    ensures ByteAt(w, 0) + 0x100 * (ByteAt(w, 1) + 0x100 * (ByteAt(w, 2) + 0x100 * ByteAt(w, 3))) == w
  {
    assert ByteAt(w, 1) == ByteAt(w / 0x100, 0);
    assert ByteAt(w, 2) == ByteAt(w / 0x100 / 0x100, 0);
    assert ByteAt(w, 3) == ByteAt(w / 0x100, 2) == ByteAt(w / 0x100 / 0x100, 1) == w / 0x100 / 0x100 / 0x100 % 0x100;
  }

  lemma ComplementByte(pages: Word, k: nat)
    requires k < 4
    ensures ByteAt(Complement(pages), k) == 0xFF - ByteAt(pages, k)
  {
    assert AllOnes(0xFFFF_FFFF, 3) by {
      assert AllOnes(0xFFFF, 1);
      assert AllOnes(0xFF_FFFF, 2);
    }
    ComplementByteOf(0xFFFF_FFFF, pages, k, 3);
  }

  /** The lowest n + 1 bytes of `top` are all ones. */
  predicate AllOnes(top: nat, n: nat)
    decreases n
  {
    top % 0x100 == 0xFF && (n > 0 ==> AllOnes(top / 0x100, n - 1))
  }

  /** Subtracting from all ones complements every byte. */
  lemma {:induction false} ComplementByteOf(top: nat, w: nat, k: nat, n: nat)
    requires w <= top && k <= n && AllOnes(top, n)
    ensures ByteAt(top - w, k) == 0xFF - ByteAt(w, k)
    decreases k
  {
    if k > 0 {
      assert (top - w) / 0x100 == top / 0x100 - w / 0x100;
      ComplementByteOf(top / 0x100, w / 0x100, k - 1, n - 1);
    }
  }

  /** After k bytes: still safe with OBP alone selected, and the writes so far are
      an ordered prefix of the needed ones, complete if no wait failed. */
  lemma {:induction false} ProtectBytesSafe(f: Flash, pages: Word, ws: Waits, k: nat)
    requires Idle(f) && f.ready && WaitsOk(ws) && k <= 4
    ensures var (g, s) := ProtectBytes(f, pages, ws, k);
      && g.ok && g.bits == {OBP} && g.keyed && (s == COMPLETE ==> g.ready)
      && s == ProtectStatus(pages, ws, k) && s != BUSY
      && f.done <= g.done <= f.done + Needed(pages, k)
      && (s == COMPLETE ==> g.done == f.done + Needed(pages, k))
  {
    if k > 0 {
      ProtectBytesSafe(f, pages, ws, k - 1);
      ComplementByte(pages, k - 1);
    }
  }

  lemma ProtectSafe(f: Flash, pages: Word, ws: Waits)
    requires Idle(f) && f.ready && WaitsOk(ws)
    ensures var (g, s) := Protect(f, pages, ws);
      g.ok && s != BUSY && s == ProtectStatus(pages, ws, 4) && (g.bits == {} <==> s != TIMEOUT)
  {
    ProtectBytesSafe(f, pages, ws, 4);
  }

  lemma EraseSafe(f: Flash, b: Bit, ws: Waits)
    requires f.ok && f.ready && f.bits == {b} && b != OBE && WaitsOk(ws)
    ensures Idle(EraseRun(f, b, ws).0)
  {
  }

  lemma RewriteRdpSafe(f: Flash, rdp: Word, failBit: Bit, ws: Waits)
    requires Idle(f) && f.ready && WaitsOk(ws)
    ensures var (g, s) := RewriteRdp(f, rdp, failBit, ws);
      && g.ok && s != BUSY
      && (g.bits == {} <==> if ws[1] == COMPLETE then ws[2] != TIMEOUT else ws[1] != TIMEOUT && failBit == OBE)
  {
  }

  lemma OptionWriteSafe(f: Flash, reg: OptionByte, data: Word, ws: Waits)
    requires Idle(f) && f.ready && f.keyed && WaitsOk(ws)
    ensures var (g, s) := OptionWrite(f, reg, data, ws);
      g.ok && s != BUSY && (g.bits == {} <==> ws[1] == TIMEOUT)
  {
  }

  lemma WordSafe(f: Flash, address: Word, word: Word, ws: Waits)
    requires Idle(f) && f.ready && WaitsOk(ws)
    ensures var (g, s) := WordRun(f, address, word, ws); Idle(g) && s != BUSY
  {
  }

  lemma HalfWordSafe(f: Flash, address: Word, half: Word, ws: Waits)
    requires Idle(f) && f.ready && WaitsOk(ws)
    ensures var (g, s) := HalfWordRun(f, address, half, ws); Idle(g) && s != BUSY
  {
  }

  lemma BodySafe(g: Flash, c: Call, ws: Waits)
    requires Idle(g) && g.ready && (c.ConfigUserOptionByte? ==> g.keyed) && WaitsOk(ws) && ws[0] == COMPLETE
    ensures Body(g, c, ws).0.ok && Body(g, c, ws).1 != BUSY
    ensures Body(g, c, ws).0.bits == {} <==> LeavesIdle(c, ws)
  {
    match c
    case ErasePage(page) => EraseSafe(g.Set(PAGEERA).Address(page), PAGEERA, ws);
    case EraseAllPage => EraseSafe(g.Set(MASSERA), MASSERA, ws);
    case EraseOptionBytes(protected) => RewriteRdpSafe(g, if protected then 0x00 else 0xA5, OBP, ws);
    case ProgramWord(address, word) => WordSafe(g, address, word, ws);
    case ProgramHalfWord(address, half) => HalfWordSafe(g, address, half, ws);
    case ProgramOptionByteData(address, data) => OptionWriteSafe(g.Keys(), DATA(address), data % 0x100, ws);
    case EnableWriteProtection(pages) => ProtectSafe(g, pages, ws);
    case EnableReadOutProtection => RewriteRdpSafe(g, 0x00, OBE, ws);
    case DisableReadOutProtection => RewriteRdpSafe(g, 0xA5, OBE, ws);
    case ConfigUserOptionByte(user) => OptionWriteSafe(g, USER, 0xF8 + user % 8, ws);
  }

  /** Started idle, a call issues every operation safely, whatever its waits
      return, never reports BUSY, and ends idle exactly in the cases LeavesIdle names. */
  lemma CallSafe(f: Flash, c: Call, ws: Waits)
    requires Idle(f) && WaitsOk(ws)
    ensures Do(f, c, ws).0.ok && Do(f, c, ws).1 != BUSY
    ensures Idle(Do(f, c, ws).0) <==> LeavesIdle(c, ws)
  {
    if ws[0] == COMPLETE {
      BodySafe((if c.ConfigUserOptionByte? then f.Keys() else f).Waited(COMPLETE), c, ws);
    }
  }

  // ----- Programming a word -----

  /** FMC_ProgramWord issues a prefix of: the low half at the address, the high
      half two bytes on. The first needs a clean first wait, the second needs the
      first to have completed, COMPLETE needs all three waits clean, and PG is off
      again in every case. */
  lemma ProgramWordExact(f: Flash, address: Word, word: Word, ws: Waits)
    requires Idle(f) && WaitsOk(ws)
    ensures var (g, s) := Do(f, ProgramWord(address, word), ws);
      var halves := [WriteHalf(address, word % TWO16), WriteHalf((address + 2) % TWO32, word / TWO16)];
      var issued := if ws[0] != COMPLETE then 0 else if ws[1] != COMPLETE then 1 else 2;
      && g.done == f.done + halves[..issued]
      && Idle(g) && s == ws[issued]
      && (s == COMPLETE ==> issued == 2)
    ensures word % TWO16 + word / TWO16 * TWO16 == word
  {
    CallSafe(f, ProgramWord(address, word), ws);
    var halves := [WriteHalf(address, word % TWO16), WriteHalf((address + 2) % TWO32, word / TWO16)];
    assert halves[..0] == [] && halves[..1] == [halves[0]] && halves[..2] == [halves[0]] + [halves[1]];
  }

  // ----- Write protection -----

  /** Byte k of the page mask that a list of writes stands for: the complement of
      the last value written to WRPk, or 0 if there is none. */
  function ProtectedByte(ops: seq<Operation>, k: nat): int
  {
    if ops == [] then 0
    else
      var op := ops[|ops| - 1];
      if op.WriteOption? && op.reg == WRP(k) then 0xFF - op.data % 0x100 else ProtectedByte(ops[..|ops| - 1], k)
  }

  lemma ProtectedByteSnoc(ops: seq<Operation>, j: nat, data: Word, k: nat)
    requires data <= 0xFF
    ensures ProtectedByte(ops + [WriteOption(WRP(j), data)], k) ==
            if j == k then 0xFF - data else ProtectedByte(ops, k)
  {
    var more := ops + [WriteOption(WRP(j), data)];
    assert more[..|more| - 1] == ops;
  }

  lemma {:induction false} NeededProtects(pages: Word, n: nat, k: nat)
    requires k < 4 && n <= 4
    ensures ProtectedByte(Needed(pages, n), k) == if k < n then ByteAt(pages, k) else 0
  {
    if n > 0 {
      NeededProtects(pages, n - 1, k);
      if ByteAt(pages, n - 1) != 0 {
        ComplementByte(pages, n - 1);
        ProtectedByteSnoc(Needed(pages, n - 1), n - 1, ByteAt(Complement(pages), n - 1), k);
      } else {
        assert Needed(pages, n) == Needed(pages, n - 1);
      }
    }
  }

  /** The page mask that a list of writes stands for. */
  function ProtectedMask(ops: seq<Operation>): int
  {
    ProtectedByte(ops, 0) +
    0x100 * (ProtectedByte(ops, 1) + 0x100 * (ProtectedByte(ops, 2) + 0x100 * ProtectedByte(ops, 3)))
  }

  lemma NeededMask(pages: Word)
    ensures ProtectedMask(Needed(pages, 4)) == pages
  {
    NeededProtects(pages, 4, 0);
    NeededProtects(pages, 4, 1);
    NeededProtects(pages, 4, 2);
    NeededProtects(pages, 4, 3);
    BytesMakeWord(pages);
  }

  /** FMC_EnableWriteProtection issues an ordered prefix of the writes its mask
      needs (one per non-zero byte); on COMPLETE it issues all of them, and
      complementing and reassembling the bytes written gives the mask back. */
  lemma WriteProtectionExact(f: Flash, pages: Word, ws: Waits)
    requires Idle(f) && WaitsOk(ws)
    ensures var (g, s) := Do(f, EnableWriteProtection(pages), ws);
      && f.done <= g.done <= f.done + Needed(pages, 4)
      && (s == COMPLETE ==> g.done == f.done + Needed(pages, 4))
      && (s == COMPLETE ==> ProtectedMask(g.done[|f.done|..]) == pages)
  {
    ProtectBytesSafe(f.Waited(COMPLETE), pages, ws, 4);
    NeededMask(pages);
    assert (f.done + Needed(pages, 4))[|f.done|..] == Needed(pages, 4);
  }

  // ----- What a call does to the flash -----

  /** The operations each call stands for, in order. `erased` is what the address
      register holds when a mass or option-byte erase is started. */
  function Planned(c: Call, erased: Word): seq<Operation>
  {
    match c
    case ErasePage(page) => [StartErase(PAGEERA, page)]
    case EraseAllPage => [StartErase(MASSERA, erased)]
    case EraseOptionBytes(protected) =>
      [StartErase(OBE, erased), WriteOption(RDP, if protected then 0x00 else 0xA5)]
    case ProgramWord(address, word) =>
      [WriteHalf(address, word % TWO16), WriteHalf((address + 2) % TWO32, word / TWO16)]
    case ProgramHalfWord(address, half) => [WriteHalf(address, half % TWO16)]
    case ProgramOptionByteData(address, data) => [WriteOption(DATA(address), data % 0x100)]
    case EnableWriteProtection(pages) => Needed(pages, 4)
    case EnableReadOutProtection => [StartErase(OBE, erased), WriteOption(RDP, 0x00)]
    case DisableReadOutProtection => [StartErase(OBE, erased), WriteOption(RDP, 0xA5)]
    case ConfigUserOptionByte(user) => [WriteOption(USER, 0xF8 + user % 8)]
  }

  /** Each call issues an ordered prefix of its planned operations and nothing else,
      and reports COMPLETE only after all of them. */
  lemma CallIssuesPlan(f: Flash, c: Call, ws: Waits)
    requires Idle(f) && WaitsOk(ws)
    ensures var (g, s) := Do(f, c, ws);
      && f.done <= g.done <= f.done + Planned(c, f.address)
      && (s == COMPLETE ==> g.done == f.done + Planned(c, f.address))
  {
    if ws[0] == COMPLETE {
      BodyIssuesPlan((if c.ConfigUserOptionByte? then f.Keys() else f).Waited(COMPLETE), c, ws);
    }
  }

  lemma BodyIssuesPlan(g: Flash, c: Call, ws: Waits)
    requires Idle(g) && g.ready && WaitsOk(ws)
    ensures var (h, s) := Body(g, c, ws);
      && g.done <= h.done <= g.done + Planned(c, g.address)
      && (s == COMPLETE ==> h.done == g.done + Planned(c, g.address))
  {
    match c
    case EnableWriteProtection(pages) => ProtectBytesSafe(g, pages, ws, 4);
    case EraseOptionBytes(protected) => RdpPlan(g, if protected then 0x00 else 0xA5, OBP, ws);
    case EnableReadOutProtection => RdpPlan(g, 0x00, OBE, ws);
    case DisableReadOutProtection => RdpPlan(g, 0xA5, OBE, ws);
    case ProgramWord(address, word) => WordPlan(g, address, word, ws);
    case _ =>
  }

  lemma RdpPlan(f: Flash, rdp: Word, failBit: Bit, ws: Waits)
    requires |ws| == 5
    ensures var (g, s) := RewriteRdp(f, rdp, failBit, ws);
      var plan := [StartErase(OBE, f.address), WriteOption(RDP, rdp)];
      f.done <= g.done <= f.done + plan && (s == COMPLETE ==> g.done == f.done + plan)
  {
    assert [StartErase(OBE, f.address), WriteOption(RDP, rdp)] ==
           [StartErase(OBE, f.address)] + [WriteOption(RDP, rdp)];
  }

  lemma WordPlan(f: Flash, address: Word, word: Word, ws: Waits)
    requires |ws| == 5
    ensures var (g, s) := WordRun(f, address, word, ws);
      var plan := Planned(ProgramWord(address, word), 0);
      f.done <= g.done <= f.done + plan && (s == COMPLETE ==> g.done == f.done + plan)
  {
    var plan := Planned(ProgramWord(address, word), 0);
    assert plan == [plan[0]] + [plan[1]];
  }

  // ----- Which wait a call reports -----

  /** The wait before operation n of a plan, or after the last one: the n-th, except that
      the waits of the write-protection bytes are numbered by byte. */
  function WaitIndex(plan: seq<Operation>, n: nat): nat
    requires n <= |plan|
  {
    if n == 0 then 0
    else if plan[n - 1].WriteOption? && plan[n - 1].reg.WRP? then plan[n - 1].reg.k + 1
    else n
  }

  /** The first n operations of a plan were issued, and s was reported: each of them after a
      clean wait, s is the result of the wait after the last of them, and none was left
      out unless that wait failed. So COMPLETE means that every wait was clean. */
  ghost predicate Follows(plan: seq<Operation>, n: nat, ws: Waits, s: Status)
    requires |ws| == 5
  {
    && n <= |plan| && (forall j :: 0 <= j <= |plan| ==> WaitIndex(plan, j) < 5)
    && (forall j :: 0 <= j < n ==> ws[WaitIndex(plan, j)] == COMPLETE)
    && s == ws[WaitIndex(plan, n)]
    && (n < |plan| ==> s != COMPLETE)
  }

  /** COMPLETE is reported if and only if the first wait and the wait after each planned
      operation were clean. */
  lemma CompleteMeansClean(plan: seq<Operation>, n: nat, ws: Waits, s: Status)
    requires |ws| == 5 && Follows(plan, n, ws, s)
    ensures s == COMPLETE <==> forall j :: 0 <= j <= |plan| ==> ws[WaitIndex(plan, j)] == COMPLETE
  {
  }

  lemma {:induction false} ProtectFollows(f: Flash, pages: Word, ws: Waits, k: nat)
    requires Idle(f) && f.ready && WaitsOk(ws) && ws[0] == COMPLETE && k <= 4
    ensures var (g, s) := ProtectBytes(f, pages, ws, k);
      |g.done| >= |f.done| && Follows(Needed(pages, k), |g.done| - |f.done|, ws, s)
  {
    if k > 0 {
      ProtectFollows(f, pages, ws, k - 1);
      ProtectBytesSafe(f, pages, ws, k - 1);
      ComplementByte(pages, k - 1);
      var (g, s) := ProtectBytes(f, pages, ws, k - 1);
      if ByteAt(pages, k - 1) != 0 {
        FollowsSnoc(Needed(pages, k - 1), |g.done| - |f.done|, ws, s,
                    WriteOption(WRP(k - 1), ByteAt(Complement(pages), k - 1)));
      } else {
        assert Needed(pages, k) == Needed(pages, k - 1);
      }
    }
  }

  /** One more write-protection byte: it is issued if everything before it went well. */
  lemma FollowsSnoc(plan: seq<Operation>, n: nat, ws: Waits, s: Status, op: Operation)
    requires |ws| == 5 && Follows(plan, n, ws, s) && op.WriteOption? && op.reg.WRP? && op.reg.k < 4
    ensures if s == COMPLETE then Follows(plan + [op], n + 1, ws, ws[op.reg.k + 1]) else Follows(plan + [op], n, ws, s)
  {
    assert forall j :: 0 <= j <= |plan| ==> WaitIndex(plan + [op], j) == WaitIndex(plan, j);
    assert WaitIndex(plan + [op], |plan| + 1) == op.reg.k + 1;
  }

  lemma BodyFollows(g: Flash, c: Call, ws: Waits)
    requires Idle(g) && g.ready && WaitsOk(ws) && ws[0] == COMPLETE
    ensures var (h, s) := Body(g, c, ws);
      |h.done| >= |g.done| && Follows(Planned(c, g.address), |h.done| - |g.done|, ws, s)
  {
    if c.EnableWriteProtection? {
      ProtectFollows(g, c.pages, ws, 4);
    }
  }

  lemma CallFollows(f: Flash, c: Call, ws: Waits)
    requires Idle(f) && WaitsOk(ws)
    ensures var (g, s) := Do(f, c, ws);
      |g.done| >= |f.done| && Follows(Planned(c, f.address), |g.done| - |f.done|, ws, s)
  {
    if ws[0] == COMPLETE {
      BodyFollows((if c.ConfigUserOptionByte? then f.Keys() else f).Waited(COMPLETE), c, ws);
    } else {
      PlanWaits(c, f.address);
    }
  }

  /** Every planned operation has a wait. */
  lemma PlanWaits(c: Call, erased: Word)
    ensures forall j :: 0 <= j <= |Planned(c, erased)| ==> WaitIndex(Planned(c, erased), j) < 5
  {
    if c.EnableWriteProtection? {
      NeededWaits(c.pages, 4);
    }
  }

  lemma {:induction false} NeededWaits(pages: Word, k: nat)
    requires k <= 4
    ensures forall j :: 0 <= j <= |Needed(pages, k)| ==> WaitIndex(Needed(pages, k), j) < 5
  {
    if k > 0 {
      NeededWaits(pages, k - 1);
      var before, plan := Needed(pages, k - 1), Needed(pages, k);
      assert forall j :: 0 <= j <= |before| ==> WaitIndex(plan, j) == WaitIndex(before, j);
    }
  }

  /** What a call promises: it was safe, did not report BUSY, ended idle exactly when
      LeavesIdle says, issued an ordered prefix of its plan, and reports the wait after the
      last operation issued; COMPLETE exactly when every wait was clean. Only
      FMC_ConfigUserOptionByte writes the keys before its first wait. */
  ghost predicate Kept(f: Flash, c: Call, ws: Waits, g: Flash, s: Status)
    requires |ws| == 5
  {
    var plan := Planned(c, f.address);
    && g.ok && s != BUSY && (Idle(g) <==> LeavesIdle(c, ws))
    && f.done <= g.done <= f.done + plan
    && Follows(plan, |g.done| - |f.done|, ws, s)
    && (s == COMPLETE <==> forall j :: 0 <= j <= |plan| ==> ws[WaitIndex(plan, j)] == COMPLETE)
    && (ws[0] != COMPLETE ==> g.keyed == (f.keyed || c.ConfigUserOptionByte?))
  }

  lemma CallKeeps(f: Flash, c: Call, ws: Waits)
    requires Idle(f) && WaitsOk(ws)
    ensures Kept(f, c, ws, Do(f, c, ws).0, Do(f, c, ws).1)
  {
    var (g, s) := Do(f, c, ws);
    CallSafe(f, c, ws);
    CallIssuesPlan(f, c, ws);
    CallFollows(f, c, ws);
    CompleteMeansClean(Planned(c, f.address), |g.done| - |f.done|, ws, s);
  }

  // ----- Runs -----

  /** A call together with the results of its waits. */
  datatype Timed = Timed(call: Call, waits: Waits)

  ghost predicate AllWaitsOk(calls: seq<Timed>)
  {
    forall i :: 0 <= i < |calls| ==> WaitsOk(calls[i].waits)
  }

  ghost function RunCalls(f: Flash, calls: seq<Timed>): Flash
    requires AllWaitsOk(calls)
    decreases |calls|
  {
    if calls == [] then f else RunCalls(Do(f, calls[0].call, calls[0].waits).0, calls[1..])
  }

  /** The calls whose bits are always off again unless something times out. */
  predicate Tidy(c: Call)
  {
    !c.EraseOptionBytes? && !c.ProgramOptionByteData? && !c.ConfigUserOptionByte?
  }

  predicate EraseOrProgram(c: Call)
  {
    c.ErasePage? || c.EraseAllPage? || c.ProgramWord? || c.ProgramHalfWord?
  }

  predicate TimeoutFree(ws: Waits)
  {
    TIMEOUT !in ws
  }

  lemma {:induction false} TimeoutFreeProtect(pages: Word, ws: Waits, k: nat)
    requires |ws| == 5 && TimeoutFree(ws) && k <= 4
    ensures ProtectStatus(pages, ws, k) != TIMEOUT
  {
    if k > 0 {
      TimeoutFreeProtect(pages, ws, k - 1);
    }
  }

  /** The first call and then the rest. */
  lemma RunCallsSplit(f: Flash, calls: seq<Timed>, k: nat)
    requires AllWaitsOk(calls) && 0 < k <= |calls|
    ensures RunCalls(f, calls[..k]) == RunCalls(Do(f, calls[0].call, calls[0].waits).0, calls[1..][..k - 1])
  {
    assert calls[..k][1..] == calls[1..][..k - 1];
  }

  /** The controller is idle after the first k calls. */
  ghost predicate IdleAfter(f: Flash, calls: seq<Timed>, k: nat)
    requires AllWaitsOk(calls) && k <= |calls|
  {
    Idle(RunCalls(f, calls[..k]))
  }

  /** Over every run of all ten calls, timeouts included: the controller was never misused
      and is idle after every call if and only if every call meets LeavesIdle. */
  lemma {:induction false} RunsIdleExactly(f: Flash, calls: seq<Timed>)
    requires Idle(f) && AllWaitsOk(calls)
    ensures (forall k :: 0 <= k <= |calls| ==> IdleAfter(f, calls, k)) <==>
            (forall i :: 0 <= i < |calls| ==> LeavesIdle(calls[i].call, calls[i].waits))
    decreases |calls|
  {
    if calls != [] {
      var c, rest := calls[0], calls[1..];
      var g := Do(f, c.call, c.waits).0;
      CallSafe(f, c.call, c.waits);
      RunCallsSplit(f, calls, 1);
      assert IdleAfter(f, calls, 1) <==> LeavesIdle(c.call, c.waits);
      if LeavesIdle(c.call, c.waits) {
        RunsIdleExactly(g, rest);
        forall k | 0 < k <= |calls|
          ensures IdleAfter(f, calls, k) <==> IdleAfter(g, rest, k - 1)
        {
          RunCallsSplit(f, calls, k);
        }
        forall j | 0 <= j <= |rest|
          ensures IdleAfter(g, rest, j) <==> IdleAfter(f, calls, j + 1)
        {
          RunCallsSplit(f, calls, j + 1);
        }
        assert forall i :: 0 <= i < |rest| ==> rest[i] == calls[i + 1];
      }
    }
  }

  /** Over every timeout-free run of the tidy calls the controller is never
      misused and is idle after every call. */
  lemma RunsStayIdle(f: Flash, calls: seq<Timed>)
    requires Idle(f) && AllWaitsOk(calls)
    requires forall i :: 0 <= i < |calls| ==> TimeoutFree(calls[i].waits) && Tidy(calls[i].call)
    ensures forall k :: 0 <= k <= |calls| ==> IdleAfter(f, calls, k)
  {
    forall i | 0 <= i < |calls|
      ensures LeavesIdle(calls[i].call, calls[i].waits)
    {
      if calls[i].call.EnableWriteProtection? {
        TimeoutFreeProtect(calls[i].call.pages, calls[i].waits, 4);
      }
    }
    RunsIdleExactly(f, calls);
  }

  /** Erase and program calls are safe over every run, timeouts included. */
  lemma EraseProgramRunsStayIdle(f: Flash, calls: seq<Timed>)
    requires Idle(f) && AllWaitsOk(calls)
    requires forall i :: 0 <= i < |calls| ==> EraseOrProgram(calls[i].call)
    ensures forall k :: 0 <= k <= |calls| ==> IdleAfter(f, calls, k)
  {
    RunsIdleExactly(f, calls);
  }

  /** The tidy condition cannot be dropped: a successful FMC_ProgramOptionByteData
      leaves OBP set, and a page erase after it selects two operations at once. */
  lemma UntidyRunMisuses(f: Flash, address: Word, data: Word, page: Word)
    requires Idle(f)
    ensures var clean := [COMPLETE, COMPLETE, COMPLETE, COMPLETE, COMPLETE];
      var g := Do(f, ProgramOptionByteData(address, data), clean).0;
      g.bits == {OBP} && !Do(g, ErasePage(page), clean).0.ok
  {
    var clean := [COMPLETE, COMPLETE, COMPLETE, COMPLETE, COMPLETE];
    var g := Do(f, ProgramOptionByteData(address, data), clean).0;
    assert OBP in g.bits && !(g.bits <= {PAGEERA});
  }

  // ----- The driver -----

  const TIME_LIMIT: nat := 0x000B_0000

  /** The wait of a call that starts at instant t. */
  function Wait(hw: nat -> Sts, t: nat): Status { WaitResult(hw, t, TIME_LIMIT) }

  /** The instant after that wait, or t if the call does not make it. */
  function After(hw: nat -> Sts, t: nat, made: bool): nat
  {
    if made then WaitEnd(hw, t, TIME_LIMIT) else t
  }

  /** Whether a call makes its wait k > 0 as long as none has failed; only
      FMC_EnableWriteProtection skips some. */
  predicate Makes(c: Call, k: nat)
    requires 0 < k
  {
    c.EnableWriteProtection? ==> ByteAt(c.pages, k - 1) != 0
  }

  /** The results of the waits of a call that starts at instant t, one after another. */
  function CallWaits(hw: nat -> Sts, t: nat, c: Call): (ws: Waits)
    ensures |ws| == 5
  {
    var t1 := After(hw, t, true);
    var t2 := After(hw, t1, Makes(c, 1));
    var t3 := After(hw, t2, Makes(c, 2));
    var t4 := After(hw, t3, Makes(c, 3));
    [Wait(hw, t), Wait(hw, t1), Wait(hw, t2), Wait(hw, t3), Wait(hw, t4)]
  }

  lemma CallWaitsOk(hw: nat -> Sts, t: nat, c: Call)
    ensures WaitsOk(CallWaits(hw, t, c))
  {
    forall u: nat
      ensures Wait(hw, u) != BUSY
    {
      WaitIsFirstIdlePoll(hw, u, TIME_LIMIT);
    }
  }

  /** A call that started at instant t in state f has ended in g with status s: it is
      its specification for the waits the hardware gave it, and keeps its promises. */
  ghost predicate Performed(hw: nat -> Sts, t: nat, f: Flash, c: Call, g: Flash, s: Status)
  {
    var ws := CallWaits(hw, t, c);
    (g, s) == Do(f, c, ws) && (Idle(f) ==> Kept(f, c, ws, g, s))
  }

  lemma PerformedIs(hw: nat -> Sts, t: nat, f: Flash, c: Call, g: Flash, s: Status)
    requires (g, s) == Do(f, c, CallWaits(hw, t, c))
    ensures Performed(hw, t, f, c, g, s)
  {
    CallWaitsOk(hw, t, c);
    if Idle(f) {
      CallKeeps(f, c, CallWaits(hw, t, c));
    }
  }

  class FlashDriver {
    const hw: nat -> Sts
    var now: nat
    var flash: Flash

    constructor (hardware: nat -> Sts)
      ensures hw == hardware && Idle(flash) && flash.done == []
    {
      hw, now := hardware, 0;
      flash := Flash({}, 0, false, false, true, []);
    }

    /** FMC_ReadStatus: each flag is read at its own instant. */
    method ReadStatus() returns (s: Status)
      modifies this`now
      ensures s == StatusAt(hw, old(now)) && (s == BUSY ==> now == old(now) + 1)
      ensures var t := old(now);
        && (s == BUSY <==> hw(t).busy)
        && (s == ERROR_PG <==> !hw(t).busy && hw(t + 1).pe)
        && (s == ERROR_WRP <==> !hw(t).busy && !hw(t + 1).pe && hw(t + 2).wpe)
        && s != TIMEOUT
      ensures s != BUSY ==> now == WaitEnd(hw, old(now), 0)
    {
      now := now + 1;
      if hw(now - 1).busy {
        return BUSY;
      }
      now := now + 1;
      if hw(now - 1).pe {
        return ERROR_PG;
      }
      now := now + 1;
      if hw(now - 1).wpe {
        return ERROR_WRP;
      }
      return COMPLETE;
    }

    /** FMC_WaitForLastOperation. */
    method WaitForLastOperation(limit: nat) returns (s: Status)
      modifies this`now, this`flash
      ensures s == WaitResult(hw, old(now), limit) && s != BUSY && now == WaitEnd(hw, old(now), limit)
      ensures flash == old(flash).Waited(s)
    {
      ghost var start := now;
      assert WaitResult(hw, start, limit) != BUSY by {
        WaitIsFirstIdlePoll(hw, start, limit);
      }
      var timeOut: nat := limit;
      s := ReadStatus();
      while s == BUSY && timeOut != 0
        invariant timeOut <= limit && flash == old(flash)
        invariant s == BUSY ==> now == start + (limit - timeOut) + 1
        invariant s == StatusAt(hw, start + (limit - timeOut))
        invariant s != BUSY ==> now == WaitEnd(hw, start, limit)
        invariant WaitEnd(hw, start + (limit - timeOut), timeOut) == WaitEnd(hw, start, limit)
        invariant WaitResult(hw, start + (limit - timeOut), timeOut) == WaitResult(hw, start, limit)
        decreases timeOut
      {
        s := ReadStatus();
        timeOut := timeOut - 1;
      }
      if timeOut == 0 {
        s := TIMEOUT;
      }
      flash := flash.Waited(s);
    }

    /** The wait of a call. */
    method WaitCall() returns (s: Status)
      modifies this`now, this`flash
      ensures s == Wait(hw, old(now)) && s != BUSY && now == After(hw, old(now), true)
      ensures flash == old(flash).Waited(s)
    {
      s := WaitForLastOperation(TIME_LIMIT);
    }

    /** FMC_ErasePage. */
    method ErasePage(page: Word) returns (s: Status)
      modifies this
      ensures Performed(hw, old(now), old(flash), Call.ErasePage(page), flash, s)
    {
      s := WaitCall();
      if s == COMPLETE {
        flash := flash.Set(PAGEERA);
        flash := flash.Address(page);
        flash := flash.Start(PAGEERA);
        s := WaitCall();
        flash := flash.Clear(PAGEERA);
      }
      PerformedIs(hw, old(now), old(flash), Call.ErasePage(page), flash, s);
    }

    /** FMC_EraseAllPage. */
    method EraseAllPage() returns (s: Status)
      modifies this
      ensures Performed(hw, old(now), old(flash), Call.EraseAllPage, flash, s)
    {
      s := WaitCall();
      if s == COMPLETE {
        flash := flash.Set(MASSERA);
        flash := flash.Start(MASSERA);
        s := WaitCall();
        flash := flash.Clear(MASSERA);
      }
      PerformedIs(hw, old(now), old(flash), Call.EraseAllPage, flash, s);
    }

    /** Programming the two halves of a word. */
    method ProgramHalves(address: Word, word: Word, ghost ws: Waits) returns (s: Status)
      requires |ws| == 5 && ws[1] == Wait(hw, now) && ws[2] == Wait(hw, After(hw, now, true))
      modifies this
      ensures (flash, s) == WordRun(old(flash), address, word, ws)
    {
      flash := flash.Set(PG);
      flash := flash.Program(address, word % TWO16);
      s := WaitCall();
      if s == COMPLETE {
        var temp := (address + 2) % TWO32;
        flash := flash.Program(temp, word / TWO16);
        s := WaitCall();
        flash := flash.Clear(PG);
      } else {
        flash := flash.Clear(PG);
      }
    }

    /** FMC_ProgramWord. */
    method ProgramWord(address: Word, word: Word) returns (s: Status)
      modifies this
      ensures Performed(hw, old(now), old(flash), Call.ProgramWord(address, word), flash, s)
    {
      ghost var c := Call.ProgramWord(address, word);
      s := WaitCall();
      if s == COMPLETE {
        s := ProgramHalves(address, word, CallWaits(hw, old(now), c));
      }
      PerformedIs(hw, old(now), old(flash), c, flash, s);
    }

    /** FMC_ProgramHalfWord. */
    method ProgramHalfWord(address: Word, half: Word) returns (s: Status)
      modifies this
      ensures Performed(hw, old(now), old(flash), Call.ProgramHalfWord(address, half), flash, s)
    {
      s := WaitCall();
      if s == COMPLETE {
        flash := flash.Set(PG);
        flash := flash.Program(address, half % TWO16);
        s := WaitCall();
        flash := flash.Clear(PG);
      }
      PerformedIs(hw, old(now), old(flash), Call.ProgramHalfWord(address, half), flash, s);
    }

    /** The common body of the two calls that write one option byte. */
    method WriteOptionByte(reg: OptionByte, data: Word, ghost ws: Waits) returns (s: Status)
      requires |ws| == 5 && ws[1] == Wait(hw, now)
      modifies this
      ensures (flash, s) == OptionWrite(old(flash), reg, data, ws)
    {
      flash := flash.Set(OBP);
      flash := flash.ProgramOption(reg, data);
      s := WaitCall();
      if s == TIMEOUT {
        flash := flash.Clear(OBP);
      }
    }

    /** FMC_ProgramOptionByteData. */
    method ProgramOptionByteData(address: Word, data: Word) returns (s: Status)
      modifies this
      ensures Performed(hw, old(now), old(flash), Call.ProgramOptionByteData(address, data), flash, s)
    {
      ghost var c := Call.ProgramOptionByteData(address, data);
      s := WaitCall();
      if s == COMPLETE {
        flash := flash.Keys();
        s := WriteOptionByte(DATA(address), data % 0x100, CallWaits(hw, old(now), c));
      }
      PerformedIs(hw, old(now), old(flash), c, flash, s);
    }

    /** FMC_ConfigUserOptionByte, with the three configuration bits in `user`. */
    method ConfigUserOptionByte(user: Word) returns (s: Status)
      modifies this
      ensures Performed(hw, old(now), old(flash), Call.ConfigUserOptionByte(user), flash, s)
    {
      ghost var c := Call.ConfigUserOptionByte(user);
      flash := flash.Keys();
      s := WaitCall();
      if s == COMPLETE {
        s := WriteOptionByte(USER, 0xF8 + user % 8, CallWaits(hw, old(now), c));
      }
      PerformedIs(hw, old(now), old(flash), c, flash, s);
    }

    /** The common body of the calls that erase the option bytes and write RDP. */
    method RewriteRdpByte(rdp: Word, failBit: Bit, ghost ws: Waits) returns (s: Status)
      requires |ws| == 5 && ws[1] == Wait(hw, now) && ws[2] == Wait(hw, After(hw, now, true))
      modifies this
      ensures (flash, s) == RewriteRdp(old(flash), rdp, failBit, ws)
    {
      flash := flash.Keys();
      flash := flash.Set(OBE);
      flash := flash.Start(OBE);
      s := WaitCall();
      if s == COMPLETE {
        flash := flash.Clear(OBE);
        flash := flash.Set(OBP);
        flash := flash.ProgramOption(RDP, rdp);
        s := WaitCall();
        if s != TIMEOUT {
          flash := flash.Clear(OBP);
        }
      } else if s != TIMEOUT {
        flash := flash.Clear(failBit);
      }
    }

    /** FMC_EraseOptionBytes. */
    method EraseOptionBytes(readProtected: bool) returns (s: Status)
      modifies this
      ensures Performed(hw, old(now), old(flash), Call.EraseOptionBytes(readProtected), flash, s)
    {
      ghost var c := Call.EraseOptionBytes(readProtected);
      s := WaitCall();
      if s == COMPLETE {
        s := RewriteRdpByte(if readProtected then 0x00 else 0xA5, OBP, CallWaits(hw, old(now), c));
      }
      PerformedIs(hw, old(now), old(flash), c, flash, s);
    }

    /** FMC_EnableReadOutProtection. */
    method EnableReadOutProtection() returns (s: Status)
      modifies this
      ensures Performed(hw, old(now), old(flash), Call.EnableReadOutProtection, flash, s)
    {
      ghost var c := Call.EnableReadOutProtection;
      s := WaitCall();
      if s == COMPLETE {
        s := RewriteRdpByte(0x00, OBE, CallWaits(hw, old(now), c));
      }
      PerformedIs(hw, old(now), old(flash), c, flash, s);
    }

    /** FMC_DisableReadOutProtection. */
    method DisableReadOutProtection() returns (s: Status)
      modifies this
      ensures Performed(hw, old(now), old(flash), Call.DisableReadOutProtection, flash, s)
    {
      ghost var c := Call.DisableReadOutProtection;
      s := WaitCall();
      if s == COMPLETE {
        s := RewriteRdpByte(0xA5, OBE, CallWaits(hw, old(now), c));
      }
      PerformedIs(hw, old(now), old(flash), c, flash, s);
    }

    /** The conditional write of WRPk. */
    method WriteProtectByte(pages: Word, k: nat, before: Status, ghost f: Flash, ghost ws: Waits)
      returns (s: Status)
      requires k < 4 && |ws| == 5 && (flash, before) == ProtectBytes(f, pages, ws, k)
      requires before == COMPLETE ==> ws[k + 1] == Wait(hw, now)
      modifies this
      ensures (flash, s) == ProtectBytes(f, pages, ws, k + 1)
      ensures s == COMPLETE ==> before == COMPLETE && now == After(hw, old(now), ByteAt(pages, k) != 0)
    {
      s := before;
      ComplementByte(pages, k);
      var data := ByteAt(Complement(pages), k);
      if s == COMPLETE && data != 0xFF {
        flash := flash.ProgramOption(WRP(k), data);
        s := WaitCall();
      }
    }

    /** The keys, OBP and the four conditional writes, in a call that started at t. */
    method WriteProtectBytes(pages: Word, ghost t: nat, ghost ws: Waits) returns (s: Status)
      requires ws == CallWaits(hw, t, Call.EnableWriteProtection(pages)) && now == After(hw, t, true)
      modifies this
      ensures (flash, s) == ProtectBytes(old(flash), pages, ws, 4)
    {
      ghost var f := flash;
      flash := flash.Keys();
      flash := flash.Set(OBP);
      s := WriteProtectByte(pages, 0, COMPLETE, f, ws);
      s := WriteProtectByte(pages, 1, s, f, ws);
      s := WriteProtectByte(pages, 2, s, f, ws);
      s := WriteProtectByte(pages, 3, s, f, ws);
    }

    /** FMC_EnableWriteProtection. */
    method EnableWriteProtection(pages: Word) returns (s: Status)
      modifies this
      ensures Performed(hw, old(now), old(flash), Call.EnableWriteProtection(pages), flash, s)
    {
      ghost var c := Call.EnableWriteProtection(pages);
      ghost var ws := CallWaits(hw, now, c);
      s := WaitCall();
      if s == COMPLETE {
        s := WriteProtectBytes(pages, old(now), ws);
        if s != TIMEOUT {
          flash := flash.Clear(OBP);
        }
      }
      PerformedIs(hw, old(now), old(flash), c, flash, s);
    }
  }
}
