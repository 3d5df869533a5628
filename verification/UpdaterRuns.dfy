/**
 What holds of the updater after any sequence of calls, whatever the caller does and whatever
 flash operation fails.
 */
module UpdaterRuns {
  import opened Bytes
  import opened FlashModel
  import opened ProcessorSpec
  import opened UpdaterSpec

  /**
   The invariant of every run: writes so far end on a sector boundary unless the session is full;
   the first payload byte waits in the buffer as the magic; flash calls follow the sector
   discipline; an erased first sector keeps 0xFF in front, and nothing is counted as flashed before that erase.
   */
  ghost predicate Safe(s: Upd) {
    && WF(s)
    && s.command == U_FLASH
    && (s.progressFlash % SECTOR == 0 || (s.progress == s.size && s.bufferLen == 0))
    && MagicWaits(s)
    && FlashSafe(s.flash)
    && (s.progressFlash > 0 ==> Withheld(s.flash.log))
    && (s.buf.Some? ==> Top(s.flash.log) <= s.progressFlash)
  }

  ghost predicate MagicWaits(s: Upd) {
    s.postHeader && s.progressFlash == 0 ==>
      s.bufferLen > 0 && s.buf.Some? && |s.buf.value| > 0 && s.buf.value[0] == MAGIC
  }

  ghost predicate FlashSafe(f: Flash) {
    Disciplined(f.log) && (Withheld(f.log) ==> |f.bytes| > 0 && f.bytes[0] == 0xFF)
  }

  /** `Safe` at a `_writeBuffer` call, where the buffer may be full and the boundary is certain. */
  ghost predicate SafeBuffer(s: Upd) {
    && WFBuffer(s)
    && s.command == U_FLASH
    && s.progressFlash % SECTOR == 0
    && s.bufferLen > 0
    && MagicWaits(s)
    && FlashSafe(s.flash)
    && (s.progressFlash > 0 ==> Withheld(s.flash.log))
    && Top(s.flash.log) <= s.progressFlash
  }

  lemma EraseKeepsSafe(x: Faults, f: Flash, at: nat)
    requires FlashSafe(f) && at % SECTOR == 0 && Top(f.log) <= at
    ensures FlashSafe(EraseSector(x, f, at).0)
    ensures Top(EraseSector(x, f, at).0.log) == Top(f.log)
    ensures (EraseSector(x, f, at).1 && at == 0) || Withheld(f.log) ==> Withheld(EraseSector(x, f, at).0.log)
  {
    var (g, ok) := EraseSector(x, f, at);
    LogSnoc(f.log, Erase(at, ok));
    if |f.bytes| > 0 {
      KeepsFF(f.bytes[0], x.torn(|f.log|, 0));
    }
  }

  lemma ProgramKeepsSafe(x: Faults, f: Flash, at: nat, data: seq<byte>)
    requires FlashSafe(f) && Top(f.log) <= at
    requires at == 0 && data != [] ==> data[0] == 0xFF
    ensures FlashSafe(ProgramBytes(x, f, at, data).0)
    ensures Top(ProgramBytes(x, f, at, data).0.log) == at + |data|
    ensures Withheld(f.log) ==> Withheld(ProgramBytes(x, f, at, data).0.log)
  {
    var (g, ok) := ProgramBytes(x, f, at, data);
    LogSnoc(f.log, Program(at, |data|, ok));
    if |f.bytes| > 0 {
      KeepsFF(f.bytes[0], x.torn(|f.log|, 0));
      KeepsFF(f.bytes[0], 0);
    }
  }

  lemma RfcAcceptedMeansMagic(env: Env, r: Rfc3161, buf: seq<byte>, len: nat)
    requires len <= |buf| == SECTOR && WellFormed(r)
    ensures var h := RfcHeader(env, r, U_FLASH, buf, len);
      h.verdict == Ok ==> h.buf == buf && h.len == len && buf[0] == MAGIC
  {
    hide Shift;
    hide DeviceMatches;
    hide ByteAt;
  }

  /** Whatever processor is installed, a header is accepted only with the magic in front. */
  lemma AcceptedMeansMagic(env: Env, c: Chain, buf: seq<byte>, len: nat)
    requires len <= |buf| == SECTOR && ChainWellFormed(c)
    ensures var h := ProcessHeader(env, c, U_FLASH, buf, len);
      h.verdict == Ok ==> h.buf == buf && h.len == len && buf[0] == MAGIC
  {
    hide RfcHeader;
    hide DeviceMatches;
    if !c.Legacy? {
      RfcAcceptedMeansMagic(env, c.r, buf, len);
    }
  }

  lemma HeaderKeepsSafe(env: Env, s: Upd)
    requires SafeBuffer(s) && !s.postHeader
    ensures var (r, ok) := HeaderStep(env, s); Safe(r) && (ok ==> r.progressFlash == s.progressFlash)
  {
    hide ProcessHeader;
    hide FlashSafe;
    hide Top;
    AcceptedMeansMagic(env, s.chain, s.buf.value, s.bufferLen);
  }

  lemma PayloadKeepsSafe(env: Env, s: Upd)
    requires SafeBuffer(s) && s.postHeader
    ensures var (r, ok) := PayloadStep(env, s);
      FlashSafe(r.flash) && WF(r) && r.command == U_FLASH && MagicWaits(r) &&
      (ok ==> r.progressFlash == s.progressFlash + s.bufferLen &&
              Withheld(r.flash.log) && Top(r.flash.log) <= r.progressFlash &&
              r.progress == Add32(s.progress, s.bufferLen) && r.size == s.size && r.bufferLen == 0) &&
      (!ok ==> Safe(r))
  {
    hide FlashSafe;
    hide Top;
    hide EraseSector;
    hide ProgramBytes;
    hide ProcessPayload;
    var buf := Masked(s.buf.value, s.progressFlash == 0);
    var (f1, erased) := EraseSector(env.faults, s.flash, s.progressFlash);
    EraseKeepsSafe(env.faults, s.flash, s.progressFlash);
    ProgramKeepsSafe(env.faults, f1, s.progressFlash, buf[..s.bufferLen]);
  }

  lemma FillKeepsSafe(env: Env, s: Upd, piece: seq<byte>)
    requires Safe(s) && s.buf.Some? && s.bufferLen + |piece| <= SECTOR && s.progressFlash % SECTOR == 0
    requires piece != [] || s.bufferLen == SECTOR
    ensures var (r, ok) := Fill(env, s, piece);
      Safe(r) && (ok && s.bufferLen + |piece| == SECTOR ==> r.progressFlash % SECTOR == 0)
  {
    hide HeaderStep;
    hide PayloadStep;
    hide FlashSafe;
    hide Top;
    var s1 := Append(s, piece);
    if s1.bufferLen == SECTOR || s1.bufferLen == Remaining(s1) {
      assert SafeBuffer(s1);
      if s1.postHeader { PayloadKeepsSafe(env, s1); } else { HeaderKeepsSafe(env, s1); }
    }
  }

  lemma {:induction false} WriteLoopKeepsSafe(env: Env, s: Upd, data: seq<byte>)
    requires Safe(s) && s.buf.Some? && (data != [] ==> s.progressFlash % SECTOR == 0)
    ensures Safe(WriteLoop(env, s, data).0)
    decreases |data|, if s.bufferLen == SECTOR then 1 else 0
  {
    hide Fill;
    hide FlashSafe;
    hide Top;
    if data != [] {
      var l := Min(|data|, SECTOR - s.bufferLen);
      FillKeepsSafe(env, s, data[..l]);
      var (s1, ok) := Fill(env, s, data[..l]);
      if ok {
        assert s.bufferLen + l < SECTOR ==> data[l..] == [];
        WriteLoopKeepsSafe(env, s1, data[l..]);
      }
    }
  }

  lemma FlushedKeepsSafe(env: Env, s: Upd)
    requires Safe(s) && s.buf.Some?
    ensures Safe(Flushed(env, s))
  {
    hide HeaderStep;
    hide PayloadStep;
    hide FlashSafe;
    hide Top;
    if s.bufferLen > 0 {
      if s.postHeader { PayloadKeepsSafe(env, s); } else { HeaderKeepsSafe(env, s); }
    }
  }

  lemma EnableKeepsSafe(x: Faults, f: Flash)
    requires FlashSafe(f)
    ensures FlashSafe(EnablePartition(x, f).0) && Top(EnablePartition(x, f).0.log) == Top(f.log)
  {
    hide Written;
    var read := Read(4 <= |f.bytes| && !x.fails(|f.log|));
    LogSnoc(f.log, read);
    LogSnoc(f.log + [read], Repair(EnablePartition(x, f).1));
  }

  lemma CheckKeepsSafe(x: Faults, f: Flash)
    requires FlashSafe(f)
    ensures FlashSafe(CheckBootable(x, f).0) && Top(CheckBootable(x, f).0.log) == Top(f.log)
  {
    LogSnoc(f.log, Read(4 <= |f.bytes| && !x.fails(|f.log|)));
  }

  lemma ActivateKeepsSafe(env: Env, s: Upd)
    requires Safe(s)
    ensures Safe(Activate(env, s).0)
  {
    hide EnablePartition;
    hide CheckBootable;
    hide FlashSafe;
    hide Top;
    EnableKeepsSafe(env.faults, s.flash);
    CheckKeepsSafe(env.faults, EnablePartition(env.faults, s.flash).0);
  }

  lemma BeginKeepsSafe(env: Env, s: Upd, size: u32, command: nat)
    requires Safe(s)
    ensures Safe(Begin(env, s, size, command).0)
  {
    hide Disciplined;
    hide Withheld;
    hide Top;
    LogSnoc(s.flash.log, Session);
  }

  lemma WriteKeepsSafe(env: Env, s: Upd, data: seq<byte>)
    requires Safe(s)
    ensures Safe(Write(env, s, data).0)
  {
    hide WriteLoop;
    if s.error == OK && s.size > 0 && |data| <= Remaining(s) {
      WriteLoopKeepsSafe(env, s, data);
    }
  }

  lemma AbortIsSafe(s: Upd, error: nat)
    requires ChainWellFormed(s.chain) && |s.flash.bytes| < WORD && FlashSafe(s.flash)
    ensures Safe(Abort(s, error)) && Safe(ResetUpd(s))
  {
    hide FlashSafe;
    hide Top;
  }

  lemma EndKeepsSafe(env: Env, s: Upd, even: bool)
    requires Safe(s)
    ensures Safe(End(env, s, even).0)
  {
    hide Flushed;
    hide ProcessEnd;
    hide FlashSafe;
    hide Top;
    hide Abort;
    hide ResetUpd;
    var s1 := if s.error == OK && s.size > 0 && even then Flushed(env, s) else s;
    var s2 := s1.(chain := ProcessEnd(env, s1.chain).0);
    AbortIsSafe(s, ERR_ABORT);
    if s.error == OK && s.size > 0 {
      FlushedKeepsSafe(env, s);
      AbortIsSafe(s2, ERR_ABORT);
    }
  }

  lemma StepKeepsSafe(env: Env, s: Upd, c: Call)
    requires Safe(s)
    ensures Safe(Step(env, s, c))
  {
    hide Begin;
    hide Write;
    hide End;
    hide Activate;
    match c
    case CallBegin(size, command) => BeginKeepsSafe(env, s, size, command);
    case CallWrite(data) => WriteKeepsSafe(env, s, data);
    case CallEnd(even) => EndKeepsSafe(env, s, even);
    case CallActivate => ActivateKeepsSafe(env, s);
    case CallAbort =>
    case CallClearError =>
  }

  /** The invariant holds after every run of a constructed updater. */
  lemma {:induction false} RunsAreSafe(env: Env, chain: Chain, bytes: seq<byte>, calls: seq<Call>)
    requires |bytes| < WORD && ChainWellFormed(chain)
    ensures Safe(Run(env, Constructed(chain, bytes), calls))
  {
    if calls != [] {
      var rest := calls[..|calls| - 1];
      RunsAreSafe(env, chain, bytes, rest);
      StepKeepsSafe(env, Run(env, Constructed(chain, bytes), rest), calls[|calls| - 1]);
    }
  }

  /** Between the first completed erase and the repair, no run leaves a bootable partition. */
  lemma NeverHalfBootable(env: Env, chain: Chain, bytes: seq<byte>, calls: seq<Call>)
    requires |bytes| < WORD && ChainWellFormed(chain)
    ensures var f := Run(env, Constructed(chain, bytes), calls).flash; Withheld(f.log) ==> !Bootable(f)
  {
    RunsAreSafe(env, chain, bytes, calls);
  }

  /** No erase of any run starts off a sector boundary or reaches a byte its session has written. */
  lemma ErasesSparePayload(env: Env, chain: Chain, bytes: seq<byte>, calls: seq<Call>, w: nat, e: nat)
    requires |bytes| < WORD && ChainWellFormed(chain)
    requires var log := Run(env, Constructed(chain, bytes), calls).flash.log;
      w < e < |log| && log[w].Program? && log[e].Erase? && forall k :: w < k < e ==> !log[k].Session?
    ensures var log := Run(env, Constructed(chain, bytes), calls).flash.log;
      log[e].at % SECTOR == 0 && log[w].at + log[w].len <= log[e].at
  {
    RunsAreSafe(env, chain, bytes, calls);
    DisciplineSpares(Run(env, Constructed(chain, bytes), calls).flash.log, w, e);
  }
}
