/**
 What a successful `end` proves when the RFC 3161 processor is installed directly with legacy
 uploads off: in any run, under any flash faults, the digest in the verified reply is the hash of
 what lies in flash. Behind the device check it proves nothing about the payload.
 */
module UpdaterSound {
  import opened Bytes
  import opened FlashModel
  import opened ProcessorSpec
  import opened ProcessorFacts
  import opened UpdaterSpec
  import opened UpdaterRuns
  import opened UpdaterFollow

  /** Flashed bytes with the withheld first byte put back. */
  function Repaired(flashed: seq<byte>): seq<byte> {
    if flashed == [] then [] else [MAGIC] + flashed[1..]
  }

  /** The digest context has seen exactly what the session has in flash, under a verified reply. */
  ghost predicate Bound(env: Env, s: Upd)
    requires s.progressFlash <= |s.flash.bytes|
  {
    s.chain.Signed? &&
      var r := s.chain.r;
      && (s.postHeader ==> r.phase == Post)
      && (!s.postHeader ==> s.progressFlash == 0)
      && (r.phase == Post ==> Verified(env, r))
      && (r.md.Running? ==> r.phase == Post && r.md.data == Repaired(s.flash.bytes[..s.progressFlash]))
      && r.md != Idle
  }

  lemma AbortIsBound(env: Env, s: Upd, error: nat)
    requires ChainWellFormed(s.chain) && |s.flash.bytes| < WORD && s.chain.Signed?
    ensures Bound(env, Abort(s, error)) && Bound(env, ResetUpd(s))
  {
  }

  lemma HeaderKeepsBound(env: Env, s: Upd)
    requires !env.legacyAllowed && SafeBuffer(s) && Bound(env, s) && !s.postHeader
    ensures Bound(env, WriteBuffer(env, s).0)
  {
    hide ProcessHeader;
    hide FlashSafe;
    hide Top;
    hide Verified;
    var c := s.chain;
    var buf := s.buf.value;
    var h := ProcessHeader(env, c, s.command, buf, s.bufferLen);
    assert s.flash.bytes[..0] == [];
    match c.r.phase
    case Init => InitSteps(env, c, buf, s.bufferLen);
    case Rfc => RfcSteps(env, c, buf, s.bufferLen);
    case Post => PostSteps(env, c, buf, s.bufferLen);
  }

  lemma RepairedMore(flashed: seq<byte>, buf: seq<byte>, n: nat)
    requires 0 < n <= |buf| == SECTOR && (flashed == [] ==> buf[0] == MAGIC)
    ensures Repaired(flashed) + buf[..n] == Repaired(flashed + Masked(buf, flashed == [])[..n])
  {
  }

  lemma PayloadKeepsBound(env: Env, s: Upd)
    requires !env.legacyAllowed && SafeBuffer(s) && Bound(env, s) && s.postHeader
    ensures Bound(env, WriteBuffer(env, s).0)
  {
    hide FlashSafe;
    hide Top;
    hide Verified;
    hide EraseSector;
    hide ProgramBytes;
    hide Repaired;
    hide Masked;
    var flashed := s.flash.bytes[..s.progressFlash];
    RepairedMore(flashed, s.buf.value, s.bufferLen);
    var data := Masked(s.buf.value, s.progressFlash == 0)[..s.bufferLen];
    ProgramErased(env.faults, s.flash, s.progressFlash, data);
    VerifiedWhatever(env, s.chain.r, Running(Repaired(flashed) + s.buf.value[..s.bufferLen]));
  }

  lemma FillKeepsBound(env: Env, s: Upd, piece: seq<byte>)
    requires !env.legacyAllowed && Safe(s) && Bound(env, s) && s.buf.Some? && s.bufferLen + |piece| <= SECTOR
    requires s.progressFlash % SECTOR == 0 && (piece != [] || s.bufferLen == SECTOR)
    ensures Bound(env, Fill(env, s, piece).0)
  {
    hide WriteBuffer;
    hide FlashSafe;
    hide Top;
    hide Verified;
    var s1 := Append(s, piece);
    if s1.bufferLen == SECTOR || s1.bufferLen == Remaining(s1) {
      if s.postHeader { PayloadKeepsBound(env, s1); } else { HeaderKeepsBound(env, s1); }
    }
  }

  lemma {:induction false} WriteLoopKeepsBound(env: Env, s: Upd, data: seq<byte>)
    requires !env.legacyAllowed && Safe(s) && Bound(env, s) && s.buf.Some?
    requires data != [] ==> s.progressFlash % SECTOR == 0
    ensures Bound(env, WriteLoop(env, s, data).0)
    decreases |data|, if s.bufferLen == SECTOR then 1 else 0
  {
    hide Fill;
    hide FlashSafe;
    hide Top;
    hide Bound;
    if data != [] {
      var l := Min(|data|, SECTOR - s.bufferLen);
      FillKeepsSafe(env, s, data[..l]);
      FillKeepsBound(env, s, data[..l]);
      var (s1, ok) := Fill(env, s, data[..l]);
      if ok {
        assert s.bufferLen + l < SECTOR ==> data[l..] == [];
        WriteLoopKeepsBound(env, s1, data[l..]);
      }
    }
  }

  lemma FlushedKeepsBound(env: Env, s: Upd)
    requires !env.legacyAllowed && Safe(s) && Bound(env, s) && s.buf.Some?
    ensures Bound(env, Flushed(env, s))
  {
    hide WriteBuffer;
    hide FlashSafe;
    hide Top;
    hide Verified;
    if s.bufferLen > 0 {
      if s.postHeader { PayloadKeepsBound(env, s); } else { HeaderKeepsBound(env, s); }
    }
  }

  lemma EndKeepsBound(env: Env, s: Upd, even: bool)
    requires !env.legacyAllowed && Safe(s) && Bound(env, s)
    ensures Bound(env, End(env, s, even).0)
  {
    hide Flushed;
    hide FlashSafe;
    hide Top;
    hide Abort;
    hide ResetUpd;
    hide Repaired;
    var s1 := if s.error == OK && s.size > 0 && even then Flushed(env, s) else s;
    var s2 := s1.(chain := ProcessEnd(env, s1.chain).0);
    AbortIsBound(env, s, ERR_ABORT);
    if s.error == OK && s.size > 0 {
      FlushedKeepsBound(env, s);
      AbortIsBound(env, s2, ERR_ABORT);
    }
  }

  lemma StepKeepsBound(env: Env, s: Upd, c: Call)
    requires !env.legacyAllowed && Safe(s) && Bound(env, s)
    ensures Bound(env, Step(env, s, c))
  {
    hide WriteLoop;
    hide End;
    hide FlashSafe;
    hide Top;
    hide Verified;
    hide EnablePartition;
    match c
    case CallBegin(size, command) =>
    case CallWrite(data) =>
      AbortIsBound(env, s, ERR_SPACE);
      if s.error == OK && s.size > 0 && |data| <= Remaining(s) {
        WriteLoopKeepsBound(env, s, data);
      }
    case CallEnd(even) => EndKeepsBound(env, s, even);
    case CallActivate =>
    case CallAbort => AbortIsBound(env, s, ERR_ABORT);
    case CallClearError =>
  }

  lemma {:induction false} RunsAreBound(env: Env, bytes: seq<byte>, calls: seq<Call>)
    requires !env.legacyAllowed && |bytes| < WORD
    ensures var s := Run(env, Constructed(Signed(FRESH), bytes), calls); Safe(s) && Bound(env, s)
  {
    hide Safe;
    if calls != [] {
      var rest := calls[..|calls| - 1];
      RunsAreBound(env, bytes, rest);
      StepKeepsBound(env, Run(env, Constructed(Signed(FRESH), bytes), rest), calls[|calls| - 1]);
    }
    RunsAreSafe(env, Signed(FRESH), bytes, calls);
  }

  /** The updater as `end` has it when it asks the processor for the verdict. */
  function AtVerdict(env: Env, s: Upd, even: bool): (r: Upd)
    requires WF(s)
    ensures WF(r)
  {
    if even then Flushed(env, s) else s
  }

  lemma EndExact(env: Env, s: Upd, even: bool)
    requires !env.legacyAllowed && Safe(s) && Bound(env, s)
    ensures var f := AtVerdict(env, s, even);
            var data := Repaired(f.flash.bytes[..f.progressFlash]);
      End(env, s, even).1 <==>
        && s.error == OK && s.size > 0 && (even || s.progress == s.size)
        && f.chain.Signed? && f.chain.r.md.Running? && f.chain.r.reply.Some?
        && !env.finishFails(data) && DigestMatches(env, f.chain.r.reply.value, data)
    ensures End(env, s, even).1 ==>
        var r := End(env, s, even).0;
        && r.flash == AtVerdict(env, s, even).flash && r.progressFlash == AtVerdict(env, s, even).progressFlash
        && r.chain.Signed? && r.chain.r == AtVerdict(env, s, even).chain.r.(md := NoCtx)
  {
    hide Flushed;
    hide FlashSafe;
    hide Top;
    hide Repaired;
    hide DigestMatches;
    hide Verified;
    if s.error == OK && s.size > 0 && even {
      FlushedKeepsBound(env, s);
    }
  }

  /**
   In every run, `end` answers yes exactly when the session is live, its digest context is, and
   the digest of the reply is the hash of the bytes in flash with the magic put back.
   */
  lemma EndChecksFlash(env: Env, bytes: seq<byte>, calls: seq<Call>, even: bool)
    requires !env.legacyAllowed && |bytes| < WORD
    ensures var s := Run(env, Constructed(Signed(FRESH), bytes), calls);
            var f := AtVerdict(env, s, even);
            var data := Repaired(f.flash.bytes[..f.progressFlash]);
      End(env, s, even).1 <==>
        && s.error == OK && s.size > 0 && (even || s.progress == s.size)
        && f.chain.Signed? && f.chain.r.md.Running? && f.chain.r.reply.Some?
        && !env.finishFails(data) && DigestMatches(env, f.chain.r.reply.value, data)
  {
    hide Run;
    hide Safe;
    hide Bound;
    hide AtVerdict;
    hide Repaired;
    hide DigestMatches;
    hide End;
    RunsAreBound(env, bytes, calls);
    EndExact(env, Run(env, Constructed(Signed(FRESH), bytes), calls), even);
  }

  /** An update reported good has the signed digest over what the flash holds. */
  lemma AcceptedMeansSigned(env: Env, bytes: seq<byte>, calls: seq<Call>, even: bool)
    requires !env.legacyAllowed && |bytes| < WORD
    requires End(env, Run(env, Constructed(Signed(FRESH), bytes), calls), even).1
    ensures var r := End(env, Run(env, Constructed(Signed(FRESH), bytes), calls), even).0;
      && r.chain.Signed? && Verified(env, r.chain.r)
      && DigestMatches(env, r.chain.r.reply.value, Repaired(r.flash.bytes[..r.progressFlash]))
  {
    hide Run;
    hide Safe;
    hide Repaired;
    hide DigestMatches;
    hide End;
    hide Flushed;
    RunsAreBound(env, bytes, calls);
    var s := Run(env, Constructed(Signed(FRESH), bytes), calls);
    EndExact(env, s, even);
    if even {
      SafeRunning(s);
      FlushedKeepsBound(env, s);
    }
    hide Verified;
    VerifiedWhatever(env, AtVerdict(env, s, even).chain.r, NoCtx);
  }

  /** A successful activation puts the magic back over what was withheld. */
  lemma ActivateRepairs(env: Env, s: Upd)
    requires Safe(s) && Activate(env, s).1
    ensures var f := Activate(env, s).0.flash;
      s.progressFlash <= |f.bytes| && f.bytes[..s.progressFlash] == Repaired(s.flash.bytes[..s.progressFlash])
  {
    hide Written;
    hide Top;
    hide Disciplined;
    hide Withheld;
    var (f1, enabled) := EnablePartition(env.faults, s.flash);
    if s.progressFlash > 0 && enabled {
      EnableRestores(env.faults, s.flash);
    }
  }

  /**
   An update that `end` reports good and `activate` then installs has, in its first `_progress_flash`
   bytes, exactly a firmware with the signed digest: every run, every fault.
   */
  lemma ActivatedMeansSigned(env: Env, bytes: seq<byte>, calls: seq<Call>, even: bool)
    requires !env.legacyAllowed && |bytes| < WORD
    requires var (e, ended) := End(env, Run(env, Constructed(Signed(FRESH), bytes), calls), even);
      ended && Activate(env, e).1
    ensures var e := End(env, Run(env, Constructed(Signed(FRESH), bytes), calls), even).0;
            var f := Activate(env, e).0.flash;
      && e.chain.Signed? && Verified(env, e.chain.r) && e.progressFlash <= |f.bytes|
      && DigestMatches(env, e.chain.r.reply.value, f.bytes[..e.progressFlash])
  {
    hide Run;
    hide Safe;
    hide Repaired;
    hide DigestMatches;
    hide End;
    hide Activate;
    AcceptedMeansSigned(env, bytes, calls, even);
    RunsAreSafe(env, Signed(FRESH), bytes, calls);
    EndKeepsSafe(env, Run(env, Constructed(Signed(FRESH), bytes), calls), even);
    ActivateRepairs(env, End(env, Run(env, Constructed(Signed(FRESH), bytes), calls), even).0);
  }

  lemma SafeRunning(s: Upd)
    requires Safe(s)
    ensures s.size > 0 ==> s.buf.Some?
  {
  }
}
