/**
 Erases stay inside the partition when the announced size is a whole number of sectors, as the service
 makes it. This holds for every processor, so it looks only at the counters.
 */
module UpdaterFits {
  import opened Bytes
  import opened FlashModel
  import opened ProcessorSpec
  import opened UpdaterSpec
  import opened UpdaterStream
  import opened UpdaterRuns

  /** Every erase from the `from`-th call on ends at or below `limit`. */
  ghost predicate ErasesFit(log: seq<FlashOp>, from: nat, limit: nat) {
    forall k :: from <= k < |log| && log[k].Erase? ==> log[k].at + SECTOR <= limit
  }

  /** What has gone to flash is part of the progress, and all that was taken fits the announced size. */
  ghost predicate InStep(s: Upd) {
    s.error == OK && s.progressFlash <= s.progress && Fits(s, 0)
  }

  lemma PayloadErasesFit(env: Env, s: Upd, from: nat, limit: nat)
    requires WFBuffer(s) && s.postHeader && ErasesFit(s.flash.log, from, limit) && s.progressFlash + SECTOR <= limit
    ensures ErasesFit(WriteBuffer(env, s).0.flash.log, from, limit)
  {
    hide ProcessPayload;
  }

  /** `_writeBuffer` erases inside the announced size and keeps the counters in step. */
  lemma FlushErasesFit(env: Env, s: Upd, from: nat)
    requires SafeBuffer(s) && InStep(s) && s.size % SECTOR == 0 && ErasesFit(s.flash.log, from, s.size)
    ensures ErasesFit(WriteBuffer(env, s).0.flash.log, from, s.size)
    ensures WriteBuffer(env, s).1 ==> InStep(WriteBuffer(env, s).0)
  {
    WriteBufferConserves(env, s);
    if s.postHeader {
      PayloadErasesFit(env, s, from, s.size);
    }
    hide ErasesFit;
    hide ProcessHeader;
    hide ProcessPayload;
    hide EraseSector;
    hide ProgramBytes;
    hide FlashSafe;
    hide Top;
    hide Withheld;
  }

  lemma FillErasesFit(env: Env, s: Upd, d: seq<byte>, from: nat)
    requires Safe(s) && s.buf.Some? && s.bufferLen + |d| <= SECTOR && (d != [] || s.bufferLen == SECTOR)
    requires s.progressFlash % SECTOR == 0 && InStep(s) && Fits(s, |d|)
    requires s.size % SECTOR == 0 && ErasesFit(s.flash.log, from, s.size)
    ensures ErasesFit(Fill(env, s, d).0.flash.log, from, s.size)
    ensures Fill(env, s, d).1 ==> InStep(Fill(env, s, d).0)
  {
    hide WriteBuffer;
    hide ErasesFit;
    hide FlashSafe;
    hide Top;
    hide Withheld;
    FlushErasesFit(env, Append(s, d), from);
  }

  lemma {:induction false} LoopErasesFit(env: Env, s: Upd, data: seq<byte>, from: nat)
    requires Safe(s) && s.buf.Some? && InStep(s) && Fits(s, |data|)
    requires data != [] ==> s.progressFlash % SECTOR == 0
    requires s.size % SECTOR == 0 && ErasesFit(s.flash.log, from, s.size)
    ensures ErasesFit(WriteLoop(env, s, data).0.flash.log, from, s.size)
    ensures WriteLoop(env, s, data).0.error == OK ==>
              InStep(WriteLoop(env, s, data).0) && WriteLoop(env, s, data).0.size == s.size
    decreases |data|, if s.bufferLen == SECTOR then 1 else 0
  {
    hide Fill;
    hide FlashSafe;
    hide Top;
    hide Withheld;
    hide ErasesFit;
    if data != [] {
      var l := Min(|data|, SECTOR - s.bufferLen);
      FillErasesFit(env, s, data[..l], from);
      FillKeepsSafe(env, s, data[..l]);
      FillConserves(env, s, data[..l]);
      var (s1, ok) := Fill(env, s, data[..l]);
      if ok {
        assert s.bufferLen + l < SECTOR ==> data[l..] == [];
        LoopErasesFit(env, s1, data[l..], from);
      }
    }
  }

  /** A session that `begin` has just opened, in front of any processor. */
  ghost predicate Begun(s: Upd) {
    && s.error == OK && s.buf.Some? && 0 < s.size <= |s.flash.bytes|
    && s.bufferLen == s.progress == s.progressFlash == 0
  }

  /**
   In a session whose announced size is a multiple of the sector size, every erase its writes and its
   end try lies inside the announced size, and so inside the partition.
   */
  lemma ErasesStayInside(env: Env, s0: Upd, t: seq<byte>, even: bool)
    requires Safe(s0) && Begun(s0) && |t| <= s0.size && s0.size % SECTOR == 0
    ensures var from := |s0.flash.log|;
            var s := Write(env, s0, t).0;
            && s0.size <= |s0.flash.bytes|
            && ErasesFit(s.flash.log, from, s0.size)
            && ErasesFit(End(env, s, even).0.flash.log, from, s0.size)
  {
    hide WriteLoop;
    hide WriteBuffer;
    hide ProcessEnd;
    hide FlashSafe;
    hide Top;
    hide Withheld;
    LoopErasesFit(env, s0, t, |s0.flash.log|);
    WriteKeepsSafe(env, s0, t);
    hide ErasesFit;
    var s := Write(env, s0, t).0;
    if s.error == OK && s.bufferLen > 0 {
      FlushErasesFit(env, s, |s0.flash.log|);
    }
  }
}
