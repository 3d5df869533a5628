/**
 The chain the service installs beyond its first upload. Its device check has no reset of its own and gives none
 to the processor behind it, so what one session has reached the next one starts from.
 */
module UpdaterLater {
  import opened Bytes
  import opened FlashModel
  import opened ProcessorSpec
  import opened ProcessorFacts
  import opened UpdaterSpec

  /** A state of the wired chain: past the device check or still untouched, and a reply accepted is a verified one. */
  ghost predicate WiredChain(env: Env, c: Chain) {
    && c.Checked? && WellFormed(c.r)
    && (!c.headerProcessed ==> Waiting(c) && c.r.md == NoCtx)
    && (c.r.phase == Post ==> Verified(env, c.r))
  }

  /** An erase or a write has been tried. */
  predicate Touched(log: seq<FlashOp>) {
    exists k :: 0 <= k < |log| && (log[k].Erase? || log[k].Program?)
  }

  /** What holds of the updater with that chain: payload goes out, and has gone out, only past a verified reply. */
  ghost predicate Wired(env: Env, s: Upd) {
    && s.command == U_FLASH && WiredChain(env, s.chain)
    && (s.postHeader || Touched(s.flash.log) ==> s.chain.r.phase == Post)
  }

  lemma InitStays(env: Env, r: Rfc3161, buf: seq<byte>, len: nat)
    requires len <= |buf| == SECTOR && WellFormed(r) && r.phase == Init && !env.legacyAllowed
    ensures var h := RfcInit(env, r, U_FLASH, buf, len);
      h.verdict != Ok && h.st.phase != Post && h.st.md == r.md && WellFormed(h.st)
  {
    hide Shift, DerLength, Ascii;
  }

  lemma ReplyStays(env: Env, r: Rfc3161)
    requires WellFormed(r) && r.phase == Rfc && |r.blob.value| == r.blobLen
    ensures var (r1, v) := RfcReply(env, r);
      && v != Ok && WellFormed(r1) && (r1.phase == Post ==> Verified(env, r1))
  {
  }

  lemma CollectStays(env: Env, r: Rfc3161, buf: seq<byte>, len: nat)
    requires len <= |buf| == SECTOR && WellFormed(r) && r.phase == Rfc
    ensures var h := RfcCollect(env, r, buf, len);
      h.verdict != Ok && WellFormed(h.st) && (h.st.phase == Post ==> Verified(env, h.st))
  {
    hide Shift, RfcReply, Verified;
    var l := Min(len, r.blobLen - |r.blob.value|);
    var r1 := r.(blob := Some(r.blob.value + buf[..l]));
    if |r1.blob.value| == r1.blobLen {
      ReplyStays(env, r1);
    }
  }

  lemma RfcStays(env: Env, r: Rfc3161, buf: seq<byte>, len: nat)
    requires len <= |buf| == SECTOR && WellFormed(r) && !env.legacyAllowed && (r.phase == Post ==> Verified(env, r))
    ensures var h := RfcHeader(env, r, U_FLASH, buf, len);
      && WellFormed(h.st) && (h.st.phase == Post ==> Verified(env, h.st))
      && (r.phase == Post ==> h.st == r) && (h.verdict == Ok ==> r.phase == Post)
  {
    hide RfcInit, RfcCollect, Verified;
    match r.phase
    case Init => InitStays(env, r, buf, len);
    case Rfc => CollectStays(env, r, buf, len);
    case Post =>
  }

  /** A header step keeps the chain a wired one, and says yes only past a verified reply, which it keeps. */
  lemma HeaderStays(env: Env, c: Chain, buf: seq<byte>, len: nat)
    requires len <= |buf| == SECTOR && WiredChain(env, c) && !env.legacyAllowed
    ensures var h := ProcessHeader(env, c, U_FLASH, buf, len);
      && WiredChain(env, h.st)
      && (c.r.phase == Post ==> h.st == c) && (h.verdict == Ok ==> c.r.phase == Post)
  {
    hide RfcHeader, Verified, DeviceMatches, IndexOf;
    RfcStays(env, c.r, buf, len);
  }

  lemma HeaderStepStays(env: Env, s: Upd)
    requires WFBuffer(s) && Wired(env, s) && !env.legacyAllowed && !s.postHeader
    ensures Wired(env, HeaderStep(env, s).0)
  {
    hide ProcessHeader, WiredChain, Touched;
    assert WiredChain(env, s.chain);
    WiredParts(env, s.chain);
    HeaderStays(env, s.chain, s.buf.value, s.bufferLen);
    WiredParts(env, AskHeader(env, s).0.chain);
  }

  lemma WiredParts(env: Env, c: Chain)
    requires WiredChain(env, c)
    ensures c.Checked? && WellFormed(c.r)
  {
  }

  lemma PayloadStepStays(env: Env, s: Upd)
    requires WFBuffer(s) && Wired(env, s) && s.postHeader
    ensures Wired(env, PayloadStep(env, s).0)
  {
    hide EraseSector, ProgramBytes, Masked, Touched, Verified;
  }

  lemma FillStays(env: Env, s: Upd, piece: seq<byte>)
    requires WF(s) && s.buf.Some? && s.bufferLen + |piece| <= SECTOR && Wired(env, s) && !env.legacyAllowed
    ensures Wired(env, Fill(env, s, piece).0)
  {
    hide HeaderStep, PayloadStep, WiredChain, Touched;
    var s1 := Append(s, piece);
    assert WFBuffer(s1) && Wired(env, s1);
    if s1.bufferLen == SECTOR || s1.bufferLen == Remaining(s1) {
      if s1.postHeader { PayloadStepStays(env, s1); } else { HeaderStepStays(env, s1); }
    }
  }

  lemma {:induction false} LoopStays(env: Env, s: Upd, data: seq<byte>)
    requires WF(s) && s.buf.Some? && Wired(env, s) && !env.legacyAllowed
    ensures Wired(env, WriteLoop(env, s, data).0)
    decreases |data|, if s.bufferLen == SECTOR then 1 else 0
  {
    hide Fill, Wired;
    if data != [] {
      var l := Min(|data|, SECTOR - s.bufferLen);
      FillStays(env, s, data[..l]);
      var (s1, ok) := Fill(env, s, data[..l]);
      if ok {
        LoopStays(env, s1, data[l..]);
      }
    }
  }

  /** Calls that try no erase and no write leave it open whether one was tried. */
  lemma OtherCalls(env: Env, f: Flash)
    ensures Touched(f.log + [Session]) == Touched(f.log)
    ensures Touched(EnablePartition(env.faults, f).0.log) == Touched(f.log)
    ensures Touched(CheckBootable(env.faults, f).0.log) == Touched(f.log)
  {
    hide Written;
    NotTouching(f.log, Session);
    var read := Read(4 <= |f.bytes| && !env.faults.fails(|f.log|));
    NotTouching(f.log, read);
    NotTouching(f.log + [read], Repair(EnablePartition(env.faults, f).1));
  }

  lemma NotTouching(log: seq<FlashOp>, op: FlashOp)
    requires !op.Erase? && !op.Program?
    ensures Touched(log + [op]) == Touched(log)
  {
    if Touched(log) {
      var k :| 0 <= k < |log| && (log[k].Erase? || log[k].Program?);
      assert (log + [op])[k] == log[k];
    }
  }

  lemma BeginStays(env: Env, s: Upd, size: u32, command: nat)
    requires WF(s) && Wired(env, s)
    ensures Wired(env, Begin(env, s, size, command).0)
  {
    hide WiredChain, Touched;
    WiredParts(env, s.chain);
    OtherCalls(env, s.flash);
  }

  lemma WriteStays(env: Env, s: Upd, data: seq<byte>)
    requires WF(s) && Wired(env, s) && !env.legacyAllowed
    ensures Wired(env, Write(env, s, data).0)
  {
    hide WriteLoop, WiredChain, Touched;
    WiredParts(env, s.chain);
    if s.error == OK && s.size > 0 && |data| <= Remaining(s) {
      LoopStays(env, s, data);
    }
  }

  lemma EndStays(env: Env, s: Upd, even: bool)
    requires WF(s) && Wired(env, s) && !env.legacyAllowed
    ensures Wired(env, End(env, s, even).0)
  {
    hide HeaderStep, PayloadStep, WiredChain, Touched;
    WiredParts(env, s.chain);
    if s.buf.Some? && s.bufferLen > 0 {
      if s.postHeader { PayloadStepStays(env, s); } else { HeaderStepStays(env, s); }
      WiredParts(env, WriteBuffer(env, s).0.chain);
    }
  }

  lemma ActivateStays(env: Env, s: Upd)
    requires WF(s) && Wired(env, s)
    ensures Wired(env, Activate(env, s).0)
  {
    hide EnablePartition, CheckBootable, WiredChain, Touched;
    WiredParts(env, s.chain);
    OtherCalls(env, s.flash);
    OtherCalls(env, EnablePartition(env.faults, s.flash).0);
  }

  lemma StepStays(env: Env, s: Upd, c: Call)
    requires WF(s) && Wired(env, s) && !env.legacyAllowed
    ensures Wired(env, Step(env, s, c))
  {
    hide Begin, Write, End, Activate, WiredChain, Touched;
    match c
    case CallBegin(size, command) => BeginStays(env, s, size, command);
    case CallWrite(data) => WriteStays(env, s, data);
    case CallEnd(even) => EndStays(env, s, even);
    case CallActivate => ActivateStays(env, s);
    case CallAbort => WiredParts(env, s.chain);
    case CallClearError =>
  }

  lemma {:induction false} RunsAreWired(env: Env, bytes: seq<byte>, calls: seq<Call>)
    requires !env.legacyAllowed && |bytes| < WORD
    ensures Wired(env, Run(env, Constructed(Checked(false, FRESH), bytes), calls))
  {
    hide Step;
    if calls != [] {
      hide Wired;
      var rest := calls[..|calls| - 1];
      RunsAreWired(env, bytes, rest);
      StepStays(env, Run(env, Constructed(Checked(false, FRESH), bytes), rest), calls[|calls| - 1]);
    }
  }

  /** In every wired run, whatever fails: no erase and no write before a line has passed and a reply is verified. */
  lemma FlashedMeansVerified(env: Env, bytes: seq<byte>, calls: seq<Call>)
    requires !env.legacyAllowed && |bytes| < WORD
    ensures var s := Run(env, Constructed(Checked(false, FRESH), bytes), calls);
      && s.chain.Checked?
      && (Touched(s.flash.log) ==> s.chain.headerProcessed && s.chain.r.phase == Post && Verified(env, s.chain.r))
  {
    hide Run, Verified, Touched;
    RunsAreWired(env, bytes, calls);
  }

  /** The same updater with the legacy processor, which asks for the magic and nothing else. */
  function AsLegacy(s: Upd): (r: Upd)
    ensures WF(s) ==> WF(r)
  {
    s.(chain := Legacy)
  }

  /** A chain that has let a header through. */
  ghost predicate Past(c: Chain) {
    c.Checked? && c.headerProcessed && WellFormed(c.r) && c.r.phase == Post
  }

  lemma HeaderAsLegacy(env: Env, s: Upd)
    requires WFBuffer(s) && Past(s.chain) && s.command == U_FLASH && !s.postHeader
    ensures var (r, ok) := HeaderStep(env, s);
      && HeaderStep(env, AsLegacy(s)) == (AsLegacy(r), ok) && r.chain == s.chain && r.command == U_FLASH
  {
    PostSteps(env, s.chain, s.buf.value, s.bufferLen);
    hide RfcHeader;
  }

  lemma PayloadAsLegacy(env: Env, s: Upd)
    requires WFBuffer(s) && Past(s.chain) && s.command == U_FLASH && s.postHeader
    ensures var (r, ok) := PayloadStep(env, s);
      && PayloadStep(env, AsLegacy(s)) == (AsLegacy(r), ok) && r.chain == s.chain && r.command == U_FLASH
  {
    hide EraseSector, ProgramBytes, Masked, WellFormed;
  }

  lemma BufferAsLegacy(env: Env, s: Upd)
    requires WFBuffer(s) && Past(s.chain) && s.command == U_FLASH
    ensures var (r, ok) := WriteBuffer(env, s);
      && WriteBuffer(env, AsLegacy(s)) == (AsLegacy(r), ok) && r.chain == s.chain && r.command == U_FLASH
  {
    hide HeaderStep, PayloadStep;
    if s.postHeader { PayloadAsLegacy(env, s); } else { HeaderAsLegacy(env, s); }
  }

  lemma FillAsLegacy(env: Env, s: Upd, piece: seq<byte>)
    requires WF(s) && s.buf.Some? && s.bufferLen + |piece| <= SECTOR && Past(s.chain) && s.command == U_FLASH
    ensures var (r, ok) := Fill(env, s, piece);
      && Fill(env, AsLegacy(s), piece) == (AsLegacy(r), ok) && r.chain == s.chain && r.command == U_FLASH
  {
    hide WriteBuffer, Past;
    var s1 := Append(s, piece);
    assert WFBuffer(s1) && Append(AsLegacy(s), piece) == AsLegacy(s1);
    BufferAsLegacy(env, s1);
  }

  lemma {:induction false} LoopAsLegacy(env: Env, s: Upd, data: seq<byte>)
    requires WF(s) && s.buf.Some? && Past(s.chain) && s.command == U_FLASH
    ensures var (r, n) := WriteLoop(env, s, data);
      && WriteLoop(env, AsLegacy(s), data) == (AsLegacy(r), n) && r.chain == s.chain && r.command == U_FLASH
    decreases |data|, if s.bufferLen == SECTOR then 1 else 0
  {
    hide Fill, Past;
    if data != [] {
      var l := Min(|data|, SECTOR - s.bufferLen);
      FillAsLegacy(env, s, data[..l]);
      var (s1, ok) := Fill(env, s, data[..l]);
      if ok {
        LoopAsLegacy(env, s1, data[l..]);
      }
    }
  }

  lemma WriteAsLegacy(env: Env, s: Upd, data: seq<byte>)
    requires WF(s) && Past(s.chain) && s.command == U_FLASH
    ensures var (r, n) := Write(env, s, data);
      && Write(env, AsLegacy(s), data) == (AsLegacy(r), n) && r.chain == s.chain && r.command == U_FLASH
  {
    hide WriteLoop;
    if s.error == OK && s.size > 0 && |data| <= Remaining(s) {
      LoopAsLegacy(env, s, data);
    }
  }

  lemma EndAsLegacy(env: Env, s: Upd, even: bool)
    requires WF(s) && Past(s.chain) && s.command == U_FLASH
    ensures var (r, ended) := End(env, s, even);
      && End(env, AsLegacy(s), even) == (AsLegacy(r), ended) && r.chain == s.chain && r.command == U_FLASH
  {
    hide WriteBuffer;
    if s.buf.Some? {
      BufferAsLegacy(env, s);
    }
  }

  lemma ActivateAsLegacy(env: Env, s: Upd)
    requires WF(s) && Past(s.chain) && s.command == U_FLASH
    ensures var (r, active) := Activate(env, s);
      && Activate(env, AsLegacy(s)) == (AsLegacy(r), active) && r.chain == s.chain && r.command == U_FLASH
  {
    hide EnablePartition, CheckBootable;
  }

  lemma BeginAsLegacy(env: Env, s: Upd, size: u32, command: nat)
    requires WF(s) && Past(s.chain) && s.command == U_FLASH
    ensures var (r, begun) := Begin(env, s, size, command);
      && Begin(env, AsLegacy(s), size, command) == (AsLegacy(r), begun) && r.chain == s.chain && r.command == U_FLASH
  {
    hide WellFormed;
  }

  lemma StepAsLegacy(env: Env, s: Upd, c: Call)
    requires WF(s) && Past(s.chain) && s.command == U_FLASH
    ensures Step(env, AsLegacy(s), c) == AsLegacy(Step(env, s, c))
    ensures Step(env, s, c).chain == s.chain && Step(env, s, c).command == U_FLASH
  {
    hide Begin, Write, End, Activate, WF, WellFormed;
    match c
    case CallBegin(size, command) => BeginAsLegacy(env, s, size, command);
    case CallWrite(data) => WriteAsLegacy(env, s, data);
    case CallEnd(even) => EndAsLegacy(env, s, even);
    case CallActivate => ActivateAsLegacy(env, s);
    case CallAbort =>
    case CallClearError =>
  }

  /** From then on no call does anything that it would not do with the legacy processor. */
  lemma {:induction false} RunAsLegacy(env: Env, s: Upd, calls: seq<Call>)
    requires WF(s) && Past(s.chain) && s.command == U_FLASH
    ensures Run(env, AsLegacy(s), calls) == AsLegacy(Run(env, s, calls))
    ensures Run(env, s, calls).chain == s.chain && Run(env, s, calls).command == U_FLASH
  {
    hide Step, Past;
    if calls != [] {
      var rest := calls[..|calls| - 1];
      RunAsLegacy(env, s, rest);
      StepAsLegacy(env, Run(env, s, rest), calls[|calls| - 1]);
    }
  }

  /**
   Once a run has tried an erase or a write, the wired chain is the legacy processor for every later call: no
   line, reply or signature is asked for again, and `end` says what it would say there.
   */
  lemma LaterIsLegacy(env: Env, bytes: seq<byte>, calls: seq<Call>, later: seq<Call>, even: bool)
    requires !env.legacyAllowed && |bytes| < WORD
    ensures var s := Run(env, Constructed(Checked(false, FRESH), bytes), calls);
      Touched(s.flash.log) ==>
        && Run(env, AsLegacy(s), later) == AsLegacy(Run(env, s, later))
        && End(env, AsLegacy(Run(env, s, later)), even)
           == (AsLegacy(End(env, Run(env, s, later), even).0), End(env, Run(env, s, later), even).1)
  {
    hide Step, End, Run, Verified, Touched;
    FlashedMeansVerified(env, bytes, calls);
    RunsAreWired(env, bytes, calls);
    var s := Run(env, Constructed(Checked(false, FRESH), bytes), calls);
    if Touched(s.flash.log) {
      RunAsLegacy(env, s, later);
      EndAsLegacy(env, Run(env, s, later), even);
    }
  }
}
