/**
 For which states of the wired chain a session keeps the gate of `UpdaterGate`: exactly for those that have no line
 behind them, or a complete reply that was refused. From any other state some device lets other bytes through.
 */
module UpdaterGateExact {
  import opened Bytes
  import opened FlashModel
  import opened ProcessorSpec
  import opened ProcessorFacts
  import opened UpdaterSpec
  import opened UpdaterStream
  import opened UpdaterFollow
  import opened UpdaterGate
  import opened UpdaterImage
  import opened UpdaterWired
  import opened UpdaterService
  import opened UpdaterLater
  import opened UpdaterAgain

  /** A session of the wired chain, the first or a later one, headers required. */
  ghost predicate WiredSession(env: Env, s0: Upd) {
    Begun(s0) && WiredChain(env, s0.chain) && !env.legacyAllowed
  }

  /** Neither the writes nor the end of the session make a flash call for `t` unless `t` opens the gate. */
  ghost predicate KeepsGate(env: Env, s0: Upd, t: seq<byte>)
    requires WF(s0)
  {
    |t| <= s0.size && !GateOpen(env, true, t) ==>
      && Write(env, s0, t).0.flash == s0.flash
      && forall even :: End(env, Write(env, s0, t).0, even).0.flash == s0.flash
  }

  /** The reply is complete and was refused: `process_header` parses it again and takes no byte of the buffer. */
  predicate Spent(r: Rfc3161) {
    r.phase == Rfc && r.blob.Some? && |r.blob.value| == r.blobLen
  }

  /** Bytes of the reply still to come. */
  function Missing(r: Rfc3161): nat {
    if r.phase == Rfc && r.blob.Some? && |r.blob.value| <= r.blobLen then r.blobLen - |r.blob.value| else 0
  }

  // A spent reply

  /** Nothing has moved since the session began: all that was written waits in the buffer. */
  ghost predicate Stuck(s0: Upd, s: Upd) {
    && s.error == OK && s.buf.Some? && |s.buf.value| == SECTOR && s.bufferLen <= SECTOR && s.bufferLen <= s.size
    && s.size == s0.size && s.progress == s.progressFlash == 0 && s.command == U_FLASH && !s.postHeader
    && s.chain == s0.chain && s.flash == s0.flash
  }

  lemma StuckFlush(env: Env, s0: Upd, s: Upd)
    requires Stuck(s0, s) && WFBuffer(s) && s.chain.Checked? && s.chain.headerProcessed && Spent(s.chain.r)
    ensures WriteBuffer(env, s).0.flash == s0.flash
    ensures Due(s) ==> !WriteBuffer(env, s).1
  {
    hide ProcessHeader, WriteBuffer, Verified;
    HeaderEffect(env, s);
    RfcSteps(env, s.chain, s.buf.value, s.bufferLen);
  }

  lemma StuckFill(env: Env, s0: Upd, s: Upd, d: seq<byte>)
    requires Stuck(s0, s) && WF(s) && s.chain.Checked? && s.chain.headerProcessed && Spent(s.chain.r)
    requires s.bufferLen + |d| <= SECTOR && s.bufferLen + |d| <= s.size
    ensures var (r, ok) := Fill(env, s, d);
      && r.flash == s0.flash && (ok ==> Stuck(s0, r) && r.bufferLen == s.bufferLen + |d|)
  {
    hide WriteBuffer;
    var s1 := Append(s, d);
    assert WFBuffer(s1) && Stuck(s0, s1);
    StuckFlush(env, s0, s1);
  }

  lemma {:induction false} StuckLoop(env: Env, s0: Upd, s: Upd, data: seq<byte>)
    requires Stuck(s0, s) && WF(s) && s.chain.Checked? && s.chain.headerProcessed && Spent(s.chain.r)
    requires s.bufferLen + |data| <= s.size
    ensures var r := WriteLoop(env, s, data).0;
      && r.flash == s0.flash && (r.error == OK ==> Stuck(s0, r))
    decreases |data|, if s.bufferLen == SECTOR then 1 else 0
  {
    hide Fill;
    if data != [] {
      var l := Min(|data|, SECTOR - s.bufferLen);
      StuckFill(env, s0, s, data[..l]);
      FillConserves(env, s, data[..l]);
      var (s1, ok) := Fill(env, s, data[..l]);
      if ok {
        StuckLoop(env, s0, s1, data[l..]);
      }
    }
  }

  /** After a refused reply a session makes no flash call at all. */
  lemma SpentStays(env: Env, s0: Upd, t: seq<byte>, even: bool)
    requires WiredSession(env, s0) && Spent(s0.chain.r) && |t| <= s0.size
    ensures Write(env, s0, t).0.flash == s0.flash
    ensures End(env, Write(env, s0, t).0, even).0.flash == s0.flash
  {
    hide WriteLoop, WriteBuffer, ProcessEnd, Verified;
    StuckLoop(env, s0, s0, t);
    var s := Write(env, s0, t).0;
    if s.error == OK && s.bufferLen > 0 {
      StuckFlush(env, s0, s);
    }
  }

  // Magic bytes behind the reply

  /** A device that takes any reply. */
  ghost predicate TakesAnyReply(env: Env) {
    && env.trusted && (forall n :: env.known(n) && env.starts(n)) && (forall b :: env.chainOk(b))
    && (forall b :: env.parse(b).Some? && env.parse(b).value.digestType >= MD_SHA256)
  }

  ghost predicate AllMagic(d: seq<byte>) {
    forall i :: 0 <= i < |d| ==> d[i] == MAGIC
  }

  /** Past the line, with the payload to begin at `e`, and in the buffer nothing but the magic from there on. */
  ghost predicate Heading(s: Upd, e: nat) {
    && s.error == OK && s.buf.Some? && |s.buf.value| == SECTOR && s.bufferLen <= SECTOR
    && s.command == U_FLASH && !s.postHeader && s.progressFlash == 0
    && s.chain.Checked? && s.chain.headerProcessed && WellFormed(s.chain.r)
    && s.chain.r.phase != Init && !Spent(s.chain.r)
    && s.progress + Missing(s.chain.r) == e && s.progress + s.bufferLen <= s.size < WORD
    && forall i :: Missing(s.chain.r) <= i < s.bufferLen ==> s.buf.value[i] == MAGIC
  }

  /** The header is through and bytes wait for the first sector. */
  ghost predicate Arrived(s: Upd) {
    && s.error == OK && s.buf.Some? && s.command == U_FLASH && s.postHeader && s.chain.Checked? && s.size > 0
    && 0 < s.bufferLen && s.progress + s.bufferLen <= s.size < WORD
  }

  lemma FlushTouches(env: Env, s: Upd)
    requires WFBuffer(s) && s.postHeader && s.chain.Checked?
    ensures |WriteBuffer(env, s).0.flash.log| > |s.flash.log|
  {
    var data := Masked(s.buf.value, s.progressFlash == 0)[..s.bufferLen];
    var f1 := EraseSector(env.faults, s.flash, s.progressFlash).0;
    OneCallEach(env.faults, s.flash, s.progressFlash, data);
    OneCallEach(env.faults, f1, s.progressFlash, data);
    hide EraseSector, ProgramBytes, Masked;
  }

  lemma ArrivedFill(env: Env, s: Upd, d: seq<byte>)
    requires Arrived(s) && WF(s) && s.bufferLen + |d| <= SECTOR && s.progress + s.bufferLen + |d| <= s.size
    ensures var (r, ok) := Fill(env, s, d);
      || |r.flash.log| > |s.flash.log|
      || (ok && r.flash == s.flash && Arrived(r) && r.bufferLen == s.bufferLen + |d| && r.progress == s.progress
          && r.size == s.size)
  {
    hide WriteBuffer;
    var s1 := Append(s, d);
    assert WFBuffer(s1);
    FlushTouches(env, s1);
  }

  lemma {:induction false} ArrivedLoop(env: Env, s: Upd, data: seq<byte>)
    requires Arrived(s) && WF(s) && s.progress + s.bufferLen + |data| <= s.size
    ensures var r := WriteLoop(env, s, data).0;
      |r.flash.log| > |s.flash.log| || (r.flash == s.flash && Arrived(r))
    decreases |data|, if s.bufferLen == SECTOR then 1 else 0
  {
    hide Fill;
    if data != [] {
      var l := Min(|data|, SECTOR - s.bufferLen);
      ArrivedFill(env, s, data[..l]);
      var (s1, ok) := Fill(env, s, data[..l]);
      if ok && |s1.flash.log| > |s.flash.log| {
        StaysTouched(env, s, data[..l], data[l..]);
      } else if ok {
        ArrivedLoop(env, s1, data[l..]);
      }
    }
  }

  /** The log only grows. */
  lemma StaysTouched(env: Env, s: Upd, d: seq<byte>, rest: seq<byte>)
    requires WF(s) && s.buf.Some? && s.bufferLen + |d| <= SECTOR && s.command == U_FLASH
    ensures var (s1, ok) := Fill(env, s, d);
      ok ==> |WriteLoop(env, s1, rest).0.flash.log| >= |s1.flash.log|
  {
    hide Fill, WriteLoop;
    assert Alike(env, env, 0);
    SameFill(env, env, s, d, 0);
    var (s1, ok) := Fill(env, s, d);
    if ok {
      SameLoop(env, env, s1, rest, 0);
    }
  }

  lemma HeadingAppend(s: Upd, e: nat, d: seq<byte>)
    requires Heading(s, e) && AllMagic(d) && s.bufferLen + |d| <= SECTOR && s.progress + s.bufferLen + |d| <= s.size
    ensures Heading(Append(s, d), e)
  {
  }

  /** A reply that is complete with these bytes is taken on such a device. */
  lemma AnyReply(env: Env, r: Rfc3161, blob: seq<byte>)
    requires TakesAnyReply(env) && |blob| == r.blobLen
    ensures Verified(env, r.(blob := Some(blob), reply := env.parse(blob)))
  {
  }

  lemma ReplyFlush(env: Env, s: Upd, e: nat)
    requires Heading(s, e) && WFBuffer(s) && s.bufferLen > 0 && s.chain.r.phase == Rfc && TakesAnyReply(env)
    ensures var (r, ok) := WriteBuffer(env, s);
      && ok && Heading(r, e) && r.flash == s.flash
      && r.size == s.size && r.progress + r.bufferLen == s.progress + s.bufferLen
  {
    hide ProcessHeader, WriteBuffer, Verified, TakesAnyReply, WF;
    var buf, len, q := s.buf.value, s.bufferLen, Missing(s.chain.r);
    var l := Min(len, q);
    var blob := s.chain.r.blob.value + buf[..l];
    HeaderEffect(env, s);
    RfcSteps(env, s.chain, buf, len);
    if |blob| == s.chain.r.blobLen {
      AnyReply(env, s.chain.r, blob);
    }
    RfcAccepts(env, s.chain, buf, len);
    var h := ProcessHeader(env, s.chain, U_FLASH, buf, len);
    if |blob| == s.chain.r.blobLen {
      forall i | 0 <= i < h.len
        ensures h.buf[i] == MAGIC
      {
        assert h.buf[i] == h.buf[..h.len][i] == buf[l..len][i] == buf[l + i];
      }
    }
  }

  lemma MagicFlush(env: Env, s: Upd, e: nat)
    requires Heading(s, e) && WFBuffer(s) && s.bufferLen > 0 && s.chain.r.phase == Post
    ensures var (r, ok) := WriteBuffer(env, s);
      ok && Arrived(r) && r.flash == s.flash && r.size == s.size && r.progress + r.bufferLen == s.progress + s.bufferLen
  {
    hide ProcessHeader, WriteBuffer, WF;
    HeaderEffect(env, s);
    PostSteps(env, s.chain, s.buf.value, s.bufferLen);
  }

  lemma HeadingFill(env: Env, s: Upd, e: nat, d: seq<byte>)
    requires Heading(s, e) && WF(s) && AllMagic(d) && (d != [] || s.bufferLen > 0)
    requires s.bufferLen + |d| <= SECTOR && s.progress + s.bufferLen + |d| <= s.size
    requires s.chain.r.phase == Post || TakesAnyReply(env)
    ensures var (r, ok) := Fill(env, s, d);
      && ok && r.flash == s.flash && (Heading(r, e) || Arrived(r))
      && r.size == s.size && r.progress + r.bufferLen == s.progress + s.bufferLen + |d|
      && (r.chain.r.phase == Post || TakesAnyReply(env))
  {
    HeadingAppend(s, e, d);
    hide WriteBuffer, TakesAnyReply, AllMagic;
    var s1 := Append(s, d);
    assert WFBuffer(s1);
    if s1.chain.r.phase == Rfc {
      ReplyFlush(env, s1, e);
    } else {
      MagicFlush(env, s1, e);
      PostStays(env, s1);
    }
  }

  lemma PostStays(env: Env, s: Upd)
    requires WFBuffer(s) && !s.postHeader && s.command == U_FLASH && Past(s.chain)
    ensures WriteBuffer(env, s).0.chain == s.chain
  {
    hide WriteBuffer;
    BufferAsLegacy(env, s);
  }

  /** Magic bytes lead to the first sector: at the latest when a sector of them is behind the reply. */
  lemma {:induction false} HeadingLoop(env: Env, s: Upd, e: nat, data: seq<byte>)
    requires Heading(s, e) && WF(s) && AllMagic(data) && s.progress + s.bufferLen + |data| <= s.size
    requires s.chain.r.phase == Post || TakesAnyReply(env)
    ensures var r := WriteLoop(env, s, data).0;
      || |r.flash.log| > |s.flash.log|
      || (r.flash == s.flash && Arrived(r))
      || (Heading(r, e) && r.progress + r.bufferLen == s.progress + s.bufferLen + |data|)
    decreases |data|, if s.bufferLen == SECTOR then 1 else 0
  {
    hide Fill, Heading, Arrived, TakesAnyReply;
    if data != [] {
      var l := Min(|data|, SECTOR - s.bufferLen);
      assert AllMagic(data[..l]) && AllMagic(data[l..]);
      HeadingHas(s, e);
      HeadingFill(env, s, e, data[..l]);
      var (s1, ok) := Fill(env, s, data[..l]);
      if Heading(s1, e) {
        HeadingLoop(env, s1, e, data[l..]);
      } else {
        ArrivedLoop(env, s1, data[l..]);
      }
    }
  }

  lemma HeadingHas(s: Upd, e: nat)
    requires Heading(s, e)
    ensures s.buf.Some? && s.chain.Checked?
  {
  }

  /** So the session ends with a flash call. */
  lemma HeadingEnds(env: Env, s: Upd, e: nat, data: seq<byte>)
    requires Heading(s, e) && WF(s) && AllMagic(data) && s.progress + s.bufferLen + |data| <= s.size
    requires s.chain.r.phase == Post || TakesAnyReply(env)
    requires s.progress + s.bufferLen + |data| >= e + SECTOR
    ensures var r := WriteLoop(env, s, data).0;
      r.flash != s.flash || End(env, r, true).0.flash != s.flash
  {
    hide WriteLoop, TakesAnyReply;
    HeadingLoop(env, s, e, data);
    var r := WriteLoop(env, s, data).0;
    if r.flash == s.flash {
      FlushTouches(env, r);
      hide WriteBuffer;
    }
  }

  function Magics(n: nat): (r: seq<byte>)
    ensures |r| == n && AllMagic(r)
  {
    seq(n, i => MAGIC)
  }

  /** Past an accepted reply every device lets the magic through, in every session. */
  lemma PastLeaks(env: Env, s0: Upd)
    requires WiredSession(env, s0) && s0.chain.r.phase == Post
    ensures !KeepsGate(env, s0, Magics(Min(s0.size, SECTOR)))
  {
    hide Write, GateOpen, Verified;
    var t := Magics(Min(s0.size, SECTOR));
    MagicIsNoLine(env, true, t);
    BufferIsTaken(env, s0, t);
    var s := Write(env, s0, t).0;
    FlushTouches(env, s);
    hide WriteBuffer;
    assert End(env, s, true).0.flash != s0.flash;
  }

  /** In front of missing reply bytes, a device that takes any reply. */
  lemma ReplyLeaks(env: Env, s0: Upd)
    requires WiredSession(env, s0) && s0.chain.r.phase == Rfc && !Spent(s0.chain.r) && TakesAnyReply(env)
    requires Missing(s0.chain.r) + SECTOR <= s0.size
    ensures !KeepsGate(env, s0, Magics(Missing(s0.chain.r) + SECTOR))
  {
    hide WriteLoop, End, GateOpen, TakesAnyReply;
    var e := Missing(s0.chain.r);
    var t := Magics(e + SECTOR);
    MagicIsNoLine(env, true, t);
    HeadingEnds(env, s0, e, t);
  }

  /** A sector with a line for no device, and a reply of four bytes. */
  function OtherStart(): (r: seq<byte>)
    ensures |r| == SECTOR && r[..|REDWAX|] == REDWAX && r[SECTOR - 5] == LF
    ensures r[SECTOR - 4..] == [0x30, 0x82, 0, 0]
    ensures forall i :: |REDWAX| <= i < SECTOR - 5 ==> r[i] == 0
  {
    REDWAX + seq(SECTOR - 14, i => 0) + [LF, 0x30, 0x82, 0, 0]
  }

  lemma RedWaxIsClean()
    ensures LF !in REDWAX && SPACE !in REDWAX
  {
  }

  lemma OtherLine()
    ensures IndexOf(OtherStart(), LF) == Some(SECTOR - 5) && SPACE !in OtherStart()[..SECTOR - 5]
  {
    RedWaxIsClean();
    hide Ascii, OtherStart, IndexOf;
    var r := OtherStart();
    forall i | 0 <= i < SECTOR - 5
      ensures r[i] != LF && r[i] != SPACE
    {
      if i < |REDWAX| {
        assert r[i] == r[..|REDWAX|][i];
      }
    }
    IndexOfIs(r, LF, SECTOR - 5);
  }

  lemma LeastLength()
    ensures DerLength(0, 0) == 4
  {
  }

  lemma OtherLength(n: nat)
    ensures LengthField(OtherStart(), SECTOR - 4, n) <==> n == 4
  {
    LeastLength();
    hide DerLength, OtherStart;
    var r := OtherStart();
    assert r[SECTOR - 4] == r[SECTOR - 4..][0] && r[SECTOR - 3] == r[SECTOR - 4..][1];
    assert r[SECTOR - 2] == r[SECTOR - 4..][2] && r[SECTOR - 1] == r[SECTOR - 4..][3];
  }

  lemma NoDeviceMatches(env: Env, line: seq<byte>)
    requires SPACE !in line
    ensures !DeviceMatches(env, line)
  {
    hide ValueFromHeader;
  }

  lemma OtherIsShut(env: Env, t: seq<byte>)
    requires OtherStart() <= t
    ensures !GateOpen(env, true, t)
  {
    hide DeviceMatches, OtherStart, IndexOf, Ascii, LengthField, LineLength;
    OtherLine();
    var p := OtherStart();
    IndexOfPrefix(p, t[|p|..], LF);
    assert p + t[|p|..] == t;
    assert t[..SECTOR - 5] == p[..SECTOR - 5];
    NoDeviceMatches(env, p[..SECTOR - 5]);
  }

  /** Past a line whose reply could not be begun, the next line is not held against the device. */
  lemma OtherStarts(env: Env, s0: Upd)
    requires WiredSession(env, s0) && s0.chain.r.phase == Init && s0.chain.headerProcessed && env.blobOk(4)
    requires SECTOR < s0.size
    ensures var (s, ok) := Fill(env, s0, OtherStart());
      ok && Heading(s, SECTOR) && s.flash == s0.flash && s.size == s0.size && s.progress + s.bufferLen == SECTOR
  {
    hide OtherStart, RfcInit, LengthField, LinePasses, Ascii, IndexOf, DeviceMatches;
    OtherLine();
    var p := OtherStart();
    var s := Append(s0, p);
    OtherLength(4);
    OtherLength(RfcInit(env, s.chain.r, U_FLASH, p, SECTOR).st.blobLen);
    assert s.buf.value == p && p[..SECTOR] == p;
    RfcInitAccepts(env, s.chain.r, p, SECTOR - 5, 4);
    RfcInitSteps(env, s.chain.r, p, SECTOR);
    HeaderEffect(env, s);
    hide WriteBuffer;
  }

  lemma LineLeaks(env: Env, s0: Upd)
    requires WiredSession(env, s0) && s0.chain.r.phase == Init && s0.chain.headerProcessed
    requires TakesAnyReply(env) && env.blobOk(4) && 2 * SECTOR <= s0.size
    ensures !KeepsGate(env, s0, OtherStart() + Magics(SECTOR))
  {
    hide Fill, End, GateOpen, TakesAnyReply, OtherStart, Heading;
    var p, m := OtherStart(), Magics(SECTOR);
    OtherIsShut(env, p + m);
    OtherStarts(env, s0);
    var s := Fill(env, s0, p).0;
    assert (p + m)[..SECTOR] == p && (p + m)[SECTOR..] == m;
    HeadingEnds(env, s, SECTOR, m);
  }

  /** A session in front of the chain `c`, on a partition of eight sectors. */
  function SessionOf(c: Chain): Upd {
    Upd(OK, Some(Magics(SECTOR)), 0, 8 * SECTOR, 0, 0, U_FLASH, true, false, c, Flash(Magics(8 * SECTOR), [Session]))
  }

  lemma SessionOfBegun(c: Chain)
    requires ChainWellFormed(c)
    ensures Begun(SessionOf(c))
  {
  }

  lemma WorkingTakesAny(model: seq<byte>, hw: seq<byte>)
    ensures var env := WorkingDevice(model, hw); TakesAnyReply(env) && env.blobOk(4) && !env.legacyAllowed
  {
  }

  /** From any other state of the chain a session, on some device, lets a stream through that does not open the gate. */
  lemma OthersLeak(env0: Env, c: Chain) returns (env: Env, s0: Upd, t: seq<byte>)
    requires WiredChain(env0, c) && !env0.legacyAllowed && c.headerProcessed && !Spent(c.r)
    ensures WiredSession(env, s0) && s0.chain == c && !KeepsGate(env, s0, t)
  {
    hide Verified, SessionOf, KeepsGate, WorkingDevice, TakesAnyReply;
    SessionOfBegun(c);
    WorkingTakesAny(env0.model, env0.hwRev);
    s0 := SessionOf(c);
    SessionParts(c);
    match c.r.phase
    case Post =>
      env, t := env0, Magics(Min(s0.size, SECTOR));
      PastLeaks(env, s0);
    case Rfc =>
      env, t := WorkingDevice(env0.model, env0.hwRev), Magics(Missing(c.r) + SECTOR);
      ReplyLeaks(env, s0);
    case Init =>
      env, t := WorkingDevice(env0.model, env0.hwRev), OtherStart() + Magics(SECTOR);
      LineLeaks(env, s0);
  }

  lemma SessionParts(c: Chain)
    ensures SessionOf(c).chain == c && SessionOf(c).size == 8 * SECTOR
  {
  }

  /**
   The exact reach of the gate: for a state the wired chain can be in, every session on every device keeps it if
   and only if no line has been processed or the reply is complete and was refused.
   */
  lemma GateExact(env0: Env, c: Chain)
    requires WiredChain(env0, c) && !env0.legacyAllowed
    ensures (forall env: Env, s0: Upd, t: seq<byte> :: WiredSession(env, s0) && s0.chain == c ==> KeepsGate(env, s0, t))
       <==> !c.headerProcessed || Spent(c.r)
  {
    hide KeepsGate, WiredChain;
    WiredParts(env0, c);
    if !c.headerProcessed || Spent(c.r) {
      forall env: Env, s0: Upd, t: seq<byte> | WiredSession(env, s0) && s0.chain == c
        ensures KeepsGate(env, s0, t)
      {
        FrontKeeps(env, s0, t);
      }
    } else {
      var env, s0, t := OthersLeak(env0, c);
    }
  }

  lemma FrontKeeps(env: Env, s0: Upd, t: seq<byte>)
    requires WiredSession(env, s0) && (!s0.chain.headerProcessed || Spent(s0.chain.r))
    ensures KeepsGate(env, s0, t)
  {
    hide Write, End, GateOpen, Spent;
    if |t| <= s0.size && !GateOpen(env, true, t) {
      if Spent(s0.chain.r) {
        SpentStays(env, s0, t, true);
        SpentStays(env, s0, t, false);
      } else {
        HeaderGate(env, s0, t, true);
        HeaderGate(env, s0, t, false);
      }
    }
  }
}
