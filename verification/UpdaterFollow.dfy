/**
 Where every byte of an upload is while nothing has failed. The stream is a header line, a time
 stamp reply, and the payload; the updater's state is a function of how much of it has come in.
 */
module UpdaterFollow {
  import opened Bytes
  import opened FlashModel
  import opened ProcessorSpec
  import opened ProcessorFacts
  import opened UpdaterSpec
  import opened UpdaterStream

  /** A session that `begin` has just opened. */
  ghost predicate Begun(s: Upd) {
    && WF(s) && s.error == OK && s.buf.Some? && s.size > 0 && s.command == U_FLASH && s.selected
    && s.bufferLen == s.progress == s.progressFlash == 0 && !s.postHeader && s.size <= |s.flash.bytes|
  }

  /** The same, in front of fresh processors. */
  ghost predicate Started(s: Upd) {
    Begun(s) && (!s.chain.Legacy? ==> Waiting(s.chain) && s.chain.r.md == NoCtx)
  }

  /** And with headers required: the RFC 3161 processor in place and legacy uploads off. */
  ghost predicate Opened(env: Env, s: Upd) {
    Started(s) && !s.chain.Legacy? && !env.legacyAllowed
  }

  /** Length of the header line, its line feed included. */
  function LineLength(t: seq<byte>): nat {
    match IndexOf(t, LF) case None => 0 case Some(i) => i + 1
  }

  /** The payload as it lies in flash before activation: without its first byte. */
  function Withhold(p: seq<byte>): (r: seq<byte>)
    ensures |r| == |p|
  {
    if p == [] then [] else [0xFF as byte] + p[1..]
  }

  /** The stream `t` accepted so far, and the buffer holding what follows the first `progress` bytes. */
  ghost predicate Holds(s0: Upd, t: seq<byte>, s: Upd) {
    Held(s0, t, s) && !s.chain.Legacy? && s.chain.Checked? == s0.chain.Checked?
  }

  ghost predicate Held(s0: Upd, t: seq<byte>, s: Upd) {
    && s.error == OK && s.buf.Some? && |s.buf.value| == SECTOR && s.bufferLen <= SECTOR
    && s.size == s0.size && s.command == U_FLASH && s.selected == s0.selected
    && s.progress + s.bufferLen == |t| <= s.size
    && s.buf.value[..s.bufferLen] == t[s.progress..]
  }

  ghost predicate BeforeLine(s0: Upd, s: Upd) {
    s.progress == s.progressFlash == 0 && !s.postHeader && s.flash == s0.flash && s.chain == s0.chain
  }

  /** The line is off, it passed, and the reply has the length its DER header announces. */
  ghost predicate PastLine(env: Env, s0: Upd, t: seq<byte>, s: Upd)
    requires Holds(s0, t, s)
  {
    var h := LineLength(t);
    && LinePasses(env, s.chain.Checked?, t)
    && (s.chain.Checked? ==> s.chain.headerProcessed)
    && WellFormed(s.chain.r)
    && h <= s.progress
    && (h + 4 <= Min(SECTOR, s0.size) ==> LengthField(t, h, s.chain.r.blobLen))
  }

  ghost predicate InReply(s0: Upd, t: seq<byte>, s: Upd)
    requires Holds(s0, t, s)
  {
    var h := LineLength(t);
    var r := s.chain.r;
    && !s.postHeader && s.progressFlash == 0 && s.flash == s0.flash && r.md == NoCtx
    && r.blob.Some? && |r.blob.value| < r.blobLen
    && s.progress == h + |r.blob.value| && r.blob.value == t[h..s.progress]
  }

  ghost predicate InPayload(env: Env, s0: Upd, t: seq<byte>, s: Upd)
    requires Holds(s0, t, s)
  {
    var h := LineLength(t);
    var r := s.chain.r;
    var e := h + r.blobLen;
    && Verified(env, r) && s.progress == e + s.progressFlash && r.blob.value == t[h..e]
    && r.md == Running(if s.chain.Checked? then [] else t[e..s.progress])
    && (s.postHeader ==> e < |t| && t[e] == MAGIC && (e + SECTOR <= |t| || |t| == s.size))
    && (!s.postHeader ==> s.progressFlash == 0)
    && (s.progressFlash == 0 ==> s.flash == s0.flash)
    && s.progressFlash <= |s.flash.bytes| == |s0.flash.bytes|
    && s.flash.bytes[..s.progressFlash] == Withhold(t[e..s.progress])
  }

  /** `s` is where the updater is once it has accepted the stream `t` in the session `s0`. */
  ghost predicate Follows(env: Env, s0: Upd, t: seq<byte>, s: Upd) {
    && Holds(s0, t, s)
    && match s.chain.r.phase
       case Init => BeforeLine(s0, s)
       case Rfc => PastLine(env, s0, t, s) && InReply(s0, t, s)
       case Post => PastLine(env, s0, t, s) && InPayload(env, s0, t, s)
  }

  /**
   Without a header, as the legacy processor takes it and the RFC 3161 processor where that is allowed:
   all of the stream is payload, and the processor is left as it was.
   */
  ghost predicate Plain(env: Env, s0: Upd, t: seq<byte>, s: Upd) {
    && Held(s0, t, s) && s.chain == s0.chain && s.progress == s.progressFlash
    && (s.chain.Legacy? || (s.postHeader && env.legacyAllowed && s.chain.Signed?))
    && (s.postHeader ==> t != [] && t[0] == MAGIC)
    && (!s.postHeader ==> s.progressFlash == 0)
    && (s.progressFlash == 0 ==> s.flash == s0.flash)
    && s.progressFlash <= |s.flash.bytes| == |s0.flash.bytes|
    && s.flash.bytes[..s.progressFlash] == Withhold(t[..s.progress])
  }

  lemma OpenedFollows(env: Env, s0: Upd)
    requires Opened(env, s0)
    ensures Follows(env, s0, [], s0)
  {
  }

  /** What `_writeBuffer` is called on: a full buffer, or the end of the announced size. */
  ghost predicate Due(s: Upd) {
    s.bufferLen == SECTOR || s.bufferLen == s.size - s.progress
  }

  /** The header branch as one update of the state. */
  lemma HeaderEffect(env: Env, s: Upd)
    requires WFBuffer(s) && !s.postHeader && Fits(s, 0)
    ensures var h := ProcessHeader(env, s.chain, s.command, s.buf.value, s.bufferLen);
            var (r, ok) := WriteBuffer(env, s);
      && r.flash == s.flash
      && (ok <==> h.verdict == Ok || (h.verdict == Again && h.len < SECTOR && h.len < s.size))
      && (ok ==> r == s.(chain := h.st, buf := Some(h.buf), bufferLen := h.len,
                         progress := s.progress + s.bufferLen - h.len, postHeader := h.verdict == Ok))
  {
    hide ProcessHeader;
    hide PayloadStep;
  }

  /** The payload branch as one update of the state. */
  lemma PayloadEffect(env: Env, s: Upd)
    requires WFBuffer(s) && s.postHeader && Fits(s, 0)
    ensures var data := s.buf.value[..s.bufferLen];
            var buf := Masked(s.buf.value, s.progressFlash == 0);
            var (c, v) := ProcessPayload(env, s.chain, data);
            var (f1, erased) := EraseSector(env.faults, s.flash, s.progressFlash);
            var (f2, programmed) := ProgramBytes(env.faults, f1, s.progressFlash, buf[..s.bufferLen]);
            var (r, ok) := WriteBuffer(env, s);
      && (ok <==> v == Ok && erased && programmed)
      && (ok ==> r == s.(chain := c, buf := Some(buf), bufferLen := 0, flash := f2,
                         progressFlash := s.progressFlash + s.bufferLen, progress := s.progress + s.bufferLen))
  {
    hide ProcessPayload;
    hide HeaderStep;
    hide EraseSector;
    hide ProgramBytes;
  }

  lemma InitFollows(env: Env, s0: Upd, t: seq<byte>, s: Upd)
    requires Started(s0) && Follows(env, s0, t, s) && WFBuffer(s) && s.chain.r.phase == Init
    requires Due(s) && s.bufferLen > 0
    ensures var (r, ok) := WriteBuffer(env, s);
      ok ==> Follows(env, s0, t, r) || (env.legacyAllowed && Plain(env, s0, t, r))
    ensures var (r, ok) := WriteBuffer(env, s); r.flash == s0.flash
  {
    hide ProcessHeader;
    hide WriteBuffer;
    hide WFBuffer;
    hide WF;
    hide LengthField;
    hide LinePasses;
    hide Verified;
    hide LineLength;
    HeaderEffect(env, s);
    var buf := s.buf.value;
    assert buf[..s.bufferLen] == t;
    InitSteps(env, s.chain, buf, s.bufferLen);
    var h := ProcessHeader(env, s.chain, U_FLASH, buf, s.bufferLen);
    if h.verdict == Again && s.bufferLen >= MIN_HEADER {
      LineFound(env, s.chain.Checked?, t);
      var p := LineLength(t);
      assert buf[p..s.bufferLen] == t[p..] && t[p..p] == [];
    }
  }

  lemma LineFound(env: Env, checked: bool, t: seq<byte>)
    requires LinePasses(env, checked, t)
    ensures LF in t && LineLength(t) == IndexOf(t, LF).value + 1 <= |t|
  {
    hide DeviceMatches;
  }

  lemma SplitReply(t: seq<byte>, h: nat, p: nat, buf: seq<byte>, n: nat, l: nat)
    requires h <= p <= |t| && l <= n <= |buf| && buf[..n] == t[p..]
    ensures t[h..p] + buf[..l] == t[h..p + l] && buf[l..n] == t[p + l..]
  {
    assert buf[..l] == buf[..n][..l] && buf[l..n] == buf[..n][l..];
  }

  /** The reply grows by what the buffer holds of it, and is verified once it is complete. */
  lemma RfcMoves(env: Env, s0: Upd, t: seq<byte>, s: Upd)
    requires Follows(env, s0, t, s) && WFBuffer(s) && s.chain.r.phase == Rfc
    ensures var (r, ok) := WriteBuffer(env, s);
            var h := LineLength(t);
            var l := Min(s.bufferLen, s.chain.r.blobLen - |s.chain.r.blob.value|);
            var p := s.progress + l;
      && r.flash == s.flash
      && (ok ==>
        && r.buf.Some? && |r.buf.value| == SECTOR && r.buf.value[..s.bufferLen - l] == t[p..]
        && r == s.(chain := r.chain, buf := r.buf, bufferLen := s.bufferLen - l, progress := p)
        && !r.chain.Legacy? && r.chain.Checked? == s.chain.Checked? && (r.chain.Checked? ==> r.chain.headerProcessed)
        && r.chain.r.blob == Some(t[h..p]) && r.chain.r.blobLen == s.chain.r.blobLen && WellFormed(r.chain.r)
        && if p - h < s.chain.r.blobLen
           then r.chain.r.phase == Rfc && r.chain.r.md == NoCtx
           else r.chain.r.phase == Post && r.chain.r.md == Running([]) && Verified(env, r.chain.r))
  {
    hide ProcessHeader;
    hide WriteBuffer;
    hide WFBuffer;
    hide WF;
    hide LengthField;
    hide LinePasses;
    hide Verified;
    hide LineLength;
    HeaderEffect(env, s);
    RfcSteps(env, s.chain, s.buf.value, s.bufferLen);
    var l := Min(s.bufferLen, s.chain.r.blobLen - |s.chain.r.blob.value|);
    SplitReply(t, LineLength(t), s.progress, s.buf.value, s.bufferLen, l);
  }

  lemma RfcFollows(env: Env, s0: Upd, t: seq<byte>, s: Upd)
    requires Follows(env, s0, t, s) && WFBuffer(s) && s.chain.r.phase == Rfc
    ensures var (r, ok) := WriteBuffer(env, s); ok ==> Follows(env, s0, t, r)
    ensures var (r, ok) := WriteBuffer(env, s); r.flash == s0.flash
  {
    hide WriteBuffer;
    hide WFBuffer;
    hide LengthField;
    hide LinePasses;
    hide Verified;
    hide LineLength;
    RfcMoves(env, s0, t, s);
    var p := WriteBuffer(env, s).0.progress;
    assert p <= |t| ==> t[p..p] == [];
  }

  lemma PostFollows(env: Env, s0: Upd, t: seq<byte>, s: Upd)
    requires Follows(env, s0, t, s) && WFBuffer(s) && s.chain.r.phase == Post && !s.postHeader
    requires s.bufferLen > 0 && Due(s)
    ensures var (r, ok) := WriteBuffer(env, s); ok ==> Follows(env, s0, t, r)
    ensures var (r, ok) := WriteBuffer(env, s); ok <==> t[s.progress] == MAGIC
    ensures var (r, ok) := WriteBuffer(env, s); r.flash == s0.flash
  {
    hide ProcessHeader;
    hide WriteBuffer;
    hide WFBuffer;
    hide WF;
    hide LengthField;
    hide LinePasses;
    hide Verified;
    hide LineLength;
    HeaderEffect(env, s);
    var buf := s.buf.value;
    PostSteps(env, s.chain, buf, s.bufferLen);
    assert buf[0] == buf[..s.bufferLen][0] == t[s.progress];
  }

  lemma ProgramErased(x: Faults, f: Flash, at: nat, data: seq<byte>)
    requires |data| <= SECTOR
    ensures var (f1, ok1) := EraseSector(x, f, at);
            var (f2, ok2) := ProgramBytes(x, f1, at, data);
      ok1 && ok2 ==> f2.bytes[..at + |data|] == f.bytes[..at] + data
  {
    var (f1, ok1) := EraseSector(x, f, at);
    var (f2, ok2) := ProgramBytes(x, f1, at, data);
    if ok1 && ok2 {
      forall i | 0 <= i < at + |data| ensures f2.bytes[i] == (f.bytes[..at] + data)[i] {
        if i >= at {
          KeepsFF(data[i - at], 0);
        }
      }
    }
  }

  lemma WithholdTail(t: seq<byte>, e: nat, p: nat)
    requires e <= p <= |t|
    ensures t[e..p] + t[p..] == t[e..]
    ensures Withhold(t[e..p]) + (if p == e then Withhold(t[p..]) else t[p..]) == Withhold(t[e..])
  {
  }

  lemma WithholdFront(buf: seq<byte>, n: nat)
    requires 0 < n <= |buf|
    ensures buf[0 := 0xFF][..n] == Withhold(buf[..n])
  {
  }

  /** What goes to flash for the last `n` bytes of a stream whose payload starts at `e`. */
  lemma Outgoing(t: seq<byte>, e: nat, p: nat, buf: seq<byte>, n: nat)
    requires e <= p && p + n == |t| && 0 < n <= |buf| == SECTOR && buf[..n] == t[p..]
    ensures Withhold(t[e..p]) + Masked(buf, p == e)[..n] == Withhold(t[e..])
    ensures t[e..p] + buf[..n] == t[e..]
  {
    hide Withhold;
    WithholdTail(t, e, p);
    if p == e {
      WithholdFront(buf, n);
    }
  }

  lemma VerifiedWhatever(env: Env, r: Rfc3161, md: MdCtx)
    requires Verified(env, r)
    ensures Verified(env, r.(md := md))
  {
  }

  /** The processor's answer to a payload buffer: behind the device check always yes, else the bytes are hashed. */
  lemma PayloadAnswer(env: Env, c: Chain, done: seq<byte>, data: seq<byte>)
    requires !c.Legacy? && c.r.blob.Some? && c.r.md == Running(if c.Checked? then [] else done)
    ensures ProcessPayload(env, c, data).1 == Ok ==>
              ProcessPayload(env, c, data).0 == if c.Checked? then c else Signed(c.r.(md := Running(done + data)))
  {
  }

  /** A flushed buffer: all of `t` is hashed and in flash, and the counters say so. */
  lemma PayloadMoves(env: Env, s0: Upd, t: seq<byte>, s: Upd)
    requires Follows(env, s0, t, s) && WFBuffer(s) && s.postHeader && s.bufferLen > 0
    ensures s.chain.r.phase == Post
    ensures var (r, ok) := WriteBuffer(env, s);
            var e := LineLength(t) + s.chain.r.blobLen;
      ok ==>
        && r.buf.Some? && |r.buf.value| == SECTOR
        && r == s.(chain := r.chain, buf := r.buf, bufferLen := 0, flash := r.flash,
                   progressFlash := s.progressFlash + s.bufferLen, progress := |t|)
        && r.chain == (if s.chain.Checked? then s.chain else Signed(s.chain.r.(md := Running(t[e..]))))
        && |r.flash.bytes| == |s.flash.bytes| && r.progressFlash <= |s.flash.bytes|
        && r.flash.bytes[..r.progressFlash] == Withhold(t[e..])
  {
    hide WriteBuffer;
    hide WFBuffer;
    hide WF;
    hide LengthField;
    hide LinePasses;
    hide Verified;
    hide LineLength;
    hide EraseSector;
    hide ProgramBytes;
    hide Withhold;
    hide Masked;
    hide ProcessPayload;
    var e := LineLength(t) + s.chain.r.blobLen;
    var buf := Masked(s.buf.value, s.progressFlash == 0);
    PayloadEffect(env, s);
    PayloadAnswer(env, s.chain, t[e..s.progress], s.buf.value[..s.bufferLen]);
    Outgoing(t, e, s.progress, s.buf.value, s.bufferLen);
    ProgramErased(env.faults, s.flash, s.progressFlash, buf[..s.bufferLen]);
  }

  lemma PayloadPlaced(env: Env, s0: Upd, t: seq<byte>, s: Upd, r: Upd)
    requires Holds(s0, t, s) && InPayload(env, s0, t, s) && s.postHeader && Holds(s0, t, r) && r.postHeader
    requires var e := LineLength(t) + s.chain.r.blobLen;
      && r.chain == (if s.chain.Checked? then s.chain else Signed(s.chain.r.(md := Running(t[e..]))))
      && r.progressFlash == |t| - e && r.progress == |t| && r.progressFlash > 0
      && r.progressFlash <= |r.flash.bytes| == |s0.flash.bytes| && r.flash.bytes[..r.progressFlash] == Withhold(t[e..])
    ensures InPayload(env, s0, t, r)
  {
    hide Verified, LineLength, Withhold;
    var e := LineLength(t) + s.chain.r.blobLen;
    assert t[e..|t|] == t[e..];
    VerifiedWhatever(env, s.chain.r, Running(t[e..]));
  }

  lemma PayloadFollows(env: Env, s0: Upd, t: seq<byte>, s: Upd)
    requires Follows(env, s0, t, s) && WFBuffer(s) && s.postHeader && s.bufferLen > 0
    ensures var (r, ok) := WriteBuffer(env, s); ok ==> Follows(env, s0, t, r)
  {
    hide WriteBuffer;
    hide WFBuffer;
    hide WF;
    hide LengthField;
    hide LinePasses;
    hide Verified;
    hide LineLength;
    hide Withhold;
    PayloadMoves(env, s0, t, s);
    assert t[|t|..] == [];
    var (r, ok) := WriteBuffer(env, s);
    if ok {
      PayloadPlaced(env, s0, t, s, r);
    }
  }

  /** `_writeBuffer` keeps the updater where the stream says, unless it fails. */
  lemma FlushFollows(env: Env, s0: Upd, t: seq<byte>, s: Upd)
    requires Opened(env, s0) && Follows(env, s0, t, s) && WFBuffer(s) && s.bufferLen > 0
    requires s.postHeader || Due(s)
    ensures var (r, ok) := WriteBuffer(env, s); ok ==> Follows(env, s0, t, r)
  {
    hide WriteBuffer;
    hide WFBuffer;
    hide PastLine;
    if s.postHeader {
      PayloadFollows(env, s0, t, s);
    } else {
      match s.chain.r.phase
      case Init => InitFollows(env, s0, t, s);
      case Rfc => RfcFollows(env, s0, t, s);
      case Post => PostFollows(env, s0, t, s);
    }
  }

  /** More bytes do not change what the line says. */
  lemma LineMore(env: Env, checked: bool, t: seq<byte>, d: seq<byte>)
    requires LinePasses(env, checked, t)
    ensures LinePasses(env, checked, t + d) && LineLength(t + d) == LineLength(t) <= |t|
  {
    hide DeviceMatches;
    IndexOfPrefix(t, d, LF);
    assert (t + d)[..|REDWAX|] == t[..|REDWAX|];
    assert (t + d)[..IndexOf(t, LF).value] == t[..IndexOf(t, LF).value];
  }

  lemma SliceMore(t: seq<byte>, d: seq<byte>, i: nat, j: nat)
    requires i <= j <= |t|
    ensures (t + d)[i..j] == t[i..j]
  {
  }

  lemma AppendHolds(s0: Upd, t: seq<byte>, s: Upd, d: seq<byte>)
    requires Held(s0, t, s) && s.bufferLen + |d| <= SECTOR && |t| + |d| <= s.size
    ensures var r := Append(s, d);
      Held(s0, t + d, r) && r == s.(buf := r.buf, bufferLen := r.bufferLen)
  {
    var r := Append(s, d);
    assert r.buf.value[..r.bufferLen] == s.buf.value[..s.bufferLen] + d;
    assert (t + d)[s.progress..] == t[s.progress..] + d;
  }

  lemma PastLineMore(env: Env, s0: Upd, t: seq<byte>, s: Upd, d: seq<byte>, r: Upd)
    requires Holds(s0, t, s) && PastLine(env, s0, t, s) && Holds(s0, t + d, r)
    requires r.chain == s.chain && r.progress == s.progress
    ensures PastLine(env, s0, t + d, r) && LineLength(t + d) == LineLength(t)
  {
    hide LinePasses;
    hide LineLength;
    LineMore(env, s.chain.Checked?, t, d);
  }

  lemma InReplyMore(s0: Upd, t: seq<byte>, s: Upd, d: seq<byte>, r: Upd)
    requires Holds(s0, t, s) && InReply(s0, t, s) && Holds(s0, t + d, r)
    requires r == s.(buf := r.buf, bufferLen := r.bufferLen) && LineLength(t + d) == LineLength(t)
    ensures InReply(s0, t + d, r)
  {
    hide LineLength;
    SliceMore(t, d, LineLength(t), s.progress);
  }

  lemma InPayloadMore(env: Env, s0: Upd, t: seq<byte>, s: Upd, d: seq<byte>, r: Upd)
    requires Holds(s0, t, s) && InPayload(env, s0, t, s) && Holds(s0, t + d, r)
    requires r == s.(buf := r.buf, bufferLen := r.bufferLen) && LineLength(t + d) == LineLength(t)
    ensures InPayload(env, s0, t + d, r)
  {
    hide LineLength, Verified, Withhold;
    var h := LineLength(t);
    var e := h + s.chain.r.blobLen;
    SliceMore(t, d, h, e);
    SliceMore(t, d, e, s.progress);
  }

  lemma AppendFollows(env: Env, s0: Upd, t: seq<byte>, s: Upd, d: seq<byte>)
    requires Follows(env, s0, t, s) && s.bufferLen + |d| <= SECTOR && |t| + |d| <= s.size
    ensures Follows(env, s0, t + d, Append(s, d))
  {
    hide PastLine, InReply, InPayload, LineLength, Append;
    AppendHolds(s0, t, s, d);
    var r := Append(s, d);
    if s.chain.r.phase != Init {
      PastLineMore(env, s0, t, s, d, r);
      if s.chain.r.phase == Rfc {
        InReplyMore(s0, t, s, d, r);
      } else {
        InPayloadMore(env, s0, t, s, d, r);
      }
    }
  }

  lemma FillFollows(env: Env, s0: Upd, t: seq<byte>, s: Upd, d: seq<byte>)
    requires Opened(env, s0) && WF(s) && Follows(env, s0, t, s)
    requires s.bufferLen + |d| <= SECTOR && |t| + |d| <= s.size && (d != [] || s.bufferLen == SECTOR)
    ensures var (r, ok) := Fill(env, s, d); ok ==> Follows(env, s0, t + d, r)
  {
    hide WriteBuffer;
    hide PastLine;
    hide InReply;
    hide InPayload;
    AppendFollows(env, s0, t, s, d);
    var s1 := Append(s, d);
    if s1.bufferLen == SECTOR || s1.bufferLen == Remaining(s1) {
      FlushFollows(env, s0, t + d, s1);
    }
  }

  lemma {:induction false} LoopFollows(env: Env, s0: Upd, t: seq<byte>, s: Upd, data: seq<byte>)
    requires Opened(env, s0) && WF(s) && s.buf.Some? && Follows(env, s0, t, s) && |t| + |data| <= s.size
    ensures var r := WriteLoop(env, s, data).0; r.error == OK ==> Follows(env, s0, t + data, r)
    decreases |data|, if s.bufferLen == SECTOR then 1 else 0
  {
    hide Fill;
    hide PastLine;
    hide InReply;
    hide InPayload;
    hide BeforeLine;
    if data == [] {
      assert t + data == t;
    } else {
      var l := Min(|data|, SECTOR - s.bufferLen);
      FillFollows(env, s0, t, s, data[..l]);
      FillConserves(env, s, data[..l]);
      var (s1, ok) := Fill(env, s, data[..l]);
      if ok {
        LoopFollows(env, s0, t + data[..l], s1, data[l..]);
        assert t + data[..l] + data[l..] == t + data;
      }
    }
  }

  /**
   After a `write` that leaves no error, every byte of the stream is stripped with the line, kept
   as the reply, in flash, or next in the buffer.
   */
  lemma HeadedBytesConserved(env: Env, s0: Upd, t: seq<byte>)
    requires Opened(env, s0) && |t| <= s0.size
    ensures var s := Write(env, s0, t).0; s.error == OK ==> Follows(env, s0, t, s)
  {
    hide WriteLoop;
    hide Follows;
    OpenedFollows(env, s0);
    LoopFollows(env, s0, [], s0, t);
    assert [] + t == t;
  }
}
