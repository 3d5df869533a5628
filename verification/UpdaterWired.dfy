/**
 What the end of an upload means behind the device check, the chain the service installs. That chain never
 looks at the digest, and `end` never at its own last flush, so the answer of `end` alone promises nothing
 about the flash.
 */
module UpdaterWired {
  import opened Bytes
  import opened FlashModel
  import opened ProcessorSpec
  import opened ProcessorFacts
  import opened UpdaterSpec
  import opened UpdaterRuns
  import opened UpdaterFollow
  import opened UpdaterImage
  import opened UpdaterInstall

  /** Two devices alike but for the digest function and the flash, and no flash failure on either before call `n`. */
  ghost predicate Alike(a: Env, b: Env, n: nat) {
    && b == a.(faults := b.faults, hash := b.hash)
    && (b.faults == a.faults || forall k: nat :: k < n ==> !a.faults.fails(k) && !b.faults.fails(k))
  }

  lemma SameInit(a: Env, b: Env, r: Rfc3161, buf: seq<byte>, len: nat)
    requires Alike(a, b, 0) && len <= |buf| == SECTOR
    ensures RfcInit(a, r, U_FLASH, buf, len) == RfcInit(b, r, U_FLASH, buf, len)
  {
    hide Shift, DerLength, Ascii;
  }

  lemma SameRfc(a: Env, b: Env, r: Rfc3161, buf: seq<byte>, len: nat)
    requires Alike(a, b, 0) && len <= |buf| == SECTOR && WellFormed(r)
    ensures RfcHeader(a, r, U_FLASH, buf, len) == RfcHeader(b, r, U_FLASH, buf, len)
  {
    hide RfcInit, Shift;
    SameInit(a, b, r, buf, len);
  }

  lemma SameHeader(a: Env, b: Env, c: Chain, buf: seq<byte>, len: nat)
    requires Alike(a, b, 0) && len <= |buf| == SECTOR && ChainWellFormed(c)
    ensures ProcessHeader(a, c, U_FLASH, buf, len) == ProcessHeader(b, c, U_FLASH, buf, len)
  {
    hide RfcHeader, CString, ValueFromHeader, IndexOf;
    if !c.Legacy? {
      SameRfc(a, b, c.r, buf, len);
    }
  }

  lemma AlikeBefore(a: Env, b: Env, m: nat, n: nat)
    requires Alike(a, b, n) && m <= n
    ensures Alike(a, b, m)
  {
  }

  lemma SameErase(a: Env, b: Env, f: Flash, at: nat)
    requires Alike(a, b, |f.log| + 1)
    ensures EraseSector(a.faults, f, at) == EraseSector(b.faults, f, at)
  {
  }

  lemma SameProgram(a: Env, b: Env, f: Flash, at: nat, data: seq<byte>)
    requires Alike(a, b, |f.log| + 1)
    ensures ProgramBytes(a.faults, f, at, data) == ProgramBytes(b.faults, f, at, data)
  {
    hide Written;
  }

  /** A call on the updater only adds to the log. */
  lemma LogGrows(env: Env, s: Upd)
    requires WFBuffer(s)
    ensures |WriteBuffer(env, s).0.flash.log| >= |s.flash.log|
    ensures WriteBuffer(env, s).0.chain.Checked? == s.chain.Checked?
    ensures s.command == U_FLASH ==> WriteBuffer(env, s).0.command == U_FLASH
  {
    hide ProcessHeader, ProcessPayload;
  }

  /** `_writeBuffer` does the same on both if the calls it makes are among the first `n`. */
  lemma SameBuffer(a: Env, b: Env, s: Upd, n: nat)
    requires Alike(a, b, n) && WFBuffer(s) && s.command == U_FLASH && |WriteBuffer(a, s).0.flash.log| <= n
    ensures WriteBuffer(a, s) == WriteBuffer(b, s)
  {
    hide ProcessHeader, EraseSector, ProgramBytes;
    if !s.postHeader {
      SameHeader(a, b, s.chain, s.buf.value, s.bufferLen);
    } else {
      SameTry(a, b, s, n);
    }
  }

  lemma OneCallEach(x: Faults, f: Flash, at: nat, data: seq<byte>)
    ensures |EraseSector(x, f, at).0.log| == |ProgramBytes(x, f, at, data).0.log| == |f.log| + 1
  {
    hide Written;
  }

  lemma SameTry(a: Env, b: Env, s: Upd, n: nat)
    requires Alike(a, b, n) && WFBuffer(s) && |TryPayload(a, s).0.flash.log| <= n
    ensures TryPayload(a, s) == TryPayload(b, s)
  {
    hide EraseSector, ProgramBytes, Alike, Masked;
    var data := Masked(s.buf.value, s.progressFlash == 0)[..s.bufferLen];
    SameAsk(a, b, s, n);
    if AskPayload(a, s).1 == Ok {
      var f1 := EraseSector(a.faults, s.flash, s.progressFlash).0;
      OneCallEach(a.faults, s.flash, s.progressFlash, data);
      OneCallEach(a.faults, f1, s.progressFlash, data);
      AlikeBefore(a, b, |s.flash.log| + 1, n);
      SameErase(a, b, s.flash, s.progressFlash);
      if EraseSector(a.faults, s.flash, s.progressFlash).1 {
        AlikeBefore(a, b, |f1.log| + 1, n);
        SameProgram(a, b, f1, s.progressFlash, data);
      }
    }
  }

  lemma SameAsk(a: Env, b: Env, s: Upd, n: nat)
    requires Alike(a, b, n) && WFBuffer(s)
    ensures AskPayload(a, s) == AskPayload(b, s)
  {
  }

  /** One turn: the same on both, it adds to the log, and it leaves command and processor in place. */
  lemma SameFill(a: Env, b: Env, s: Upd, d: seq<byte>, n: nat)
    requires Alike(a, b, n) && WF(s) && s.buf.Some? && s.bufferLen + |d| <= SECTOR && s.command == U_FLASH
    ensures |s.flash.log| <= |Fill(a, s, d).0.flash.log|
    ensures Fill(a, s, d).0.chain.Checked? == s.chain.Checked? && Fill(a, s, d).0.command == U_FLASH
    ensures |Fill(a, s, d).0.flash.log| <= n ==> Fill(a, s, d) == Fill(b, s, d)
  {
    hide WriteBuffer, Alike;
    var s1 := Append(s, d);
    assert WFBuffer(s1);
    LogGrows(a, s1);
    if |WriteBuffer(a, s1).0.flash.log| <= n {
      SameBuffer(a, b, s1, n);
    }
  }

  lemma {:induction false} SameLoop(a: Env, b: Env, s: Upd, data: seq<byte>, n: nat)
    requires Alike(a, b, n) && WF(s) && s.buf.Some? && s.command == U_FLASH
    ensures |s.flash.log| <= |WriteLoop(a, s, data).0.flash.log|
    ensures WriteLoop(a, s, data).0.chain.Checked? == s.chain.Checked? && WriteLoop(a, s, data).0.command == U_FLASH
    ensures |WriteLoop(a, s, data).0.flash.log| <= n ==> WriteLoop(a, s, data) == WriteLoop(b, s, data)
    decreases |data|, if s.bufferLen == SECTOR then 1 else 0
  {
    hide Fill, Alike;
    if data != [] {
      var l := Min(|data|, SECTOR - s.bufferLen);
      SameFill(a, b, s, data[..l], n);
      var (s1, ok) := Fill(a, s, data[..l]);
      if ok {
        SameLoop(a, b, s1, data[l..], n);
      }
    }
  }

  lemma SameWrite(a: Env, b: Env, s: Upd, data: seq<byte>, n: nat)
    requires Alike(a, b, n) && Safe(s)
    ensures Write(a, s, data).0.chain.Checked? == s.chain.Checked?
    ensures |Write(a, s, data).0.flash.log| <= n ==> Write(a, s, data) == Write(b, s, data)
  {
    hide WriteLoop, Alike;
    hide FlashSafe;
    if s.error == OK && s.size > 0 && |data| <= Remaining(s) {
      SameLoop(a, b, s, data, n);
    }
  }

  lemma SameBegin(a: Env, b: Env, s: Upd, size: u32, command: nat)
    requires Alike(a, b, 0)
    ensures Begin(a, s, size, command) == Begin(b, s, size, command)
  {
    assert seq(SECTOR, i => a.junk(i)) == seq(SECTOR, i => b.junk(i));
  }

  lemma SameFlushed(a: Env, b: Env, s: Upd, n: nat)
    requires Alike(a, b, n) && Safe(s) && s.buf.Some? && |Flushed(a, s).flash.log| <= n
    ensures Flushed(a, s) == Flushed(b, s)
  {
    hide WriteBuffer, Alike, FlashSafe;
    if s.bufferLen > 0 {
      SameBuffer(a, b, s, n);
    }
  }

  lemma FlushedKind(env: Env, s: Upd)
    requires WF(s) && s.buf.Some?
    ensures Flushed(env, s).chain.Checked? == s.chain.Checked?
  {
    hide WriteBuffer;
    if s.bufferLen > 0 {
      LogGrows(env, s);
    }
  }

  lemma SameEnd(a: Env, b: Env, s: Upd, even: bool)
    requires Alike(a, b, 0) && a.faults == b.faults && Safe(s) && s.chain.Checked?
    ensures End(a, s, even) == End(b, s, even) && End(a, s, even).0.chain.Checked?
  {
    hide Flushed, FlashSafe;
    if s.error == OK && s.size > 0 && even {
      SameFlushed(a, b, s, |Flushed(a, s).flash.log|);
      FlushedKind(a, s);
    }
  }

  lemma SameStep(a: Env, b: Env, s: Upd, c: Call)
    requires Alike(a, b, 0) && a.faults == b.faults && Safe(s) && s.chain.Checked?
    ensures Step(a, s, c) == Step(b, s, c) && Step(a, s, c).chain.Checked?
  {
    hide Write, End, EnablePartition, FlashSafe;
    match c
    case CallBegin(size, command) => SameBegin(a, b, s, size, command);
    case CallWrite(data) => SameWrite(a, b, s, data, |Write(a, s, data).0.flash.log|);
    case CallEnd(even) => SameEnd(a, b, s, even);
    case CallActivate =>
    case CallAbort =>
    case CallClearError =>
  }

  lemma {:induction false} SameRun(a: Env, b: Env, bytes: seq<byte>, calls: seq<Call>)
    requires Alike(a, b, 0) && a.faults == b.faults && |bytes| < WORD
    ensures var s0 := Constructed(Checked(false, FRESH), bytes);
      Run(a, s0, calls) == Run(b, s0, calls) && Run(a, s0, calls).chain.Checked?
  {
    hide Safe, Alike;
    if calls != [] {
      var rest := calls[..|calls| - 1];
      SameRun(a, b, bytes, rest);
      RunsAreSafe(a, Checked(false, FRESH), bytes, rest);
      SameStep(a, b, Run(a, Constructed(Checked(false, FRESH), bytes), rest), calls[|calls| - 1]);
    }
  }

  /**
   Behind the device check no run looks at the digest: whenever `end` says yes with a reply in hand, it says
   the same, in the same state, on a device where no data at all has the digest of that reply.
   */
  lemma WrongDigestEnds(env: Env, bytes: seq<byte>, calls: seq<Call>, even: bool)
    requires |bytes| < WORD
    ensures var s0 := Constructed(Checked(false, FRESH), bytes);
            var (r, ended) := End(env, Run(env, s0, calls), even);
      ended && r.chain.Checked? && r.chain.r.reply.Some? ==>
        var reply := r.chain.r.reply.value;
        var other := env.(hash := (t, data) => reply.digest + [0]);
        && End(other, Run(other, s0, calls), even) == (r, true)
        && forall data :: !DigestMatches(other, reply, data)
  {
    hide Safe, Run, End;
    var s0 := Constructed(Checked(false, FRESH), bytes);
    var (r, ended) := End(env, Run(env, s0, calls), even);
    if ended && r.chain.Checked? && r.chain.r.reply.Some? {
      var reply := r.chain.r.reply.value;
      var other := env.(hash := (t, data) => reply.digest + [0]);
      SameRun(env, other, bytes, calls);
      RunsAreSafe(env, Checked(false, FRESH), bytes, calls);
      SameEnd(env, other, Run(env, s0, calls), even);
    }
  }

  /**
   What `end(true)` means there. It always says yes to a stream taken without error. Once the header is
   through, the error it leaves tells whether its own flush worked, and without one the flash holds all of
   the payload but its first byte. Before that it leaves the flash as it was, whatever it says.
   */
  lemma WiredEnd(env: Env, s0: Upd, t: seq<byte>, s: Upd)
    requires Opened(env, s0) && s0.chain.Checked? && Follows(env, s0, t, s) && WF(s)
    ensures var (r, ended) := End(env, s, true);
            var e := LineLength(t) + s.chain.r.blobLen;
      && ended
      && (s.postHeader ==>
            && (r.error == OK <==> s.bufferLen == 0 || WriteBuffer(env, s).1)
            && (r.error == OK ==> e <= |t| && r.progressFlash == |t| - e <= |r.flash.bytes|
                                  && r.flash.bytes[..r.progressFlash] == Withhold(t[e..])))
      && (!s.postHeader ==> r.flash == s0.flash)
  {
    hide WriteBuffer, LinePasses, LineLength, LengthField, Verified, Withhold;
    assert t[|t|..] == [];
    if s.bufferLen > 0 {
      LogGrows(env, s);
      FailsWithError(env, s);
      if s.postHeader {
        PayloadMoves(env, s0, t, s);
      } else {
        HeaderEffect(env, s);
      }
    }
    if s.postHeader {
      assert t[LineLength(t) + s.chain.r.blobLen..|t|] == t[LineLength(t) + s.chain.r.blobLen..];
    }
  }

  /** A sector of payload behind the reply, of the length that its own bytes announce: the header is through. */
  lemma HeaderThrough(env: Env, s0: Upd, t: seq<byte>, s: Upd, n: nat)
    requires Follows(env, s0, t, s) && WF(s)
    requires var h := LineLength(t); LengthField(t, h, n) && h + 4 <= SECTOR && h + n + SECTOR <= |t|
    ensures s.postHeader && s.chain.r.phase == Post && s.chain.r.blobLen == n
  {
    hide LineLength, LinePasses, Verified, Withhold;
  }

  /**
   When a yes can be relied on: with a sector or more behind the reply, and no error after the writes nor after
   `end`, the flash holds all of the payload but its first byte.
   */
  lemma LongUploadLands(env: Env, s0: Upd, t: seq<byte>, n: nat)
    requires Opened(env, s0) && s0.chain.Checked? && |t| <= s0.size
    requires var h := LineLength(t); LengthField(t, h, n) && h + 4 <= SECTOR && h + n + SECTOR <= |t|
    ensures var s := Write(env, s0, t).0;
            var (r, ended) := End(env, s, true);
            var payload := t[LineLength(t) + n..];
      s.error == OK ==>
        && ended
        && (r.error == OK ==> r.progressFlash == |payload| <= |r.flash.bytes|
                              && r.flash.bytes[..r.progressFlash] == Withhold(payload))
  {
    hide Write, End, Follows, LineLength, LengthField, Withhold;
    HeadedBytesConserved(env, s0, t);
    var s := Write(env, s0, t).0;
    if s.error == OK {
      HeaderThrough(env, s0, t, s, n);
      WiredEnd(env, s0, t, s);
    }
  }

  lemma EndKeepsTarget(env: Env, s: Upd)
    requires WF(s) && s.buf.Some? && s.command == U_FLASH
    ensures End(env, s, true).0.command == U_FLASH && End(env, s, true).0.selected == s.selected
  {
    hide ProcessHeader, ProcessPayload, EraseSector, ProgramBytes;
  }

  /** The three flash calls of `activate` go through, over a first byte that still has the bits of the magic. */
  ghost predicate Repairable(env: Env, f: Flash) {
    var n := |f.log|;
    && 4 <= |f.bytes| && f.bytes[0] & MAGIC == MAGIC
    && !env.faults.fails(n) && !env.faults.fails(n + 1) && !env.faults.fails(n + 2)
    && env.bootOk(f.bytes[0 := MAGIC])
  }

  /** When `activate` says yes, and what it leaves. It looks at the first byte and at nothing of the session. */
  lemma ActivateExact(env: Env, s: Upd)
    requires s.command == U_FLASH
    ensures Activate(env, s).1 <==> s.selected && Repairable(env, s.flash)
    ensures Activate(env, s).1 ==> Activate(env, s).0.flash.bytes == s.flash.bytes[0 := MAGIC]
  {
    if 4 <= |s.flash.bytes| {
      RepairedBytes(s.flash.bytes);
    }
    hide Written;
  }

  /** A complete repair, whatever the first byte was. */
  lemma RepairedBytes(bytes: seq<byte>)
    requires 4 <= |bytes|
    ensures Written(bytes, 0, [MAGIC] + bytes[1..4], i => 0) == bytes[0 := bytes[0] & MAGIC]
  {
    var w := Written(bytes, 0, [MAGIC] + bytes[1..4], i => 0);
    RewriteHead(bytes, [MAGIC] + bytes[1..4], i => 0);
    assert MAGIC | 0 == MAGIC;
    assert w == [w[0]] + w[1..];
    assert bytes[0 := bytes[0] & MAGIC] == [bytes[0] & MAGIC] + bytes[1..];
  }

  /**
   The other side of `WiredEnd`: before the header is through `end` says yes over an untouched flash, and
   `activate` then says yes exactly when the firmware that was there before can be repaired and booted.
   */
  lemma OldFirmwareActivates(env: Env, s0: Upd, t: seq<byte>, s: Upd)
    requires Opened(env, s0) && s0.chain.Checked? && Follows(env, s0, t, s) && WF(s) && !s.postHeader
    ensures var (r, ended) := End(env, s, true);
      && ended && r.flash == s0.flash
      && (Activate(env, r).1 <==> Repairable(env, s0.flash))
      && (Activate(env, r).1 ==> Activate(env, r).0.flash.bytes == s0.flash.bytes[0 := MAGIC])
  {
    hide End, Activate, Repairable;
    WiredEnd(env, s0, t, s);
    FollowsTarget(env, s0, t, s);
    EndKeepsTarget(env, s);
    ActivateExact(env, End(env, s, true).0);
  }

  lemma FollowsTarget(env: Env, s0: Upd, t: seq<byte>, s: Upd)
    requires Opened(env, s0) && Follows(env, s0, t, s)
    ensures s.buf.Some? && s.command == U_FLASH && s.selected
  {
    hide PastLine, InReply, InPayload;
  }

  lemma FailsWithError(env: Env, s: Upd)
    requires WFBuffer(s) && s.error == OK
    ensures WriteBuffer(env, s).0.error == OK <==> WriteBuffer(env, s).1
  {
    hide ProcessHeader, TryPayload;
  }

  /** A device like this one whose flash call `n` fails: an erase that took effect but reported failure. */
  function FailingAt(env: Env, n: nat): Env {
    env.(faults := Faults(k => k == n, (k, i) => 0xFF))
  }

  lemma PayloadCounters(env: Env, s0: Upd, t: seq<byte>, s: Upd)
    requires Follows(env, s0, t, s) && s.postHeader
    ensures s.chain.r.phase == Post && s.size == s0.size && s.chain.Checked? == s0.chain.Checked?
    ensures s.error == OK && s.buf.Some? && s.command == U_FLASH && s.bufferLen <= SECTOR
    ensures s.progress + s.bufferLen == |t| && s.progress == LineLength(t) + s.chain.r.blobLen + s.progressFlash
    ensures |s.flash.bytes| == |s0.flash.bytes|
  {
    hide LineLength, LinePasses, LengthField, Verified, Withhold;
  }

  lemma LastSector(env: Env, s0: Upd, line: seq<byte>, tsr: seq<byte>, payload: seq<byte>, s: Upd)
    requires OnTrack(env, s0, line, tsr, payload, Image(line, tsr, payload), s) && Safe(s)
    requires |payload| > SECTOR && |payload| % SECTOR != 0 && |Image(line, tsr, payload)| < s0.size
    ensures s.postHeader && s.bufferLen > 0 && s.error == OK && s.buf.Some? && s.selected
    ensures s.size > 0 && s.command == U_FLASH && s.chain.Checked? == s0.chain.Checked?
    ensures s.progressFlash % SECTOR == 0 && 0 < s.progressFlash < |payload| <= s.progressFlash + SECTOR
    ensures s.progressFlash + SECTOR <= |s.flash.bytes|
  {
    hide Good, Follows, FlashSafe, Top, Withheld, MagicWaits;
    var t := Image(line, tsr, payload);
    WholeOnTrack(env, s0, line, tsr, payload, s);
    PayloadCounters(env, s0, t, s);
    LengthsOnTrack(env, s0, line, tsr, payload, t, s);
    GoodFits(env, s0, line, tsr, payload);
  }

  /** The erase of the last flush fails: `end` says yes all the same, with the error left behind. */
  lemma EndHidesFailure(bad: Env, s: Upd)
    requires WF(s) && s.chain.Checked? && s.postHeader && s.bufferLen > 0 && s.error == OK && s.buf.Some? && s.size > 0
    requires bad == FailingAt(bad, |s.flash.log|) && 0 < s.progressFlash && s.progressFlash + SECTOR <= |s.flash.bytes|
    ensures var (r, ended) := End(bad, s, true);
      && ended && r.error == ERR_ERASE && r.command == U_FLASH && r.selected == s.selected
      && |r.flash.log| == |s.flash.log| + 1 && |r.flash.bytes| == |s.flash.bytes|
      && r.flash.bytes[0] == s.flash.bytes[0]
      && forall i :: s.progressFlash <= i < s.progressFlash + SECTOR ==> r.flash.bytes[i] == 0xFF
  {
    hide ProgramBytes, Masked;
    ErasedAnyway(bad.faults, s.flash, s.progressFlash);
    hide EraseSector;
  }

  lemma ErasedAnyway(x: Faults, f: Flash, at: nat)
    requires x.fails(|f.log|) && (forall i :: x.torn(|f.log|, i) == 0xFF) && 0 < at && at + SECTOR <= |f.bytes|
    ensures var (g, ok) := EraseSector(x, f, at);
      && !ok && |g.log| == |f.log| + 1 && g.bytes[0] == f.bytes[0]
      && forall i :: at <= i < at + SECTOR ==> g.bytes[i] == 0xFF
  {
    forall i | at <= i < at + SECTOR
      ensures f.bytes[i] | 0xFF == 0xFF
    {
      KeepsFF(f.bytes[i], f.bytes[i]);
    }
  }

  /** After that `activate` goes through, and only the first byte of the flash changes. */
  lemma ActivateHidesFailure(env: Env, n: nat, s: Upd)
    requires s.command == U_FLASH && s.selected && |s.flash.log| > n && |s.flash.bytes| >= 4
    requires s.flash.bytes[0] == 0xFF && forall b :: env.bootOk(b)
    ensures var (r, active) := Activate(FailingAt(env, n), s);
      active && r.flash.bytes == s.flash.bytes[0 := MAGIC]
  {
    hide Written;
    EnableRestores(FailingAt(env, n).faults, s.flash);
  }

  /** The end and the activation of a session whose last flush fails, over a payload byte that is not 0xFF. */
  lemma LostAtTheEnd(env: Env, s: Upd, payload: seq<byte>)
    requires Safe(s) && s.chain.Checked? && s.postHeader && s.bufferLen > 0 && s.error == OK && s.buf.Some?
    requires s.size > 0 && s.selected && s.command == U_FLASH && forall b :: env.bootOk(b)
    requires 0 < s.progressFlash < |payload| <= s.progressFlash + SECTOR <= |s.flash.bytes|
    requires payload[|payload| - 1] != 0xFF
    ensures var bad := FailingAt(env, |s.flash.log|);
            var (e, ended) := End(bad, s, true);
            var (a, active) := Activate(bad, e);
      && ended && active && e.error == ERR_ERASE
      && |payload| <= |a.flash.bytes| && a.flash.bytes[..|payload|] != payload
  {
    hide End, Activate, FlashSafe, Top, Withheld;
    var n := |s.flash.log|;
    var bad := FailingAt(env, n);
    EndHidesFailure(bad, s);
    FrontWithheld(s);
    var e := End(bad, s, true).0;
    ActivateHidesFailure(env, n, e);
    var last := |payload| - 1;
    var a := Activate(bad, e).0;
    assert a.flash.bytes[last] == e.flash.bytes[last] == 0xFF;
    assert a.flash.bytes[..|payload|][last] != payload[last];
  }

  /**
   An upload that is lost although `end` and `activate` both say yes: every good image of more than a sector,
   not a whole number of sectors, not ending in 0xFF, in a session announced larger, on a device whose flash
   fails once, at the flush that `end` makes. The writes go as without the failure.
   */
  lemma FailedFlushActivates(env: Env, s0: Upd, line: seq<byte>, tsr: seq<byte>, payload: seq<byte>)
    requires Good(env, s0, line, tsr, payload) && s0.chain.Checked? && forall b :: env.bootOk(b)
    requires |payload| > SECTOR && |payload| % SECTOR != 0 && payload[|payload| - 1] != 0xFF
    requires |Image(line, tsr, payload)| < s0.size
    ensures WF(s0)
    ensures var t := Image(line, tsr, payload);
            var bad := FailingAt(env, |Write(env, s0, t).0.flash.log|);
            var (e, ended) := End(bad, Write(bad, s0, t).0, true);
            var (a, active) := Activate(bad, e);
      && Write(bad, s0, t).0.error == OK && ended && active
      && e.error == ERR_ERASE && |payload| <= |a.flash.bytes| && a.flash.bytes[..|payload|] != payload
  {
    hide Good, OnTrack, Write, End, Activate, FlashSafe, Top, Withheld, FailingAt, NoFaults, GoodPayload;
    var t := Image(line, tsr, payload);
    GoodFits(env, s0, line, tsr, payload);
    var s := Write(env, s0, t).0;
    ImageTaken(env, s0, line, tsr, payload);
    LastSector(env, s0, line, tsr, payload, s);
    GoodParts(env, s0, line, tsr, payload);
    FailsOnce(env, |s.flash.log|);
    SameWrite(env, FailingAt(env, |s.flash.log|), s0, t, |s.flash.log|);
    hide Safe;
    LostAtTheEnd(env, s, payload);
  }

  lemma FailsOnce(env: Env, n: nat)
    requires NoFaults(env)
    ensures Alike(env, FailingAt(env, n), n) && FailingAt(env, n) == FailingAt(FailingAt(env, n), n)
  {
  }

  lemma FrontWithheld(s: Upd)
    requires Safe(s) && s.progressFlash > 0
    ensures s.flash.bytes[0] == 0xFF
  {
    hide Top, Disciplined, Withheld;
  }
}
