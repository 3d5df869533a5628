/** The other direction of the gate: an image laid out as the signing script writes it is let through, step by step. */
module UpdaterImage {
  import opened Bytes
  import opened FlashModel
  import opened ProcessorSpec
  import opened ProcessorFacts
  import opened UpdaterSpec
  import opened UpdaterRuns
  import opened UpdaterFollow

  /** An image file: header line, time stamp reply, firmware. */
  function Image(line: seq<byte>, tsr: seq<byte>, payload: seq<byte>): seq<byte> {
    line + tsr + payload
  }

  /** A header line, ended by its only line feed, that both processors let through. */
  ghost predicate GoodLine(env: Env, checked: bool, line: seq<byte>) {
    && |REDWAX| <= |line| - 1 && |line| + 4 <= SECTOR
    && line[..|REDWAX|] == REDWAX && line[|line| - 1] == LF && LF !in line[..|line| - 1]
    && (checked ==> DeviceMatches(env, line[..|line| - 1]))
  }

  /** A reply with a two-byte DER length that is right, at most 16 KiB, valid and trusted. */
  ghost predicate GoodReply(env: Env, tsr: seq<byte>) {
    && LengthField(tsr, 0, |tsr|) && |tsr| <= MAX_TSR && env.blobOk(|tsr|)
    && Verified(env, FRESH.(phase := Rfc, blob := Some(tsr), blobLen := |tsr|, reply := env.parse(tsr)))
  }

  ghost predicate GoodPayload(payload: seq<byte>) {
    payload != [] && payload[0] == MAGIC
  }

  /** The digest library works, and the reply's digest is that of the payload. */
  ghost predicate GoodDigest(env: Env, tsr: seq<byte>, payload: seq<byte>) {
    && (forall a, b :: !env.updateFails(a, b)) && !env.finishFails(payload)
    && env.parse(tsr).Some? && DigestMatches(env, env.parse(tsr).value, payload)
  }

  ghost predicate NoFaults(env: Env) {
    forall n: nat :: !env.faults.fails(n)
  }

  /** Everything the image round trip asks for; a checked session never looks at the digest. */
  ghost predicate Good(env: Env, s0: Upd, line: seq<byte>, tsr: seq<byte>, payload: seq<byte>) {
    && Opened(env, s0) && Safe(s0) && |s0.flash.bytes| % SECTOR == 0
    && GoodLine(env, s0.chain.Checked?, line) && GoodReply(env, tsr) && GoodPayload(payload) && NoFaults(env)
    && (s0.chain.Signed? ==> GoodDigest(env, tsr, payload))
    && |Image(line, tsr, payload)| <= s0.size
  }

  /** The line of every long enough part of the image is the image's line. */
  lemma LineOfImage(env: Env, checked: bool, line: seq<byte>, t: seq<byte>)
    requires GoodLine(env, checked, line) && line <= t
    ensures LF in t && LineLength(t) == |line| && IndexOf(t, LF) == Some(|line| - 1)
    ensures t[..|REDWAX|] == REDWAX && (checked ==> DeviceMatches(env, t[..|line| - 1]))
  {
    hide DeviceMatches;
    var i := |line| - 1;
    assert t[..i] == line[..i] && t[i] == LF;
    IndexOfIs(t, LF, i);
    assert t[..|REDWAX|] == line[..|REDWAX|];
  }

  lemma ImageParts(line: seq<byte>, tsr: seq<byte>, payload: seq<byte>)
    ensures var t := Image(line, tsr, payload);
            var h := |line|;
            var e := h + |tsr|;
      line <= t && t[h..e] == tsr && t[e..] == payload && |t| == e + |payload|
    ensures |tsr| >= 4 ==> forall i :: 0 <= i < 4 ==> Image(line, tsr, payload)[|line| + i] == tsr[i]
  {
  }

  /** The first step on a good image: the line is cut off. */
  lemma InitAccepts(env: Env, c: Chain, buf: seq<byte>, line: seq<byte>, n: nat)
    requires |buf| == SECTOR && !env.legacyAllowed && Waiting(c) && GoodLine(env, c.Checked?, line) && line <= buf
    requires LengthField(buf, |line|, n) && n <= MAX_TSR && env.blobOk(n)
    ensures var h := ProcessHeader(env, c, U_FLASH, buf, SECTOR); h.verdict == Again && h.len < SECTOR
  {
    hide RfcInit;
    hide DeviceMatches;
    hide LengthField;
    hide LineLength;
    hide LinePasses;
    assert buf[..SECTOR] == buf;
    LineOfImage(env, c.Checked?, line, buf);
    assert buf[..|line| - 1] == line[..|line| - 1];
    RfcInitAccepts(env, c.r, buf, |line| - 1, n);
    RfcInitSteps(env, c.r, buf, SECTOR);
  }

  /** The length the machine reads behind the cut line is the one in the buffer. */
  lemma ReadsLength(env: Env, buf: seq<byte>, lf: nat, n: nat)
    requires lf < |buf| && LengthField(buf, lf + 1, n)
    ensures var cut := buf[lf := 0];
      && ByteAt(env, cut, lf + 1) == 0x30 && ByteAt(env, cut, lf + 2) == 0x82
      && DerLength(ByteAt(env, cut, lf + 3), ByteAt(env, cut, lf + 4)) == n
  {
    hide DerLength;
  }

  lemma RfcInitAccepts(env: Env, r: Rfc3161, buf: seq<byte>, lf: nat, n: nat)
    requires |buf| == SECTOR && buf[..|REDWAX|] == REDWAX && IndexOf(buf[..SECTOR], LF) == Some(lf)
    requires LengthField(buf, lf + 1, n) && n <= MAX_TSR && env.blobOk(n)
    ensures RfcInit(env, r, U_FLASH, buf, SECTOR).verdict == Again
  {
    hide Shift;
    hide ByteAt;
    hide LengthField;
    hide Ascii;
    hide IndexOf;
    hide DerLength;
    ReadsLength(env, buf, lf, n);
  }

  /** A stream that is a good image so far, with `u` of it accepted. */
  ghost predicate OnTrack(
    env: Env, s0: Upd, line: seq<byte>, tsr: seq<byte>, payload: seq<byte>, u: seq<byte>, s: Upd)
  {
    && Good(env, s0, line, tsr, payload) && u <= Image(line, tsr, payload) && Follows(env, s0, u, s)
    && |Image(line, tsr, payload)| >= SECTOR
  }

  lemma InitOnTrack(env: Env, s0: Upd, line: seq<byte>, tsr: seq<byte>, payload: seq<byte>, u: seq<byte>, s: Upd)
    requires OnTrack(env, s0, line, tsr, payload, u, s) && WFBuffer(s) && Due(s) && s.chain.r.phase == Init
    ensures WriteBuffer(env, s).1
  {
    hide WriteBuffer;
    hide WFBuffer;
    hide ProcessHeader;
    hide Safe;
    hide GoodLine;
    hide Verified;
    var t := Image(line, tsr, payload);
    ImageParts(line, tsr, payload);
    HeaderEffect(env, s);
    LineShort(env, s0.chain.Checked?, line);
    assert s.buf.value[..SECTOR] == s.buf.value;
    assert u == s.buf.value;
    assert line == t[..|line|] == u[..|line|];
    InitAccepts(env, s.chain, s.buf.value, line, |tsr|);
  }

  lemma LineShort(env: Env, checked: bool, line: seq<byte>)
    requires GoodLine(env, checked, line)
    ensures 0 < |line| && |line| + 4 <= SECTOR
  {
    hide DeviceMatches;
  }

  /** Past the line, the session's line and reply lengths are the image's. */
  lemma LengthsOfImage(env: Env, s0: Upd, line: seq<byte>, tsr: seq<byte>, payload: seq<byte>, u: seq<byte>, s: Upd)
    requires GoodLine(env, s0.chain.Checked?, line) && LengthField(tsr, 0, |tsr|)
    requires u <= Image(line, tsr, payload) && |Image(line, tsr, payload)| <= s0.size
    requires Follows(env, s0, u, s) && s.chain.r.phase != Init
    ensures LineLength(u) == |line| && s.chain.r.blobLen == |tsr| && |line| <= |u|
  {
    hide Verified;
    hide InReply;
    hide InPayload;
    hide DeviceMatches;
    var t := Image(line, tsr, payload);
    ImageParts(line, tsr, payload);
    var d := t[|u|..];
    assert u + d == t;
    LineMore(env, s.chain.Checked?, u, d);
    LineOfImage(env, s0.chain.Checked?, line, t);
    assert LengthField(u, |line|, s.chain.r.blobLen);
    assert forall i :: 0 <= i < |u| ==> u[i] == t[i];
  }

  lemma LengthsOnTrack(env: Env, s0: Upd, line: seq<byte>, tsr: seq<byte>, payload: seq<byte>, u: seq<byte>, s: Upd)
    requires OnTrack(env, s0, line, tsr, payload, u, s) && s.chain.r.phase != Init
    ensures LineLength(u) == |line| && s.chain.r.blobLen == |tsr| && |line| <= |u|
  {
    hide Safe;
    hide GoodLine;
    hide PastLine;
    hide InReply;
    hide InPayload;
    hide Verified;
    LengthsOfImage(env, s0, line, tsr, payload, u, s);
  }

  /** A reply that the buffer completes is the image's. */
  lemma ReplyOfImage(line: seq<byte>, tsr: seq<byte>, payload: seq<byte>, u: seq<byte>)
    requires u <= Image(line, tsr, payload) && |line| + |tsr| <= |u|
    ensures u[|line|..|line| + |tsr|] == tsr
  {
    ImageParts(line, tsr, payload);
    assert u[|line|..|line| + |tsr|] == Image(line, tsr, payload)[|line|..|line| + |tsr|];
  }

  lemma RfcOnTrack(env: Env, s0: Upd, line: seq<byte>, tsr: seq<byte>, payload: seq<byte>, u: seq<byte>, s: Upd)
    requires OnTrack(env, s0, line, tsr, payload, u, s) && WFBuffer(s) && s.chain.r.phase == Rfc && s.bufferLen > 0
    ensures WriteBuffer(env, s).1
  {
    hide WriteBuffer;
    hide WFBuffer;
    hide WF;
    hide ProcessHeader;
    hide Safe;
    hide GoodLine;
    hide LengthField;
    hide LinePasses;
    hide LineLength;
    hide Image;
    LengthsOnTrack(env, s0, line, tsr, payload, u, s);
    HeaderEffect(env, s);
    var r := s.chain.r;
    var l := Min(s.bufferLen, r.blobLen - |r.blob.value|);
    SplitReply(u, |line|, s.progress, s.buf.value, s.bufferLen, l);
    if |r.blob.value| + l == r.blobLen {
      ReplyOfImage(line, tsr, payload, u);
    }
    RfcAccepts(env, s.chain, s.buf.value, s.bufferLen);
    RfcSteps(env, s.chain, s.buf.value, s.bufferLen);
  }

  lemma PostOnTrack(env: Env, s0: Upd, line: seq<byte>, tsr: seq<byte>, payload: seq<byte>, u: seq<byte>, s: Upd)
    requires OnTrack(env, s0, line, tsr, payload, u, s) && WFBuffer(s) && s.chain.r.phase == Post && !s.postHeader
    requires s.bufferLen > 0 && Due(s)
    ensures WriteBuffer(env, s).1
  {
    hide WriteBuffer;
    hide WFBuffer;
    hide Safe;
    hide GoodLine;
    hide LengthField;
    hide LinePasses;
    hide LineLength;
    LengthsOnTrack(env, s0, line, tsr, payload, u, s);
    ImageParts(line, tsr, payload);
    PostFollows(env, s0, u, s);
    assert u[s.progress] == Image(line, tsr, payload)[|line| + |tsr|..][0];
  }

  lemma PayloadOnTrack(env: Env, s0: Upd, line: seq<byte>, tsr: seq<byte>, payload: seq<byte>, u: seq<byte>, s: Upd)
    requires OnTrack(env, s0, line, tsr, payload, u, s) && WFBuffer(s) && s.postHeader
    requires s.bufferLen > 0 && s.progressFlash % SECTOR == 0
    ensures WriteBuffer(env, s).1
  {
    hide WriteBuffer;
    hide WFBuffer;
    hide Safe;
    hide GoodLine;
    hide LengthField;
    hide LinePasses;
    hide LineLength;
    hide Withhold;
    PayloadEffect(env, s);
  }

  lemma FillOnTrack(
    env: Env, s0: Upd, line: seq<byte>, tsr: seq<byte>, payload: seq<byte>, u: seq<byte>, s: Upd, d: seq<byte>)
    requires OnTrack(env, s0, line, tsr, payload, u, s) && Safe(s) && s.progressFlash % SECTOR == 0
    requires u + d <= Image(line, tsr, payload) && s.bufferLen + |d| <= SECTOR && (d != [] || s.bufferLen == SECTOR)
    ensures var (r, ok) := Fill(env, s, d); ok && OnTrack(env, s0, line, tsr, payload, u + d, r)
  {
    hide WriteBuffer;
    hide Good;
    hide GoodLine;
    hide PastLine;
    hide InReply;
    hide InPayload;
    GoodFits(env, s0, line, tsr, payload);
    AppendFollows(env, s0, u, s, d);
    FillFollows(env, s0, u, s, d);
    var s1 := Append(s, d);
    if s1.bufferLen == SECTOR || s1.bufferLen == Remaining(s1) {
      if s1.postHeader {
        PayloadOnTrack(env, s0, line, tsr, payload, u + d, s1);
      } else {
        match s1.chain.r.phase
        case Init => InitOnTrack(env, s0, line, tsr, payload, u + d, s1);
        case Rfc => RfcOnTrack(env, s0, line, tsr, payload, u + d, s1);
        case Post => PostOnTrack(env, s0, line, tsr, payload, u + d, s1);
      }
    }
  }

  lemma GoodFits(env: Env, s0: Upd, line: seq<byte>, tsr: seq<byte>, payload: seq<byte>)
    requires Good(env, s0, line, tsr, payload)
    ensures Opened(env, s0) && Safe(s0) && |Image(line, tsr, payload)| <= s0.size
    ensures payload != [] && |s0.flash.bytes| % SECTOR == 0
  {
    hide GoodLine;
    hide Safe;
  }

  lemma {:induction false} LoopOnTrack(
    env: Env, s0: Upd, line: seq<byte>, tsr: seq<byte>, payload: seq<byte>, u: seq<byte>, s: Upd, d: seq<byte>)
    requires OnTrack(env, s0, line, tsr, payload, u, s) && Safe(s) && s.buf.Some?
    requires u + d == Image(line, tsr, payload) && (d != [] ==> s.progressFlash % SECTOR == 0)
    ensures var r := WriteLoop(env, s, d).0; Safe(r) && OnTrack(env, s0, line, tsr, payload, u + d, r)
    decreases |d|, if s.bufferLen == SECTOR then 1 else 0
  {
    hide Fill;
    hide Good;
    hide Follows;
    hide FlashSafe;
    hide Top;
    if d == [] {
      assert u + d == u;
    } else {
      var l := Min(|d|, SECTOR - s.bufferLen);
      assert u + d[..l] + d[l..] == u + d;
      FillKeepsSafe(env, s, d[..l]);
      FillOnTrack(env, s0, line, tsr, payload, u, s, d[..l]);
      var s1 := Fill(env, s, d[..l]).0;
      OnTrackHasBuffer(env, s0, line, tsr, payload, u + d[..l], s1);
      assert s.bufferLen + l < SECTOR ==> d[l..] == [];
      LoopOnTrack(env, s0, line, tsr, payload, u + d[..l], s1, d[l..]);
    }
  }

  lemma OnTrackHasBuffer(env: Env, s0: Upd, line: seq<byte>, tsr: seq<byte>, payload: seq<byte>, u: seq<byte>, s: Upd)
    requires OnTrack(env, s0, line, tsr, payload, u, s)
    ensures s.buf.Some? && s.error == OK
  {
    hide Good;
    hide PastLine;
    hide InReply;
    hide InPayload;
  }
}
