/**
 What each answer of the header machine means, for the RFC 3161 processor alone and behind the
 device check alike. Legacy uploads are off, as the service leaves them.
 */
module ProcessorFacts {
  import opened Bytes
  import opened FlashModel
  import opened ProcessorSpec

  /** The reply is complete, parses, names an accepted digest, and its chain verifies. */
  ghost predicate Verified(env: Env, r: Rfc3161) {
    && r.blob.Some? && |r.blob.value| == r.blobLen
    && env.parse(r.blob.value).Some? && r.reply == env.parse(r.blob.value)
    && r.reply.value.digestType >= MD_SHA256
    && env.known(r.reply.value.digestType) && env.starts(r.reply.value.digestType)
    && env.trusted && env.chainOk(r.blob.value)
  }

  /** `t` from `h` on starts with a DER sequence whose two length bytes make `n` bytes in all. */
  predicate LengthField(t: seq<byte>, h: nat, n: nat) {
    h + 4 <= |t| && t[h] == 0x30 && t[h + 1] == 0x82 && n == DerLength(t[h + 2], t[h + 3])
  }

  /** The header line in front of `t`, up to its line feed, passes what the processors ask of it. */
  ghost predicate LinePasses(env: Env, checked: bool, t: seq<byte>) {
    && |t| >= MIN_HEADER && LF in t && t[..|REDWAX|] == REDWAX
    && (checked ==> DeviceMatches(env, t[..IndexOf(t, LF).value]))
  }

  ghost predicate Waiting(c: Chain) {
    !c.Legacy? && c.r.phase == Init && c.r.blob.None? && (c.Checked? ==> !c.headerProcessed)
  }

  lemma ShiftedFront(buf: seq<byte>, from: nat, n: nat)
    requires from + n <= |buf|
    ensures Shift(buf, from, n)[..n] == buf[from..from + n]
  {
  }

  /** Behind a line feed: an error, or the line is cut off and the reply begins. */
  lemma RfcInitCuts(env: Env, r: Rfc3161, buf: seq<byte>, len: nat, lf: nat)
    requires MIN_HEADER <= len <= |buf| == SECTOR && buf[..|REDWAX|] == REDWAX
    requires lf < len && IndexOf(buf[..len], LF) == Some(lf)
    ensures var h := RfcInit(env, r, U_FLASH, buf, len);
            var n := h.st.blobLen;
      && (h.verdict == Again || h.verdict == Error)
      && (h.verdict == Again ==>
            && 4 <= n <= MAX_TSR && h.st == r.(phase := Rfc, blob := Some([]), blobLen := n)
            && h.len == len - lf - 1 && h.buf[..h.len] == buf[lf + 1..len]
            && (lf + 5 <= len ==> LengthField(buf[..len], lf + 1, n)))
  {
    hide DerLength, ByteAt, Shift, Ascii, IndexOf;
    ShiftedFront(buf[lf := 0], lf + 1, len - lf - 1);
    assert buf[lf := 0][lf + 1..len] == buf[lf + 1..len];
    if lf + 5 <= len {
      BytesAfter(env, buf, len, lf);
    }
  }

  lemma RfcInitSteps(env: Env, r: Rfc3161, buf: seq<byte>, len: nat)
    requires len <= |buf| == SECTOR
    ensures var h := RfcInit(env, r, U_FLASH, buf, len);
      && (h.verdict == Again || h.verdict == Error || h.verdict == Ok)
      && (h.verdict == Ok ==> env.legacyAllowed && h.st == r && h.buf == buf && h.len == len && buf[0] == MAGIC)
      && (h.verdict == Again && len < MIN_HEADER ==> h.st == r && h.buf == buf && h.len == len)
      && (h.verdict == Again && len >= MIN_HEADER ==>
            && LinePasses(env, false, buf[..len])
            && var p := IndexOf(buf[..len], LF).value + 1;
               var n := h.st.blobLen;
            && 4 <= n <= MAX_TSR && h.st == r.(phase := Rfc, blob := Some([]), blobLen := n)
            && h.len == len - p && h.buf[..h.len] == buf[p..len]
            && (p + 4 <= len ==> LengthField(buf[..len], p, n)))
  {
    hide Ascii, LengthField;
    if len >= MIN_HEADER && buf[..|REDWAX|] == REDWAX && IndexOf(buf[..len], LF).Some? {
      RfcInitCuts(env, r, buf, len, IndexOf(buf[..len], LF).value);
      hide RfcInit;
      assert buf[..len][..|REDWAX|] == buf[..|REDWAX|];
    }
  }

  /** The bytes read behind the cut line are those of the buffer. */
  lemma BytesAfter(env: Env, buf: seq<byte>, len: nat, lf: nat)
    requires lf + 5 <= len <= |buf|
    ensures forall i :: lf < i < len ==> ByteAt(env, buf[lf := 0], i) == buf[..len][i]
  {
  }

  /**
   From the waiting state: not enough bytes yet, or the line is cut off and the reply begins. Only where
   legacy uploads are allowed and no device check is in front can it be a firmware without a header.
   */
  lemma InitSteps(env: Env, c: Chain, buf: seq<byte>, len: nat)
    requires len <= |buf| == SECTOR && Waiting(c)
    ensures var h := ProcessHeader(env, c, U_FLASH, buf, len);
      && (h.verdict == Again || h.verdict == Error || h.verdict == Ok)
      && (h.verdict == Ok ==>
            env.legacyAllowed && c.Signed? && h.st == c && h.buf == buf && h.len == len && buf[0] == MAGIC)
      && (h.verdict == Again && len < MIN_HEADER ==> h.st == c && h.buf == buf && h.len == len)
      && (h.verdict == Again && len >= MIN_HEADER ==>
            && LinePasses(env, c.Checked?, buf[..len])
            && !h.st.Legacy? && h.st.Checked? == c.Checked?
            && (c.Checked? ==> h.st.headerProcessed)
            && var p := IndexOf(buf[..len], LF).value + 1;
               var n := h.st.r.blobLen;
            && 4 <= n <= MAX_TSR && h.st.r == c.r.(phase := Rfc, blob := Some([]), blobLen := n)
            && h.len == len - p && h.buf[..h.len] == buf[p..len]
            && (p + 4 <= len ==> LengthField(buf[..len], p, n)))
  {
    hide RfcInit;
    hide DeviceMatches;
    hide LengthField;
    RfcInitSteps(env, c.r, buf, len);
    assert REDWAX[0] == 0x52;
    if len >= MIN_HEADER {
      match IndexOf(buf[..len], LF)
      case None =>
      case Some(lf) => assert buf[..len][..lf] == buf[..lf];
    }
  }

  /** What `RfcReply` finds: an error, or a verified reply and a digest context just started. */
  lemma ReplySteps(env: Env, r: Rfc3161)
    requires r.blob.Some? && |r.blob.value| == r.blobLen
    ensures var (r1, v) := RfcReply(env, r);
      && (v == Again || v == Error) && r1.blob == r.blob && r1.blobLen == r.blobLen
      && (v == Again ==> r1.phase == Post && r1.md == Running([]) && Verified(env, r1))
  {
  }

  lemma CollectSteps(env: Env, r: Rfc3161, buf: seq<byte>, len: nat)
    requires len <= |buf| == SECTOR && WellFormed(r) && r.phase == Rfc
    ensures var h := RfcCollect(env, r, buf, len);
            var l := Min(len, r.blobLen - |r.blob.value|);
            var blob := r.blob.value + buf[..l];
      && (h.verdict == Again || h.verdict == Error) && h.len == len - l
      && h.st.blob == Some(blob) && h.st.blobLen == r.blobLen
      && (h.verdict == Again && |blob| < r.blobLen ==> h.st == r.(blob := Some(blob)) && h.len == 0)
      && (h.verdict == Again && |blob| == r.blobLen ==>
            h.st.phase == Post && h.st.md == Running([]) && Verified(env, h.st) && h.buf[..h.len] == buf[l..len])
  {
    hide RfcReply, Verified, Shift;
    var l := Min(len, r.blobLen - |r.blob.value|);
    ShiftedFront(buf, l, len - l);
    var r1 := r.(blob := Some(r.blob.value + buf[..l]));
    if |r1.blob.value| == r1.blobLen {
      ReplySteps(env, r1);
    }
  }

  /** While the reply is collected: all bytes go to it, or it is complete and verified. */
  lemma RfcSteps(env: Env, c: Chain, buf: seq<byte>, len: nat)
    requires len <= |buf| == SECTOR && ChainWellFormed(c)
    requires !c.Legacy? && c.r.phase == Rfc && (c.Checked? ==> c.headerProcessed)
    ensures var h := ProcessHeader(env, c, U_FLASH, buf, len);
            var l := Min(len, c.r.blobLen - |c.r.blob.value|);
            var blob := c.r.blob.value + buf[..l];
      && (h.verdict == Again || h.verdict == Error)
      && h.len == len - l
      && !h.st.Legacy? && h.st.Checked? == c.Checked? && (c.Checked? ==> h.st.headerProcessed)
      && h.st.r.blob == Some(blob) && h.st.r.blobLen == c.r.blobLen
      && (h.verdict == Again && |blob| < c.r.blobLen ==> h.st.r == c.r.(blob := Some(blob)) && h.len == 0)
      && (h.verdict == Again && |blob| == c.r.blobLen ==>
            h.st.r.phase == Post && h.st.r.md == Running([]) && Verified(env, h.st.r) && h.buf[..h.len] == buf[l..len])
  {
    hide RfcCollect, Verified, DeviceMatches;
    CollectSteps(env, c.r, buf, len);
  }

  /** A complete reply with a verified chain is let through. */
  lemma RfcAccepts(env: Env, c: Chain, buf: seq<byte>, len: nat)
    requires len <= |buf| == SECTOR && ChainWellFormed(c)
    requires !c.Legacy? && c.r.phase == Rfc && (c.Checked? ==> c.headerProcessed)
    requires var l := Min(len, c.r.blobLen - |c.r.blob.value|);
             var blob := c.r.blob.value + buf[..l];
             |blob| == c.r.blobLen ==> Verified(env, c.r.(blob := Some(blob), reply := env.parse(blob)))
    ensures ProcessHeader(env, c, U_FLASH, buf, len).verdict == Again
  {
    hide Shift;
    hide DeviceMatches;
  }

  /** Past the reply, the first payload byte decides and nothing changes. */
  lemma PostSteps(env: Env, c: Chain, buf: seq<byte>, len: nat)
    requires len <= |buf| == SECTOR && ChainWellFormed(c)
    requires !c.Legacy? && c.r.phase == Post && (c.Checked? ==> c.headerProcessed)
    ensures var h := ProcessHeader(env, c, U_FLASH, buf, len);
      h.st == c && h.buf == buf && h.len == len && h.verdict == if buf[0] == MAGIC then Ok else Error
  {
    hide DeviceMatches;
  }
}
