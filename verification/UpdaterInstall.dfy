/**
 An image laid out as the signing script writes it is accepted, its reply recovered, and its payload
 installed byte for byte, in whatever pieces it arrives, exactly when the payload is long enough for the
 updater to get around to it.
 */
module UpdaterInstall {
  import opened Bytes
  import opened FlashModel
  import opened ProcessorSpec
  import opened ProcessorFacts
  import opened UpdaterSpec
  import opened UpdaterStream
  import opened UpdaterRuns
  import opened UpdaterFollow
  import opened UpdaterImage
  import opened UpdaterShort

  /** Once the whole image is in and the header is through, only a last partial sector can be outstanding. */
  lemma WholeOnTrack(env: Env, s0: Upd, line: seq<byte>, tsr: seq<byte>, payload: seq<byte>, s: Upd)
    requires OnTrack(env, s0, line, tsr, payload, Image(line, tsr, payload), s) && WF(s)
    requires |payload| >= SECTOR || s.postHeader
    ensures s.chain.r.phase == Post && s.postHeader && s.size > 0 && s.selected
  {
    hide Safe;
    hide GoodLine;
    hide LengthField;
    hide LinePasses;
    hide LineLength;
    hide Withhold;
    hide Verified;
    ImageParts(line, tsr, payload);
    LineShort(env, s0.chain.Checked?, line);
    if s.chain.r.phase != Init {
      LengthsOnTrack(env, s0, line, tsr, payload, Image(line, tsr, payload), s);
    }
  }

  /** The whole image is taken and the buffer is empty: the reply and all of the payload are in place. */
  ghost predicate AllIn(env: Env, s0: Upd, tsr: seq<byte>, payload: seq<byte>, r: Upd) {
    && r.error == OK && r.buf.Some? && r.command == U_FLASH && r.selected
    && r.chain.Checked? == s0.chain.Checked? && !r.chain.Legacy?
    && r.chain.r.blob == Some(tsr) && r.chain.r.reply == env.parse(tsr)
    && (r.chain.Signed? ==> r.chain.r.md == Running(payload))
    && |r.flash.bytes| == |s0.flash.bytes| && r.progressFlash == |payload| <= |r.flash.bytes|
    && r.flash.bytes[..|payload|] == Withhold(payload)
  }

  lemma EmptyMeansAllIn(env: Env, s0: Upd, line: seq<byte>, tsr: seq<byte>, payload: seq<byte>, s: Upd)
    requires OnTrack(env, s0, line, tsr, payload, Image(line, tsr, payload), s) && WF(s) && s.bufferLen == 0
    requires |payload| >= SECTOR || s.postHeader
    ensures AllIn(env, s0, tsr, payload, s.(size := s.progress))
  {
    hide Good;
    hide GoodLine;
    hide PastLine;
    hide LineLength;
    hide Withhold;
    hide WF;
    WholeOnTrack(env, s0, line, tsr, payload, s);
    LengthsOnTrack(env, s0, line, tsr, payload, Image(line, tsr, payload), s);
    ImageParts(line, tsr, payload);
    GoodFits(env, s0, line, tsr, payload);
    var t := Image(line, tsr, payload);
    var e := |line| + |tsr|;
    assert t[e..|t|] == t[e..];
    assert t[e..|t|] == payload;
  }

  /** The last flush of a good image puts all of its payload in flash, the first byte withheld. */
  lemma FlushOnTrack(env: Env, s0: Upd, line: seq<byte>, tsr: seq<byte>, payload: seq<byte>, s: Upd)
    requires OnTrack(env, s0, line, tsr, payload, Image(line, tsr, payload), s) && Safe(s)
    requires |payload| >= SECTOR || s.postHeader
    ensures AllIn(env, s0, tsr, payload, Flushed(env, s))
  {
    hide WriteBuffer;
    hide Good;
    hide FlashSafe;
    hide Top;
    hide PastLine;
    hide InReply;
    hide InPayload;
    hide AllIn;
    var t := Image(line, tsr, payload);
    WholeOnTrack(env, s0, line, tsr, payload, s);
    if s.bufferLen > 0 {
      PayloadOnTrack(env, s0, line, tsr, payload, t, s);
      PayloadFollows(env, s0, t, s);
      PayloadMoves(env, s0, t, s);
      EmptyMeansAllIn(env, s0, line, tsr, payload, WriteBuffer(env, s).0);
    } else {
      EmptyMeansAllIn(env, s0, line, tsr, payload, s);
    }
  }

  /** `end(true)` on a whole good image: yes, with the reply recovered and the payload in flash. */
  lemma EndOnTrack(env: Env, s0: Upd, line: seq<byte>, tsr: seq<byte>, payload: seq<byte>, s: Upd)
    requires OnTrack(env, s0, line, tsr, payload, Image(line, tsr, payload), s) && Safe(s)
    requires |payload| >= SECTOR || s.postHeader
    ensures var (r, ended) := End(env, s, true);
      && ended && r.command == U_FLASH && r.selected && !r.chain.Legacy?
      && r.chain.r.blob == Some(tsr) && r.progressFlash == |payload| <= |r.flash.bytes|
      && |r.flash.bytes| >= 4 && r.flash.bytes[..|payload|] == Withhold(payload)
  {
    hide Flushed;
    hide Good;
    hide FlashSafe;
    hide Top;
    hide PastLine;
    hide InReply;
    hide InPayload;
    hide Withhold;
    FlushOnTrack(env, s0, line, tsr, payload, s);
    WholeOnTrack(env, s0, line, tsr, payload, s);
    GoodFits(env, s0, line, tsr, payload);
    DigestOnTrack(env, s0, line, tsr, payload);
  }

  lemma DigestOnTrack(env: Env, s0: Upd, line: seq<byte>, tsr: seq<byte>, payload: seq<byte>)
    requires Good(env, s0, line, tsr, payload)
    ensures env.parse(tsr).Some?
    ensures s0.chain.Signed? ==> !env.finishFails(payload) && DigestMatches(env, env.parse(tsr).value, payload)
  {
    hide GoodLine;
    hide Safe;
  }

  /** Activation puts the magic back: the partition then starts with the payload. */
  lemma ActivateInstalls(env: Env, s: Upd, payload: seq<byte>)
    requires s.command == U_FLASH && s.selected && NoFaults(env) && GoodPayload(payload)
    requires |payload| <= |s.flash.bytes| && 4 <= |s.flash.bytes| && s.flash.bytes[..|payload|] == Withhold(payload)
    ensures var (r, active) := Activate(env, s);
      && |r.flash.bytes| == |s.flash.bytes| && r.flash.bytes[..|payload|] == payload && Bootable(r.flash)
      && (active <==> env.bootOk(r.flash.bytes))
  {
    hide Written;
    assert s.flash.bytes[0] == s.flash.bytes[..|payload|][0];
    EnableRestores(env.faults, s.flash);
    var f1 := EnablePartition(env.faults, s.flash).0;
    assert f1.bytes[..|payload|] == s.flash.bytes[..|payload|][0 := MAGIC] == payload;
  }

  /** A good image is taken without error and its header is through, if there is a sector of payload or a turn left. */
  lemma ImageTaken(env: Env, s0: Upd, line: seq<byte>, tsr: seq<byte>, payload: seq<byte>)
    requires Good(env, s0, line, tsr, payload) && |Image(line, tsr, payload)| >= SECTOR
    ensures var s := Write(env, s0, Image(line, tsr, payload)).0;
      && Safe(s) && OnTrack(env, s0, line, tsr, payload, Image(line, tsr, payload), s)
      && (|payload| < SECTOR ==> (s.postHeader <==> Reaches(s0, line, tsr, payload)))
  {
    hide Good;
    hide Follows;
    hide FlashSafe;
    hide Top;
    hide Withheld;
    hide WriteLoop;
    hide Reaches;
    GoodFits(env, s0, line, tsr, payload);
    var t := Image(line, tsr, payload);
    OpenedFollows(env, s0);
    assert [] + t == t;
    LoopOnTrack(env, s0, line, tsr, payload, [], s0, t);
    OnTrackHasBuffer(env, s0, line, tsr, payload, t, Write(env, s0, t).0);
    if |payload| < SECTOR {
      GoodParts(env, s0, line, tsr, payload);
      ShortIn(env, s0, line, tsr, payload);
    }
  }

  /**
   A good image offered in any pieces. If its payload is a sector or more, or it is a shorter one that the
   updater still reaches, `end(true)` says yes, the reply is recovered as it was signed, and after
   `activate()` the partition starts with the payload, byte for byte. Otherwise `end(true)` leaves the flash
   as it was.
   */
  lemma ImageInstalls(env: Env, s0: Upd, line: seq<byte>, tsr: seq<byte>, payload: seq<byte>, pieces: seq<seq<byte>>)
    requires Good(env, s0, line, tsr, payload) && Flatten(pieces) == Image(line, tsr, payload)
    ensures var s1 := WriteAll(env, s0, pieces);
            var (s2, ended) := End(env, s1, true);
            var (s3, active) := Activate(env, s2);
      if |payload| >= SECTOR || Reaches(s0, line, tsr, payload) then
        && ended && !s2.chain.Legacy? && s2.chain.r.blob == Some(tsr) && s2.progressFlash == |payload|
        && |payload| <= |s3.flash.bytes| && s3.flash.bytes[..|payload|] == payload && Bootable(s3.flash)
        && (active <==> env.bootOk(s3.flash.bytes))
      else s2.flash == s0.flash
  {
    hide Good;
    hide OnTrack;
    hide Safe;
    hide Write;
    hide End;
    hide Activate;
    hide Withhold;
    hide Waiting;
    hide Reaches;
    GoodFits(env, s0, line, tsr, payload);
    assert Fits(s0, |Image(line, tsr, payload)|);
    AnyPieces(env, s0, pieces);
    GoodParts(env, s0, line, tsr, payload);
    if |payload| >= SECTOR || Reaches(s0, line, tsr, payload) {
      ImageIsLong(s0, line, tsr, payload);
      ImageTaken(env, s0, line, tsr, payload);
      var s1 := Write(env, s0, Image(line, tsr, payload)).0;
      EndOnTrack(env, s0, line, tsr, payload, s1);
      ActivateInstalls(env, End(env, s1, true).0, payload);
    } else {
      ShortPayloadStays(env, s0, line, tsr, payload, true);
    }
  }

  lemma ImageIsLong(s0: Upd, line: seq<byte>, tsr: seq<byte>, payload: seq<byte>)
    requires |payload| >= SECTOR || (tsr != [] && Reaches(s0, line, tsr, payload))
    ensures |Image(line, tsr, payload)| >= SECTOR
  {
    if tsr != [] {
      SectorsPositive(|tsr|);
    }
  }

  lemma GoodParts(env: Env, s0: Upd, line: seq<byte>, tsr: seq<byte>, payload: seq<byte>)
    requires Good(env, s0, line, tsr, payload)
    ensures NoFaults(env) && GoodPayload(payload)
    ensures GoodLine(env, s0.chain.Checked?, line) && LengthField(tsr, 0, |tsr|)
  {
    hide GoodLine;
    hide Safe;
  }
}
