/**
 The updater as the update service drives it: a fresh updater behind the device check, one session
 of `begin`, `write`, `end(true)` and `activate`, and an image from the signing script.
 */
module UpdaterService {
  import opened Bytes
  import opened Numerals
  import opened FlashModel
  import opened ProcessorSpec
  import opened ProcessorFacts
  import opened UpdaterSpec
  import opened UpdaterStream
  import opened UpdaterRuns
  import opened UpdaterFollow
  import opened UpdaterImage
  import opened UpdaterInstall
  import opened UpdaterWired
  import opened SignedLine

  function Ten(d: nat): nat {
    if d == 0 then 1 else 10 * Ten(d - 1)
  }

  lemma {:induction false} PrintedLength(v: nat, d: nat)
    requires d > 0 && v < Ten(d)
    ensures |Print(v, 10)| <= d
    decreases d
  {
    if v >= 10 {
      PrintedLength(v / 10, d - 1);
    }
  }

  lemma WordIsShort(v: nat)
    requires v < WORD
    ensures |Print(v, 10)| <= 10
  {
    assert Ten(5) == 100000;
    assert Ten(10) == 100000 * Ten(5);
    PrintedLength(v, 10);
  }

  lemma LineLengthIs(tsrLength: nat, payloadLength: nat, model: seq<byte>, hw: seq<byte>)
    requires tsrLength < WORD && payloadLength < WORD && IsWord(model) && IsWord(hw)
    ensures 12 <= |Line(tsrLength, payloadLength, model, hw)| <= 400
  {
    hide Print;
    WordIsShort(tsrLength);
    WordIsShort(payloadLength);
  }

  lemma LineStarts(tsrLength: nat, payloadLength: nat, model: seq<byte>, hw: seq<byte>)
    ensures |REDWAX| < |Line(tsrLength, payloadLength, model, hw)|
    ensures Line(tsrLength, payloadLength, model, hw)[..|REDWAX|] == REDWAX
  {
    hide Fields, Counts;
    assert Ascii("RedWax/1.00")[..9] == Ascii("RedWax/1.");
    hide Ascii;
  }

  /** A line of the signing script is one both processors let through, given the device's model and revision. */
  lemma SignedLineIsGood(env: Env, checked: bool, tsrLength: nat, payloadLength: nat, model: seq<byte>, hw: seq<byte>)
    requires tsrLength < WORD && payloadLength < WORD && IsWord(model) && IsWord(hw)
    requires checked ==> model == env.model && Revision(model, hw) == env.hwRev != []
    ensures GoodLine(env, checked, Line(tsrLength, payloadLength, model, hw))
  {
    hide Print, Fields, Revision, CString, IsWord, Occurs, DeviceMatches, Counts, IndexOf;
    var text := Text(tsrLength, payloadLength, model, hw);
    var line := Line(tsrLength, payloadLength, model, hw);
    LineLengthIs(tsrLength, payloadLength, model, hw);
    LineIsClean(tsrLength, payloadLength, model, hw);
    DeviceReadsLine(env, tsrLength, payloadLength, model, hw);
    assert line[..|line| - 1] == text;
    LineStarts(tsrLength, payloadLength, model, hw);
  }

  /** A successful `begin` on a fresh updater opens a session. */
  lemma BeginOpens(env: Env, chain: Chain, bytes: seq<byte>, size: u32)
    requires 0 < |bytes| < WORD && !env.legacyAllowed && Waiting(chain) && chain.r.md == NoCtx
    ensures var (s0, ok) := Begin(env, Constructed(chain, bytes), size, U_FLASH);
            ok ==> Opened(env, s0) && Safe(s0) && s0.chain == ResetChain(chain) && s0.flash.bytes == bytes
                   && s0.size == if size == UNKNOWN_SIZE then |bytes| else size
  {
    BeginKeepsSafe(env, Constructed(chain, bytes), size, U_FLASH);
  }

  /** The image file the signing script writes. */
  function SignedImage(tsr: seq<byte>, payload: seq<byte>, model: seq<byte>, hw: seq<byte>): seq<byte> {
    Image(Line(|tsr|, |payload|, model, hw), tsr, payload)
  }

  lemma SignedImageIsGood(env: Env, s0: Upd, tsr: seq<byte>, payload: seq<byte>, model: seq<byte>, hw: seq<byte>)
    requires Opened(env, s0) && Safe(s0) && |s0.flash.bytes| % SECTOR == 0 && NoFaults(env)
    requires GoodReply(env, tsr) && GoodPayload(payload) && (s0.chain.Signed? ==> GoodDigest(env, tsr, payload))
    requires IsWord(model) && IsWord(hw)
    requires s0.chain.Checked? ==> model == env.model && Revision(model, hw) == env.hwRev != []
    requires |SignedImage(tsr, payload, model, hw)| <= s0.size
    ensures Good(env, s0, Line(|tsr|, |payload|, model, hw), tsr, payload)
  {
    hide Line, GoodLine, GoodReply, GoodDigest, Revision, Safe;
    assert s0.size < WORD;
    SignedLineIsGood(env, s0.chain.Checked?, |tsr|, |payload|, model, hw);
  }

  /**
   The round trip of the service. On a device without flash faults, an image the signing script makes
   for its model and revision, from a valid and trusted reply and a firmware of at least one sector,
   goes through `begin`, any division into `write` calls and `end(true)`; the reply the device kept is
   the one that was signed, and `activate` leaves the firmware in flash byte for byte.
   */
  lemma UploadInstalls(
    env: Env, bytes: seq<byte>, size: u32, tsr: seq<byte>, payload: seq<byte>, pieces: seq<seq<byte>>)
    requires 0 < |bytes| < WORD && |bytes| % SECTOR == 0 && !env.legacyAllowed && NoFaults(env)
    requires Begin(env, Constructed(Checked(false, FRESH), bytes), size, U_FLASH).1
    requires GoodReply(env, tsr) && GoodPayload(payload) && |payload| >= SECTOR
    requires IsWord(env.model) && IsWord(env.hwRev) && Revision(env.model, env.hwRev) == env.hwRev
    requires Flatten(pieces) == SignedImage(tsr, payload, env.model, env.hwRev)
    requires |Flatten(pieces)| <= if size == UNKNOWN_SIZE then |bytes| else size
    ensures var s0 := Begin(env, Constructed(Checked(false, FRESH), bytes), size, U_FLASH).0;
            var (s2, ended) := End(env, WriteAll(env, s0, pieces), true);
            var (s3, active) := Activate(env, s2);
            && ended && !s2.chain.Legacy? && s2.chain.r.blob == Some(tsr)
            && |payload| <= |s3.flash.bytes| && s3.flash.bytes[..|payload|] == payload && Bootable(s3.flash)
            && (active <==> env.bootOk(s3.flash.bytes))
  {
    hide GoodReply, GoodPayload, NoFaults, Revision, Good, SignedImage, End, Activate, WriteAll, Safe;
    var chain := Checked(false, FRESH);
    var s0 := Begin(env, Constructed(chain, bytes), size, U_FLASH).0;
    BeginOpens(env, chain, bytes, size);
    hide Begin, Opened;
    OpenedSize(env, s0);
    SignedImageIsGood(env, s0, tsr, payload, env.model, env.hwRev);
    ImageOf(tsr, payload, env.model, env.hwRev);
    ImageInstalls(env, s0, Line(|tsr|, |payload|, env.model, env.hwRev), tsr, payload, pieces);
  }

  lemma ImageOf(tsr: seq<byte>, payload: seq<byte>, model: seq<byte>, hw: seq<byte>)
    ensures SignedImage(tsr, payload, model, hw) == Image(Line(|tsr|, |payload|, model, hw), tsr, payload)
  {
  }

  lemma OpenedSize(env: Env, s0: Upd)
    requires Opened(env, s0)
    ensures WF(s0)
  {
  }

  /** A device on which every library call and every flash operation succeeds. */
  function WorkingDevice(model: seq<byte>, hw: seq<byte>): Env {
    Env(Faults(n => false, (n, i) => 0), i => 0, i => 0, n => true, n => true, b => Some(Reply(MD_SHA256, [])),
        t => true, t => true, true, b => true, (a, b) => false, a => false, (t, b) => [], false, model, hw,
        b => true, true)
  }

  /** There the round trip asks only for a framed reply, a firmware of a sector or more, and room for both. */
  lemma WorkingDeviceInstalls(bytes: seq<byte>, tsr: seq<byte>, payload: seq<byte>, model: seq<byte>, hw: seq<byte>,
                              pieces: seq<seq<byte>>)
    requires 0 < |bytes| < WORD - 1 && |bytes| % SECTOR == 0
    requires LengthField(tsr, 0, |tsr|) && |tsr| <= MAX_TSR && |payload| >= SECTOR && payload[0] == MAGIC
    requires IsWord(model) && IsWord(hw) && Revision(model, hw) == hw
    requires Flatten(pieces) == SignedImage(tsr, payload, model, hw) && |Flatten(pieces)| <= |bytes|
    ensures var env := WorkingDevice(model, hw);
            var s0 := Begin(env, Constructed(Checked(false, FRESH), bytes), |bytes|, U_FLASH).0;
            var (s2, ended) := End(env, WriteAll(env, s0, pieces), true);
            var (s3, active) := Activate(env, s2);
            ended && active && |payload| <= |s3.flash.bytes| && s3.flash.bytes[..|payload|] == payload
  {
    hide Revision, SignedImage, Flatten, End, Activate, WriteAll, LengthField;
    var env := WorkingDevice(model, hw);
    assert NoFaults(env);
    assert GoodReply(env, tsr);
    assert Begin(env, Constructed(Checked(false, FRESH), bytes), |bytes|, U_FLASH).1;
    UploadInstalls(env, bytes, |bytes|, tsr, payload, pieces);
  }

  /**
   The same upload with one flash failure, at the flush that `end` makes: `begin`, `write`, `end(true)` and
   `activate` all report success, and the flash does not hold the firmware. Only the error that `end` leaves
   behind tells.
   */
  lemma WorkingDeviceCanLose(bytes: seq<byte>, tsr: seq<byte>, payload: seq<byte>, model: seq<byte>, hw: seq<byte>)
      returns (n: nat)
    requires 0 < |bytes| < WORD - 1 && |bytes| % SECTOR == 0
    requires LengthField(tsr, 0, |tsr|) && |tsr| <= MAX_TSR
    requires |payload| > SECTOR && |payload| % SECTOR != 0 && payload[0] == MAGIC && payload[|payload| - 1] != 0xFF
    requires IsWord(model) && IsWord(hw) && Revision(model, hw) == hw
    requires |SignedImage(tsr, payload, model, hw)| < |bytes|
    ensures var bad := FailingAt(WorkingDevice(model, hw), n);
            var (s0, begun) := Begin(bad, Constructed(Checked(false, FRESH), bytes), |bytes|, U_FLASH);
            && begun && WF(s0)
            && var s1 := Write(bad, s0, SignedImage(tsr, payload, model, hw)).0;
               var (e, ended) := End(bad, s1, true);
               var (a, active) := Activate(bad, e);
               && s1.error == OK && ended && active && e.error == ERR_ERASE
               && |payload| <= |a.flash.bytes| && a.flash.bytes[..|payload|] != payload
  {
    hide Revision, Line, End, Activate, Write, LengthField, Safe, Good, GoodReply, IsWord;
    var env := WorkingDevice(model, hw);
    var chain := Checked(false, FRESH);
    var (s0, begun) := Begin(env, Constructed(chain, bytes), |bytes|, U_FLASH);
    assert begun;
    BeginOpens(env, chain, bytes, |bytes|);
    WorkingDeviceAgrees(env, tsr, model, hw);
    RevisionThere(model, hw);
    hide Begin, Opened;
    OpenedSize(env, s0);
    SignedImageIsGood(env, s0, tsr, payload, model, hw);
    var line := Line(|tsr|, |payload|, model, hw);
    var s := Write(env, s0, Image(line, tsr, payload)).0;
    n := |s.flash.log|;
    FailsOnce(env, 0);
    SameBegin(env, FailingAt(env, n), Constructed(chain, bytes), |bytes|, U_FLASH);
    FailedFlushActivates(env, s0, line, tsr, payload);
  }

  lemma RevisionThere(model: seq<byte>, hw: seq<byte>)
    requires IsWord(hw) && Revision(model, hw) == hw
    ensures Revision(model, hw) == hw != []
  {
    hide Revision;
  }

  lemma WorkingDeviceAgrees(env: Env, tsr: seq<byte>, model: seq<byte>, hw: seq<byte>)
    requires env == WorkingDevice(model, hw) && LengthField(tsr, 0, |tsr|) && |tsr| <= MAX_TSR
    ensures GoodReply(env, tsr) && NoFaults(env) && env.model == model && env.hwRev == hw
    ensures forall b :: env.bootOk(b)
  {
    hide LengthField;
  }
}
