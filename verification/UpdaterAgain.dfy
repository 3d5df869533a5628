/** What a later session of the wired chain lets through: its processors start from where the last one ended. */
module UpdaterAgain {
  import opened Bytes
  import opened FlashModel
  import opened ProcessorSpec
  import opened ProcessorFacts
  import opened UpdaterSpec
  import opened UpdaterRuns
  import opened UpdaterFollow
  import opened UpdaterGate
  import opened UpdaterImage
  import opened UpdaterInstall
  import opened UpdaterPlain
  import opened UpdaterWired
  import opened UpdaterService
  import opened UpdaterLater
  import opened SignedLine

  /** A stream that starts with the magic does not open the gate. */
  lemma MagicIsNoLine(env: Env, checked: bool, t: seq<byte>)
    requires t != [] && t[0] == MAGIC
    ensures !GateOpen(env, checked, t)
  {
    hide DeviceMatches;
    assert REDWAX[0] == 0x52;
    assert |t| >= |REDWAX| ==> t[..|REDWAX|][0] == t[0];
  }

  /** Past a header the first full buffer is taken for its magic alone. */
  lemma BufferIsTaken(env: Env, s0: Upd, p: seq<byte>)
    requires Begun(s0) && Past(s0.chain) && p != [] && |p| == Min(s0.size, SECTOR) && p[0] == MAGIC
    ensures var s := Append(s0, p);
      Write(env, s0, p).0 == s.(postHeader := true) && s.buf.value[..s.bufferLen] == p
  {
    hide ProcessHeader;
    var s := Append(s0, p);
    PostSteps(env, s.chain, s.buf.value, s.bufferLen);
    HeaderEffect(env, s);
    hide WriteBuffer;
    assert p[..|p|] == p && p[|p|..] == [];
    assert Fill(env, s0, p) == (s.(postHeader := true), true);
    assert WriteLoop(env, s.(postHeader := true), []) == (s.(postHeader := true), 0);
  }

  lemma SameAsLegacy(env: Env, s0: Upd, p: seq<byte>)
    requires WF(s0) && Past(s0.chain) && s0.command == U_FLASH && Installs(env, AsLegacy(s0), p)
    ensures Installs(env, s0, p)
  {
    hide Write, End, Activate, WF, Past;
    WriteAsLegacy(env, s0, p);
    var s := Write(env, s0, p).0;
    EndAsLegacy(env, s, true);
    ActivateAsLegacy(env, End(env, s, true).0);
  }

  /** Past a header any firmware with the magic in front is installed: nothing of it is checked. */
  lemma AnyInstalls(env: Env, s0: Upd, p: seq<byte>)
    requires Begun(s0) && Past(s0.chain) && NoFaults(env) && |s0.flash.bytes| % SECTOR == 0
    requires p != [] && p[0] == MAGIC && |p| <= s0.size && (|p| >= SECTOR || |p| == s0.size)
    ensures Installs(env, s0, p) && !GateOpen(env, true, p)
  {
    MagicIsNoLine(env, true, p);
    assert PlainSession(env, AsLegacy(s0));
    hide Installs, NoFaults, GateOpen, Past;
    PlainInstalls(env, AsLegacy(s0), p);
    SameAsLegacy(env, s0, p);
  }

  lemma BeginsAgain(env: Env, s: Upd, size: u32)
    requires WF(s) && s.chain.Checked? && 0 < |s.flash.bytes|
    ensures var (s0, ok) := Begin(env, s, size, U_FLASH);
      && s0.chain == s.chain && |s0.flash.bytes| == |s.flash.bytes|
      && (ok ==> Begun(s0) && s0.size == if size == UNKNOWN_SIZE then |s.flash.bytes| else size)
  {
    hide WellFormed;
  }

  /**
   In every run without flash faults, once an erase or a write has been made, the next session installs any
   firmware with the magic in front, of a sector or more or of the announced size, although it opens no gate.
   */
  lemma LaterInstallsAnything(env: Env, bytes: seq<byte>, calls: seq<Call>, size: u32, p: seq<byte>)
    requires !env.legacyAllowed && |bytes| < WORD && NoFaults(env)
    requires var s := Run(env, Constructed(Checked(false, FRESH), bytes), calls);
      && Touched(s.flash.log) && 0 < |s.flash.bytes| && |s.flash.bytes| % SECTOR == 0
      && var (s0, begun) := Begin(env, s, size, U_FLASH);
      && begun && p != [] && p[0] == MAGIC && |p| <= s0.size && (|p| >= SECTOR || |p| == s0.size)
    ensures var s := Run(env, Constructed(Checked(false, FRESH), bytes), calls);
      Installs(env, Begin(env, s, size, U_FLASH).0, p) && !GateOpen(env, true, p)
  {
    hide Run, Begin, NoFaults, Touched, Verified, Installs, GateOpen;
    var s := Run(env, Constructed(Checked(false, FRESH), bytes), calls);
    FlashedMeansVerified(env, bytes, calls);
    RunsAreWired(env, bytes, calls);
    BeginsAgain(env, s, size);
    AnyInstalls(env, Begin(env, s, size, U_FLASH).0, p);
  }

  /** An upload that gets through leaves the chain past its header, and the partition as long as it was. */
  lemma UploadLeavesPast(env: Env, s0: Upd, line: seq<byte>, tsr: seq<byte>, payload: seq<byte>)
    requires Good(env, s0, line, tsr, payload) && s0.chain.Checked? && |payload| >= SECTOR
    ensures WF(s0)
    ensures var s := Write(env, s0, Image(line, tsr, payload)).0;
            var a := Activate(env, End(env, s, true).0).0;
      WF(a) && Past(a.chain) && |a.flash.bytes| == |s0.flash.bytes| && a.size == 0
  {
    hide Good, Write, End, Activate, Withheld, Top, FlashSafe, Follows, MagicWaits, GoodPayload, Past;
    var t := Image(line, tsr, payload);
    GoodFits(env, s0, line, tsr, payload);
    ImageTaken(env, s0, line, tsr, payload);
    var s := Write(env, s0, t).0;
    WholeOnTrack(env, s0, line, tsr, payload, s);
    PayloadCounters(env, s0, t, s);
    FollowsPast(env, s0, t, s);
    EndKeepsPast(env, s);
    ActivateKeepsPast(env, End(env, s, true).0);
  }

  lemma FollowsPast(env: Env, s0: Upd, t: seq<byte>, s: Upd)
    requires Follows(env, s0, t, s) && s.postHeader && s0.chain.Checked?
    ensures Past(s.chain)
  {
    hide LineLength, LinePasses, LengthField, Verified, Withhold;
  }

  lemma BufferKeepsLength(env: Env, s: Upd)
    requires WFBuffer(s)
    ensures |WriteBuffer(env, s).0.flash.bytes| == |s.flash.bytes|
  {
    hide ProcessHeader, ProcessPayload, EraseSector, ProgramBytes, Masked;
  }

  lemma EndKeepsLength(env: Env, s: Upd)
    requires WF(s)
    ensures |End(env, s, true).0.flash.bytes| == |s.flash.bytes|
  {
    hide WriteBuffer, ProcessEnd, ChainWellFormed;
    if s.buf.Some? {
      BufferKeepsLength(env, s);
    }
  }

  lemma EndKeepsPast(env: Env, s: Upd)
    requires WF(s) && Past(s.chain) && s.command == U_FLASH && s.buf.Some?
    ensures var e := End(env, s, true).0; Past(e.chain) && e.command == U_FLASH && |e.flash.bytes| == |s.flash.bytes|
  {
    hide End, Past, WellFormed;
    EndAsLegacy(env, s, true);
    EndKeepsLength(env, s);
  }

  lemma ActivateKeepsLength(env: Env, s: Upd)
    ensures |Activate(env, s).0.flash.bytes| == |s.flash.bytes|
  {
    hide EnablePartition, CheckBootable;
  }

  lemma ActivateKeepsPast(env: Env, s: Upd)
    requires WF(s) && Past(s.chain) && s.command == U_FLASH
    ensures var a := Activate(env, s).0; WF(a) && Past(a.chain) && |a.flash.bytes| == |s.flash.bytes| && a.size == 0
  {
    ActivateKeepsLength(env, s);
    hide EnablePartition, CheckBootable, WellFormed;
  }

  /**
   A device on which everything works: after one good upload the next session installs any firmware with the
   magic in front, as a second file of one request would be.
   */
  lemma SecondPartInstalls(bytes: seq<byte>, tsr: seq<byte>, payload: seq<byte>, model: seq<byte>, hw: seq<byte>,
                           p: seq<byte>)
    requires 0 < |bytes| < WORD - 1 && |bytes| % SECTOR == 0
    requires LengthField(tsr, 0, |tsr|) && |tsr| <= MAX_TSR && |payload| >= SECTOR && payload[0] == MAGIC
    requires IsWord(model) && IsWord(hw) && Revision(model, hw) == hw
    requires |SignedImage(tsr, payload, model, hw)| <= |bytes| && SECTOR <= |p| <= |bytes| && p[0] == MAGIC
    ensures var env := WorkingDevice(model, hw);
            var s0 := Begin(env, Constructed(Checked(false, FRESH), bytes), |bytes|, U_FLASH).0;
      && WF(s0)
      && var first := Activate(env, End(env, Write(env, s0, SignedImage(tsr, payload, model, hw)).0, true).0).0;
         var (s1, begun) := Begin(env, first, |bytes|, U_FLASH);
      && begun && Installs(env, s1, p) && !GateOpen(env, true, p)
  {
    hide Revision, Line, End, Activate, Write, LengthField, Safe, Good, GoodReply, IsWord, Installs;
    var env := WorkingDevice(model, hw);
    var chain := Checked(false, FRESH);
    var (s0, begun) := Begin(env, Constructed(chain, bytes), |bytes|, U_FLASH);
    assert begun;
    BeginOpens(env, chain, bytes, |bytes|);
    WorkingDeviceAgrees(env, tsr, model, hw);
    RevisionThere(model, hw);
    OpenedSize(env, s0);
    SignedImageIsGood(env, s0, tsr, payload, model, hw);
    var line := Line(|tsr|, |payload|, model, hw);
    UploadLeavesPast(env, s0, line, tsr, payload);
    var first := Activate(env, End(env, Write(env, s0, Image(line, tsr, payload)).0, true).0).0;
    BeginsAgain(env, first, |bytes|);
    AnyInstalls(env, Begin(env, first, |bytes|, U_FLASH).0, p);
  }
}
