/** The round trip without headers: what the legacy processor, asking for the magic alone, makes of an upload. */
module UpdaterPlain {
  import opened Bytes
  import opened FlashModel
  import opened ProcessorSpec
  import opened UpdaterSpec
  import opened UpdaterFollow
  import opened UpdaterAny
  import opened UpdaterImage
  import opened UpdaterInstall

  /**
   The session takes `p`, `end` flashes all of it but the first byte, neither leaving an error, and `activate` puts
   that byte back and asks only whether the result can be booted.
   */
  ghost predicate Installs(env: Env, s0: Upd, p: seq<byte>) {
    && WF(s0)
    && var s := Write(env, s0, p).0;
       var (e, ended) := End(env, s, true);
       var (a, active) := Activate(env, e);
    && s.error == OK && ended && e.error == OK && 0 < |p| <= |e.flash.bytes| == |a.flash.bytes|
    && e.flash.bytes[..|p|] == Withhold(p) && a.flash.bytes[..|p|] == p
    && (active <==> env.bootOk(a.flash.bytes))
  }

  /** A session of the legacy processor on a partition of whole sectors whose calls all succeed. */
  ghost predicate PlainSession(env: Env, s0: Upd) {
    Started(s0) && s0.chain.Legacy? && NoFaults(env) && |s0.flash.bytes| % SECTOR == 0
  }

  /** The stream `t` taken: the header is through unless more is to come, and sectors are whole but for the last. */
  ghost predicate Going(env: Env, s0: Upd, t: seq<byte>, s: Upd) {
    && Plain(env, s0, t, s) && WF(s)
    && (s.postHeader || |t| < s.size) && (s.progressFlash % SECTOR == 0 || s.bufferLen == 0)
  }

  lemma PlainFlush(env: Env, s0: Upd, t: seq<byte>, s: Upd)
    requires PlainSession(env, s0) && Plain(env, s0, t, s) && WFBuffer(s) && s.bufferLen > 0
    requires s.progressFlash % SECTOR == 0 && t[0] == MAGIC
    ensures var (r, ok) := WriteBuffer(env, s);
      && ok && Plain(env, s0, t, r) && r.postHeader
      && r.progressFlash == if s.postHeader then |t| else s.progressFlash
  {
    hide WriteBuffer, EraseSector, ProgramBytes, Withhold, Masked;
    if s.postHeader {
      PlainPayload(env, s0, t, s);
      PlainAnswer(env, s0, t, s);
      PayloadEffect(env, s);
      SectorFits(env, s0, s);
    } else {
      PlainHeader(env, s0, t, s);
      HeaderEffect(env, s);
      assert s.buf.value[0] == s.buf.value[..s.bufferLen][0];
    }
  }

  /** The next sector is there, and both calls on it succeed. */
  lemma SectorFits(env: Env, s0: Upd, s: Upd)
    requires PlainSession(env, s0) && WFBuffer(s) && 0 < s.bufferLen && s.progressFlash % SECTOR == 0
    requires s.progressFlash + s.bufferLen <= s0.size && |s.flash.bytes| == |s0.flash.bytes|
    ensures var data := Masked(s.buf.value, s.progressFlash == 0)[..s.bufferLen];
            var (f1, erased) := EraseSector(env.faults, s.flash, s.progressFlash);
      erased && ProgramBytes(env.faults, f1, s.progressFlash, data).1
  {
    hide Written, Masked;
    assert s.progressFlash + SECTOR <= |s.flash.bytes|;
  }

  lemma PlainAppend(env: Env, s0: Upd, t: seq<byte>, s: Upd, d: seq<byte>)
    requires Plain(env, s0, t, s) && s.chain.Legacy? && s.bufferLen + |d| <= SECTOR && |t| + |d| <= s.size
    requires (t + d) != [] && (t + d)[0] == MAGIC
    ensures Plain(env, s0, t + d, Append(s, d))
  {
    hide Append, Withhold;
    AppendHolds(s0, t, s, d);
    assert (t + d)[..s.progress] == t[..s.progress];
  }

  lemma FillGoes(env: Env, s0: Upd, t: seq<byte>, s: Upd, d: seq<byte>)
    requires PlainSession(env, s0) && Going(env, s0, t, s) && s.progressFlash % SECTOR == 0
    requires s.bufferLen + |d| <= SECTOR && |t| + |d| <= s.size && (d != [] || s.bufferLen == SECTOR)
    requires (t + d) != [] && (t + d)[0] == MAGIC
    ensures var (r, ok) := Fill(env, s, d);
      && ok && Going(env, s0, t + d, r) && (s.bufferLen + |d| == SECTOR ==> r.progressFlash % SECTOR == 0)
  {
    hide WriteBuffer, Withhold, NoFaults;
    PlainAppend(env, s0, t, s, d);
    var s1 := Append(s, d);
    if s1.bufferLen == SECTOR || s1.bufferLen == Remaining(s1) {
      PlainFlush(env, s0, t + d, s1);
    }
  }

  lemma {:induction false} LoopGoes(env: Env, s0: Upd, t: seq<byte>, s: Upd, data: seq<byte>)
    requires PlainSession(env, s0) && Going(env, s0, t, s) && s.buf.Some?
    requires (data != [] ==> s.progressFlash % SECTOR == 0) && |t| + |data| <= s.size
    requires (t + data) != [] && (t + data)[0] == MAGIC
    ensures Going(env, s0, t + data, WriteLoop(env, s, data).0)
    decreases |data|, if s.bufferLen == SECTOR then 1 else 0
  {
    hide Fill, PlainSession, Plain;
    if data == [] {
      assert t + data == t;
    } else {
      var l := Min(|data|, SECTOR - s.bufferLen);
      var u := t + data[..l];
      assert u + data[l..] == t + data;
      assert l == 0 ==> s.bufferLen == SECTOR;
      GoingSize(env, s0, t, s);
      assert u != [] && u[0] == (t + data)[0];
      FillGoes(env, s0, t, s, data[..l]);
      var s1 := Fill(env, s, data[..l]).0;
      GoingSize(env, s0, u, s1);
      LoopGoes(env, s0, u, s1, data[l..]);
    }
  }

  lemma GoingSize(env: Env, s0: Upd, t: seq<byte>, s: Upd)
    requires Going(env, s0, t, s)
    ensures s.size == s0.size && s.buf.Some? && s.progress + s.bufferLen == |t|
  {
    hide Withhold;
  }

  lemma EndGoes(env: Env, s0: Upd, p: seq<byte>, s: Upd)
    requires PlainSession(env, s0) && Going(env, s0, p, s) && s.postHeader
    ensures var (e, ended) := End(env, s, true);
      && ended && e.error == OK && e.command == U_FLASH && e.selected && |p| <= |e.flash.bytes| == |s0.flash.bytes|
      && e.flash.bytes[..|p|] == Withhold(p)
  {
    hide WriteBuffer, Withhold, NoFaults;
    if s.bufferLen > 0 {
      PlainFlush(env, s0, p, s);
    }
    assert p[..|p|] == p;
  }

  /** Anything with the magic in front that reaches the flash at all is installed. */
  lemma LongPlain(env: Env, s0: Upd, p: seq<byte>)
    requires PlainSession(env, s0) && p != [] && p[0] == MAGIC && |p| <= s0.size && (|p| >= SECTOR || |p| == s0.size)
    ensures Installs(env, s0, p)
  {
    hide WriteLoop, End, Activate, Withhold, NoFaults, Plain;
    StartsGoing(env, s0);
    assert [] + p == p;
    LoopGoes(env, s0, [], s0, p);
    var s := Write(env, s0, p).0;
    GoingThrough(env, s0, p, s);
    EndGoes(env, s0, p, s);
    ActivateInstalls(env, End(env, s, true).0, p);
  }

  lemma StartsGoing(env: Env, s0: Upd)
    requires PlainSession(env, s0)
    ensures Going(env, s0, [], s0)
  {
  }

  lemma GoingThrough(env: Env, s0: Upd, p: seq<byte>, s: Upd)
    requires Going(env, s0, p, s) && (|p| >= SECTOR || |p| == s0.size)
    ensures s.postHeader && s.error == OK
  {
    hide Withhold;
  }

  /** Less than a sector, and less than was announced: only the header step is ever made. */
  lemma ShortPlain(env: Env, s0: Upd, p: seq<byte>)
    requires PlainSession(env, s0) && p != [] && |p| < SECTOR && |p| < s0.size
    ensures End(env, Write(env, s0, p).0, true).0.flash == s0.flash
  {
    hide NoFaults, ProcessHeader;
    var s := Append(s0, p);
    assert p[..|p|] == p && p[|p|..] == [];
    assert Fill(env, s0, p) == (s, true);
    assert WriteLoop(env, s, []) == (s, 0);
    HeaderEffect(env, s);
    hide WriteBuffer;
  }

  /**
   On a device without flash faults a firmware with the magic in front is installed byte for byte when it is a
   sector or more, or fills the announced size; any other leaves the flash as it was.
   */
  lemma PlainInstalls(env: Env, s0: Upd, p: seq<byte>)
    requires PlainSession(env, s0) && p != [] && p[0] == MAGIC && |p| <= s0.size
    ensures WF(s0)
    ensures if |p| >= SECTOR || |p| == s0.size then Installs(env, s0, p)
            else End(env, Write(env, s0, p).0, true).0.flash == s0.flash
  {
    hide Installs, NoFaults;
    if |p| >= SECTOR || |p| == s0.size { LongPlain(env, s0, p); } else { ShortPlain(env, s0, p); }
  }
}
