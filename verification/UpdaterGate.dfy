/** What must be true of an upload before any of it reaches the flash. */
module UpdaterGate {
  import opened Bytes
  import opened FlashModel
  import opened ProcessorSpec
  import opened ProcessorFacts
  import opened UpdaterSpec
  import opened UpdaterStream
  import opened UpdaterFollow

  /**
   The line passes (behind the device check: model and revision match), the `n` bytes after it
   parse as a reply with an accepted digest and a verified chain, and the magic follows. `n` is what
   the reply's own length bytes say, when they lie in the first sector.
   */
  ghost predicate GateWith(env: Env, checked: bool, t: seq<byte>, n: nat) {
    var h := LineLength(t);
    && LinePasses(env, checked, t)
    && 4 <= n <= MAX_TSR && h + n < |t|
    && (h + 4 <= SECTOR ==> LengthField(t, h, n))
    && env.parse(t[h..h + n]).Some? && env.parse(t[h..h + n]).value.digestType >= MD_SHA256
    && env.trusted && env.chainOk(t[h..h + n])
    && t[h + n] == MAGIC
  }

  ghost predicate GateOpen(env: Env, checked: bool, t: seq<byte>) {
    exists n: nat :: GateWith(env, checked, t, n)
  }

  lemma GateStaysOpen(env: Env, checked: bool, t: seq<byte>, d: seq<byte>)
    requires GateOpen(env, checked, t)
    ensures GateOpen(env, checked, t + d)
  {
    hide LinePasses;
    hide LineLength;
    var n: nat :| GateWith(env, checked, t, n);
    LineMore(env, checked, t, d);
    SliceMore(t, d, LineLength(t), LineLength(t) + n);
    assert GateWith(env, checked, t + d, n);
  }

  lemma FlushGated(env: Env, s0: Upd, t: seq<byte>, s: Upd)
    requires Follows(env, s0, t, s) && WFBuffer(s)
    ensures WriteBuffer(env, s).0.flash == s0.flash || GateOpen(env, s0.chain.Checked?, t)
  {
    hide WriteBuffer;
    hide WFBuffer;
    hide LinePasses;
    hide LineLength;
    hide ProcessHeader;
    if s.postHeader {
      assert s.chain.r.phase == Post;
      assert GateWith(env, s0.chain.Checked?, t, s.chain.r.blobLen);
    } else {
      HeaderEffect(env, s);
    }
  }

  lemma FillGated(env: Env, s0: Upd, t: seq<byte>, s: Upd, d: seq<byte>)
    requires WF(s) && Follows(env, s0, t, s) && s.bufferLen + |d| <= SECTOR && |t| + |d| <= s.size
    ensures Fill(env, s, d).0.flash == s0.flash || GateOpen(env, s0.chain.Checked?, t + d)
  {
    hide WriteBuffer;
    hide PastLine;
    hide InReply;
    hide InPayload;
    hide GateOpen;
    AppendFollows(env, s0, t, s, d);
    var s1 := Append(s, d);
    assert WFBuffer(s1);
    FlushGated(env, s0, t + d, s1);
    UntouchedOrGated(env, s0, t + d, s1);
  }

  lemma UntouchedOrGated(env: Env, s0: Upd, t: seq<byte>, s: Upd)
    requires Follows(env, s0, t, s)
    ensures s.flash == s0.flash || GateOpen(env, s0.chain.Checked?, t)
  {
    hide LinePasses;
    hide LineLength;
    if s.flash != s0.flash {
      assert GateWith(env, s0.chain.Checked?, t, s.chain.r.blobLen);
    }
  }

  lemma {:induction false} LoopGated(env: Env, s0: Upd, t: seq<byte>, s: Upd, data: seq<byte>)
    requires Opened(env, s0) && WF(s) && s.buf.Some? && Follows(env, s0, t, s) && |t| + |data| <= s.size
    ensures WriteLoop(env, s, data).0.flash == s0.flash || GateOpen(env, s0.chain.Checked?, t + data)
    decreases |data|, if s.bufferLen == SECTOR then 1 else 0
  {
    hide Fill;
    hide PastLine;
    hide InReply;
    hide InPayload;
    hide BeforeLine;
    hide GateOpen;
    if data == [] {
      assert t + data == t;
      UntouchedOrGated(env, s0, t, s);
    } else {
      var l := Min(|data|, SECTOR - s.bufferLen);
      FillGated(env, s0, t, s, data[..l]);
      FillFollows(env, s0, t, s, data[..l]);
      FillConserves(env, s, data[..l]);
      var (s1, ok) := Fill(env, s, data[..l]);
      assert t + data[..l] + data[l..] == t + data;
      if ok {
        LoopGated(env, s0, t + data[..l], s1, data[l..]);
      } else if s1.flash != s0.flash {
        GateStaysOpen(env, s0.chain.Checked?, t + data[..l], data[l..]);
      }
    }
  }

  /** No flash call is made by the writes and the end of a session unless the gate is open. */
  lemma HeaderGate(env: Env, s0: Upd, t: seq<byte>, even: bool)
    requires Opened(env, s0) && |t| <= s0.size
    requires !GateOpen(env, s0.chain.Checked?, t)
    ensures Write(env, s0, t).0.flash == s0.flash
    ensures End(env, Write(env, s0, t).0, even).0.flash == s0.flash
  {
    hide WriteLoop;
    hide Follows;
    hide GateOpen;
    hide WriteBuffer;
    hide ProcessEnd;
    OpenedFollows(env, s0);
    LoopGated(env, s0, [], s0, t);
    assert [] + t == t;
    HeadedBytesConserved(env, s0, t);
    var s := Write(env, s0, t).0;
    if s.error == OK && s.bufferLen > 0 {
      FlushGated(env, s0, t, s);
    }
  }
}
