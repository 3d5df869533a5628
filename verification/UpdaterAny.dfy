/** Where every byte of an upload is, whatever processor is installed and whether legacy uploads are allowed or not. */
module UpdaterAny {
  import opened Bytes
  import opened FlashModel
  import opened ProcessorSpec
  import opened UpdaterSpec
  import opened UpdaterStream
  import opened UpdaterFollow

  /** `s` is where the updater is once it has accepted the stream `t`, with or without a header in front. */
  ghost predicate Tracks(env: Env, s0: Upd, t: seq<byte>, s: Upd) {
    Follows(env, s0, t, s) || Plain(env, s0, t, s)
  }

  lemma PlainHeader(env: Env, s0: Upd, t: seq<byte>, s: Upd)
    requires Plain(env, s0, t, s) && WFBuffer(s) && !s.postHeader && s.bufferLen > 0
    ensures var (r, ok) := WriteBuffer(env, s); ok ==> Plain(env, s0, t, r)
  {
    hide WriteBuffer;
    hide WFBuffer;
    hide WF;
    HeaderEffect(env, s);
    var buf := s.buf.value;
    assert buf[0] == buf[..s.bufferLen][0];
  }

  /** A processor without a header in front takes any payload and stays as it is. */
  lemma PlainAnswer(env: Env, s0: Upd, t: seq<byte>, s: Upd)
    requires Started(s0) && Plain(env, s0, t, s) && s.postHeader
    ensures ProcessPayload(env, s.chain, s.buf.value[..s.bufferLen]) == (s.chain, Ok)
  {
    hide Withhold;
    hide WF;
  }

  lemma PlainPayload(env: Env, s0: Upd, t: seq<byte>, s: Upd)
    requires Started(s0) && Plain(env, s0, t, s) && WFBuffer(s) && s.postHeader && s.bufferLen > 0
    ensures var (r, ok) := WriteBuffer(env, s); ok ==> Plain(env, s0, t, r)
  {
    PlainAnswer(env, s0, t, s);
    hide Started;
    hide WriteBuffer;
    hide EraseSector;
    hide ProgramBytes;
    hide ProcessPayload;
    hide Withhold;
    hide Masked;
    PayloadEffect(env, s);
    WholeOutgoing(t, s.progress, s.buf.value, s.bufferLen);
    ProgramErased(env.faults, s.flash, s.progressFlash, Masked(s.buf.value, s.progressFlash == 0)[..s.bufferLen]);
    assert t[..|t|] == t && t[|t|..] == [];
  }

  lemma WholeOutgoing(t: seq<byte>, p: nat, buf: seq<byte>, n: nat)
    requires p + n == |t| && 0 < n <= |buf| == SECTOR && buf[..n] == t[p..]
    ensures Withhold(t[..p]) + Masked(buf, p == 0)[..n] == Withhold(t)
  {
    hide Withhold;
    hide Masked;
    assert t[0..p] == t[..p] && t[0..] == t;
    Outgoing(t, 0, p, buf, n);
  }

  lemma FlushTracks(env: Env, s0: Upd, t: seq<byte>, s: Upd)
    requires Started(s0) && Tracks(env, s0, t, s) && WFBuffer(s) && s.bufferLen > 0 && (s.postHeader || Due(s))
    ensures var (r, ok) := WriteBuffer(env, s); ok ==> Tracks(env, s0, t, r)
  {
    hide WriteBuffer;
    hide WFBuffer;
    hide PastLine;
    hide Started;
    hide Plain;
    if Plain(env, s0, t, s) {
      if s.postHeader { PlainPayload(env, s0, t, s); } else { PlainHeader(env, s0, t, s); }
    } else if s.postHeader {
      PayloadFollows(env, s0, t, s);
    } else {
      match s.chain.r.phase
      case Init => InitFollows(env, s0, t, s);
      case Rfc => RfcFollows(env, s0, t, s);
      case Post => PostFollows(env, s0, t, s);
    }
  }

  lemma AppendTracks(env: Env, s0: Upd, t: seq<byte>, s: Upd, d: seq<byte>)
    requires Tracks(env, s0, t, s) && s.bufferLen + |d| <= SECTOR && |t| + |d| <= s.size
    ensures Tracks(env, s0, t + d, Append(s, d))
  {
    hide Append;
    hide Follows;
    hide Withhold;
    if Follows(env, s0, t, s) {
      AppendFollows(env, s0, t, s, d);
    } else {
      AppendHolds(s0, t, s, d);
      assert (t + d)[..s.progress] == t[..s.progress];
    }
  }

  lemma TracksHeld(env: Env, s0: Upd, t: seq<byte>, s: Upd)
    requires Tracks(env, s0, t, s)
    ensures Held(s0, t, s)
  {
    hide PastLine;
    hide InReply;
    hide InPayload;
  }

  lemma FillTracks(env: Env, s0: Upd, t: seq<byte>, s: Upd, d: seq<byte>)
    requires Started(s0) && WF(s) && Tracks(env, s0, t, s)
    requires s.bufferLen + |d| <= SECTOR && |t| + |d| <= s.size && (d != [] || s.bufferLen == SECTOR)
    ensures var (r, ok) := Fill(env, s, d); ok ==> Tracks(env, s0, t + d, r)
  {
    hide WriteBuffer;
    hide Tracks;
    TracksHeld(env, s0, t, s);
    AppendTracks(env, s0, t, s, d);
    var s1 := Append(s, d);
    if s1.bufferLen == SECTOR || s1.bufferLen == Remaining(s1) {
      FlushTracks(env, s0, t + d, s1);
    }
  }

  lemma {:induction false} LoopTracks(env: Env, s0: Upd, t: seq<byte>, s: Upd, data: seq<byte>)
    requires Started(s0) && WF(s) && s.buf.Some? && Tracks(env, s0, t, s) && |t| + |data| <= s.size
    ensures var r := WriteLoop(env, s, data).0; r.error == OK ==> Tracks(env, s0, t + data, r)
    decreases |data|, if s.bufferLen == SECTOR then 1 else 0
  {
    hide Fill;
    hide Tracks;
    TracksHeld(env, s0, t, s);
    if data == [] {
      assert t + data == t;
    } else {
      var l := Min(|data|, SECTOR - s.bufferLen);
      FillTracks(env, s0, t, s, data[..l]);
      FillConserves(env, s, data[..l]);
      var (s1, ok) := Fill(env, s, data[..l]);
      if ok {
        LoopTracks(env, s0, t + data[..l], s1, data[l..]);
        assert t + data[..l] + data[l..] == t + data;
      }
    }
  }

  /**
   After a `write` that leaves no error, every byte of the stream is stripped with the line, kept
   as the reply, in flash, or next in the buffer. Where no header is asked for there is nothing to
   strip or keep, and all of it is in flash or in the buffer.
   */
  lemma BytesConserved(env: Env, s0: Upd, t: seq<byte>)
    requires Started(s0) && |t| <= s0.size
    ensures var s := Write(env, s0, t).0; s.error == OK ==> Tracks(env, s0, t, s)
  {
    hide WriteLoop;
    hide Follows;
    StartedTracks(env, s0);
    hide Tracks;
    LoopTracks(env, s0, [], s0, t);
    assert [] + t == t;
  }

  lemma StartedTracks(env: Env, s0: Upd)
    requires Started(s0)
    ensures Tracks(env, s0, [], s0)
  {
  }
}
