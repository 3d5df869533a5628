/**
 When the updater gets around to a payload of less than a sector. The buffer is passed on when it is full
 or holds the last announced byte, and each turn does one thing: cut the line, take reply bytes, look at
 the first payload byte, or write.
 */
module UpdaterShort {
  import opened Bytes
  import opened FlashModel
  import opened ProcessorSpec
  import opened ProcessorFacts
  import opened UpdaterSpec
  import opened UpdaterStream
  import opened UpdaterFollow
  import opened UpdaterImage

  /** How many sectors it takes to hold `n` bytes. */
  function Sectors(n: nat): nat {
    (n + SECTOR - 1) / SECTOR
  }

  lemma SectorsAfter(m: nat, rest: nat)
    requires m % SECTOR == 0 && 0 < rest <= SECTOR
    ensures Sectors(m + rest) * SECTOR == m + SECTOR
  {
  }

  lemma SectorsPositive(n: nat)
    requires n > 0
    ensures Sectors(n) >= 1
  {
  }

  /** How much of the stream has to be in for the reply to be complete: the line, and the reply in whole sectors. */
  function ReplyIn(line: seq<byte>, tsr: seq<byte>): (n: nat)
    ensures n >= |line|
  {
    |line| + Sectors(|tsr|) * SECTOR
  }

  /** What every turn on the stream keeps about when things happen. */
  ghost predicate OnSchedule(s0: Upd, line: seq<byte>, tsr: seq<byte>, u: seq<byte>, s: Upd)
    requires Holds(s0, u, s)
  {
    var k := ReplyIn(line, tsr);
    match s.chain.r.phase
    case Init => |u| < s.size && !s.postHeader
    case Rfc =>
      && !s.postHeader && s.chain.r.blob.Some? && |s.chain.r.blob.value| % SECTOR == 0
      && (|u| == s.size ==> |u| <= k)
    case Post =>
      && (!s.postHeader ==> (|u| >= k || |u| == s.size) && (|u| == s.size ==> |u| <= k))
      && (s.postHeader ==> |u| == s.size && k < |u|)
  }

  /** A stream that is part of an image with a payload of less than a sector, with `u` of it accepted. */
  ghost predicate Short(env: Env, s0: Upd, line: seq<byte>, tsr: seq<byte>, payload: seq<byte>, u: seq<byte>, s: Upd) {
    && Opened(env, s0) && GoodLine(env, s0.chain.Checked?, line) && LengthField(tsr, 0, |tsr|)
    && |payload| < SECTOR && |Image(line, tsr, payload)| <= s0.size && u <= Image(line, tsr, payload)
    && Follows(env, s0, u, s)
  }

  lemma ShortLengths(env: Env, s0: Upd, line: seq<byte>, tsr: seq<byte>, payload: seq<byte>, u: seq<byte>, s: Upd)
    requires Short(env, s0, line, tsr, payload, u, s)
    ensures |u| <= |line| + |tsr| + |payload| <= s.size == s0.size && |tsr| >= 4
    ensures s.chain.r.phase != Init ==> LineLength(u) == |line| && s.chain.r.blobLen == |tsr|
  {
    hide PastLine;
    hide InReply;
    hide InPayload;
    hide GoodLine;
    ImageParts(line, tsr, payload);
    if s.chain.r.phase != Init {
      LengthsOfImage(env, s0, line, tsr, payload, u, s);
    }
  }

  lemma InitOnSchedule(env: Env, s0: Upd, line: seq<byte>, tsr: seq<byte>, payload: seq<byte>, u: seq<byte>, s: Upd)
    requires Short(env, s0, line, tsr, payload, u, s) && WFBuffer(s) && Due(s) && s.bufferLen > 0
    requires s.chain.r.phase == Init
    ensures var (r, ok) := WriteBuffer(env, s);
      r.flash == s0.flash && (ok ==> Follows(env, s0, u, r) && OnSchedule(s0, line, tsr, u, r))
  {
    hide WriteBuffer;
    hide WFBuffer;
    hide GoodLine;
    hide ProcessHeader;
    hide LinePasses;
    hide LengthField;
    hide LineLength;
    InitFollows(env, s0, u, s);
    HeaderEffect(env, s);
    InitSteps(env, s.chain, s.buf.value, s.bufferLen);
    ShortLengths(env, s0, line, tsr, payload, u, s);
    SectorsPositive(|tsr|);
  }

  lemma RfcOnSchedule(env: Env, s0: Upd, line: seq<byte>, tsr: seq<byte>, payload: seq<byte>, u: seq<byte>, s: Upd)
    requires Short(env, s0, line, tsr, payload, u, s) && WFBuffer(s) && Due(s) && s.bufferLen > 0
    requires s.chain.r.phase == Rfc && |s.chain.r.blob.value| % SECTOR == 0
    ensures var (r, ok) := WriteBuffer(env, s);
      r.flash == s0.flash && (ok ==> Follows(env, s0, u, r) && OnSchedule(s0, line, tsr, u, r))
  {
    hide WriteBuffer;
    hide WFBuffer;
    hide GoodLine;
    hide LinePasses;
    hide LengthField;
    hide LineLength;
    hide Sectors;
    hide Verified;
    RfcFollows(env, s0, u, s);
    RfcMoves(env, s0, u, s);
    ShortLengths(env, s0, line, tsr, payload, u, s);
    var m := |s.chain.r.blob.value|;
    if |tsr| - m <= SECTOR {
      SectorsAfter(m, |tsr| - m);
    }
  }

  lemma PostOnSchedule(env: Env, s0: Upd, line: seq<byte>, tsr: seq<byte>, payload: seq<byte>, u: seq<byte>, s: Upd)
    requires Short(env, s0, line, tsr, payload, u, s) && WFBuffer(s) && Due(s) && s.bufferLen > 0
    requires s.chain.r.phase == Post && !s.postHeader && ReplyIn(line, tsr) < |u|
    ensures var (r, ok) := WriteBuffer(env, s);
      r.flash == s0.flash && (ok ==> Follows(env, s0, u, r) && OnSchedule(s0, line, tsr, u, r))
  {
    hide WriteBuffer;
    hide WFBuffer;
    hide GoodLine;
    hide ProcessHeader;
    hide LinePasses;
    hide LengthField;
    hide LineLength;
    hide Sectors;
    hide Verified;
    PostFollows(env, s0, u, s);
    HeaderEffect(env, s);
    PostSteps(env, s.chain, s.buf.value, s.bufferLen);
    ShortLengths(env, s0, line, tsr, payload, u, s);
  }

  /** While there is more of the stream to come, no turn has reached the payload and the buffer is not full. */
  lemma NotYet(env: Env, s0: Upd, line: seq<byte>, tsr: seq<byte>, payload: seq<byte>, u: seq<byte>, s: Upd)
    requires Short(env, s0, line, tsr, payload, u, s) && OnSchedule(s0, line, tsr, u, s) && WF(s)
    ensures s.bufferLen < SECTOR && (s.postHeader ==> |u| == s.size)
    ensures s.flash == s0.flash || s.postHeader
  {
    hide GoodLine;
    hide LinePasses;
    hide LengthField;
    hide LineLength;
    hide Sectors;
    hide Verified;
    ShortLengths(env, s0, line, tsr, payload, u, s);
  }

  lemma FillOnSchedule(
    env: Env, s0: Upd, line: seq<byte>, tsr: seq<byte>, payload: seq<byte>, u: seq<byte>, s: Upd, d: seq<byte>)
    requires Short(env, s0, line, tsr, payload, u, s) && OnSchedule(s0, line, tsr, u, s) && WF(s)
    requires d != [] && u + d <= Image(line, tsr, payload) && s.bufferLen + |d| <= SECTOR
    ensures var (r, ok) := Fill(env, s, d);
      && r.flash == s0.flash
      && (ok ==> Short(env, s0, line, tsr, payload, u + d, r) && OnSchedule(s0, line, tsr, u + d, r))
  {
    hide WriteBuffer;
    hide GoodLine;
    hide PastLine;
    hide InReply;
    hide InPayload;
    hide LengthField;
    hide ReplyIn;
    NotYet(env, s0, line, tsr, payload, u, s);
    AppendFollows(env, s0, u, s, d);
    var s1 := Append(s, d);
    if s1.bufferLen == SECTOR || s1.bufferLen == Remaining(s1) {
      assert WFBuffer(s1);
      match s1.chain.r.phase
      case Init => InitOnSchedule(env, s0, line, tsr, payload, u + d, s1);
      case Rfc => RfcOnSchedule(env, s0, line, tsr, payload, u + d, s1);
      case Post => PostOnSchedule(env, s0, line, tsr, payload, u + d, s1);
    }
  }

  /** The writes of a short image leave the flash alone, whatever fails; without failure they are on schedule. */
  lemma {:induction false} LoopOnSchedule(
    env: Env, s0: Upd, line: seq<byte>, tsr: seq<byte>, payload: seq<byte>, u: seq<byte>, s: Upd, d: seq<byte>)
    requires Short(env, s0, line, tsr, payload, u, s) && OnSchedule(s0, line, tsr, u, s) && WF(s) && s.buf.Some?
    requires u + d == Image(line, tsr, payload) && (d == [] ==> s.flash == s0.flash)
    ensures var r := WriteLoop(env, s, d).0;
      && r.flash == s0.flash
      && (r.error == OK ==> Short(env, s0, line, tsr, payload, u + d, r) && OnSchedule(s0, line, tsr, u + d, r))
    decreases |d|, if s.bufferLen == SECTOR then 1 else 0
  {
    hide Fill;
    hide Short;
    hide OnSchedule;
    if d == [] {
      assert u + d == u;
    } else {
      NotYet(env, s0, line, tsr, payload, u, s);
      var l := Min(|d|, SECTOR - s.bufferLen);
      assert u + d[..l] + d[l..] == u + d;
      ShortHeld(env, s0, line, tsr, payload, u, s);
      FillOnSchedule(env, s0, line, tsr, payload, u, s, d[..l]);
      FillConserves(env, s, d[..l]);
      var (s1, ok) := Fill(env, s, d[..l]);
      if ok {
        LoopOnSchedule(env, s0, line, tsr, payload, u + d[..l], s1, d[l..]);
      }
    }
  }

  lemma ShortHeld(env: Env, s0: Upd, line: seq<byte>, tsr: seq<byte>, payload: seq<byte>, u: seq<byte>, s: Upd)
    requires Short(env, s0, line, tsr, payload, u, s)
    ensures Holds(s0, u, s) && |Image(line, tsr, payload)| <= s.size < WORD && Opened(env, s0)
  {
    hide GoodLine;
    hide PastLine;
    hide InReply;
    hide InPayload;
  }

  /** Whether the updater gets as far as writing a payload of less than a sector. */
  predicate Reaches(s0: Upd, line: seq<byte>, tsr: seq<byte>, payload: seq<byte>) {
    ReplyIn(line, tsr) < |Image(line, tsr, payload)| == s0.size
  }

  /** Once a short image is in, the payload is next to be written exactly when the reply was complete a turn earlier. */
  lemma ShortIn(env: Env, s0: Upd, line: seq<byte>, tsr: seq<byte>, payload: seq<byte>)
    requires Opened(env, s0) && GoodLine(env, s0.chain.Checked?, line) && LengthField(tsr, 0, |tsr|)
    requires |payload| < SECTOR && |Image(line, tsr, payload)| <= s0.size
    ensures var s := Write(env, s0, Image(line, tsr, payload)).0;
      && s.flash == s0.flash
      && (s.error == OK ==>
            && Follows(env, s0, Image(line, tsr, payload), s)
            && (s.postHeader <==> Reaches(s0, line, tsr, payload)))
  {
    hide WriteLoop;
    hide GoodLine;
    hide LengthField;
    hide ReplyIn;
    var t := Image(line, tsr, payload);
    OpenedFollows(env, s0);
    assert [] + t == t;
    LoopOnSchedule(env, s0, line, tsr, payload, [], s0, t);
  }

  /**
   A payload of less than a sector never reaches the flash, whatever fails, unless the announced size is
   that of the image and the reply is complete before the last byte is in: the one turn that `end` adds is
   spent on the header.
   */
  lemma ShortPayloadStays(env: Env, s0: Upd, line: seq<byte>, tsr: seq<byte>, payload: seq<byte>, even: bool)
    requires Opened(env, s0) && GoodLine(env, s0.chain.Checked?, line) && LengthField(tsr, 0, |tsr|)
    requires |payload| < SECTOR && |Image(line, tsr, payload)| <= s0.size && !Reaches(s0, line, tsr, payload)
    ensures var s := Write(env, s0, Image(line, tsr, payload)).0;
      s.flash == s0.flash && End(env, s, even).0.flash == s0.flash
  {
    hide Write;
    hide GoodLine;
    hide LengthField;
    hide PastLine;
    hide InReply;
    hide InPayload;
    hide WriteBuffer;
    hide ProcessHeader;
    hide ProcessEnd;
    hide Reaches;
    ShortIn(env, s0, line, tsr, payload);
    var s := Write(env, s0, Image(line, tsr, payload)).0;
    if s.error == OK && s.bufferLen > 0 {
      HeaderEffect(env, s);
    }
  }
}
