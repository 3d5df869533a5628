/** The update processors as objects that edit the updater's buffer in place. */
module Processors {
  import opened Bytes
  import opened FlashModel
  import opened ProcessorSpec

  /** `bcopy` of `n` bytes from `from` to the front of the same buffer. */
  method MoveToFront(buffer: array<byte>, from: nat, n: nat)
    requires from + n <= buffer.Length
    modifies buffer
    ensures buffer[..] == Shift(old(buffer[..]), from, n)
  {
    forall i | 0 <= i < n {
      buffer[i] := buffer[from + i];
    }
  }

  class UpdateProcessorRFC3161 {
    const env: Env
    var phase: Phase
    var rfc3161: array?<byte>
    var at: nat
    var len: nat
    var md: MdCtx
    var reply: Option<Reply>

    ghost predicate Valid()
      reads this, rfc3161
    {
      && (rfc3161 != null ==> at <= rfc3161.Length == len)
      && (rfc3161 == null ==> at == 0)
      && WellFormed(State())
    }

    function State(): Rfc3161
      requires rfc3161 != null ==> at <= rfc3161.Length
      reads this, rfc3161
    {
      Rfc3161(phase, if rfc3161 == null then None else Some(rfc3161[..at]), len, md, reply)
    }

    constructor (env: Env)
      ensures Valid() && State() == FRESH && this.env == env && rfc3161 == null
    {
      this.env := env;
      phase, rfc3161, at, len, md, reply := Init, null, 0, 0, NoCtx, None;
    }

    /** `reset()`. */
    method Clear()
      requires Valid()
      modifies this
      ensures Valid() && rfc3161 == null && State() == Reset(old(State()))
    {
      rfc3161, len, at, phase, md := null, 0, 0, Init, NoCtx;
    }

    method CutLine(command: nat, buffer: array<byte>, n: nat) returns (left: nat, v: Verdict)
      requires Valid() && phase == Init && n <= buffer.Length == SECTOR
      modifies this, buffer
      ensures Valid() && (rfc3161 == null || fresh(rfc3161))
      ensures RfcInit(env, old(State()), command, old(buffer[..]), n) == Header(State(), buffer[..], left, v)
    {
      hide Shift;
      hide DerLength;
      hide IndexOf;
      hide Ascii;
      hide ByteAt;
      left, v := n, Error;
      if n < MIN_HEADER {
        return n, Again;
      }
      if buffer[..|REDWAX|] != REDWAX {
        if env.legacyAllowed {
          v := LegacyHeader(command, buffer[0]);
        }
        return;
      }
      var eol := IndexOf(buffer[..n], LF);
      if eol.None? {
        return;
      }
      buffer[eol.value] := 0;
      var p := eol.value + 1;
      if ByteAt(env, buffer[..], p) != 0x30 || ByteAt(env, buffer[..], p + 1) != 0x82 {
        return;
      }
      len := DerLength(ByteAt(env, buffer[..], p + 2), ByteAt(env, buffer[..], p + 3));
      assert rfc3161 == null;
      if len > MAX_TSR || !env.blobOk(len) {
        return;
      }
      rfc3161 := new byte[len];
      left := n - p;
      MoveToFront(buffer, p, left);
      at, phase, v := 0, Rfc, Again;
    }

    /** Parse the complete reply, start its digest, check its chain. */
    method JudgeReply() returns (v: Verdict)
      requires Valid() && rfc3161 != null
      requires phase == Rfc && at == len
      modifies this`reply, this`md, this`phase
      ensures Valid() && (State(), v) == RfcReply(env, old(State()))
    {
      reply := env.parse(rfc3161[..at]);
      v := Error;
      if reply.None? || reply.value.digestType < MD_SHA256 || !env.known(reply.value.digestType) {
        return;
      }
      md := Idle;
      if !env.starts(reply.value.digestType) {
        return;
      }
      md := Running([]);
      if !env.trusted || !env.chainOk(rfc3161[..at]) {
        return;
      }
      phase, v := Post, Again;
    }

    /** `bcopy` of the next bytes of the reply behind those already there. */
    method TakeReply(buffer: array<byte>, l: nat)
      requires Valid() && rfc3161 != null && buffer != rfc3161 && l <= buffer.Length && at + l <= len
      modifies this`at, rfc3161
      ensures Valid()
      ensures State() == old(State()).(blob := Some(old(State()).blob.value + buffer[..l]))
    {
      forall i | 0 <= i < l {
        rfc3161[at + i] := buffer[i];
      }
      assert rfc3161[..at + l] == old(State()).blob.value + buffer[..l];
      at := at + l;
    }

    /** Collect the reply, and judge it when it is complete; what follows it moves to the front of the buffer. */
    method CollectReply(buffer: array<byte>, n: nat) returns (left: nat, v: Verdict)
      requires Valid() && phase == Rfc && n <= buffer.Length == SECTOR && rfc3161 != null && buffer != rfc3161
      modifies this, rfc3161, buffer
      ensures Valid() && rfc3161 == old(rfc3161)
      ensures RfcCollect(env, old(State()), old(buffer[..]), n) == Header(State(), buffer[..], left, v)
    {
      hide Shift;
      hide RfcReply;
      var l := Min(n, len - at);
      assert buffer[..l] == buffer[..][..l];
      TakeReply(buffer, l);
      left := n - l;
      if at >= len && left > 0 {
        MoveToFront(buffer, l, left);
      }
      v := Again;
      if at == len {
        v := JudgeReply();
      }
    }

    /** `process_header`. */
    method ProcessHeader(command: nat, buffer: array<byte>, n: nat) returns (left: nat, v: Verdict)
      requires Valid() && n <= buffer.Length == SECTOR && buffer != rfc3161
      modifies this, rfc3161, buffer
      ensures Valid() && (rfc3161 == old(rfc3161) || fresh(rfc3161))
      ensures RfcHeader(env, old(State()), command, old(buffer[..]), n) == Header(State(), buffer[..], left, v)
    {
      match phase
      case Init =>
        left, v := CutLine(command, buffer, n);
      case Rfc =>
        left, v := CollectReply(buffer, n);
      case Post =>
        left, v := n, LegacyHeader(command, buffer[0]);
    }

    /** `process_payload`. */
    method ProcessPayload(buffer: array<byte>, n: nat) returns (v: Verdict)
      requires Valid() && n <= buffer.Length
      modifies this`md
      ensures Valid() && (State(), v) == RfcPayload(env, old(State()), buffer[..n])
    {
      if rfc3161 == null {
        return if env.legacyAllowed then Ok else Error;
      }
      v := Error;
      if md.Running? && !env.updateFails(md.data, buffer[..n]) {
        md, v := Running(md.data + buffer[..n]), Ok;
      }
    }

    /** `process_end`. */
    method ProcessEnd() returns (v: Verdict)
      requires Valid()
      modifies this`md
      ensures Valid() && (State(), v) == RfcEnd(env, old(State()))
    {
      if rfc3161 == null && env.legacyAllowed {
        return Ok;
      }
      v := Error;
      if md.Running? && !env.finishFails(md.data) && reply.Some? {
        v := if DigestMatches(env, reply.value, md.data) then Ok else Error;
        md := NoCtx;
      }
    }
  }

  class DeviceCheckProcessor {
    const env: Env
    var headerProcessed: bool
    const next: UpdateProcessorRFC3161

    constructor (next: UpdateProcessorRFC3161)
      ensures this.next == next && this.env == next.env && !headerProcessed
    {
      this.env, this.next, headerProcessed := next.env, next, false;
    }

    /** `process_header`: the line is terminated in place, checked, and restored for the next processor. */
    method ProcessHeader(command: nat, buffer: array<byte>, n: nat) returns (left: nat, v: Verdict)
      requires next.Valid() && next.env == env && n <= buffer.Length == SECTOR && buffer != next.rfc3161
      modifies this, next, next.rfc3161, buffer
      ensures next.Valid() && (next.rfc3161 == old(next.rfc3161) || fresh(next.rfc3161))
      ensures CheckedHeader(env, old(headerProcessed), old(next.State()), command, old(buffer[..]), n)
              == Header((headerProcessed, next.State()), buffer[..], left, v)
    {
      hide RfcHeader;
      hide DeviceMatches;
      hide IndexOf;
      hide Ascii;
      if !headerProcessed {
        left, v := n, Error;
        if n < MIN_HEADER {
          return n, Again;
        }
        if buffer[0] != REDWAX[0] {
          return;
        }
        var eol := IndexOf(buffer[..n], LF);
        if eol.None? {
          return;
        }
        buffer[eol.value] := 0;
        if !DeviceMatches(env, buffer[..eol.value]) {
          return;
        }
        buffer[eol.value] := LF;
        assert buffer[..] == old(buffer[..]);
        headerProcessed := true;
      }
      left, v := next.ProcessHeader(command, buffer, n);
    }
  }
}
