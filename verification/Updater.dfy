/**
 The updater object. Each method is the source's, on a real sector buffer, and leaves the state
 that `UpdaterSpec` says; what is proved about those functions holds of the object.
 */
module Updater {
  import opened Bytes
  import opened FlashModel
  import opened ProcessorSpec
  import Spec = UpdaterSpec
  import opened Processors
  import opened PartitionDevice
  import Runs = UpdaterRuns
  import Stream = UpdaterStream

  /** Which processor `setProcessor` has installed. */
  datatype Installed =
    | Plain
    | Direct(rfc: UpdateProcessorRFC3161)
    | Wired(check: DeviceCheckProcessor)

  class UpdateClassEx {
    const env: Env
    const processor: Installed
    const partition: Partition
    var error: nat
    var buffer: array?<byte>
    var bufferLen: nat
    var size: nat
    var progress: nat
    var progressFlash: nat
    var command: nat
    var selected: bool
    var postHeader: bool

    function Rfc(): UpdateProcessorRFC3161? {
      match processor
      case Plain => null
      case Direct(r) => r
      case Wired(d) => d.next
    }

    /** The reply being collected. */
    function Blob(): array?<byte>
      reads Rfc()
    {
      if Rfc() == null then null else Rfc().rfc3161
    }

    function Check(): DeviceCheckProcessor? {
      if processor.Wired? then processor.check else null
    }

    /** The parts are in order and nothing is shared. */
    ghost predicate Sound()
      reads this, buffer, partition, partition.bytes, Rfc(), Blob(), Check()
    {
      && partition.Valid() && partition.faults == env.faults && partition.bytes.Length < Spec.WORD
      && (Rfc() != null ==> Rfc().Valid() && Rfc().env == env && Blob() != partition.bytes)
      && (processor.Wired? ==> processor.check.env == env)
      && (buffer != null ==> buffer.Length == SECTOR && buffer != partition.bytes)
      && (buffer != null ==> buffer != Blob())
    }

    ghost function Chain(): Chain
      requires Sound()
      reads this, buffer, partition, partition.bytes, Rfc(), Blob(), Check()
    {
      match processor
      case Plain => Legacy
      case Direct(r) => Signed(r.State())
      case Wired(d) => Checked(d.headerProcessed, d.next.State())
    }

    ghost function State(): Spec.Upd
      requires Sound()
      reads this, buffer, partition, partition.bytes, Rfc(), Blob(), Check()
    {
      Spec.Upd(error, if buffer == null then None else Some(buffer[..]), bufferLen, size, progress, progressFlash,
               command, selected, postHeader, Chain(), partition.State())
    }

    /** The object is in a state some run of the model can reach. */
    ghost predicate Valid()
      reads this, buffer, partition, partition.bytes, Rfc(), Blob(), Check()
    {
      Sound() && Runs.Safe(State())
    }

    /** The constructor and `setProcessor` in one: an idle updater with its processor and partition. */
    constructor (env: Env, processor: Installed, partition: Partition)
      requires partition.Valid() && partition.State().log == [] && partition.faults == env.faults
      requires partition.bytes.Length < Spec.WORD
      requires match processor
               case Plain => true
               case Direct(r) => r.Valid() && r.env == env && r.rfc3161 == null
               case Wired(d) => d.env == env && d.next.Valid() && d.next.env == env && d.next.rfc3161 == null
      ensures Valid() && this.env == env && this.processor == processor && this.partition == partition
      ensures State() == Spec.Constructed(Chain(), partition.bytes[..])
    {
      this.env, this.processor, this.partition := env, processor, partition;
      error, buffer, bufferLen, size, progress, progressFlash := Spec.OK, null, 0, 0, 0, 0;
      command, selected, postHeader := U_FLASH, false, false;
    }

    /** `_processor->reset()`. */
    method ResetProcessor()
      requires Sound()
      modifies Rfc()
      ensures Sound() && (Blob() == null || Blob() == old(Blob()))
      ensures State() == old(State()).(chain := ResetChain(old(State()).chain))
    {
      hide UpdateProcessorRFC3161.Valid;
      hide UpdateProcessorRFC3161.State;
      hide Partition.Valid;
      hide Partition.State;
      if processor.Direct? {
        processor.rfc.Clear();
      }
    }

    /** The buffer is given back and every counter starts again. */
    method ClearSession()
      requires Sound()
      modifies `buffer, `bufferLen, `progress, `progressFlash, `size
      ensures Sound() && buffer == null
      ensures State() == old(State()).(buf := None, bufferLen := 0, progress := 0, progressFlash := 0, size := 0)
    {
      hide UpdateProcessorRFC3161.Valid;
      hide UpdateProcessorRFC3161.State;
      hide Partition.Valid;
      hide Partition.State;
      buffer, bufferLen, progress, progressFlash, size := null, 0, 0, 0, 0;
    }

    /** `_reset()`. */
    method Reset()
      requires Sound()
      modifies this, Rfc()
      ensures Sound() && buffer == null && (Blob() == null || Blob() == old(Blob()))
      ensures State() == Spec.ResetUpd(old(State()))
    {
      hide UpdateProcessorRFC3161.Valid;
      hide UpdateProcessorRFC3161.State;
      hide Partition.Valid;
      hide Partition.State;
      hide Spec.WF;
      hide ChainWellFormed;
      ClearSession();
      ResetProcessor();
      command, postHeader := U_FLASH, false;
    }

    /** `_abort(err)`. */
    method AbortWith(err: nat)
      requires Sound()
      modifies this, Rfc()
      ensures Sound() && buffer == null && (Blob() == null || Blob() == old(Blob()))
      ensures State() == Spec.Abort(old(State()), err)
    {
      hide UpdateProcessorRFC3161.Valid;
      hide UpdateProcessorRFC3161.State;
      hide Partition.Valid;
      hide Partition.State;
      Reset();
      error := err;
    }

    /** `_processor->process_header(&_command, _buffer, &_bufferLen)`. */
    method RunHeader() returns (v: Verdict)
      requires Sound() && Spec.WFBuffer(State())
      modifies this, buffer, partition, partition.bytes, Rfc(), Blob(), Check()
      ensures Sound() && (buffer == null || buffer == old(buffer))
      ensures Blob() == null || Blob() == old(Blob()) || fresh(Blob())
      ensures (State(), v) == Spec.AskHeader(env, old(State()))
    {
      hide UpdateProcessorRFC3161.Valid;
      hide UpdateProcessorRFC3161.State;
      hide Partition.Valid;
      hide Partition.State;
      hide RfcHeader;
      hide CheckedHeader;
      var left := bufferLen;
      match processor {
        case Plain =>
          v := LegacyHeader(command, buffer[0]);
        case Direct(r) =>
          left, v := r.ProcessHeader(command, buffer, bufferLen);
        case Wired(d) =>
          left, v := d.ProcessHeader(command, buffer, bufferLen);
      }
      bufferLen := left;
    }

    /** `_writeBuffer()` before the header is through. */
    method WriteHeader() returns (ok: bool)
      requires Sound() && Spec.WFBuffer(State()) && !postHeader
      modifies this, buffer, partition, partition.bytes, Rfc(), Blob(), Check()
      ensures Sound() && (buffer == null || buffer == old(buffer))
      ensures Blob() == null || Blob() == old(Blob()) || fresh(Blob())
      ensures (State(), ok) == Spec.WriteBuffer(env, old(State()))
    {
      hide UpdateProcessorRFC3161.Valid;
      hide UpdateProcessorRFC3161.State;
      hide Partition.Valid;
      hide Partition.State;
      hide Spec.AskHeader;
      var l := bufferLen;
      var e := RunHeader();
      ok := true;
      if e == Again && bufferLen < SECTOR && bufferLen < size {
        progress := Spec.Add32(progress, l - bufferLen);
        return;
      }
      if e != Ok {
        AbortWith(Spec.ERR_BAD_ARGUMENT);
        return false;
      }
      progress := Spec.Add32(progress, l - bufferLen);
      postHeader := true;
    }

    /** `_processor->process_payload(_buffer, &_bufferLen)`. */
    method RunPayload() returns (v: Verdict)
      requires Sound() && Spec.WFBuffer(State())
      modifies this, buffer, partition, partition.bytes, Rfc(), Blob(), Check()
      ensures Sound() && buffer == old(buffer) && Blob() == old(Blob())
      ensures (State(), v) == Spec.AskPayload(env, old(State()))
    {
      hide RfcPayload;
      v := Ok;
      if processor.Direct? {
        v := processor.rfc.ProcessPayload(buffer, bufferLen);
      }
    }

    /** The first payload byte is withheld: the magic goes out as 0xFF. */
    method WithholdMagic()
      requires Sound() && Spec.WFBuffer(State()) && (progressFlash == 0 ==> buffer[0] == MAGIC)
      modifies buffer
      ensures Sound() && buffer == old(buffer) && Blob() == old(Blob())
      ensures State() == old(State()).(buf := Some(Spec.Masked(old(buffer[..]), progressFlash == 0)))
    {
      if progressFlash == 0 {
        assert buffer[0] == MAGIC;
        buffer[0] := 0xFF;
      }
      assert buffer[..] == Spec.Masked(old(buffer[..]), progressFlash == 0);
    }

    /** Hash the buffer, withhold the magic, erase the next sector and write the buffer to it. */
    method TryPayload() returns (err: nat)
      requires Sound() && Spec.WFBuffer(State()) && (progressFlash == 0 ==> buffer[0] == MAGIC)
      modifies this, buffer, partition, partition.bytes, Rfc(), Blob(), Check()
      ensures Sound() && buffer == old(buffer) && Blob() == old(Blob())
      ensures (State(), err) == Spec.TryPayload(env, old(State()))
    {
      hide UpdateProcessorRFC3161.Valid;
      hide UpdateProcessorRFC3161.State;
      hide Partition.Valid;
      hide Partition.State;
      hide Spec.AskPayload;
      hide Spec.Masked;
      hide FlashModel.EraseSector;
      hide ProgramBytes;
      var e := RunPayload();
      if e != Ok {
        return Spec.ERR_STREAM;
      }
      WithholdMagic();
      var ok := partition.EraseSector(progressFlash);
      if !ok {
        return Spec.ERR_ERASE;
      }
      assert buffer[..bufferLen] == buffer[..][..bufferLen];
      ok := partition.Program(progressFlash, buffer, bufferLen);
      err := if ok then Spec.OK else Spec.ERR_WRITE;
    }

    /** `_writeBuffer()` once the header is through. */
    method WritePayload() returns (ok: bool)
      requires Sound() && Spec.WFBuffer(State()) && postHeader && (progressFlash == 0 ==> buffer[0] == MAGIC)
      modifies this, buffer, partition, partition.bytes, Rfc(), Blob(), Check()
      ensures Sound() && (buffer == null || buffer == old(buffer)) && (Blob() == null || Blob() == old(Blob()))
      ensures (State(), ok) == Spec.WriteBuffer(env, old(State()))
    {
      hide UpdateProcessorRFC3161.Valid;
      hide UpdateProcessorRFC3161.State;
      hide Partition.Valid;
      hide Partition.State;
      hide Spec.TryPayload;
      hide Spec.Abort;
      var err := TryPayload();
      ok := err == Spec.OK;
      if !ok {
        AbortWith(err);
        return;
      }
      progressFlash, progress, bufferLen := progressFlash + bufferLen, Spec.Add32(progress, bufferLen), 0;
    }

    /** `_writeBuffer()`. */
    method WriteBuffer() returns (ok: bool)
      requires Sound() && Spec.WFBuffer(State()) && Runs.MagicWaits(State())
      modifies this, buffer, partition, partition.bytes, Rfc(), Blob(), Check()
      ensures Sound() && (buffer == null || buffer == old(buffer))
      ensures Blob() == null || Blob() == old(Blob()) || fresh(Blob())
      ensures (State(), ok) == Spec.WriteBuffer(env, old(State()))
    {
      hide Spec.WriteBuffer;
      hide UpdateProcessorRFC3161.Valid;
      hide UpdateProcessorRFC3161.State;
      if postHeader {
        ok := WritePayload();
      } else {
        ok := WriteHeader();
      }
    }

    /** `memcpy` of the next `l` bytes behind what the buffer holds. */
    method CopyIn(data: array<byte>, from: nat, l: nat)
      requires Sound() && buffer != null && data != buffer
      requires from + l <= data.Length && bufferLen + l <= SECTOR
      modifies buffer, `bufferLen
      ensures Sound() && buffer == old(buffer) && State() == Spec.Append(old(State()), data[from..from + l])
    {
      hide UpdateProcessorRFC3161.Valid;
      hide UpdateProcessorRFC3161.State;
      hide Partition.Valid;
      hide Partition.State;
      forall i | 0 <= i < l {
        buffer[bufferLen + i] := data[from + i];
      }
      assert buffer[..] == Spec.Append(old(State()), data[from..from + l]).buf.value;
      bufferLen := bufferLen + l;
    }

    /** One turn of the loop of `write`. */
    method Take(data: array<byte>, from: nat, l: nat) returns (ok: bool)
      requires Valid() && buffer != null && data != buffer && data != partition.bytes && data != Blob()
      requires from + l <= data.Length && bufferLen + l <= SECTOR
      requires progressFlash % SECTOR == 0 && (l > 0 || bufferLen == SECTOR)
      modifies this, buffer, partition, partition.bytes, Rfc(), Blob(), Check()
      ensures Valid() && (buffer == null || buffer == old(buffer))
      ensures Blob() == null || Blob() == old(Blob()) || fresh(Blob())
      ensures (State(), ok) == Spec.Fill(env, old(State()), old(data[from..from + l]))
      ensures ok && old(bufferLen) + l == SECTOR ==> progressFlash % SECTOR == 0
    {
      hide UpdateProcessorRFC3161.Valid;
      hide UpdateProcessorRFC3161.State;
      hide Partition.Valid;
      hide Partition.State;
      hide Runs.FlashSafe;
      hide Top;
      hide Spec.WriteBuffer;
      Runs.FillKeepsSafe(env, State(), data[from..from + l]);
      CopyIn(data, from, l);
      ok := true;
      if bufferLen == SECTOR || bufferLen == Spec.Sub32(size, progress) {
        ok := WriteBuffer();
      }
    }

    /** `write(data, len)`. */
    method Write(data: array<byte>, len: nat) returns (written: nat)
      requires Valid() && len <= data.Length && data != buffer && data != partition.bytes && data != Blob()
      modifies this, buffer, partition, partition.bytes, Rfc(), Blob(), Check()
      ensures Valid()
      ensures (State(), written) == Spec.Write(env, old(State()), old(data[..len]))
    {
      hide UpdateProcessorRFC3161.Valid;
      hide UpdateProcessorRFC3161.State;
      hide Partition.Valid;
      hide Partition.State;
      hide Runs.FlashSafe;
      hide Top;
      hide Spec.WriteLoop;
      written := 0;
      if error != Spec.OK || size == 0 {
        return;
      }
      ghost var bytes := data[..len];
      Runs.WriteKeepsSafe(env, State(), bytes);
      if len > Spec.Sub32(size, progress) {
        AbortWith(Spec.ERR_SPACE);
        return;
      }
      written := WriteBytes(data, len);
    }

    /** One turn of the loop of `write` and what it leaves for the rest of the loop to do. */
    method Turn(data: array<byte>, len: nat, written: nat) returns (next: nat, ok: bool)
      requires Valid() && buffer != null && data != buffer && data != partition.bytes && data != Blob()
      requires written < len <= data.Length && progressFlash % SECTOR == 0
      modifies this, buffer, partition, partition.bytes, Rfc(), Blob(), Check()
      ensures Valid() && (buffer == null || buffer == old(buffer))
      ensures Blob() == null || Blob() == old(Blob()) || fresh(Blob())
      ensures written <= next <= len && (next == written ==> old(bufferLen) == SECTOR && (ok ==> bufferLen == 0))
      ensures ok ==> buffer != null && (next < len ==> progressFlash % SECTOR == 0)
      ensures var (r, n) := Spec.WriteLoop(env, old(State()), old(data[..len])[written..]);
        if ok then (r, n) == (Spec.WriteLoop(env, State(), old(data[..len])[next..]).0,
                              next - written + Spec.WriteLoop(env, State(), old(data[..len])[next..]).1)
        else (r, n) == (State(), next - written)
    {
      hide UpdateProcessorRFC3161.Valid;
      hide UpdateProcessorRFC3161.State;
      hide Partition.Valid;
      hide Partition.State;
      hide Runs.FlashSafe;
      hide Top;
      hide Spec.Fill;
      hide Spec.WriteLoop;
      ghost var bytes := data[..len];
      var l := Min(len - written, SECTOR - bufferLen);
      Stream.LoopTurn(env, State(), bytes, written);
      SliceOfPrefix(data[..], len, written, written + l);
      ok := Take(data, written, l);
      next := written + l;
    }

    /** The loop of `write`. */
    method WriteBytes(data: array<byte>, len: nat) returns (written: nat)
      requires Valid() && buffer != null
      requires len <= data.Length && data != buffer && data != partition.bytes && data != Blob()
      requires len > 0 ==> progressFlash % SECTOR == 0
      modifies this, buffer, partition, partition.bytes, Rfc(), Blob(), Check()
      ensures Valid()
      ensures (State(), written) == Spec.WriteLoop(env, old(State()), old(data[..len]))
    {
      hide UpdateProcessorRFC3161.Valid;
      hide UpdateProcessorRFC3161.State;
      hide Partition.Valid;
      hide Partition.State;
      hide Runs.FlashSafe;
      hide Top;
      hide Spec.WriteLoop;
      ghost var s0 := State();
      ghost var bytes := data[..len];
      written := 0;
      assert bytes[0..] == bytes;
      while written < len
        invariant written <= len && Valid() && buffer != null && data[..len] == bytes
        invariant buffer == old(buffer) && (Blob() == null || Blob() == old(Blob()) || fresh(Blob()))
        invariant written < len ==> progressFlash % SECTOR == 0
        invariant var (r, n) := Spec.WriteLoop(env, State(), bytes[written..]);
          Spec.WriteLoop(env, s0, bytes) == (r, written + n)
        decreases len - written, bufferLen == SECTOR
      {
        var next, ok := Turn(data, len, written);
        written := next;
        if !ok {
          return;
        }
      }
      Stream.LoopEmpty(env, State());
      assert bytes[written..] == [];
    }

    /** The checks `begin` makes before it allocates: 0, or the error. */
    method CheckBegin(n: Spec.u32, cmd: nat) returns (err: nat)
      requires Sound()
      modifies `selected
      ensures Sound() && State() == old(State()).(selected := selected)
      ensures err == (if n == 0 then Spec.ERR_SIZE else if cmd != U_FLASH then Spec.ERR_BAD_ARGUMENT
                      else if !env.partitionFound then Spec.ERR_NO_PARTITION
                      else if n != Spec.UNKNOWN_SIZE && n > partition.bytes.Length then Spec.ERR_SIZE else Spec.OK)
      ensures selected == if n == 0 || cmd != U_FLASH then old(selected) else env.partitionFound
    {
      hide UpdateProcessorRFC3161.Valid;
      hide UpdateProcessorRFC3161.State;
      hide Partition.Valid;
      hide Partition.State;
      if n == 0 {
        return Spec.ERR_SIZE;
      }
      if cmd != U_FLASH {
        return Spec.ERR_BAD_ARGUMENT;
      }
      selected := env.partitionFound;
      err := if !selected then Spec.ERR_NO_PARTITION
             else if n != Spec.UNKNOWN_SIZE && n > partition.bytes.Length then Spec.ERR_SIZE
             else Spec.OK;
    }

    /** Allocate the buffer and open the session. */
    method Open(n: Spec.u32, cmd: nat)
      requires Sound() && n <= partition.bytes.Length
      modifies `buffer, `size, `command, partition
      ensures Sound() && fresh(buffer) && Blob() == old(Blob())
      ensures var s := old(State());
        State() == s.(buf := Some(seq(SECTOR, i => env.junk(i))), size := n, command := cmd,
                      flash := s.flash.(log := s.flash.log + [Session]))
    {
      hide UpdateProcessorRFC3161.Valid;
      hide UpdateProcessorRFC3161.State;
      partition.NoteSession();
      buffer := new byte[SECTOR](i => env.junk(i));
      assert buffer[..] == seq(SECTOR, i => env.junk(i));
      size, command := n, cmd;
    }

    /** `begin(size, command)`. */
    method Begin(n: Spec.u32, cmd: nat) returns (ok: bool)
      requires Valid()
      modifies this, partition, Rfc()
      ensures Valid() && (State(), ok) == Spec.Begin(env, old(State()), n, cmd)
    {
      hide UpdateProcessorRFC3161.Valid;
      hide UpdateProcessorRFC3161.State;
      hide Runs.FlashSafe;
      hide Top;
      hide Spec.WF;
      Runs.BeginKeepsSafe(env, State(), n, cmd);
      ok := false;
      if size > 0 {
        return;
      }
      Reset();
      error := Spec.OK;
      var err := CheckBegin(n, cmd);
      if err == Spec.OK && !env.bufferOk(partition.calls) {
        err := Spec.ERR_MEMORY;
      }
      if err != Spec.OK {
        error := err;
        return;
      }
      Open(if n == Spec.UNKNOWN_SIZE then partition.bytes.Length else n, cmd);
      ok := true;
    }

    /** `_processor->process_end()`. */
    method RunEnd() returns (v: Verdict)
      requires Sound()
      modifies Rfc()
      ensures Sound() && Blob() == old(Blob())
      ensures var (chain, verdict) := ProcessEnd(env, old(State()).chain);
        State() == old(State()).(chain := chain) && v == verdict
    {
      hide RfcEnd;
      hide Partition.Valid;
      hide Partition.State;
      v := Ok;
      if processor.Direct? {
        v := processor.rfc.ProcessEnd();
      }
    }

    /** The flush of `end(true)`. */
    method Flush()
      requires Valid() && buffer != null
      modifies this, buffer, partition, partition.bytes, Rfc(), Blob(), Check()
      ensures Sound() && State() == Spec.Flushed(env, old(State()))
    {
      hide UpdateProcessorRFC3161.Valid;
      hide UpdateProcessorRFC3161.State;
      hide Partition.Valid;
      hide Partition.State;
      hide Runs.FlashSafe;
      hide Top;
      hide Spec.WriteBuffer;
      if bufferLen > 0 {
        var _ := WriteBuffer();
      }
      size := progress;
    }

    /** `end(evenIfRemaining)`. */
    method End(evenIfRemaining: bool) returns (ok: bool)
      requires Valid()
      modifies this, buffer, partition, partition.bytes, Rfc(), Blob(), Check()
      ensures Valid() && (State(), ok) == Spec.End(env, old(State()), evenIfRemaining)
    {
      hide UpdateProcessorRFC3161.Valid;
      hide UpdateProcessorRFC3161.State;
      hide Partition.Valid;
      hide Partition.State;
      hide Runs.FlashSafe;
      hide Top;
      hide Spec.Flushed;
      hide Spec.ResetUpd;
      hide Spec.Abort;
      hide ProcessEnd;
      Runs.EndKeepsSafe(env, State(), evenIfRemaining);
      ok := false;
      if error != Spec.OK || size == 0 {
        Reset();
        return;
      }
      if progress != size && !evenIfRemaining {
        AbortWith(Spec.ERR_ABORT);
        return;
      }
      if evenIfRemaining {
        Flush();
      }
      var v := RunEnd();
      if v != Ok {
        AbortWith(Spec.ERR_ABORT);
        return;
      }
      ok := true;
    }

    /** `activate()`. */
    method Activate() returns (ok: bool)
      requires Valid()
      modifies this, buffer, partition, partition.bytes, Rfc(), Blob(), Check()
      ensures Valid() && (State(), ok) == Spec.Activate(env, old(State()))
    {
      hide UpdateProcessorRFC3161.Valid;
      hide UpdateProcessorRFC3161.State;
      hide Runs.FlashSafe;
      hide Top;
      hide EnablePartition;
      hide CheckBootable;
      hide Spec.ResetUpd;
      hide Spec.Abort;
      Runs.ActivateKeepsSafe(env, State());
      ok := false;
      if !selected {
        AbortWith(Spec.ERR_READ);
        return;
      }
      var enabled := partition.EnablePartition();
      if !enabled {
        AbortWith(Spec.ERR_READ);
        return;
      }
      var bootable := partition.CheckBootable();
      if !bootable {
        AbortWith(Spec.ERR_READ);
      } else if !env.bootOk(partition.bytes[..]) {
        AbortWith(Spec.ERR_ACTIVATE);
      } else {
        Reset();
        ok := true;
      }
    }

    /** `abort()`. */
    method AbortUpdate()
      requires Valid()
      modifies this, Rfc()
      ensures Valid() && State() == Spec.Abort(old(State()), Spec.ERR_ABORT)
    {
      Runs.AbortIsSafe(State(), Spec.ERR_ABORT);
      AbortWith(Spec.ERR_ABORT);
    }

    /** `clearError()`. */
    method ClearError()
      requires Valid()
      modifies `error
      ensures Valid() && State() == old(State()).(error := Spec.OK)
    {
      hide UpdateProcessorRFC3161.Valid;
      hide UpdateProcessorRFC3161.State;
      hide Partition.Valid;
      hide Partition.State;
      error := Spec.OK;
    }
  }
}
