/**
 What each operation of the updater does to its whole state: buffer, counters, processor, flash
 and error. Counters are 32 bits wide.
 */
module UpdaterSpec {
  import opened Bytes
  import opened FlashModel
  import opened ProcessorSpec

  const WORD: nat := 0x1_0000_0000
  type u32 = n: nat | n < WORD
  const UNKNOWN_SIZE: nat := 0xFFFF_FFFF

  const OK: nat := 0
  const ERR_WRITE: nat := 1
  const ERR_ERASE: nat := 2
  const ERR_READ: nat := 3
  const ERR_SPACE: nat := 4
  const ERR_SIZE: nat := 5
  const ERR_STREAM: nat := 6
  const ERR_ACTIVATE: nat := 9
  const ERR_NO_PARTITION: nat := 10
  const ERR_BAD_ARGUMENT: nat := 11
  const ERR_ABORT: nat := 12
  const ERR_MEMORY: nat := 13

  datatype Upd = Upd(
    error: nat,
    buf: Option<seq<byte>>,
    bufferLen: nat,
    size: nat,
    progress: nat,
    progressFlash: nat,
    command: nat,
    selected: bool,       // `_partition` is set
    postHeader: bool,
    chain: Chain,
    flash: Flash)

  ghost predicate WF(s: Upd) {
    && (s.buf.Some? ==> |s.buf.value| == SECTOR)
    && (s.buf.None? ==> s.bufferLen == s.size == s.progress == s.progressFlash == 0)
    && s.bufferLen <= SECTOR
    && s.size < WORD && s.progress < WORD && s.progressFlash <= |s.flash.bytes| < WORD
    && (s.bufferLen == SECTOR ==> s.postHeader)
    && ChainWellFormed(s.chain)
  }

  function Add32(a: nat, b: nat): (r: nat)
    requires a < WORD && b < WORD
    ensures r < WORD
  {
    if a + b < WORD then a + b else a + b - WORD
  }

  /** The 32-bit difference. */
  function Sub32(a: nat, b: nat): (r: nat)
    requires a < WORD && b < WORD
    ensures r < WORD
  {
    if b <= a then a - b else a + WORD - b
  }

  /** `remaining()`. */
  function Remaining(s: Upd): nat
    requires s.size < WORD && s.progress < WORD
  {
    Sub32(s.size, s.progress)
  }

  function ResetUpd(s: Upd): (r: Upd)
    ensures ChainWellFormed(s.chain) && |s.flash.bytes| < WORD ==> WF(r)
  {
    s.(buf := None, bufferLen := 0, size := 0, progress := 0, progressFlash := 0, command := U_FLASH,
       postHeader := false, chain := ResetChain(s.chain))
  }

  function Abort(s: Upd, error: nat): (r: Upd)
    ensures ChainWellFormed(s.chain) && |s.flash.bytes| < WORD ==> WF(r)
  {
    ResetUpd(s).(error := error)
  }

  /** `begin(size, command)`. */
  function Begin(env: Env, s: Upd, size: u32, command: nat): (Upd, bool) {
    if s.size > 0 then (s, false)
    else
      var s1 := ResetUpd(s).(error := OK);
      if size == 0 then (s1.(error := ERR_SIZE), false)
      else if command != U_FLASH then (s1.(error := ERR_BAD_ARGUMENT), false)
      else
        var s2 := s1.(selected := env.partitionFound);
        if !env.partitionFound then (s2.(error := ERR_NO_PARTITION), false)
        else if size != UNKNOWN_SIZE && size > |s2.flash.bytes| then (s2.(error := ERR_SIZE), false)
        else if !env.bufferOk(|s2.flash.log|) then (s2.(error := ERR_MEMORY), false)
        else
          (s2.(buf := Some(seq(SECTOR, i => env.junk(i))),
               size := if size == UNKNOWN_SIZE then |s2.flash.bytes| else size,
               command := command,
               flash := s2.flash.(log := s2.flash.log + [Session])), true)
  }

  /** The processor's turn on the buffer, before the header is through. */
  function AskHeader(env: Env, s: Upd): (r: (Upd, Verdict))
    requires WFBuffer(s)
    ensures WFBuffer(r.0) && r.0.bufferLen <= s.bufferLen
    ensures r.0 == s.(chain := r.0.chain, buf := r.0.buf, bufferLen := r.0.bufferLen)
  {
    var h := ProcessHeader(env, s.chain, s.command, s.buf.value, s.bufferLen);
    (s.(chain := h.st, buf := Some(h.buf), bufferLen := h.len), h.verdict)
  }

  /** The processor's turn on the buffer, once the header is through. */
  function AskPayload(env: Env, s: Upd): (r: (Upd, Verdict))
    requires WFBuffer(s)
    ensures WFBuffer(r.0) && r.0 == s.(chain := r.0.chain)
  {
    var (c, v) := ProcessPayload(env, s.chain, s.buf.value[..s.bufferLen]);
    (s.(chain := c), v)
  }

  /** The header branch of `_writeBuffer`. */
  function HeaderStep(env: Env, s: Upd): (r: (Upd, bool))
    requires WFBuffer(s) && !s.postHeader
    ensures r.1 ==> WF(r.0) && r.0.size == s.size && r.0.error == s.error
    ensures WF(r.0)
  {
    var (s1, v) := AskHeader(env, s);
    if v == Again && s1.bufferLen < SECTOR && s1.bufferLen < s.size then
      (s1.(progress := Add32(s.progress, s.bufferLen - s1.bufferLen)), true)
    else if v != Ok then (Abort(s1, ERR_BAD_ARGUMENT), false)
    else (s1.(progress := Add32(s.progress, s.bufferLen - s1.bufferLen), postHeader := true), true)
  }

  /** The buffer as it goes to flash: the first byte of all is replaced by 0xFF. */
  function Masked(buf: seq<byte>, first: bool): (r: seq<byte>)
    requires |buf| == SECTOR
    ensures |r| == SECTOR
  {
    if first then buf[0 := 0xFF] else buf
  }

  /**
   Hash, mask, erase and write the buffer: the state reached and the error to abort with. None of
   the processors answers a payload with AGAIN, so that answer has no case of its own.
   */
  function TryPayload(env: Env, s: Upd): (r: (Upd, nat))
    requires WFBuffer(s)
    ensures WFBuffer(r.0)
    ensures r.0 == s.(chain := r.0.chain, buf := r.0.buf, flash := r.0.flash)
    ensures r.1 == OK ==> s.progressFlash + s.bufferLen <= |r.0.flash.bytes|
  {
    var (s1, v) := AskPayload(env, s);
    if v != Ok then (s1, ERR_STREAM)
    else
      var buf := Masked(s.buf.value, s.progressFlash == 0);
      var s2 := s1.(buf := Some(buf));
      var (f1, erased) := EraseSector(env.faults, s.flash, s.progressFlash);
      if !erased then (s2.(flash := f1), ERR_ERASE)
      else
        var (f2, programmed) := ProgramBytes(env.faults, f1, s.progressFlash, buf[..s.bufferLen]);
        (s2.(flash := f2), if programmed then OK else ERR_WRITE)
  }

  /** The payload branch of `_writeBuffer`. */
  function PayloadStep(env: Env, s: Upd): (r: (Upd, bool))
    requires WFBuffer(s) && s.postHeader
    ensures r.1 ==> r.0.bufferLen == 0 && r.0.postHeader && r.0.size == s.size && r.0.error == s.error
    ensures WF(r.0)
  {
    var (s1, error) := TryPayload(env, s);
    if error != OK then (Abort(s1, error), false)
    else
      (s1.(progressFlash := s.progressFlash + s.bufferLen, progress := Add32(s.progress, s.bufferLen),
           bufferLen := 0), true)
  }

  /** A running updater about to call `_writeBuffer`. */
  ghost predicate WFBuffer(s: Upd) {
    WF(s.(bufferLen := 0)) && s.bufferLen <= SECTOR && s.buf.Some?
  }

  /** `_writeBuffer`. */
  function WriteBuffer(env: Env, s: Upd): (r: (Upd, bool))
    requires WFBuffer(s)
    ensures WF(r.0)
    ensures r.1 ==> r.0.size == s.size && r.0.error == s.error && r.0.buf.Some?
    ensures r.1 && s.postHeader ==> r.0.bufferLen == 0
  {
    if !s.postHeader then HeaderStep(env, s) else PayloadStep(env, s)
  }

  /** `data` copied behind what the buffer holds. */
  function Append(s: Upd, data: seq<byte>): (r: Upd)
    requires s.buf.Some? && s.bufferLen + |data| <= |s.buf.value|
    ensures r.buf.Some? && |r.buf.value| == |s.buf.value| && r.bufferLen == s.bufferLen + |data|
  {
    var b := s.buf.value;
    s.(buf := Some(b[..s.bufferLen] + data + b[s.bufferLen + |data|..]), bufferLen := s.bufferLen + |data|)
  }

  /** One turn of the loop of `write`: a piece goes into the buffer, which is passed on when due. */
  function Fill(env: Env, s: Upd, piece: seq<byte>): (r: (Upd, bool))
    requires WF(s) && s.buf.Some? && s.bufferLen + |piece| <= SECTOR
    ensures WF(r.0) && (r.1 ==> r.0.buf.Some?)
    ensures r.1 && s.bufferLen == SECTOR ==> r.0.bufferLen == 0
  {
    var s1 := Append(s, piece);
    if s1.bufferLen == SECTOR || s1.bufferLen == Remaining(s1) then WriteBuffer(env, s1) else (s1, true)
  }

  /** The loop of `write` over what is left of the data: the new state and the bytes taken. */
  function WriteLoop(env: Env, s: Upd, data: seq<byte>): (r: (Upd, nat))
    requires WF(s) && s.buf.Some?
    ensures WF(r.0) && r.1 <= |data|
    decreases |data|, if s.bufferLen == SECTOR then 1 else 0
  {
    if data == [] then (s, 0)
    else
      var l := Min(|data|, SECTOR - s.bufferLen);
      var (s1, ok) := Fill(env, s, data[..l]);
      if !ok then (s1, l)
      else
        var (s2, n) := WriteLoop(env, s1, data[l..]);
        (s2, l + n)
  }

  /** `write(data, len)`: the new state and the result. */
  function Write(env: Env, s: Upd, data: seq<byte>): (r: (Upd, nat))
    requires WF(s)
    ensures WF(r.0) && r.1 <= |data|
  {
    if s.error != OK || s.size == 0 then (s, 0)
    else if |data| > Remaining(s) then (Abort(s, ERR_SPACE), 0)
    else WriteLoop(env, s, data)
  }

  /** The last flush of `end(true)` and the size it then takes on; `_writeBuffer`'s result is ignored. */
  function Flushed(env: Env, s: Upd): (r: Upd)
    requires WF(s)
    ensures WF(r)
  {
    var s1 := if s.bufferLen > 0 then WriteBuffer(env, s).0 else s;
    s1.(size := s1.progress)
  }

  /** `end(evenIfRemaining)`. */
  function End(env: Env, s: Upd, evenIfRemaining: bool): (r: (Upd, bool))
    requires WF(s)
    ensures WF(r.0)
  {
    if s.error != OK || s.size == 0 then (ResetUpd(s), false)
    else if s.progress != s.size && !evenIfRemaining then (Abort(s, ERR_ABORT), false)
    else
      var s1 := if evenIfRemaining then Flushed(env, s) else s;
      var (chain, v) := ProcessEnd(env, s1.chain);
      var s2 := s1.(chain := chain);
      if v != Ok then (Abort(s2, ERR_ABORT), false)
      else (s2, true)
  }

  /** `activate()`. */
  function Activate(env: Env, s: Upd): (Upd, bool) {
    if s.command != U_FLASH then (s, false)
    else if !s.selected then (Abort(s, ERR_READ), false)
    else
      var (f1, enabled) := EnablePartition(env.faults, s.flash);
      if !enabled then (Abort(s.(flash := f1), ERR_READ), false)
      else
        var (f2, bootable) := CheckBootable(env.faults, f1);
        var s2 := s.(flash := f2);
        if !bootable then (Abort(s2, ERR_READ), false)
        else if !env.bootOk(f2.bytes) then (Abort(s2, ERR_ACTIVATE), false)
        else (ResetUpd(s2), true)
  }

  /** A call on the updater. */
  datatype Call =
    | CallBegin(size: u32, command: nat)
    | CallWrite(data: seq<byte>)
    | CallEnd(evenIfRemaining: bool)
    | CallActivate
    | CallAbort
    | CallClearError

  function Step(env: Env, s: Upd, c: Call): (r: Upd)
    requires WF(s)
    ensures WF(r)
  {
    match c
    case CallBegin(size, command) => Begin(env, s, size, command).0
    case CallWrite(data) => Write(env, s, data).0
    case CallEnd(even) => End(env, s, even).0
    case CallActivate => Activate(env, s).0
    case CallAbort => Abort(s, ERR_ABORT)
    case CallClearError => s.(error := OK)
  }

  /** The state after a sequence of calls. */
  function Run(env: Env, s: Upd, calls: seq<Call>): (r: Upd)
    requires WF(s)
    ensures WF(r)
  {
    if calls == [] then s
    else Step(env, Run(env, s, calls[..|calls| - 1]), calls[|calls| - 1])
  }

  /** An updater as constructed, with one of the processors and a partition no session has touched. */
  function Constructed(chain: Chain, bytes: seq<byte>): Upd {
    Upd(OK, None, 0, 0, 0, 0, U_FLASH, false, false, chain, Flash(bytes, []))
  }
}
