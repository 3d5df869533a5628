/**
 What the update processors compute, on values: the legacy magic check, the RFC 3161 header
 machine with its running digest, and the device check in front of it.
 */
module ProcessorSpec {
  import opened Bytes
  import opened FlashModel

  const U_FLASH: nat := 0
  const U_SPIFFS: nat := 100
  const MIN_HEADER: nat := 128
  const MAX_TSR: nat := 16 * 1024
  const MD_SHA256: nat := 6    // mbedtls_md_type_t
  const LF: byte := 0x0A
  const SPACE: byte := 0x20
  const MAX_VALUE: nat := 64

  function Ascii(s: string): (r: seq<byte>)
    ensures |r| == |s|
  {
    seq(|s|, i requires 0 <= i < |s| => (s[i] as int % 256) as byte)
  }

  const REDWAX: seq<byte> := Ascii("RedWax/1.")

  /** What the parsed time stamp reply says: the digest algorithm and the signed payload digest. */
  datatype Reply = Reply(digestType: nat, digest: seq<byte>)

  /** Everything outside the updater: the crypto library, the allocator, the flash, the build. */
  datatype Env = Env(
    faults: Faults,
    junk: int -> byte,                            // what a fresh sector buffer contains
    past: int -> byte,                            // what lies behind the sector buffer
    bufferOk: nat -> bool,                        // malloc of the sector buffer
    blobOk: nat -> bool,                          // malloc of the time stamp reply, by size
    parse: seq<byte> -> Option<Reply>,            // mbedtls_x509_ts_reply_parse_der
    known: nat -> bool,                           // digest type known and context allocated
    starts: nat -> bool,                          // mbedtls_md_setup and mbedtls_md_starts
    trusted: bool,                                // a trust chain is configured
    chainOk: seq<byte> -> bool,                   // mbedtls_x509_crt_verify
    updateFails: (seq<byte>, seq<byte>) -> bool,  // mbedtls_md_update after some bytes
    finishFails: seq<byte> -> bool,               // mbedtls_md_finish
    hash: (nat, seq<byte>) -> seq<byte>,
    legacyAllowed: bool,
    model: seq<byte>,
    hwRev: seq<byte>,
    bootOk: seq<byte> -> bool,                    // esp_ota_set_boot_partition
    partitionFound: bool)

  datatype Verdict = Ok | Again | Declined | Error

  datatype Phase = Init | Rfc | Post

  /** `_md_ctx`: none, allocated but not started, or running over the bytes given so far. */
  datatype MdCtx = NoCtx | Idle | Running(data: seq<byte>)

  /** The RFC 3161 processor; `blob` is the part of `_rfc3161` filled so far, when allocated. */
  datatype Rfc3161 = Rfc3161(phase: Phase, blob: Option<seq<byte>>, blobLen: nat, md: MdCtx, reply: Option<Reply>)

  /** The processor installed in the updater. */
  datatype Chain = Legacy | Signed(r: Rfc3161) | Checked(headerProcessed: bool, r: Rfc3161)

  datatype Header<+T> = Header(st: T, buf: seq<byte>, len: nat, verdict: Verdict)

  const FRESH: Rfc3161 := Rfc3161(Init, None, 0, NoCtx, None)

  ghost predicate WellFormed(r: Rfc3161) {
    && (r.phase == Init <==> r.blob.None?)
    && (r.blob.Some? ==> |r.blob.value| <= r.blobLen <= MAX_TSR && 4 <= r.blobLen)
  }

  ghost predicate ChainWellFormed(c: Chain) {
    !c.Legacy? ==> WellFormed(c.r)
  }

  function Reset(r: Rfc3161): Rfc3161 {
    FRESH.(reply := r.reply)
  }

  function ResetChain(c: Chain): Chain {
    match c
    case Legacy => c
    case Signed(r) => Signed(Reset(r))
    case Checked(_, _) => c
  }

  function LegacyHeader(command: nat, first: byte): Verdict {
    if command == U_SPIFFS then Ok
    else if command == U_FLASH && first == MAGIC then Ok
    else Error
  }

  /** Length of a DER sequence, header included, from its two length bytes. */
  function DerLength(hi: byte, lo: byte): (n: nat)
    ensures n >= 4
  {
    hi as nat * 256 + lo as nat + 4
  }

  /** The byte at `i` of the sector buffer, or of what follows it. */
  function ByteAt(env: Env, buf: seq<byte>, i: nat): byte {
    if i < |buf| then buf[i] else env.past(i - |buf|)
  }

  /** The buffer after its bytes `from..from + n` have moved to the front. */
  function Shift(buf: seq<byte>, from: nat, n: nat): (r: seq<byte>)
    requires from + n <= |buf|
    ensures |r| == |buf|
  {
    buf[from..from + n] + buf[n..]
  }

  function RfcInit(env: Env, r: Rfc3161, command: nat, buf: seq<byte>, len: nat): (h: Header<Rfc3161>)
    requires len <= |buf| == SECTOR
    ensures |h.buf| == SECTOR && h.len <= len
  {
    if len < MIN_HEADER then Header(r, buf, len, Again)
    else if buf[..|REDWAX|] != REDWAX then
      Header(r, buf, len, if env.legacyAllowed then LegacyHeader(command, buf[0]) else Error)
    else
      match IndexOf(buf[..len], LF)
      case None => Header(r, buf, len, Error)
      case Some(lf) =>
        var cut := buf[lf := 0];
        var p := lf + 1;
        if ByteAt(env, cut, p) != 0x30 || ByteAt(env, cut, p + 1) != 0x82 then Header(r, cut, len, Error)
        else
          var n := DerLength(ByteAt(env, cut, p + 2), ByteAt(env, cut, p + 3));
          if n > MAX_TSR || !env.blobOk(n) then Header(r.(blobLen := n), cut, len, Error)
          else
            Header(r.(phase := Rfc, blob := Some([]), blobLen := n), Shift(cut, p, len - p), len - p, Again)
  }

  function RfcReply(env: Env, r: Rfc3161): (Rfc3161, Verdict)
    requires r.blob.Some?
  {
    match env.parse(r.blob.value)
    case None => (r.(reply := None), Error)
    case Some(reply) =>
      var r1 := r.(reply := Some(reply));
      if reply.digestType < MD_SHA256 || !env.known(reply.digestType) then (r1, Error)
      else if !env.starts(reply.digestType) then (r1.(md := Idle), Error)
      else if !env.trusted || !env.chainOk(r.blob.value) then (r1.(md := Running([])), Error)
      else (r1.(md := Running([]), phase := Post), Again)
  }

  function RfcCollect(env: Env, r: Rfc3161, buf: seq<byte>, len: nat): (h: Header<Rfc3161>)
    requires len <= |buf| == SECTOR && WellFormed(r) && r.blob.Some?
    ensures |h.buf| == SECTOR && h.len <= len
  {
    var l := Min(len, r.blobLen - |r.blob.value|);
    var blob := r.blob.value + buf[..l];
    var r1 := r.(blob := Some(blob));
    var buf1 := if |blob| >= r.blobLen && len - l > 0 then Shift(buf, l, len - l) else buf;
    if |blob| != r.blobLen then Header(r1, buf1, len - l, Again)
    else
      var (r2, v) := RfcReply(env, r1);
      Header(r2, buf1, len - l, v)
  }

  /** `UpdateProcessorRFC3161::process_header`. */
  function RfcHeader(env: Env, r: Rfc3161, command: nat, buf: seq<byte>, len: nat): (h: Header<Rfc3161>)
    requires len <= |buf| == SECTOR && WellFormed(r)
    ensures |h.buf| == SECTOR && h.len <= len && WellFormed(h.st)
  {
    match r.phase
    case Init => RfcInit(env, r, command, buf, len)
    case Rfc => RfcCollect(env, r, buf, len)
    case Post => Header(r, buf, len, LegacyHeader(command, buf[0]))
  }

  /** A C string: the bytes before the first NUL. */
  function CString(s: seq<byte>): seq<byte> {
    match IndexOf(s, 0)
    case None => s
    case Some(i) => s[..i]
  }

  /** `getValueFromHeader`: what follows `key=` up to a space, the end, or 64 bytes. */
  function ValueFromHeader(text: seq<byte>, key: seq<byte>): seq<byte> {
    match FindFrom(text, key + Ascii("="), 0)
    case None => []
    case Some(i) =>
      var v := text[i + |key| + 1..];
      var n := match IndexOf(v, SPACE) case None => MAX_VALUE case Some(s) => Min(s, MAX_VALUE);
      v[..Min(n, |v|)]
  }

  /** The test `DeviceCheckProcessor` makes on the first line, given without its line feed. */
  predicate DeviceMatches(env: Env, line: seq<byte>) {
    var text := CString(line);
    match IndexOf(text, SPACE)
    case None => false
    case Some(q) =>
      var model := ValueFromHeader(text[q..], Ascii("model"));
      var hw := ValueFromHeader(text[q..], Ascii("hw"));
      model != [] && hw != [] && model == env.model && hw == env.hwRev
  }

  /** `DeviceCheckProcessor::process_header`. */
  function CheckedHeader(env: Env, processed: bool, r: Rfc3161, command: nat, buf: seq<byte>, len: nat)
    : (h: Header<(bool, Rfc3161)>)
    requires len <= |buf| == SECTOR && WellFormed(r)
    ensures |h.buf| == SECTOR && h.len <= len && WellFormed(h.st.1)
  {
    if processed then
      var h := RfcHeader(env, r, command, buf, len);
      Header((true, h.st), h.buf, h.len, h.verdict)
    else if len < MIN_HEADER then Header((false, r), buf, len, Again)
    else if buf[0] != REDWAX[0] then Header((false, r), buf, len, Error)
    else
      match IndexOf(buf[..len], LF)
      case None => Header((false, r), buf, len, Error)
      case Some(lf) =>
        if !DeviceMatches(env, buf[..lf]) then Header((false, r), buf[lf := 0], len, Error)
        else
          var h := RfcHeader(env, r, command, buf, len);
          Header((true, h.st), h.buf, h.len, h.verdict)
  }

  function ProcessHeader(env: Env, c: Chain, command: nat, buf: seq<byte>, len: nat): (h: Header<Chain>)
    requires len <= |buf| == SECTOR && ChainWellFormed(c)
    ensures |h.buf| == SECTOR && h.len <= len && ChainWellFormed(h.st)
    ensures h.st.Signed? == c.Signed? && h.st.Checked? == c.Checked?
  {
    match c
    case Legacy => Header(Legacy, buf, len, LegacyHeader(command, buf[0]))
    case Signed(r) =>
      var h := RfcHeader(env, r, command, buf, len);
      Header(Signed(h.st), h.buf, h.len, h.verdict)
    case Checked(p, r) =>
      var h := CheckedHeader(env, p, r, command, buf, len);
      Header(Checked(h.st.0, h.st.1), h.buf, h.len, h.verdict)
  }

  /** `UpdateProcessorRFC3161::process_payload`. */
  function RfcPayload(env: Env, r: Rfc3161, data: seq<byte>): (Rfc3161, Verdict) {
    if r.blob.None? then (r, if env.legacyAllowed then Ok else Error)
    else
      match r.md
      case Running(done) =>
        if env.updateFails(done, data) then (r, Error) else (r.(md := Running(done + data)), Ok)
      case _ => (r, Error)
  }

  function ProcessPayload(env: Env, c: Chain, data: seq<byte>): (p: (Chain, Verdict))
    ensures ChainWellFormed(c) ==> ChainWellFormed(p.0)
    ensures p.0.Signed? == c.Signed? && p.0.Checked? == c.Checked?
    ensures p.1 != Again
  {
    match c
    case Legacy => (c, Ok)
    case Signed(r) => var (r1, v) := RfcPayload(env, r, data); (Signed(r1), v)
    case Checked(_, _) => (c, Ok)
  }

  /** `memcmp` of the computed digest with as many bytes of the signed one. */
  predicate DigestMatches(env: Env, reply: Reply, data: seq<byte>) {
    env.hash(reply.digestType, data) <= reply.digest
  }

  /** `UpdateProcessorRFC3161::process_end`. */
  function RfcEnd(env: Env, r: Rfc3161): (Rfc3161, Verdict) {
    if r.blob.None? && env.legacyAllowed then (r, Ok)
    else
      match r.md
      case Running(done) =>
        if env.finishFails(done) || r.reply.None? then (r, Error)
        else (r.(md := NoCtx), if DigestMatches(env, r.reply.value, done) then Ok else Error)
      case _ => (r, Error)
  }

  function ProcessEnd(env: Env, c: Chain): (p: (Chain, Verdict))
    ensures ChainWellFormed(c) ==> ChainWellFormed(p.0)
    ensures p.0.Signed? == c.Signed? && p.0.Checked? == c.Checked?
  {
    match c
    case Legacy => (c, Ok)
    case Signed(r) => var (r1, v) := RfcEnd(env, r); (Signed(r1), v)
    case Checked(_, _) => (c, Ok)
  }
}
