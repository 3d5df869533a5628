/**
 The flash partition an update is written to. An erase sets a sector to 0xFF and a write can only
 clear bits, so a byte written over an old one holds the AND of the two. Any operation may fail,
 and a failed one may leave any part of its work behind.
 */
module FlashModel {
  import opened Bytes

  const SECTOR: nat := 4096     // SPI_FLASH_SEC_SIZE
  const MAGIC: byte := 0xE9     // ESP_IMAGE_HEADER_MAGIC

  /** One flash call, or the start of an update session. */
  datatype FlashOp =
    | Session
    | Erase(at: nat, ok: bool)
    | Program(at: nat, len: nat, ok: bool)
    | Read(ok: bool)
    | Repair(ok: bool)    // the write of `_enablePartition`

  /** The bytes of the partition and every call made on it. */
  datatype Flash = Flash(bytes: seq<byte>, log: seq<FlashOp>)

  /**
   Which calls fail, by their position in the log, and which bits a failed call leaves unchanged.
   */
  datatype Faults = Faults(fails: nat -> bool, torn: (nat, int) -> byte)

  function EraseSector(x: Faults, f: Flash, at: nat): (r: (Flash, bool))
    ensures |r.0.bytes| == |f.bytes|
    ensures r.1 ==> at + SECTOR <= |f.bytes|
  {
    var n := |f.log|;
    if at + SECTOR > |f.bytes| then
      (Flash(f.bytes, f.log + [Erase(at, false)]), false)
    else if x.fails(n) then
      (Flash(seq(|f.bytes|, i requires 0 <= i < |f.bytes| =>
                 if at <= i < at + SECTOR then f.bytes[i] | x.torn(n, i) else f.bytes[i]),
             f.log + [Erase(at, false)]), false)
    else
      (Flash(seq(|f.bytes|, i requires 0 <= i < |f.bytes| =>
                 if at <= i < at + SECTOR then 0xFF else f.bytes[i]),
             f.log + [Erase(at, true)]), true)
  }

  /** `data` written at `at` with the bits in `keep` left as they were. */
  function Written(bytes: seq<byte>, at: nat, data: seq<byte>, keep: int -> byte): (r: seq<byte>)
    requires at + |data| <= |bytes|
    ensures |r| == |bytes|
  {
    seq(|bytes|, i requires 0 <= i < |bytes| =>
      if at <= i < at + |data| then bytes[i] & (data[i - at] | keep(i)) else bytes[i])
  }

  function ProgramBytes(x: Faults, f: Flash, at: nat, data: seq<byte>): (r: (Flash, bool))
    ensures |r.0.bytes| == |f.bytes|
    ensures r.1 ==> at + |data| <= |f.bytes|
  {
    var n := |f.log|;
    if at + |data| > |f.bytes| then
      (Flash(f.bytes, f.log + [Program(at, |data|, false)]), false)
    else if x.fails(n) then
      (Flash(Written(f.bytes, at, data, i => x.torn(n, i)), f.log + [Program(at, |data|, false)]), false)
    else
      (Flash(Written(f.bytes, at, data, i => 0), f.log + [Program(at, |data|, true)]), true)
  }

  /** A read of the first four bytes. */
  function ReadHead(x: Faults, f: Flash): (Flash, bool) {
    var ok := 4 <= |f.bytes| && !x.fails(|f.log|);
    (Flash(f.bytes, f.log + [Read(ok)]), ok)
  }

  /** `_enablePartition`: read four bytes, put the magic first, write them back. */
  function EnablePartition(x: Faults, f: Flash): (r: (Flash, bool))
    ensures |r.0.bytes| == |f.bytes|
  {
    var (f1, ok) := ReadHead(x, f);
    if !ok then (f1, false)
    else
      var n := |f1.log|;
      var head := [MAGIC] + f1.bytes[1..4];
      if x.fails(n) then
        (Flash(Written(f1.bytes, 0, head, i => x.torn(n, i)), f1.log + [Repair(false)]), false)
      else
        (Flash(Written(f1.bytes, 0, head, i => 0), f1.log + [Repair(true)]), true)
  }

  predicate Bootable(f: Flash) {
    |f.bytes| >= 4 && f.bytes[0] == MAGIC
  }

  /** `_partitionIsBootable`: read four bytes and compare the first. */
  function CheckBootable(x: Faults, f: Flash): (r: (Flash, bool))
    ensures r.0.bytes == f.bytes
  {
    var (f1, ok) := ReadHead(x, f);
    (f1, ok && Bootable(f1))
  }

  /** Some sector erase at 0 has completed and no repair of the magic was tried after it. */
  predicate Withheld(log: seq<FlashOp>) {
    log != [] &&
    match log[|log| - 1]
    case Erase(at, ok) => (at == 0 && ok) || Withheld(log[..|log| - 1])
    case Repair(_) => false
    case _ => Withheld(log[..|log| - 1])
  }

  /** End of the highest write tried in the current session. */
  function Top(log: seq<FlashOp>): nat {
    if log == [] then 0
    else
      var rest := log[..|log| - 1];
      match log[|log| - 1]
      case Session => 0
      case Program(at, len, _) => if at + len > Top(rest) then at + len else Top(rest)
      case _ => Top(rest)
  }

  /** Every erase starts on a sector boundary, at or above all that the session has written. */
  predicate Disciplined(log: seq<FlashOp>) {
    log == [] ||
    (Disciplined(log[..|log| - 1]) &&
     match log[|log| - 1]
     case Erase(at, _) => at % SECTOR == 0 && at >= Top(log[..|log| - 1])
     case _ => true)
  }

  /** What `Disciplined` says about any two calls of one session. */
  lemma {:induction false} DisciplineSpares(log: seq<FlashOp>, w: nat, e: nat)
    requires Disciplined(log) && w < e < |log|
    requires log[w].Program? && log[e].Erase?
    requires forall k :: w < k < e ==> !log[k].Session?
    ensures log[e].at % SECTOR == 0 && log[w].at + log[w].len <= log[e].at
    decreases |log|
  {
    var rest := log[..|log| - 1];
    if e < |log| - 1 {
      DisciplineSpares(rest, w, e);
    } else {
      TopCovers(rest, w);
    }
  }

  lemma {:induction false} TopCovers(log: seq<FlashOp>, w: nat)
    requires w < |log| && log[w].Program?
    requires forall k :: w < k < |log| ==> !log[k].Session?
    ensures log[w].at + log[w].len <= Top(log)
    decreases |log|
  {
    if w < |log| - 1 {
      TopCovers(log[..|log| - 1], w);
    }
  }

  lemma LogSnoc(log: seq<FlashOp>, op: FlashOp)
    ensures (log + [op])[..|log + [op]| - 1] == log && (log + [op])[|log + [op]| - 1] == op
    ensures Withheld(log + [op]) ==
            (if op.Erase? && op.at == 0 && op.ok then true else !op.Repair? && Withheld(log))
    ensures Top(log + [op]) ==
            (match op
             case Session => 0
             case Program(at, len, _) => if at + len > Top(log) then at + len else Top(log)
             case _ => Top(log))
    ensures Disciplined(log + [op]) ==
            (Disciplined(log) && (op.Erase? ==> op.at % SECTOR == 0 && op.at >= Top(log)))
  {
    assert (log + [op])[..|log + [op]| - 1] == log;
  }

  lemma KeepsFF(b: byte, m: byte)
    ensures 0xFF & (0xFF | m) == 0xFF as byte
    ensures 0xFF as byte | m == 0xFF
    ensures b & (b | m) == b
    ensures 0xFF & (b | 0) == b
    ensures b | 0 == b && b & b == b
  {
  }

  /** Putting the withheld magic over 0xFF restores it, and nothing else changes, torn or not. */
  lemma EnableRestores(x: Faults, f: Flash)
    requires |f.bytes| >= 4 && f.bytes[0] == 0xFF
    ensures var (g, ok) := EnablePartition(x, f);
      ok ==> g.bytes == f.bytes[0 := MAGIC]
    ensures var (g, ok) := EnablePartition(x, f);
      !ok ==> |g.bytes| == |f.bytes| && g.bytes[1..] == f.bytes[1..]
  {
    var head := [MAGIC] + f.bytes[1..4];
    RewriteHead(f.bytes, head, i => 0);
    RewriteHead(f.bytes, head, i => x.torn(|f.log| + 1, i));
    KeepsFF(MAGIC, 0);
  }

  lemma RewriteHead(bytes: seq<byte>, head: seq<byte>, keep: int -> byte)
    requires |bytes| >= |head| == 4 && head[1..] == bytes[1..4]
    ensures Written(bytes, 0, head, keep)[1..] == bytes[1..]
  {
    var w := Written(bytes, 0, head, keep);
    forall i | 1 <= i < |bytes| ensures w[i] == bytes[i] {
      if i < 4 {
        assert head[i] == head[1..][i - 1] == bytes[i];
        KeepsFF(bytes[i], keep(i));
      }
    }
  }
}
