/** The partition object: its calls change the bytes in place as the flash model says. */
module PartitionDevice {
  import opened Bytes
  import FlashModel

  class Partition {
    const faults: FlashModel.Faults
    const bytes: array<byte>
    var calls: nat
    ghost var log: seq<FlashModel.FlashOp>

    ghost predicate Valid()
      reads this
    {
      calls == |log|
    }

    ghost function State(): FlashModel.Flash
      reads this, bytes
    {
      FlashModel.Flash(bytes[..], log)
    }

    constructor (faults: FlashModel.Faults, bytes: array<byte>)
      ensures Valid() && this.faults == faults && this.bytes == bytes
      ensures State() == FlashModel.Flash(bytes[..], [])
    {
      this.faults, this.bytes, calls, log := faults, bytes, 0, [];
    }

    /** The start of an update session is noted; the flash itself is left alone. */
    method NoteSession()
      requires Valid()
      modifies this
      ensures Valid() && State() == old(State()).(log := old(State()).log + [FlashModel.Session])
    {
      calls, log := calls + 1, log + [FlashModel.Session];
    }

    method EraseSector(at: nat) returns (ok: bool)
      requires Valid()
      modifies this, bytes
      ensures Valid() && (State(), ok) == FlashModel.EraseSector(faults, old(State()), at)
    {
      var n := calls;
      ok := false;
      if at + FlashModel.SECTOR <= bytes.Length {
        if faults.fails(n) {
          forall i | at <= i < at + FlashModel.SECTOR {
            bytes[i] := bytes[i] | faults.torn(n, i);
          }
        } else {
          ok := true;
          forall i | at <= i < at + FlashModel.SECTOR {
            bytes[i] := 0xFF;
          }
        }
      }
      calls, log := n + 1, log + [FlashModel.Erase(at, ok)];
      assert bytes[..] == FlashModel.EraseSector(faults, old(State()), at).0.bytes;
    }

    /** Bits of `data[..len]` are cleared in place; the bits in `keep` stay. */
    method AndInto(at: nat, data: array<byte>, len: nat, keep: int -> byte)
      requires len <= data.Length && at + len <= bytes.Length && data != bytes
      modifies bytes
      ensures bytes[..] == FlashModel.Written(old(bytes[..]), at, old(data[..len]), keep)
    {
      forall i | at <= i < at + len {
        bytes[i] := bytes[i] & (data[i - at] | keep(i));
      }
    }

    method Program(at: nat, data: array<byte>, len: nat) returns (ok: bool)
      requires Valid() && len <= data.Length && data != bytes
      modifies this, bytes
      ensures Valid() && (State(), ok) == FlashModel.ProgramBytes(faults, old(State()), at, old(data[..len]))
    {
      var n := calls;
      ok := false;
      if at + len <= bytes.Length {
        if faults.fails(n) {
          AndInto(at, data, len, i => faults.torn(n, i));
        } else {
          ok := true;
          AndInto(at, data, len, i => 0);
        }
      }
      calls, log := n + 1, log + [FlashModel.Program(at, len, ok)];
    }

    /** `_partitionIsBootable`. */
    method CheckBootable() returns (bootable: bool)
      requires Valid()
      modifies this
      ensures Valid() && (State(), bootable) == FlashModel.CheckBootable(faults, old(State()))
    {
      var ok := 4 <= bytes.Length && !faults.fails(calls);
      calls, log := calls + 1, log + [FlashModel.Read(ok)];
      bootable := ok && bytes[0] == FlashModel.MAGIC;
    }

    /** `_enablePartition`. */
    method EnablePartition() returns (enabled: bool)
      requires Valid()
      modifies this, bytes
      ensures Valid() && (State(), enabled) == FlashModel.EnablePartition(faults, old(State()))
    {
      hide FlashModel.Written;
      enabled := 4 <= bytes.Length && !faults.fails(calls);
      calls, log := calls + 1, log + [FlashModel.Read(enabled)];
      if enabled {
        var n := calls;
        var head := new byte[4];
        head[0], head[1], head[2], head[3] := FlashModel.MAGIC, bytes[1], bytes[2], bytes[3];
        assert head[..4] == [FlashModel.MAGIC] + bytes[..][1..4];
        enabled := !faults.fails(n);
        if enabled {
          AndInto(0, head, 4, i => 0);
        } else {
          AndInto(0, head, 4, i => faults.torn(n, i));
        }
        calls, log := n + 1, log + [FlashModel.Repair(enabled)];
      }
    }
  }
}
