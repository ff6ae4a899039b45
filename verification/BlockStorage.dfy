/** The block device under the file systems, addressed by byte offset as its callers address it.
    Which accesses fail is a fixed but arbitrary property of the device. */
module BlockStorage {
  import opened Wrappers
  import opened Bytes

  datatype Disk = Disk(
    bytes: seq<Byte>,
    blockSize: nat,
    blockCount: nat,
    readable: (nat, nat) -> bool,
    writable: (nat, nat) -> bool)
  {
    /** Where a logical block starts. */
    function At(lba: nat): nat {
      lba * blockSize
    }

    predicate CanRead(off: nat, len: nat) {
      off + len <= |bytes| && readable(off, len)
    }

    predicate CanWrite(off: nat, len: nat) {
      off + len <= |bytes| && writable(off, len)
    }

    function Read(off: nat, len: nat): Option<seq<Byte>> {
      if CanRead(off, len) then Some(bytes[off..off + len]) else None
    }

    /** The disk after a write that reached the medium. */
    function Put(off: nat, data: seq<Byte>): Disk
      requires off + |data| <= |bytes|
    {
      this.(bytes := Splice(bytes, off, data))
    }

    /** The disk after an attempted write: a failed write changes nothing. */
    function Write(off: nat, data: seq<Byte>): Disk {
      if CanWrite(off, |data|) then Put(off, data) else this
    }
  }

  class BlockDevice {
    var content: seq<Byte>
    const blockSize: nat
    const blockCount: nat
    const readable: (nat, nat) -> bool
    const writable: (nat, nat) -> bool

    function State(): Disk
      reads this
    {
      Disk(content, blockSize, blockCount, readable, writable)
    }

    constructor (d: Disk)
      ensures State() == d
    {
      content, blockSize, blockCount := d.bytes, d.blockSize, d.blockCount;
      readable, writable := d.readable, d.writable;
    }

    method ReadBlocks(off: nat, len: nat) returns (r: Option<seq<Byte>>)
      ensures r == State().Read(off, len)
    {
      r := State().Read(off, len);
    }

    method WriteBlocks(off: nat, data: seq<Byte>) returns (ok: bool)
      modifies this`content
      ensures ok == old(State()).CanWrite(off, |data|)
      ensures State() == old(State()).Write(off, data)
    {
      ok := State().CanWrite(off, |data|);
      if ok {
        content := Splice(content, off, data);
      }
    }
  }
}
