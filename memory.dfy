/** The interpreter's byte memory (src/interpreter.rs:146-162): a vector of
    bytes that is written by splicing and read by slicing. */
module Memory {
  import opened Primitive

  /** Size of the memory: 4 KiB. */
  const RAM_SIZE := 0x1000

  /** A run of zero bytes, as `vec![0u8; n]` builds it. */
  function Zeros(n: nat): (r: seq<u8>)
    ensures |r| == n
    ensures forall j :: 0 <= j < n ==> r[j] == 0
  {
    seq(n, _ => 0)
  }

  /** `write_bytes`: the bytes replace the same number of bytes starting at
      `address`. The splice would panic past the end, hence the requires. */
  function WriteBytes(memory: seq<u8>, address: int, bytes: seq<u8>): (r: seq<u8>)
    requires 0 <= address && address + |bytes| <= |memory|
    ensures |r| == |memory|
    ensures forall j :: 0 <= j < |r| ==>
      r[j] == if address <= j < address + |bytes| then bytes[j - address] else memory[j]
  {
    memory[..address] + bytes + memory[address + |bytes|..]
  }

  /** `read_u16`: the big-endian word at `address` and `address + 1`. The
      slice would panic past the end, hence the requires. */
  function ReadU16(memory: seq<u8>, address: int): (w: u16)
    requires 0 <= address && address + 1 < |memory|
    ensures w / 0x100 == memory[address] as int && w % 0x100 == memory[address + 1] as int
  {
    memory[address] as int * 0x100 + memory[address + 1] as int
  }

  /** `read_bytes`: the `len` bytes starting at `address`. */
  function ReadBytes(memory: seq<u8>, address: int, len: int): (r: seq<u8>)
    requires 0 <= address && 0 <= len && address + len <= |memory|
    ensures |r| == len
    ensures forall j :: 0 <= j < len ==> r[j] == memory[address + j]
  {
    memory[address..address + len]
  }

  /** Writing a run and then the byte after it is one write of the longer
      run: the byte-at-a-time loops of the interpreter write whole runs. */
  lemma WriteExtend(memory: seq<u8>, address: int, bytes: seq<u8>, b: u8)
    requires 0 <= address && address + |bytes| + 1 <= |memory|
    ensures WriteBytes(WriteBytes(memory, address, bytes), address + |bytes|, [b]) == WriteBytes(memory, address, bytes + [b])
  {
    var lhs := WriteBytes(WriteBytes(memory, address, bytes), address + |bytes|, [b]);
    var rhs := WriteBytes(memory, address, bytes + [b]);
    assert forall j :: 0 <= j < |memory| ==> lhs[j] == rhs[j];
  }
}
