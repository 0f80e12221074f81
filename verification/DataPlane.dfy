/** The shared process image: what one mirror cycle means, and what it keeps over whole runs. */
module DataPlane {
  import opened Words

  const MAX_PROCESS_DATA_SIZE: nat := 4096
  const FLAG_RUNNING: UInt32 := 1

  /** One PDO entry of the process image; `direction` is "RxPDO" (an output) or "TxPDO" (an input). */
  datatype MirrorEntry = MirrorEntry(
    slave: UInt16, index: UInt16, sub: UInt8, bitLength: UInt8, direction: string, offset: UInt32)

  function ByteLength(e: MirrorEntry): (r: nat) {
    (e.bitLength + 7) / 8
  }

  predicate IsOutput(e: MirrorEntry) {
    e.direction == "RxPDO" && ByteLength(e) > 0
  }

  function End(e: MirrorEntry): nat {
    e.offset + ByteLength(e)
  }

  /** Entry `e` drives byte `p` of a process image of `n` bytes from the client side. */
  predicate Drives(e: MirrorEntry, n: nat, p: nat) {
    IsOutput(e) && End(e) <= n && e.offset <= p < End(e)
  }

  predicate Driven(entries: seq<MirrorEntry>, n: nat, p: nat) {
    exists k :: 0 <= k < |entries| && Drives(entries[k], n, p)
  }

  /** The image one cycle publishes: client outputs where an entry drives the byte, bus data elsewhere. */
  function Overlay(entries: seq<MirrorEntry>, n: nat, outputs: seq<Byte>, bus: seq<Byte>): (r: seq<Byte>)
    requires n <= |outputs| && n <= |bus|
    ensures |r| == n
  {
    seq(n, p requires 0 <= p < n => if Driven(entries, n, p) then outputs[p] else bus[p])
  }

  predicate Ignored(e: MirrorEntry, n: nat) {
    IsOutput(e) && End(e) > n
  }

  /** How many entries a cycle over `n` bytes refuses to apply. */
  function IgnoredCount(entries: seq<MirrorEntry>, n: nat): nat {
    if entries == [] then 0
    else IgnoredCount(entries[..|entries| - 1], n) + if Ignored(entries[|entries| - 1], n) then 1 else 0
  }

  function Clamp(dataSize: nat): (r: nat)
    ensures r <= MAX_PROCESS_DATA_SIZE
  {
    if dataSize > MAX_PROCESS_DATA_SIZE then MAX_PROCESS_DATA_SIZE else dataSize
  }

  function SetRunning(flags: UInt32): UInt32 {
    if flags % 2 == 0 then flags + 1 else flags
  }

  function ClearRunning(flags: UInt32): UInt32 {
    flags - flags % 2
  }

  predicate IsRunning(flags: UInt32) {
    flags % 2 == 1
  }

  /** Everything the daemon and its clients share, together with the bus-side process image. */
  datatype Plane = Plane(
    buffers: seq<seq<Byte>>, domain: seq<Byte>, active: UInt32, version: UInt64, cycleCount: UInt64,
    timestampNs: UInt64, status: UInt32, ignored: UInt32)

  predicate WellFormed(pl: Plane, stride: nat) {
    |pl.buffers| == 2 && |pl.buffers[0]| == stride && |pl.buffers[1]| == stride && stride <= |pl.domain|
  }

  /** The buffer index the daemon goes by: a corrupt index counts as 0. */
  function DaemonIndex(active: UInt32): (r: nat)
    ensures r < 2
  {
    if active > 1 then 0 else active
  }

  /** The plane after one mirror cycle over `dataSize` bytes. */
  function Cycle(pl: Plane, entries: seq<MirrorEntry>, dataSize: nat, timestampNs: UInt64): (r: Plane)
    requires |pl.buffers| == 2 && Clamp(dataSize) <= |pl.domain|
    requires Clamp(dataSize) <= |pl.buffers[0]| == |pl.buffers[1]|
    ensures |r.buffers| == 2 && |r.domain| == |pl.domain|
    ensures |r.buffers[0]| == |r.buffers[1]| == |pl.buffers[0]|
  {
    var n := Clamp(dataSize);
    if n == 0 then pl
    else
      var a := DaemonIndex(pl.active);
      var image := Overlay(entries, n, pl.buffers[a], pl.domain);
      Plane(pl.buffers[1 - a := image + pl.buffers[1 - a][n..]], image + pl.domain[n..], 1 - a,
            (pl.version + 1) % TWO_64, (pl.cycleCount + 1) % TWO_64, timestampNs, SetRunning(pl.status),
            (pl.ignored + IgnoredCount(entries, n)) % TWO_32)
  }
}
