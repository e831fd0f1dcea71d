/** The operation-list blob: assembled by the emitter and parsed by the profiler
    (compiler/tools/wtop_emit.cpp:604-663, scripts/gehtp_prof.py:78-117). */
module Wtop {
  import opened Bytes

  type U16 = x: int | 0 <= x < 0x1_0000
  type U32 = x: int | 0 <= x < 0x1_0000_0000
  type U64 = x: int | 0 <= x < 0x1_0000_0000_0000_0000

  datatype Slot = Slot(len: U32, count: U32, offset: U64, addr: U32)

  datatype Op = Op(opcode: U16, args: seq<U32>)

  datatype Blob = Blob(ver: U16, slots: seq<Slot>, ops: seq<Op>)

  datatype Error = BadMagic | BadEndian | BadVersion | SlotsTruncated | OpsTruncated | ArgsTruncated

  datatype Result<T> = Ok(value: T) | Err(error: Error)

  // ----- Little-endian numbers -----

  function Le(n: nat, k: nat): (r: Bytes)
    ensures |r| == k
    decreases k, n
  {
    if k == 0 then [] else [n % 256] + Le(n / 256, k - 1)
  }

  function FromLe(s: Bytes): nat {
    if s == [] then 0 else s[0] + 256 * FromLe(s[1..])
  }

  function Pow256(k: nat): (r: nat)
    ensures r > 0
  {
    if k == 0 then 1 else 256 * Pow256(k - 1)
  }

  lemma {:induction false} LeReadsBack(n: nat, k: nat)
    requires n < Pow256(k)
    ensures FromLe(Le(n, k)) == n
    decreases k
  {
    if k > 0 {
      LeReadsBack(n / 256, k - 1);
    }
  }

  lemma U16ReadsBack(n: U16)
    ensures FromLe(Le(n, 2)) == n
  {
    assert Pow256(2) == 256 * Pow256(1) == 0x1_0000;
    LeReadsBack(n, 2);
  }

  lemma U32ReadsBack(n: U32)
    ensures FromLe(Le(n, 4)) == n
  {
    assert Pow256(4) == 256 * Pow256(3) == 256 * 256 * Pow256(2) == 256 * 256 * 256 * Pow256(1) == 0x1_0000_0000;
    LeReadsBack(n, 4);
  }

  function Lo(n: U64): U32 { n % 0x1_0000_0000 }

  function Hi(n: U64): U32 { n / 0x1_0000_0000 }

  // ----- The layout -----

  const MAGIC: Bytes := [87, 84, 79, 80]
  const ENDIAN: U16 := 0x1234

  function RecordSize(v2: bool): nat {
    if v2 then 24 else 16
  }

  function SlotRecord(s: Slot, v2: bool): (r: Bytes)
    ensures |r| == RecordSize(v2)
  {
    if v2 then Le(s.len, 4) + Le(s.count, 4) + Le(Lo(s.offset), 4) + Le(Hi(s.offset), 4) + Le(s.addr, 4) + Le(0, 4)
    else Le(s.len, 4) + Le(s.count, 4) + Le(Lo(s.offset), 4) + Le(s.addr, 4)
  }

  function SlotTable(slots: seq<Slot>, v2: bool): (r: Bytes)
    ensures |r| == |slots| * RecordSize(v2)
  {
    if slots == [] then [] else SlotRecord(slots[0], v2) + SlotTable(slots[1..], v2)
  }

  function Words(args: seq<U32>): (r: Bytes)
    ensures |r| == 4 * |args|
  {
    if args == [] then [] else Le(args[0], 4) + Words(args[1..])
  }

  predicate Small(op: Op) {
    |op.args| < 0x1_0000
  }

  predicate AllSmall(ops: seq<Op>) {
    forall k :: 0 <= k < |ops| ==> Small(ops[k])
  }

  function OpRecord(op: Op): (r: Bytes)
    requires Small(op)
    ensures |r| == 4 + 4 * |op.args|
  {
    Le(op.opcode, 2) + Le(|op.args|, 2) + Words(op.args)
  }

  function OpTable(ops: seq<Op>): Bytes
    requires AllSmall(ops)
  {
    if ops == [] then [] else OpRecord(ops[0]) + OpTable(ops[1..])
  }

  function Header(v2: bool, n_slots: U32, n_ops: U32): (r: Bytes)
    ensures |r| == 16
  {
    MAGIC + Le(if v2 then 2 else 1, 2) + Le(ENDIAN, 2) + Le(n_slots, 4) + Le(n_ops, 4)
  }

  /** What can be numbered in the header and the records. */
  predicate Countable(slots: seq<Slot>, ops: seq<Op>) {
    |slots| < 0x1_0000_0000 && |ops| < 0x1_0000_0000 && AllSmall(ops)
  }

  function Tables(slots: seq<Slot>, ops: seq<Op>, v2: bool): Bytes
    requires Countable(slots, ops)
  {
    Header(v2, |slots|, |ops|) + SlotTable(slots, v2) + OpTable(ops)
  }

  /** Version 2 when forced, or when a weight area comes near the reach of 32 bits. */
  predicate NeedsV2(force_v2: bool, weights: nat, ext_weights: nat) {
    force_v2 || weights > 0xFFFF_FF00 || ext_weights > 0xFFFF_FF00
  }

  // ----- Parsing -----

  function Word(buf: Bytes, pos: nat): nat
    requires pos + 4 <= |buf|
  {
    FromLe(buf[pos..pos + 4])
  }

  function Half(buf: Bytes, pos: nat): nat
    requires pos + 2 <= |buf|
  {
    FromLe(buf[pos..pos + 2])
  }

  lemma {:induction false} FromLeBound(s: Bytes)
    ensures FromLe(s) < Pow256(|s|)
  {
    if s != [] {
      FromLeBound(s[1..]);
    }
  }

  /** A word and a half-word as typed numbers. */
  function WordAt(buf: Bytes, pos: nat): (w: U32)
    requires pos + 4 <= |buf|
    ensures w == Word(buf, pos)
  {
    FromLeBound(buf[pos..pos + 4]);
    assert Pow256(4) == 256 * Pow256(3) == 256 * 256 * Pow256(2) == 256 * 256 * 256 * Pow256(1) == 0x1_0000_0000;
    Word(buf, pos)
  }

  function HalfAt(buf: Bytes, pos: nat): (w: U16)
    requires pos + 2 <= |buf|
    ensures w == Half(buf, pos)
  {
    FromLeBound(buf[pos..pos + 2]);
    assert Pow256(2) == 256 * Pow256(1) == 0x1_0000;
    Half(buf, pos)
  }

  function SlotAt(buf: Bytes, pos: nat, v2: bool): Slot
    requires pos + RecordSize(v2) <= |buf|
  {
    if v2 then Slot(WordAt(buf, pos), WordAt(buf, pos + 4), WordAt(buf, pos + 8) + WordAt(buf, pos + 12) * 0x1_0000_0000, WordAt(buf, pos + 16))
    else Slot(WordAt(buf, pos), WordAt(buf, pos + 4), WordAt(buf, pos + 8), WordAt(buf, pos + 12))
  }

  function SlotsAt(buf: Bytes, pos: nat, n: nat, v2: bool): seq<Slot>
    requires pos + n * RecordSize(v2) <= |buf|
    decreases n
  {
    if n == 0 then [] else [SlotAt(buf, pos, v2)] + SlotsAt(buf, pos + RecordSize(v2), n - 1, v2)
  }

  function ArgsAt(buf: Bytes, pos: nat, n: nat): seq<U32>
    requires pos + 4 * n <= |buf|
    decreases n
  {
    if n == 0 then [] else [WordAt(buf, pos)] + ArgsAt(buf, pos + 4, n - 1)
  }

  function OpsAt(buf: Bytes, pos: nat, n: nat): Result<seq<Op>>
    decreases n
  {
    if n == 0 then Ok([])
    else if pos + 4 > |buf| then Err(OpsTruncated)
    else
      var n_args := HalfAt(buf, pos + 2);
      if pos + 4 + 4 * n_args > |buf| then Err(ArgsTruncated)
      else
        match OpsAt(buf, pos + 4 + 4 * n_args, n - 1)
        case Err(e) => Err(e)
        case Ok(ops) => Ok([Op(HalfAt(buf, pos), ArgsAt(buf, pos + 4, n_args))] + ops)
  }

  function Parse(buf: Bytes): Result<Blob> {
    if |buf| < 16 || buf[..4] != MAGIC then Err(BadMagic)
    else if HalfAt(buf, 6) != ENDIAN then Err(BadEndian)
    else
      var ver := HalfAt(buf, 4);
      if ver != 1 && ver != 2 then Err(BadVersion)
      else
        var n_slots := WordAt(buf, 8);
        var end := 16 + n_slots * RecordSize(ver == 2);
        if end > |buf| then Err(SlotsTruncated)
        else
          match OpsAt(buf, end, WordAt(buf, 12))
          case Err(e) => Err(e)
          case Ok(ops) => Ok(Blob(ver, SlotsAt(buf, 16, n_slots, ver == 2), ops))
  }
}
