/** Writing the blob in place, parsing it with a cursor, and that parsing gives back what was
    written (compiler/tools/wtop_emit.cpp:604-663, scripts/gehtp_prof.py:78-117). */
module WtopBlob {
  import opened Bytes
  import opened Wtop

  // ----- Writing -----

  /** Zeros up to the next multiple of 128, where the weights begin. */
  function WeightPadding(n: nat): (r: Bytes)
    ensures (n + |r|) % 128 == 0 && |r| < 128
  {
    Fill(if n % 128 == 0 then 0 else 128 - n % 128, 0)
  }

  /** The tables, and the weights from the next multiple of 128 on. */
  function Assembled(slots: seq<Slot>, ops: seq<Op>, v2: bool, weights: Bytes): Bytes
    requires Countable(slots, ops)
  {
    var tables := Tables(slots, ops, v2);
    tables + WeightPadding(|tables|) + weights
  }

  class Emitter {
    var slots: seq<Slot>
    var ops: seq<Op>
    var weight_area: Bytes
    var ext_weight_area: nat
    var blob: Bytes

    constructor (slots: seq<Slot>, ops: seq<Op>, weight_area: Bytes, ext_weight_area: nat)
      ensures this.slots == slots && this.ops == ops && this.weight_area == weight_area && this.ext_weight_area == ext_weight_area
    {
      this.slots, this.ops, this.weight_area, this.ext_weight_area := slots, ops, weight_area, ext_weight_area;
      blob := [];
    }

    /** Choose the version and write the blob. */
    method Assemble(force_v2: bool)
      requires Countable(slots, ops)
      modifies this`blob
      ensures blob == Assembled(slots, ops, NeedsV2(force_v2, |weight_area|, ext_weight_area), weight_area)
    {
      var need_v2 := force_v2 || |weight_area| > 0xFFFF_FF00 || ext_weight_area > 0xFFFF_FF00;
      var slot_rec := if need_v2 then 24 else 16;
      var p := 16 + |slots| * slot_rec;
      blob := Fill(p + 1, 0);
      WriteHeader(need_v2);
      WriteSlots(need_v2);
      blob := blob[..p];
      WriteOps(need_v2);
      blob := blob + WeightPadding(|blob|);
      blob := blob + weight_area;
    }

    method WriteHeader(v2: bool)
      requires |blob| >= 16 && Countable(slots, ops)
      modifies this`blob
      ensures |blob| == old(|blob|) && blob[..16] == Header(v2, |slots|, |ops|)
    {
      var ver: U16 := if v2 then 2 else 1;
      blob := Patch(blob, 0, MAGIC);
      blob := Patch(blob, 4, Le(ver, 2));
      blob := Patch(blob, 6, Le(ENDIAN, 2));
      blob := Patch(blob, 8, Le(|slots|, 4));
      blob := Patch(blob, 12, Le(|ops|, 4));
    }

    method WriteSlots(v2: bool)
      requires |blob| > 16 + |slots| * RecordSize(v2)
      modifies this`blob
      ensures |blob| == old(|blob|)
      ensures blob[..16 + |slots| * RecordSize(v2)] == old(blob)[..16] + SlotTable(slots, v2)
    {
      ghost var head := blob[..16];
      var i := 0;
      while i < |slots|
        invariant 0 <= i <= |slots| && |blob| == old(|blob|)
        invariant TableWritten(blob, head, slots, i, v2)
      {
        ghost var before := blob;
        RecordsFit(i, |slots|, RecordSize(v2));
        WriteSlot(16 + i * RecordSize(v2), slots[i], v2);
        OneMoreRecord(before, blob, head, slots, i, v2);
        i := i + 1;
      }
      assert slots[..i] == slots;
    }

    method WriteSlot(at: nat, s: Slot, v2: bool)
      requires at + RecordSize(v2) <= |blob|
      modifies this`blob
      ensures |blob| == old(|blob|) && blob[..at + RecordSize(v2)] == old(blob)[..at] + SlotRecord(s, v2)
    {
      ghost var head := blob[..at];
      WriteWord(at, s.len);
      WriteWord(at + 4, s.count);
      WriteWord(at + 8, Lo(s.offset));
      if v2 {
        WriteWord(at + 12, Hi(s.offset));
        WriteWord(at + 16, s.addr);
        WriteWord(at + 20, 0);
        SixParts(head, Le(s.len, 4), Le(s.count, 4), Le(Lo(s.offset), 4), Le(Hi(s.offset), 4), Le(s.addr, 4), Le(0, 4));
      } else {
        WriteWord(at + 12, s.addr);
        FourParts(head, Le(s.len, 4), Le(s.count, 4), Le(Lo(s.offset), 4), Le(s.addr, 4));
      }
    }

    method WriteWord(at: nat, w: U32)
      requires at + 4 <= |blob|
      modifies this`blob
      ensures |blob| == old(|blob|) && blob[..at + 4] == old(blob)[..at] + Le(w, 4)
    {
      blob := Patch(blob, at, Le(w, 4));
    }

    method WriteOps(v2: bool)
      requires Countable(slots, ops)
      requires blob == Header(v2, |slots|, |ops|) + SlotTable(slots, v2)
      modifies this`blob
      ensures blob == Tables(slots, ops, v2)
    {
      ghost var before := blob;
      var i := 0;
      while i < |ops|
        invariant 0 <= i <= |ops|
        invariant blob + OpTable(ops[i..]) == before + OpTable(ops)
      {
        ghost var written := blob;
        assert Small(ops[i]);
        WriteOp(ops[i]);
        OpTableStep(written, ops, i);
        i := i + 1;
      }
    }

    method WriteOp(o: Op)
      requires Small(o)
      modifies this`blob
      ensures blob == old(blob) + OpRecord(o)
    {
      blob := blob + Le(o.opcode, 2);
      blob := blob + Le(|o.args|, 2);
      ghost var counted := blob;
      var a := 0;
      while a < |o.args|
        invariant 0 <= a <= |o.args|
        invariant blob + Words(o.args[a..]) == counted + Words(o.args)
      {
        WordsStep(blob, o.args, a);
        blob := blob + Le(o.args[a], 4);
        a := a + 1;
      }
      ThreeParts(old(blob), Le(o.opcode, 2), Le(|o.args|, 2), Words(o.args));
    }
  }

  ghost predicate TableWritten(blob: Bytes, head: Bytes, slots: seq<Slot>, i: nat, v2: bool)
    requires i <= |slots|
  {
    var at := 16 + i * RecordSize(v2);
    at <= |blob| && blob[..at] == head + SlotTable(slots[..i], v2)
  }

  lemma OneMoreRecord(before: Bytes, blob: Bytes, head: Bytes, slots: seq<Slot>, i: nat, v2: bool)
    requires i < |slots| && |blob| == |before| && TableWritten(before, head, slots, i, v2)
    requires var at := 16 + i * RecordSize(v2);
             at + RecordSize(v2) <= |blob| && blob[..at + RecordSize(v2)] == before[..at] + SlotRecord(slots[i], v2)
    ensures TableWritten(blob, head, slots, i + 1, v2)
  {
    RecordsFit(i, |slots|, RecordSize(v2));
    Appended(before[..16 + i * RecordSize(v2)], head, slots, i, v2);
  }

  lemma Appended(written: Bytes, head: Bytes, slots: seq<Slot>, i: nat, v2: bool)
    requires i < |slots| && written == head + SlotTable(slots[..i], v2)
    ensures written + SlotRecord(slots[i], v2) == head + SlotTable(slots[..i + 1], v2)
  {
    TableSnoc(slots, i, v2);
    TwoParts(head, SlotTable(slots[..i], v2), SlotRecord(slots[i], v2));
  }

  lemma RecordsFit(i: nat, n: nat, size: nat)
    requires i < n
    ensures (i + 1) * size == i * size + size <= n * size
  {
    assert n * size == (i + 1) * size + (n - i - 1) * size;
  }

  /** The slots so far, with n left from base on. */
  ghost predicate SlotsRead(buf: Bytes, start: nat, n_slots: nat, v2: bool, base: nat, n: nat, slots: seq<Slot>)
    requires start + n_slots * RecordSize(v2) <= |buf|
  {
    base + n * RecordSize(v2) <= |buf| && slots + SlotsAt(buf, base, n, v2) == SlotsAt(buf, start, n_slots, v2)
  }

  lemma SlotsStep(buf: Bytes, start: nat, n_slots: nat, v2: bool, base: nat, n: nat, slots: seq<Slot>)
    requires start + n_slots * RecordSize(v2) <= |buf| && n > 0 && SlotsRead(buf, start, n_slots, v2, base, n, slots)
    ensures base + RecordSize(v2) <= |buf|
    ensures SlotsRead(buf, start, n_slots, v2, base + RecordSize(v2), n - 1, slots + [SlotAt(buf, base, v2)])
  {
    assert n * RecordSize(v2) == RecordSize(v2) + (n - 1) * RecordSize(v2);
    var rest := SlotsAt(buf, base + RecordSize(v2), n - 1, v2);
    assert slots + ([SlotAt(buf, base, v2)] + rest) == slots + [SlotAt(buf, base, v2)] + rest;
  }

  lemma TwoParts(x: Bytes, a: Bytes, b: Bytes)
    ensures x + a + b == x + (a + b)
  {
  }

  lemma ThreeParts(x: Bytes, a: Bytes, b: Bytes, c: Bytes)
    ensures x + a + b + c == x + (a + b + c)
  {
  }

  lemma FourParts(x: Bytes, a: Bytes, b: Bytes, c: Bytes, d: Bytes)
    ensures x + a + b + c + d == x + (a + b + c + d)
  {
    ThreeParts(x, a, b, c);
    TwoParts(x, a + b + c, d);
  }

  lemma SixParts(x: Bytes, a: Bytes, b: Bytes, c: Bytes, d: Bytes, e: Bytes, f: Bytes)
    ensures x + a + b + c + d + e + f == x + (a + b + c + d + e + f)
  {
    FourParts(x, a, b, c, d);
    ThreeParts(x, a + b + c + d, e, f);
  }

  lemma OpTableStep(written: Bytes, ops: seq<Op>, i: nat)
    requires i < |ops| && AllSmall(ops)
    ensures written + OpTable(ops[i..]) == written + OpRecord(ops[i]) + OpTable(ops[i + 1..])
  {
    var tail := ops[i..];
    assert tail[0] == ops[i] && tail[1..] == ops[i + 1..];
    TwoParts(written, OpRecord(ops[i]), OpTable(ops[i + 1..]));
  }

  lemma WordsStep(written: Bytes, args: seq<U32>, a: nat)
    requires a < |args|
    ensures written + Words(args[a..]) == written + Le(args[a], 4) + Words(args[a + 1..])
  {
    var tail := args[a..];
    assert tail[0] == args[a] && tail[1..] == args[a + 1..];
    TwoParts(written, Le(args[a], 4), Words(args[a + 1..]));
  }

  lemma TableSnoc(slots: seq<Slot>, i: nat, v2: bool)
    requires i < |slots|
    ensures SlotTable(slots[..i + 1], v2) == SlotTable(slots[..i], v2) + SlotRecord(slots[i], v2)
  {
    var front := slots[..i];
    assert slots[..i + 1] == front + [slots[i]];
    TableConcat(front, slots[i], v2);
  }

  lemma {:induction false} TableConcat(slots: seq<Slot>, s: Slot, v2: bool)
    ensures SlotTable(slots + [s], v2) == SlotTable(slots, v2) + SlotRecord(s, v2)
  {
    if slots != [] {
      TableConcat(slots[1..], s, v2);
      assert (slots + [s])[1..] == slots[1..] + [s];
    } else {
      assert [s][1..] == [];
    }
  }

  // ----- Parsing with a cursor -----

  method ParseWtop(buf: Bytes) returns (r: Result<Blob>)
    ensures r == Parse(buf)
  {
    if |buf| < 16 || buf[..4] != MAGIC {
      return Err(BadMagic);
    }
    var ver, endian := HalfAt(buf, 4), HalfAt(buf, 6);
    if endian != ENDIAN {
      return Err(BadEndian);
    }
    if ver != 1 && ver != 2 {
      return Err(BadVersion);
    }
    var n_slots, n_ops := WordAt(buf, 8), WordAt(buf, 12);
    var pos := 16 + n_slots * RecordSize(ver == 2);
    if |buf| < pos {
      return Err(SlotsTruncated);
    }
    var slots := ReadSlots(buf, 16, n_slots, ver == 2);
    var ops := ReadOps(buf, pos, n_ops);
    match ops
    case Err(e) => return Err(e);
    case Ok(list) => return Ok(Blob(ver, slots, list));
  }

  method ReadSlots(buf: Bytes, start: nat, n_slots: nat, v2: bool) returns (slots: seq<Slot>)
    requires start + n_slots * RecordSize(v2) <= |buf|
    ensures slots == SlotsAt(buf, start, n_slots, v2)
  {
    slots := [];
    var i := 0;
    var base: nat := start;
    assert [] + SlotsAt(buf, start, n_slots, v2) == SlotsAt(buf, start, n_slots, v2);
    while i < n_slots
      invariant 0 <= i <= n_slots && SlotsRead(buf, start, n_slots, v2, base, n_slots - i, slots)
    {
      SlotsStep(buf, start, n_slots, v2, base, n_slots - i, slots);
      slots := slots + [SlotAt(buf, base, v2)];
      base := base + RecordSize(v2);
      i := i + 1;
    }
  }

  method ReadOps(buf: Bytes, start: nat, n_ops: nat) returns (r: Result<seq<Op>>)
    ensures r == OpsAt(buf, start, n_ops)
  {
    var ops: seq<Op> := [];
    var pos: nat := start;
    var i := 0;
    NothingPrecedes(OpsAt(buf, start, n_ops));
    while i < n_ops
      invariant 0 <= i <= n_ops
      invariant OpsAt(buf, start, n_ops) == Preceded(ops, OpsAt(buf, pos, n_ops - i))
    {
      if pos + 4 > |buf| {
        return Err(OpsTruncated);
      }
      var opcode, n_args: nat := HalfAt(buf, pos), HalfAt(buf, pos + 2);
      if pos + 4 + 4 * n_args > |buf| {
        return Err(ArgsTruncated);
      }
      OneMoreOp(buf, pos, n_ops - i, ops);
      ops := ops + [Op(opcode, ArgsAt(buf, pos + 4, n_args))];
      pos := pos + 4 + 4 * n_args;
      i := i + 1;
    }
    assert ops + [] == ops;
    return Ok(ops);
  }

  lemma OneMoreOp(buf: Bytes, pos: nat, n: nat, ops: seq<Op>)
    requires n > 0 && pos + 4 <= |buf| && pos + 4 + 4 * HalfAt(buf, pos + 2) <= |buf|
    ensures var n_args := HalfAt(buf, pos + 2);
            var op := Op(HalfAt(buf, pos), ArgsAt(buf, pos + 4, n_args));
            Preceded(ops, OpsAt(buf, pos, n)) == Preceded(ops + [op], OpsAt(buf, pos + 4 + 4 * n_args, n - 1))
  {
    var n_args: nat := HalfAt(buf, pos + 2);
    var op, rest := Op(HalfAt(buf, pos), ArgsAt(buf, pos + 4, n_args)), OpsAt(buf, pos + 4 + 4 * n_args, n - 1);
    assert rest.Ok? ==> ops + ([op] + rest.value) == ops + [op] + rest.value;
  }

  lemma NothingPrecedes(r: Result<seq<Op>>)
    ensures Preceded([], r) == r
  {
    if r.Ok? {
      assert [] + r.value == r.value;
    }
  }

  function Preceded(ops: seq<Op>, r: Result<seq<Op>>): Result<seq<Op>> {
    match r
    case Err(e) => Err(e)
    case Ok(more) => Ok(ops + more)
  }

  // ----- Round trip -----

  /** A slot as its record holds it: version 1 keeps the low 32 bits of the offset. */
  function Kept(s: Slot, v2: bool): Slot {
    if v2 then s else s.(offset := Lo(s.offset))
  }

  function AllKept(slots: seq<Slot>, v2: bool): (r: seq<Slot>)
    ensures |r| == |slots| && forall k :: 0 <= k < |slots| ==> r[k] == Kept(slots[k], v2)
  {
    if slots == [] then [] else [Kept(slots[0], v2)] + AllKept(slots[1..], v2)
  }

  /** The part s of a buffer lies at pos. */
  predicate LiesAt(buf: Bytes, pos: nat, s: Bytes) {
    pos + |s| <= |buf| && buf[pos..pos + |s|] == s
  }

  lemma LiesInParts(buf: Bytes, pos: nat, a: Bytes, b: Bytes)
    requires LiesAt(buf, pos, a + b)
    ensures LiesAt(buf, pos, a) && LiesAt(buf, pos + |a|, b)
  {
    var s := buf[pos..pos + |a + b|];
    assert buf[pos..pos + |a|] == s[..|a|];
    assert buf[pos + |a|..pos + |a| + |b|] == s[|a|..];
  }

  lemma WordLies(buf: Bytes, pos: nat, n: U32)
    requires LiesAt(buf, pos, Le(n, 4))
    ensures WordAt(buf, pos) == n
  {
    U32ReadsBack(n);
  }

  lemma HalfLies(buf: Bytes, pos: nat, n: U16)
    requires LiesAt(buf, pos, Le(n, 2))
    ensures HalfAt(buf, pos) == n
  {
    U16ReadsBack(n);
  }

  lemma RecordLies(buf: Bytes, pos: nat, s: Slot, v2: bool)
    requires LiesAt(buf, pos, SlotRecord(s, v2))
    ensures SlotAt(buf, pos, v2) == Kept(s, v2)
  {
    var a, b, c, d := Le(s.len, 4), Le(s.count, 4), Le(Lo(s.offset), 4), Le(Hi(s.offset), 4);
    if v2 {
      var e := Le(s.addr, 4);
      LiesInParts(buf, pos, a + b + c + d + e, Le(0, 4));
      LiesInParts(buf, pos, a + b + c + d, e);
      LiesInParts(buf, pos, a + b + c, d);
      WordLies(buf, pos + 12, Hi(s.offset));
      WordLies(buf, pos + 16, s.addr);
    } else {
      LiesInParts(buf, pos, a + b + c, Le(s.addr, 4));
      WordLies(buf, pos + 12, s.addr);
    }
    LiesInParts(buf, pos, a + b, c);
    LiesInParts(buf, pos, a, b);
    WordLies(buf, pos, s.len);
    WordLies(buf, pos + 4, s.count);
    WordLies(buf, pos + 8, Lo(s.offset));
  }

  lemma {:induction false} TableLies(buf: Bytes, pos: nat, slots: seq<Slot>, v2: bool)
    requires LiesAt(buf, pos, SlotTable(slots, v2))
    ensures SlotsAt(buf, pos, |slots|, v2) == AllKept(slots, v2)
    decreases |slots|
  {
    if slots != [] {
      LiesInParts(buf, pos, SlotRecord(slots[0], v2), SlotTable(slots[1..], v2));
      RecordLies(buf, pos, slots[0], v2);
      TableLies(buf, pos + RecordSize(v2), slots[1..], v2);
    }
  }

  lemma {:induction false} WordsLie(buf: Bytes, pos: nat, args: seq<U32>)
    requires LiesAt(buf, pos, Words(args))
    ensures ArgsAt(buf, pos, |args|) == args
    decreases |args|
  {
    if args != [] {
      LiesInParts(buf, pos, Le(args[0], 4), Words(args[1..]));
      WordLies(buf, pos, args[0]);
      WordsLie(buf, pos + 4, args[1..]);
    }
  }

  lemma OpLies(buf: Bytes, pos: nat, o: Op)
    requires Small(o) && LiesAt(buf, pos, OpRecord(o))
    ensures HalfAt(buf, pos) == o.opcode && HalfAt(buf, pos + 2) == |o.args| && ArgsAt(buf, pos + 4, |o.args|) == o.args
  {
    LiesInParts(buf, pos, Le(o.opcode, 2) + Le(|o.args|, 2), Words(o.args));
    LiesInParts(buf, pos, Le(o.opcode, 2), Le(|o.args|, 2));
    HalfLies(buf, pos, o.opcode);
    HalfLies(buf, pos + 2, |o.args|);
    WordsLie(buf, pos + 4, o.args);
  }

  /** The records lie one after the other. */
  ghost predicate RecordsLie(buf: Bytes, pos: nat, ops: seq<Op>)
    requires AllSmall(ops)
    decreases |ops|
  {
    ops == [] || (assert Small(ops[0]); LiesAt(buf, pos, OpRecord(ops[0])) && RecordsLie(buf, pos + 4 + 4 * |ops[0].args|, ops[1..]))
  }

  lemma {:induction false} OpTableLies(buf: Bytes, pos: nat, ops: seq<Op>)
    requires AllSmall(ops) && LiesAt(buf, pos, OpTable(ops))
    ensures RecordsLie(buf, pos, ops)
    decreases |ops|
  {
    if ops != [] {
      OpTableParts(buf, pos, ops);
      OpTableLies(buf, pos + 4 + 4 * |ops[0].args|, ops[1..]);
    }
  }

  lemma {:induction false} OpsLie(buf: Bytes, pos: nat, ops: seq<Op>)
    requires AllSmall(ops) && RecordsLie(buf, pos, ops)
    ensures OpsAt(buf, pos, |ops|) == Ok(ops)
    decreases |ops|
  {
    if ops != [] {
      var o, rest := ops[0], ops[1..];
      OpsLie(buf, pos + 4 + 4 * |o.args|, rest);
      OpLies(buf, pos, o);
      OpsStep(buf, pos, o, rest);
      assert [o] + rest == ops && |rest| + 1 == |ops|;
    }
  }

  lemma OpTableParts(buf: Bytes, pos: nat, ops: seq<Op>)
    requires ops != [] && AllSmall(ops) && LiesAt(buf, pos, OpTable(ops))
    ensures Small(ops[0]) && AllSmall(ops[1..])
    ensures LiesAt(buf, pos, OpRecord(ops[0])) && LiesAt(buf, pos + 4 + 4 * |ops[0].args|, OpTable(ops[1..]))
  {
    var o, rest := ops[0], ops[1..];
    assert Small(o);
    assert AllSmall(rest) by { assert forall k :: 0 <= k < |rest| ==> Small(rest[k]) by { assert forall k :: 0 <= k < |rest| ==> rest[k] == ops[k + 1]; } }
    var a, b := OpRecord(o), OpTable(rest);
    assert |a| == 4 + 4 * |o.args|;
    assert OpTable(ops) == a + b;
    LiesInParts(buf, pos, a, b);
  }

  lemma OpsStep(buf: Bytes, pos: nat, o: Op, rest: seq<Op>)
    requires pos + 4 + 4 * |o.args| <= |buf|
    requires HalfAt(buf, pos) == o.opcode && HalfAt(buf, pos + 2) == |o.args| && ArgsAt(buf, pos + 4, |o.args|) == o.args
    requires OpsAt(buf, pos + 4 + 4 * |o.args|, |rest|) == Ok(rest)
    ensures OpsAt(buf, pos, |rest| + 1) == Ok([o] + rest)
  {
  }

  lemma HeaderLies(buf: Bytes, v2: bool, n_slots: U32, n_ops: U32)
    requires LiesAt(buf, 0, Header(v2, n_slots, n_ops))
    ensures buf[..4] == MAGIC && HalfAt(buf, 4) == (if v2 then 2 else 1) && HalfAt(buf, 6) == ENDIAN
    ensures WordAt(buf, 8) == n_slots && WordAt(buf, 12) == n_ops
  {
    var ver: U16 := if v2 then 2 else 1;
    LiesInParts(buf, 0, MAGIC + Le(ver, 2) + Le(ENDIAN, 2) + Le(n_slots, 4), Le(n_ops, 4));
    LiesInParts(buf, 0, MAGIC + Le(ver, 2) + Le(ENDIAN, 2), Le(n_slots, 4));
    LiesInParts(buf, 0, MAGIC + Le(ver, 2), Le(ENDIAN, 2));
    LiesInParts(buf, 0, MAGIC, Le(ver, 2));
    HalfLies(buf, 4, ver);
    HalfLies(buf, 6, ENDIAN);
    WordLies(buf, 8, n_slots);
    WordLies(buf, 12, n_ops);
  }

  lemma TablesLie(buf: Bytes, slots: seq<Slot>, ops: seq<Op>, v2: bool)
    requires Countable(slots, ops) && Tables(slots, ops, v2) <= buf
    ensures LiesAt(buf, 0, Header(v2, |slots|, |ops|)) && LiesAt(buf, 16, SlotTable(slots, v2))
    ensures LiesAt(buf, 16 + |slots| * RecordSize(v2), OpTable(ops))
  {
    var h, st, ot := Header(v2, |slots|, |ops|), SlotTable(slots, v2), OpTable(ops);
    assert buf[0..|h + st + ot|] == h + st + ot;
    LiesInParts(buf, 0, h + st, ot);
    LiesInParts(buf, 0, h, st);
  }

  /** Parsing what begins with the tables gives back the version, the operations, and the
      slots as their records keep them, whatever follows. */
  lemma ParseOfTables(buf: Bytes, slots: seq<Slot>, ops: seq<Op>, v2: bool)
    requires Countable(slots, ops) && Tables(slots, ops, v2) <= buf
    ensures Parse(buf) == Ok(Blob(if v2 then 2 else 1, AllKept(slots, v2), ops))
  {
    TablesLie(buf, slots, ops, v2);
    ParseOfParts(buf, slots, ops, v2, 16 + |slots| * RecordSize(v2));
  }

  lemma ParseOfParts(buf: Bytes, slots: seq<Slot>, ops: seq<Op>, v2: bool, end: nat)
    requires Countable(slots, ops) && 16 <= end == 16 + |slots| * RecordSize(v2)
    requires LiesAt(buf, 0, Header(v2, |slots|, |ops|)) && LiesAt(buf, 16, SlotTable(slots, v2)) && LiesAt(buf, end, OpTable(ops))
    ensures Parse(buf) == Ok(Blob(if v2 then 2 else 1, AllKept(slots, v2), ops))
  {
    HeaderLies(buf, v2, |slots|, |ops|);
    TableLies(buf, 16, slots, v2);
    OpTableLies(buf, end, ops);
    OpsLie(buf, end, ops);
    ParsesAs(buf, v2, |slots|, |ops|, end, AllKept(slots, v2), ops);
  }

  lemma ParsesAs(buf: Bytes, v2: bool, n_slots: U32, n_ops: U32, end: nat, slots: seq<Slot>, ops: seq<Op>)
    requires 16 <= end <= |buf| && end == 16 + n_slots * RecordSize(v2)
    requires buf[..4] == MAGIC && HalfAt(buf, 4) == (if v2 then 2 else 1) && HalfAt(buf, 6) == ENDIAN
    requires WordAt(buf, 8) == n_slots && WordAt(buf, 12) == n_ops
    requires SlotsAt(buf, 16, n_slots, v2) == slots && OpsAt(buf, end, n_ops) == Ok(ops)
    ensures Parse(buf) == Ok(Blob(if v2 then 2 else 1, slots, ops))
  {
  }

  predicate OffsetsKept(slots: seq<Slot>, v2: bool) {
    v2 || forall k :: 0 <= k < |slots| ==> slots[k].offset < 0x1_0000_0000
  }

  lemma AllKeptIff(slots: seq<Slot>, v2: bool)
    ensures AllKept(slots, v2) == slots <==> OffsetsKept(slots, v2)
  {
    if !OffsetsKept(slots, v2) {
      var k :| 0 <= k < |slots| && slots[k].offset >= 0x1_0000_0000;
      assert AllKept(slots, v2)[k] != slots[k];
    }
  }

  /** The round trip loses nothing exactly when the version is 2 or no offset needs more than
      32 bits. */
  lemma RoundTrip(buf: Bytes, slots: seq<Slot>, ops: seq<Op>, v2: bool)
    requires Countable(slots, ops) && Tables(slots, ops, v2) <= buf
    ensures Parse(buf) == Ok(Blob(if v2 then 2 else 1, slots, ops)) <==> OffsetsKept(slots, v2)
  {
    ParseOfTables(buf, slots, ops, v2);
    AllKeptIff(slots, v2);
  }

  lemma AssembledBegins(slots: seq<Slot>, ops: seq<Op>, v2: bool, weights: Bytes)
    requires Countable(slots, ops)
    ensures Tables(slots, ops, v2) <= Assembled(slots, ops, v2, weights)
  {
  }

  /** The version that the emitter chooses loses nothing when every offset lies in a weight
      area. */
  lemma ChosenVersionIsEnough(slots: seq<Slot>, ops: seq<Op>, force_v2: bool, weights: Bytes, ext_weights: nat)
    requires Countable(slots, ops)
    requires forall k :: 0 <= k < |slots| ==> slots[k].offset <= |weights| || slots[k].offset <= ext_weights
    ensures var v2 := NeedsV2(force_v2, |weights|, ext_weights);
            Parse(Assembled(slots, ops, v2, weights)) == Ok(Blob(if v2 then 2 else 1, slots, ops))
  {
    var v2 := NeedsV2(force_v2, |weights|, ext_weights);
    AssembledBegins(slots, ops, v2, weights);
    assert OffsetsKept(slots, v2);
    RoundTrip(Assembled(slots, ops, v2, weights), slots, ops, v2);
  }

  /** The weights begin at the next multiple of 128 after the tables and are whole. */
  lemma WeightsAreAligned(slots: seq<Slot>, ops: seq<Op>, v2: bool, weights: Bytes) returns (at: nat)
    requires Countable(slots, ops)
    ensures |Tables(slots, ops, v2)| <= at < |Tables(slots, ops, v2)| + 128 && at % 128 == 0
    ensures |Assembled(slots, ops, v2, weights)| == at + |weights| && Assembled(slots, ops, v2, weights)[at..] == weights
  {
    at := |Tables(slots, ops, v2)| + |WeightPadding(|Tables(slots, ops, v2)|)|;
  }
}
