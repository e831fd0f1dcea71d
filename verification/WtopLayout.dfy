/** The operation-list blob byte by byte (compiler/tools/wtop_emit.cpp:604-663,
    scripts/gehtp_prof.py:78-117): what the emitter writes is laid out so, and the parser
    returns exactly what is.
 */
module WtopLayout {
  import opened Bytes
  import opened Wtop
  import opened WtopBlob

  function U16(b: Bytes, at: nat): nat
    requires at + 2 <= |b|
  {
    b[at] as int + 0x100 * (b[at + 1] as int)
  }

  function U32(b: Bytes, at: nat): nat
    requires at + 4 <= |b|
  {
    b[at] as int + 0x100 * (b[at + 1] as int) + 0x1_0000 * (b[at + 2] as int) + 0x100_0000 * (b[at + 3] as int)
  }

  /** "WTOP", the version and 0x1234. */
  predicate Magic(b: Bytes) {
    |b| >= 16 && b[0] == 'W' as int && b[1] == 'T' as int && b[2] == 'O' as int && b[3] == 'P' as int
  }

  function RecordBytes(ver: nat): nat {
    if ver == 2 then 24 else 16
  }

  /** A slot record; version 1 has 32 bits for the offset. */
  predicate SlotLies(b: Bytes, at: nat, s: Slot, ver: nat) {
    && at + RecordBytes(ver) <= |b| && U32(b, at) == s.len && U32(b, at + 4) == s.count
    && if ver == 2 then
         U32(b, at + 8) == s.offset % 0x1_0000_0000 && U32(b, at + 12) == s.offset / 0x1_0000_0000 && U32(b, at + 16) == s.addr
       else
         U32(b, at + 8) == s.offset && U32(b, at + 12) == s.addr
  }

  predicate OpLiesAt(b: Bytes, at: nat, op: Op) {
    && at + 4 + 4 * |op.args| <= |b| && U16(b, at) == op.opcode && U16(b, at + 2) == |op.args|
    && forall a :: 0 <= a < |op.args| ==> U32(b, at + 4 + 4 * a) == op.args[a]
  }

  /** Operations one after the other. */
  ghost predicate OpsLieAt(b: Bytes, starts: seq<nat>, ops: seq<Op>) {
    && |starts| == |ops| + 1
    && forall k :: 0 <= k < |ops| ==> OpLiesAt(b, starts[k], ops[k]) && starts[k + 1] == starts[k] + 4 + 4 * |ops[k].args|
  }

  /** A buffer begins with the header and the tables of a blob. */
  ghost predicate LaidOut(b: Bytes, blob: Blob, starts: seq<nat>) {
    && Magic(b) && U16(b, 4) == blob.ver && (blob.ver == 1 || blob.ver == 2) && U16(b, 6) == 0x1234
    && U32(b, 8) == |blob.slots| && U32(b, 12) == |blob.ops|
    && (forall i: nat :: i < |blob.slots| ==> SlotLies(b, 16 + i * RecordBytes(blob.ver), blob.slots[i], blob.ver))
    && OpsLieAt(b, starts, blob.ops) && starts[0] == 16 + |blob.slots| * RecordBytes(blob.ver)
  }

  // ----- Reading numbers -----

  lemma HalfIsU16(b: Bytes, at: nat)
    requires at + 2 <= |b|
    ensures HalfAt(b, at) == U16(b, at)
  {
    var s := b[at..at + 2];
    assert FromLe(s[2..]) == 0;
    assert FromLe(s[1..]) == s[1] + 256 * FromLe(s[1..][1..]);
    assert s[1..][1..] == s[2..];
  }

  lemma WordIsU32(b: Bytes, at: nat)
    requires at + 4 <= |b|
    ensures WordAt(b, at) == U32(b, at)
  {
    var s := b[at..at + 4];
    var s1, s2, s3 := s[1..], s[2..], s[3..];
    assert s1[1..] == s2 && s2[1..] == s3 && s3[1..] == [];
    assert FromLe(s3) == s3[0] + 256 * FromLe([]);
    assert FromLe(s2) == s2[0] + 256 * FromLe(s3);
    assert FromLe(s1) == s1[0] + 256 * FromLe(s2);
    assert FromLe(s) == s[0] + 256 * FromLe(s1);
  }

  // ----- The parser reads a layout -----

  lemma SlotAtLies(b: Bytes, at: nat, ver: nat)
    requires at + RecordBytes(ver) <= |b|
    ensures RecordSize(ver == 2) == RecordBytes(ver) && SlotLies(b, at, SlotAt(b, at, ver == 2), ver)
  {
    WordIsU32(b, at);
    WordIsU32(b, at + 4);
    WordIsU32(b, at + 8);
    WordIsU32(b, at + 12);
    if ver == 2 {
      WordIsU32(b, at + 16);
    }
  }

  lemma {:induction false} SlotsAtLie(b: Bytes, at: nat, n: nat, v2: bool, i: nat)
    requires at + n * RecordSize(v2) <= |b| && i < n
    ensures |SlotsAt(b, at, n, v2)| == n && at + i * RecordSize(v2) + RecordSize(v2) <= |b|
    ensures SlotsAt(b, at, n, v2)[i] == SlotAt(b, at + i * RecordSize(v2), v2)
    decreases n
  {
    var rec := RecordSize(v2);
    assert n * rec == rec + (n - 1) * rec;
    SlotsLength(b, at, n, v2);
    if i > 0 {
      SlotsAtLie(b, at + rec, n - 1, v2, i - 1);
      assert i * rec == rec + (i - 1) * rec;
    }
  }

  lemma {:induction false} SlotsLength(b: Bytes, at: nat, n: nat, v2: bool)
    requires at + n * RecordSize(v2) <= |b|
    ensures |SlotsAt(b, at, n, v2)| == n
    decreases n
  {
    if n > 0 {
      assert n * RecordSize(v2) == RecordSize(v2) + (n - 1) * RecordSize(v2);
      SlotsLength(b, at + RecordSize(v2), n - 1, v2);
    }
  }

  lemma {:induction false} ArgsAtLie(b: Bytes, at: nat, n: nat, a: nat)
    requires at + 4 * n <= |b| && a < n
    ensures |ArgsAt(b, at, n)| == n && ArgsAt(b, at, n)[a] == U32(b, at + 4 * a)
    decreases n
  {
    ArgsLength(b, at, n);
    WordIsU32(b, at);
    if a > 0 {
      ArgsAtLie(b, at + 4, n - 1, a - 1);
    }
  }

  lemma {:induction false} ArgsLength(b: Bytes, at: nat, n: nat)
    requires at + 4 * n <= |b|
    ensures |ArgsAt(b, at, n)| == n
    decreases n
  {
    if n > 0 {
      ArgsLength(b, at + 4, n - 1);
    }
  }

  lemma OpAtLies(b: Bytes, at: nat)
    requires at + 4 <= |b| && at + 4 + 4 * HalfAt(b, at + 2) <= |b|
    ensures OpLiesAt(b, at, Op(HalfAt(b, at), ArgsAt(b, at + 4, HalfAt(b, at + 2))))
    ensures |ArgsAt(b, at + 4, HalfAt(b, at + 2))| == HalfAt(b, at + 2)
  {
    var n := HalfAt(b, at + 2);
    HalfIsU16(b, at);
    HalfIsU16(b, at + 2);
    ArgsLength(b, at + 4, n);
    forall a: nat | a < n {
      ArgsAtLie(b, at + 4, n, a);
    }
  }

  /** What n operations read from a position come to: all of them; or those before the first
      whose head, or whose arguments, are not all there. */
  ghost predicate ReadTo(b: Bytes, r: Result<seq<Op>>, n: nat, ops: seq<Op>, starts: seq<nat>)
    requires |starts| == |ops| + 1
  {
    match r
    case Ok(list) => list == ops && |ops| == n
    case Err(OpsTruncated) => |ops| < n && starts[|ops|] + 4 > |b|
    case Err(ArgsTruncated) => |ops| < n && starts[|ops|] + 4 <= |b| < starts[|ops|] + 4 + 4 * U16(b, starts[|ops|] + 2)
    case Err(_) => false
  }

  /** What is read lies one after the other. */
  lemma {:induction false} OpsAtLie(b: Bytes, at: nat, n: nat) returns (ops: seq<Op>, starts: seq<nat>)
    ensures OpsLieAt(b, starts, ops) && starts[0] == at && |ops| <= n
    ensures ReadTo(b, OpsAt(b, at, n), n, ops, starts)
    decreases n
  {
    if n == 0 || at + 4 > |b| {
      return [], [at];
    }
    HalfIsU16(b, at + 2);
    var n_args: nat := HalfAt(b, at + 2);
    if at + 4 + 4 * n_args > |b| {
      return [], [at];
    }
    OpAtLies(b, at);
    var o := Op(HalfAt(b, at), ArgsAt(b, at + 4, n_args));
    var more, rest := OpsAtLie(b, at + 4 + 4 * n_args, n - 1);
    ops, starts := [o] + more, [at] + rest;
    OneMoreLies(b, at, o, more, rest);
  }

  lemma OneMoreLies(b: Bytes, at: nat, o: Op, ops: seq<Op>, starts: seq<nat>)
    requires OpLiesAt(b, at, o) && OpsLieAt(b, starts, ops) && starts[0] == at + 4 + 4 * |o.args|
    ensures OpsLieAt(b, [at] + starts, [o] + ops)
  {
    var ops', starts' := [o] + ops, [at] + starts;
    forall k | 0 <= k < |ops'|
      ensures OpLiesAt(b, starts'[k], ops'[k]) && starts'[k + 1] == starts'[k] + 4 + 4 * |ops'[k].args|
    {
      if k > 0 {
        assert ops'[k] == ops[k - 1] && starts'[k] == starts[k - 1] && starts'[k + 1] == starts[k];
      }
    }
  }

  lemma MagicIs(b: Bytes)
    ensures Magic(b) <==> |b| >= 16 && b[..4] == MAGIC
  {
    if |b| >= 16 {
      assert b[..4] == [b[0], b[1], b[2], b[3]];
    }
  }

  /** The header is right as far as the slot table. */
  predicate GoodHeader(b: Bytes) {
    && Magic(b) && U16(b, 6) == 0x1234 && (U16(b, 4) == 1 || U16(b, 4) == 2)
    && 16 + U32(b, 8) * RecordBytes(U16(b, 4)) <= |b|
  }

  lemma HeaderNumbers(b: Bytes)
    requires |b| >= 16
    ensures HalfAt(b, 4) == U16(b, 4) && HalfAt(b, 6) == U16(b, 6) && WordAt(b, 8) == U32(b, 8) && WordAt(b, 12) == U32(b, 12)
  {
    HalfIsU16(b, 4);
    HalfIsU16(b, 6);
    WordIsU32(b, 8);
    WordIsU32(b, 12);
  }

  /** Each error of the header, exactly. */
  lemma HeaderErrors(b: Bytes)
    ensures Parse(b) == Err(BadMagic) <==> !Magic(b)
    ensures Parse(b) == Err(BadEndian) <==> Magic(b) && U16(b, 6) != 0x1234
    ensures Parse(b) == Err(BadVersion) <==> Magic(b) && U16(b, 6) == 0x1234 && U16(b, 4) != 1 && U16(b, 4) != 2
    ensures Parse(b) == Err(SlotsTruncated) <==>
      Magic(b) && U16(b, 6) == 0x1234 && (U16(b, 4) == 1 || U16(b, 4) == 2) && |b| < 16 + U32(b, 8) * RecordBytes(U16(b, 4))
  {
    MagicIs(b);
    if Magic(b) {
      HeaderNumbers(b);
      var end := 16 + WordAt(b, 8) * RecordSize(HalfAt(b, 4) == 2);
      var ops, starts := OpsAtLie(b, end, WordAt(b, 12));
    }
  }

  /** With a good header, the operations decide. */
  lemma OpsDecide(b: Bytes)
    requires GoodHeader(b)
    ensures var (v2, n, end) := (U16(b, 4) == 2, U32(b, 8), 16 + U32(b, 8) * RecordBytes(U16(b, 4)));
            && end == 16 + n * RecordSize(v2)
            && Parse(b) == if OpsAt(b, end, U32(b, 12)).Err? then Err(OpsAt(b, end, U32(b, 12)).error)
                           else Ok(Blob(U16(b, 4), SlotsAt(b, 16, n, v2), OpsAt(b, end, U32(b, 12)).value))
  {
    MagicIs(b);
    HeaderNumbers(b);
    assert RecordSize(U16(b, 4) == 2) == RecordBytes(U16(b, 4));
  }

  lemma SlotsLie(b: Bytes, n: nat, ver: nat)
    requires 16 + n * RecordBytes(ver) <= |b|
    ensures RecordSize(ver == 2) == RecordBytes(ver) && |SlotsAt(b, 16, n, ver == 2)| == n
    ensures forall i: nat :: i < n ==> SlotLies(b, 16 + i * RecordBytes(ver), SlotsAt(b, 16, n, ver == 2)[i], ver)
  {
    assert RecordSize(ver == 2) == RecordBytes(ver);
    SlotsLength(b, 16, n, ver == 2);
    forall i: nat | i < n
      ensures SlotLies(b, 16 + i * RecordBytes(ver), SlotsAt(b, 16, n, ver == 2)[i], ver)
    {
      SlotsAtLie(b, 16, n, ver == 2, i);
      SlotAtLies(b, 16 + i * RecordBytes(ver), ver);
    }
  }

  lemma ParseReads(b: Bytes) returns (ops: seq<Op>, starts: seq<nat>)
    requires GoodHeader(b)
    ensures OpsLieAt(b, starts, ops) && starts[0] == 16 + U32(b, 8) * RecordBytes(U16(b, 4))
    ensures Parse(b).Ok? ==> Parse(b).value.ops == ops && LaidOut(b, Parse(b).value, starts)
    ensures Parse(b).Err? ==> ReadTo(b, Err(Parse(b).error), U32(b, 12), ops, starts)
  {
    var n := U32(b, 8);
    var end := 16 + n * RecordBytes(U16(b, 4));
    OpsDecide(b);
    ops, starts := OpsAtLie(b, end, U32(b, 12));
    SlotsLie(b, n, U16(b, 4));
    Decided(b, Parse(b), OpsAt(b, end, U32(b, 12)), SlotsAt(b, 16, n, U16(b, 4) == 2), ops, starts);
  }

  lemma Decided(b: Bytes, r: Result<Blob>, o: Result<seq<Op>>, slots: seq<Slot>, ops: seq<Op>, starts: seq<nat>)
    requires GoodHeader(b) && |slots| == U32(b, 8)
    requires forall i: nat :: i < |slots| ==> SlotLies(b, 16 + i * RecordBytes(U16(b, 4)), slots[i], U16(b, 4))
    requires OpsLieAt(b, starts, ops) && starts[0] == 16 + |slots| * RecordBytes(U16(b, 4)) && ReadTo(b, o, U32(b, 12), ops, starts)
    requires r == if o.Err? then Err(o.error) else Ok(Blob(U16(b, 4), slots, o.value))
    ensures r.Ok? ==> r.value.ops == ops && LaidOut(b, r.value, starts)
    ensures r.Err? ==> ReadTo(b, Err(r.error), U32(b, 12), ops, starts)
  {
    if o.Ok? {
      PartsAreLaidOut(b, slots, ops, starts);
    }
  }

  lemma PartsAreLaidOut(b: Bytes, slots: seq<Slot>, ops: seq<Op>, starts: seq<nat>)
    requires GoodHeader(b) && |slots| == U32(b, 8) && |ops| == U32(b, 12)
    requires forall i: nat :: i < |slots| ==> SlotLies(b, 16 + i * RecordBytes(U16(b, 4)), slots[i], U16(b, 4))
    requires OpsLieAt(b, starts, ops) && starts[0] == 16 + |slots| * RecordBytes(U16(b, 4))
    ensures LaidOut(b, Blob(U16(b, 4), slots, ops), starts)
  {
  }

  // ----- There is only one reading -----

  lemma SameSlot(b: Bytes, at: nat, s: Slot, t: Slot, ver: nat)
    requires SlotLies(b, at, s, ver) && SlotLies(b, at, t, ver)
    ensures s == t
  {
    if ver == 2 {
      assert s.offset == s.offset / 0x1_0000_0000 * 0x1_0000_0000 + s.offset % 0x1_0000_0000;
      assert t.offset == t.offset / 0x1_0000_0000 * 0x1_0000_0000 + t.offset % 0x1_0000_0000;
    }
  }

  lemma SameOp(b: Bytes, at: nat, o: Op, p: Op)
    requires OpLiesAt(b, at, o) && OpLiesAt(b, at, p)
    ensures o == p
  {
    assert forall a :: 0 <= a < |o.args| ==> o.args[a] == p.args[a];
    assert o.args == p.args;
  }

  lemma {:induction false} SameOps(b: Bytes, s: seq<nat>, t: seq<nat>, x: seq<Op>, y: seq<Op>, k: nat)
    requires OpsLieAt(b, s, x) && OpsLieAt(b, t, y) && s[0] == t[0] && k <= |x| && k <= |y|
    ensures s[k] == t[k] && x[..k] == y[..k]
  {
    if k > 0 {
      SameOps(b, s, t, x, y, k - 1);
      SameOp(b, s[k - 1], x[k - 1], y[k - 1]);
      assert x[..k] == x[..k - 1] + [x[k - 1]] && y[..k] == y[..k - 1] + [y[k - 1]];
    }
  }

  lemma OneLayout(b: Bytes, x: Blob, y: Blob, s: seq<nat>, t: seq<nat>)
    requires LaidOut(b, x, s) && LaidOut(b, y, t)
    ensures x == y
  {
    forall i: nat | i < |x.slots|
      ensures x.slots[i] == y.slots[i]
    {
      SameSlot(b, 16 + i * RecordBytes(x.ver), x.slots[i], y.slots[i], x.ver);
    }
    assert x.slots == y.slots;
    SameOps(b, s, t, x.ops, y.ops, |x.ops|);
    assert x.ops[..|x.ops|] == x.ops && y.ops[..|y.ops|] == y.ops;
  }

  /** The parser returns a blob if and only if the buffer begins with its layout. */
  lemma ParsesLayout(b: Bytes, blob: Blob)
    ensures Parse(b) == Ok(blob) <==> exists starts :: LaidOut(b, blob, starts)
  {
    HeaderErrors(b);
    if GoodHeader(b) {
      var ops, starts := ParseReads(b);
      if Parse(b) == Ok(blob) {
        assert LaidOut(b, blob, starts);
      }
      forall s | LaidOut(b, blob, s)
        ensures Parse(b) == Ok(blob)
      {
        if Parse(b).Ok? {
          OneLayout(b, Parse(b).value, blob, starts, s);
        } else {
          NextLies(b, ops, starts, blob.ops, s);
        }
      }
    } else {
      forall s
        ensures !LaidOut(b, blob, s)
      {
        NoRoom(b, blob, s);
      }
    }
  }

  lemma NoRoom(b: Bytes, blob: Blob, s: seq<nat>)
    ensures LaidOut(b, blob, s) ==> GoodHeader(b)
  {
    if LaidOut(b, blob, s) && |blob.slots| > 0 {
      var last := |blob.slots| - 1;
      assert SlotLies(b, 16 + last * RecordBytes(blob.ver), blob.slots[last], blob.ver);
      RecordsFit(last, |blob.slots|, RecordBytes(blob.ver));
    }
  }

  /** Where some of the operations are read, the next one lies. */
  lemma NextLies(b: Bytes, ops: seq<Op>, starts: seq<nat>, all: seq<Op>, s: seq<nat>)
    requires OpsLieAt(b, starts, ops) && OpsLieAt(b, s, all) && starts[0] == s[0]
    ensures |ops| < |all| ==> starts[|ops|] + 4 <= |b| && starts[|ops|] + 4 + 4 * U16(b, starts[|ops|] + 2) <= |b|
  {
    if |ops| < |all| {
      SameOps(b, starts, s, ops, all, |ops|);
      assert OpLiesAt(b, s[|ops|], all[|ops|]);
    }
  }

  // ----- The emitter writes a layout -----

  /** Version 1 keeps the low 32 bits of offsets. */
  predicate HoldSlots(stored: seq<Slot>, slots: seq<Slot>, v2: bool) {
    && |stored| == |slots|
    && forall i :: 0 <= i < |slots| ==>
      stored[i] == if v2 then slots[i] else slots[i].(offset := slots[i].offset % 0x1_0000_0000)
  }

  /** A whole blob: its tables, the unused words of version 2 zero, zeros up to the next
      multiple of 128, and the weights. */
  ghost predicate IsBlob(b: Bytes, slots: seq<Slot>, ops: seq<Op>, v2: bool, weights: Bytes, stored: seq<Slot>, starts: seq<nat>) {
    && HoldSlots(stored, slots, v2) && LaidOut(b, Blob(if v2 then 2 else 1, stored, ops), starts)
    && (v2 ==> forall i: nat :: i < |slots| ==> ReservedIsZero(b, 16 + i * 24))
    && WeightsLie(b, starts[|ops|], weights)
  }

  predicate WeightsLie(b: Bytes, end: nat, weights: Bytes) {
    var at := |b| - |weights|;
    end <= at < end + 128 && at % 128 == 0 && b[at..] == weights && forall k :: end <= k < at ==> b[k] == 0
  }

  predicate ReservedIsZero(b: Bytes, at: nat) {
    at + 24 <= |b| && U32(b, at + 20) == 0
  }

  lemma {:induction false} OpsEnd(b: Bytes, starts: seq<nat>, ops: seq<Op>, k: nat)
    requires OpsLieAt(b, starts, ops) && AllSmall(ops) && k <= |ops|
    ensures AllSmall(ops[k..]) && starts[k] + |OpTable(ops[k..])| == starts[|ops|]
    decreases |ops| - k
  {
    if k < |ops| {
      OpsEnd(b, starts, ops, k + 1);
      assert ops[k..][0] == ops[k] && ops[k..][1..] == ops[k + 1..];
      assert Small(ops[k]);
    } else {
      assert ops[k..] == [];
    }
  }

  lemma ReservedOfRecord(b: Bytes, at: nat, s: Slot)
    requires LiesAt(b, at, SlotRecord(s, true))
    ensures ReservedIsZero(b, at)
  {
    var front := Le(s.len, 4) + Le(s.count, 4) + Le(Lo(s.offset), 4) + Le(Hi(s.offset), 4) + Le(s.addr, 4);
    assert |front| == 20;
    LiesInParts(b, at, front, Le(0, 4));
    WordLies(b, at + 20, 0);
    WordIsU32(b, at + 20);
  }

  lemma {:induction false} ReservedLies(b: Bytes, at: nat, slots: seq<Slot>, i: nat)
    requires LiesAt(b, at, SlotTable(slots, true)) && i < |slots|
    ensures ReservedIsZero(b, at + i * 24)
    decreases |slots|
  {
    LiesInParts(b, at, SlotRecord(slots[0], true), SlotTable(slots[1..], true));
    if i > 0 {
      ReservedLies(b, at + 24, slots[1..], i - 1);
    } else {
      ReservedOfRecord(b, at, slots[0]);
    }
  }

  lemma AssembledIsBlob(slots: seq<Slot>, ops: seq<Op>, v2: bool, weights: Bytes) returns (starts: seq<nat>)
    requires Countable(slots, ops)
    ensures IsBlob(Assembled(slots, ops, v2, weights), slots, ops, v2, weights, AllKept(slots, v2), starts)
  {
    var b, tables := Assembled(slots, ops, v2, weights), Tables(slots, ops, v2);
    AssembledBegins(slots, ops, v2, weights);
    ParseOfTables(b, slots, ops, v2);
    var blob := Blob(if v2 then 2 else 1, AllKept(slots, v2), ops);
    ParsesLayout(b, blob);
    starts :| LaidOut(b, blob, starts);
    OpsEnd(b, starts, ops, 0);
    assert ops[0..] == ops;
    assert starts[|ops|] == |tables|;
    if v2 {
      TablesLie(b, slots, ops, v2);
      forall i: nat | i < |slots| {
        ReservedLies(b, 16, slots, i);
      }
    }
    PaddingLies(tables, weights);
  }

  lemma PaddingLies(tables: Bytes, weights: Bytes)
    ensures WeightsLie(tables + WeightPadding(|tables|) + weights, |tables|, weights)
  {
  }

  /** Write a blob and parse it. */
  method AssembleAndParse(em: Emitter, force_v2: bool) returns (r: Result<Blob>, ghost stored: seq<Slot>, ghost starts: seq<nat>)
    requires Countable(em.slots, em.ops)
    modifies em`blob
    ensures var v2 := force_v2 || |em.weight_area| > 0xFFFF_FF00 || em.ext_weight_area > 0xFFFF_FF00;
            IsBlob(em.blob, em.slots, em.ops, v2, em.weight_area, stored, starts) && r == Ok(Blob(if v2 then 2 else 1, stored, em.ops))
  {
    em.Assemble(force_v2);
    r := ParseWtop(em.blob);
    ghost var v2 := NeedsV2(force_v2, |em.weight_area|, em.ext_weight_area);
    stored := AllKept(em.slots, v2);
    starts := AssembledIsBlob(em.slots, em.ops, v2, em.weight_area);
    ParsesLayout(em.blob, Blob(if v2 then 2 else 1, stored, em.ops));
  }
}
