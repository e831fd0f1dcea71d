/** What an accepted plan is for: a program whose temporaries share one pool at the
    planned offsets reads the same bytes as one with a private buffer per temporary
    (kernels/host/check_offsets.c:3-8).
 */
module PooledMemory {
  import opened Bytes
  import opened Sequences
  import opened OffsetCheck

  /** One operation: it reads whole tensors, then writes whole tensors.  Tensors are
      named by their row in the plan. */
  datatype Op = Op(ins: seq<nat>, outs: seq<nat>, f: seq<Bytes> -> seq<Bytes>)

  type Store = int -> Bytes

  // ----- Private buffers -----

  function ReadPrivate(store: Store, names: seq<nat>): (r: seq<Bytes>)
    ensures |r| == |names|
  {
    seq(|names|, k requires 0 <= k < |names| => store(names[k]))
  }

  function WritePrivate(store: Store, names: seq<nat>, data: seq<Bytes>): Store
    requires |names| == |data|
    decreases |names|
  {
    if names == [] then store
    else WritePrivate(x => if x == names[0] then data[0] else store(x), names[1..], data[1..])
  }

  // ----- One shared pool -----

  function ReadAt(pool: Bytes, r: Row): (b: Bytes)
    requires 0 <= r.offset && 0 <= r.size && r.offset + r.size <= |pool|
    ensures |b| == r.size
  {
    pool[r.offset..r.offset + r.size]
  }

  function WriteAt(pool: Bytes, r: Row, b: Bytes): (p: Bytes)
    requires 0 <= r.offset && r.offset + r.size <= |pool| && |b| == r.size
    ensures |p| == |pool|
  {
    pool[..r.offset] + b + pool[r.offset + r.size..]
  }

  /** Every tensor lies in the pool and its end does not wrap around. */
  ghost predicate InPool(rows: seq<Row>, size: nat) {
    forall i :: 0 <= i < |rows| ==> Fits(rows[i]) && rows[i].offset + rows[i].size <= size && rows[i].offset + rows[i].size < U64
  }

  function ReadPool(rows: seq<Row>, pool: Bytes, names: seq<nat>): (r: seq<Bytes>)
    requires InPool(rows, |pool|) && forall k :: 0 <= k < |names| ==> names[k] < |rows|
    ensures |r| == |names|
  {
    seq(|names|, k requires 0 <= k < |names| => ReadAt(pool, rows[names[k]]))
  }

  function WritePool(rows: seq<Row>, pool: Bytes, names: seq<nat>, data: seq<Bytes>): (p: Bytes)
    requires InPool(rows, |pool|) && Sized(rows, names, data)
    ensures |p| == |pool|
    decreases |names|
  {
    if names == [] then pool
    else WritePool(rows, WriteAt(pool, rows[names[0]], data[0]), names[1..], data[1..])
  }

  ghost predicate Sized(rows: seq<Row>, names: seq<nat>, data: seq<Bytes>) {
    && |names| == |data|
    && forall k :: 0 <= k < |names| ==> names[k] < |rows| && |data[k]| == rows[names[k]].size
  }

  // ----- Programs and their plans -----

  /** The operation names tensors of the plan and produces data of the planned sizes. */
  ghost predicate WellFormedOp(rows: seq<Row>, op: Op) {
    && (forall k :: 0 <= k < |op.ins| ==> op.ins[k] < |rows|)
    && (forall data :: Sized(rows, op.outs, op.f(data)))
  }

  ghost predicate WellFormed(rows: seq<Row>, ops: seq<Op>) {
    forall t :: 0 <= t < |ops| ==> WellFormedOp(rows, ops[t])
  }

  function StepPrivate(rows: seq<Row>, store: Store, op: Op): Store
    requires WellFormedOp(rows, op)
  {
    var data := op.f(ReadPrivate(store, op.ins));
    assert Sized(rows, op.outs, data);
    WritePrivate(store, op.outs, data)
  }

  function StepPool(rows: seq<Row>, pool: Bytes, op: Op): (p: Bytes)
    requires InPool(rows, |pool|) && WellFormedOp(rows, op)
    ensures |p| == |pool|
  {
    var data := op.f(ReadPool(rows, pool, op.ins));
    assert Sized(rows, op.outs, data);
    WritePool(rows, pool, op.outs, data)
  }

  /** The tensors written by the first t operations. */
  function Written(ops: seq<Op>, t: nat): set<nat>
    requires t <= |ops|
  {
    if t == 0 then {} else Written(ops, t - 1) + Elements(ops[t - 1].outs)
  }

  /** The lifetimes cover every access, and nothing is read before it is written. */
  ghost predicate Covers(rows: seq<Row>, ops: seq<Op>) {
    && (forall t, i :: 0 <= t < |ops| && 0 <= i < |rows| && i in ops[t].outs ==> Alive(rows[i], t))
    && (forall t, i :: 0 <= t < |ops| && 0 <= i < |rows| && i in ops[t].ins ==>
          Alive(rows[i], t) && i in Written(ops, t))
  }

  function RunPrivate(rows: seq<Row>, ops: seq<Op>, store: Store, t: nat): Store
    requires WellFormed(rows, ops) && t <= |ops|
  {
    if t == 0 then store
    else StepPrivate(rows, RunPrivate(rows, ops, store, t - 1), ops[t - 1])
  }

  function RunPool(rows: seq<Row>, ops: seq<Op>, pool: Bytes, t: nat): (p: Bytes)
    requires WellFormed(rows, ops) && InPool(rows, |pool|) && t <= |ops|
    ensures |p| == |pool|
  {
    if t == 0 then pool
    else StepPool(rows, RunPool(rows, ops, pool, t - 1), ops[t - 1])
  }

  // ----- Disjointness -----

  ghost predicate Disjoint(a: Row, b: Row) {
    a.offset + a.size <= b.offset || b.offset + b.size <= a.offset || a.size == 0 || b.size == 0
  }

  /** Tensors that are live at the same time do not share addresses. */
  ghost predicate LiveDisjoint(rows: seq<Row>) {
    forall i, j, t :: 0 <= i < |rows| && 0 <= j < |rows| && i != j && Alive(rows[i], t) && Alive(rows[j], t) ==>
      Disjoint(rows[i], rows[j])
  }

  lemma SoundPlanIsLiveDisjoint(rows: seq<Row>, size: nat, poolCap: int, align: int)
    requires align > 0 && SoundPlan(rows, poolCap, align) && InPool(rows, size)
    ensures LiveDisjoint(rows)
  {
    forall i, j, t | 0 <= i < |rows| && 0 <= j < |rows| && i != j && Alive(rows[i], t) && Alive(rows[j], t)
      ensures Disjoint(rows[i], rows[j])
    {
      var a, b := if i < j then i else j, if i < j then j else i;
      assert !(LivesOverlap(rows[a], rows[b]) && AddrOverlap(rows[a], rows[b]));
      EndWithoutWrap(rows[a]);
      EndWithoutWrap(rows[b]);
    }
  }

  lemma ReadAfterWrite(pool: Bytes, r: Row, b: Bytes)
    requires 0 <= r.offset && r.offset + r.size <= |pool| && |b| == r.size
    ensures ReadAt(WriteAt(pool, r, b), r) == b
  {
  }

  lemma ReadElsewhere(pool: Bytes, r: Row, b: Bytes, o: Row)
    requires 0 <= r.offset && r.offset + r.size <= |pool| && |b| == r.size
    requires 0 <= o.offset && 0 <= o.size && o.offset + o.size <= |pool| && Disjoint(r, o)
    ensures ReadAt(WriteAt(pool, r, b), o) == ReadAt(pool, o)
  {
    var p := WriteAt(pool, r, b);
    forall k | 0 <= k < o.size
      ensures ReadAt(p, o)[k] == ReadAt(pool, o)[k]
    {
    }
  }

  // ----- The two memories agree -----

  /** Tensor i holds the same bytes in both memories. */
  ghost predicate Same(rows: seq<Row>, pool: Bytes, store: Store, i: nat)
    requires InPool(rows, |pool|) && i < |rows|
  {
    ReadAt(pool, rows[i]) == store(i)
  }

  /** After one operation's writes, the written tensors agree, and so does every tensor
      that agreed before and is live at the same time. */
  lemma {:induction false} WritesAgree(rows: seq<Row>, pool: Bytes, store: Store, names: seq<nat>, data: seq<Bytes>, t: int, i: nat)
    requires LiveDisjoint(rows) && InPool(rows, |pool|) && Sized(rows, names, data) && i < |rows|
    requires Alive(rows[i], t) && forall k :: 0 <= k < |names| ==> Alive(rows[names[k]], t)
    requires i in names || Same(rows, pool, store, i)
    ensures Same(rows, WritePool(rows, pool, names, data), WritePrivate(store, names, data), i)
    decreases |names|
  {
    if names != [] {
      var n := names[0];
      var pool', store' := WriteAt(pool, rows[n], data[0]), x => if x == n then data[0] else store(x);
      if n == i {
        ReadAfterWrite(pool, rows[n], data[0]);
      } else if Same(rows, pool, store, i) {
        ReadElsewhere(pool, rows[n], data[0], rows[i]);
      }
      WritesAgree(rows, pool', store', names[1..], data[1..], t, i);
    }
  }

  lemma StepAgrees(rows: seq<Row>, ops: seq<Op>, p: Bytes, s: Store, t: nat, i: nat)
    requires LiveDisjoint(rows) && InPool(rows, |p|) && WellFormed(rows, ops) && Covers(rows, ops) && t < |ops| && i < |rows|
    requires ReadPool(rows, p, ops[t].ins) == ReadPrivate(s, ops[t].ins)
    requires Alive(rows[i], t) && (i in ops[t].outs || Same(rows, p, s, i))
    ensures Same(rows, StepPool(rows, p, ops[t]), StepPrivate(rows, s, ops[t]), i)
  {
    var data := ops[t].f(ReadPrivate(s, ops[t].ins));
    assert Sized(rows, ops[t].outs, data);
    forall k | 0 <= k < |ops[t].outs|
      ensures Alive(rows[ops[t].outs[k]], t)
    {
      assert ops[t].outs[k] in ops[t].outs;
    }
    WritesAgree(rows, p, s, ops[t].outs, data, t, i);
  }

  lemma {:induction false} WrittenHasBegun(rows: seq<Row>, ops: seq<Op>, t: nat, i: nat)
    requires Covers(rows, ops) && t <= |ops| && i < |rows| && i in Written(ops, t)
    ensures rows[i].lifeBegin < t
    decreases t
  {
    if i !in ops[t - 1].outs {
      WrittenHasBegun(rows, ops, t - 1, i);
    } else {
      assert Alive(rows[i], t - 1);
    }
  }

  /** Whatever has been written and is still live agrees, at every point of the run. */
  lemma {:induction false} RunsAgree(rows: seq<Row>, ops: seq<Op>, pool: Bytes, store: Store, t: nat, i: nat)
    requires LiveDisjoint(rows) && InPool(rows, |pool|) && WellFormed(rows, ops) && Covers(rows, ops) && t <= |ops| && i < |rows|
    requires i in Written(ops, t) && t - 1 < rows[i].lifeEnd
    ensures Same(rows, RunPool(rows, ops, pool, t), RunPrivate(rows, ops, store, t), i)
    decreases t, 0
  {
    RunReadsAgree(rows, ops, pool, store, t - 1);
    WrittenHasBegun(rows, ops, t, i);
    if i !in ops[t - 1].outs {
      RunsAgree(rows, ops, pool, store, t - 1, i);
    }
    RunStepAgrees(rows, ops, pool, store, t - 1, i);
  }

  lemma RunStepAgrees(rows: seq<Row>, ops: seq<Op>, pool: Bytes, store: Store, t: nat, i: nat)
    requires LiveDisjoint(rows) && InPool(rows, |pool|) && WellFormed(rows, ops) && Covers(rows, ops) && t < |ops| && i < |rows|
    requires ReadPool(rows, RunPool(rows, ops, pool, t), ops[t].ins) == ReadPrivate(RunPrivate(rows, ops, store, t), ops[t].ins)
    requires Alive(rows[i], t)
    requires i in ops[t].outs || Same(rows, RunPool(rows, ops, pool, t), RunPrivate(rows, ops, store, t), i)
    ensures Same(rows, RunPool(rows, ops, pool, t + 1), RunPrivate(rows, ops, store, t + 1), i)
  {
    StepAgrees(rows, ops, RunPool(rows, ops, pool, t), RunPrivate(rows, ops, store, t), t, i);
  }

  lemma {:induction false} RunReadsAgree(rows: seq<Row>, ops: seq<Op>, pool: Bytes, store: Store, t: nat)
    requires LiveDisjoint(rows) && InPool(rows, |pool|) && WellFormed(rows, ops) && Covers(rows, ops) && t < |ops|
    ensures ReadPool(rows, RunPool(rows, ops, pool, t), ops[t].ins) == ReadPrivate(RunPrivate(rows, ops, store, t), ops[t].ins)
    decreases t, 1
  {
    forall k | 0 <= k < |ops[t].ins|
      ensures Same(rows, RunPool(rows, ops, pool, t), RunPrivate(rows, ops, store, t), ops[t].ins[k])
    {
      assert ops[t].ins[k] in ops[t].ins;
      RunsAgree(rows, ops, pool, store, t, ops[t].ins[k]);
    }
  }

  /** The pool theorem: under an accepted plan whose lifetimes cover every access, each
      operation reads from the shared pool exactly what it would read from private
      buffers, whatever the memories held at the start. */
  lemma ReadsAgree(rows: seq<Row>, poolCap: int, align: int, ops: seq<Op>, pool: Bytes, store: Store, t: nat)
    requires align > 0 && SoundPlan(rows, poolCap, align) && InPool(rows, |pool|)
    requires WellFormed(rows, ops) && Covers(rows, ops) && t < |ops|
    ensures ReadPool(rows, RunPool(rows, ops, pool, t), ops[t].ins) == ReadPrivate(RunPrivate(rows, ops, store, t), ops[t].ins)
  {
    SoundPlanIsLiveDisjoint(rows, |pool|, poolCap, align);
    RunReadsAgree(rows, ops, pool, store, t);
  }

  // ----- From the verdict to the pool -----

  /** With a capacity given, an accepted plan lies inside the pool exactly when no row's
      end wraps around 64 bits; the judge itself does not look for that. */
  lemma AcceptedPlanFits(rows: seq<Row>, poolCap: int, align: int)
    requires 0 < poolCap < U64 && align > 0 && SoundPlan(rows, poolCap, align)
    requires forall i :: 0 <= i < |rows| ==> Fits(rows[i])
    ensures InPool(rows, poolCap) <==> forall i :: 0 <= i < |rows| ==> rows[i].offset + rows[i].size < U64
  {
    if forall i :: 0 <= i < |rows| ==> rows[i].offset + rows[i].size < U64 {
      forall i | 0 <= i < |rows|
        ensures rows[i].offset + rows[i].size <= poolCap
      {
        assert SoundRow(rows[i], poolCap, align);
        EndWithoutWrap(rows[i]);
      }
    }
  }

  /** A plan that wraps around and is accepted although it leaves the pool. */
  lemma WrappedPlanIsAccepted()
    ensures SoundPlan([Row(0, U64 - 128, 256, 0, 1)], 4096, 128) && !InPool([Row(0, U64 - 128, 256, 0, 1)], 4096)
  {
    var r := Row(0, U64 - 128, 256, 0, 1);
    assert End(r) == 128 && r.offset == 128 * 0x01FF_FFFF_FFFF_FFFF;
    assert SoundRow(r, 4096, 128);
    assert [r][0] == r;
  }
}
