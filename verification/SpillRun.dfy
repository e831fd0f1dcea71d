/** Running an emitted operation list: with spilling, every operation computes what it
    computes in the source graph, even if all memory but the temporaries of live unspilled
    tensors and the regions of live spilled ones is overwritten arbitrarily between nodes.
    The graph's result, read after the last node, is right exactly when its tensor is not
    spilled.
 */
module SpillRun {
  import opened Bytes
  import opened Sequences
  import opened SpillFill

  /** The meaning of the graph: operation id applied to its operands, fixed slots, the size
      of each operation's tensor, and whatever lies in memory behind a tensor when more of it
      is copied to the region at an offset. */
  datatype Meaning = Meaning(apply: (nat, seq<Bytes>) -> Bytes, slots: nat -> Bytes, size: nat -> nat, behind: (int, int) -> Byte)

  // ----- The source graph -----

  function Operand(m: Meaning, vals: map<nat, Bytes>, key: nat): Bytes {
    if key in vals then vals[key] else m.slots(key)
  }

  function Operands(m: Meaning, vals: map<nat, Bytes>, keys: seq<nat>): (r: seq<Bytes>)
    ensures |r| == |keys|
  {
    seq(|keys|, k requires 0 <= k < |keys| => Operand(m, vals, keys[k]))
  }

  /** The values of the first p nodes of the order. */
  function Vals(plan: Plan, m: Meaning, order: seq<nat>, p: nat): map<nat, Bytes>
    requires p <= |order|
  {
    if p == 0 then map[]
    else
      var v := Vals(plan, m, order, p - 1);
      var id := order[p - 1];
      if Emits(plan, id) then v[id := m.apply(id, Operands(m, v, plan.nodes[id].ins))] else v
  }

  // ----- The machine -----

  datatype Machine = Machine(temps: int -> Bytes, pool: Bytes)

  function Leading(b: Bytes, n: nat): Bytes {
    if n <= |b| then b[..n] else b
  }

  /** An operation reads the leading bytes of a temporary, as many as the tensor has. */
  function ReadRef(m: Meaning, st: Machine, r: Ref): Bytes {
    if r.Temp? then Leading(st.temps(r.t), m.size(r.key)) else m.slots(r.id)
  }

  function ReadRefs(m: Meaning, st: Machine, refs: seq<Ref>): (r: seq<Bytes>)
    ensures |r| == |refs|
  {
    seq(|refs|, k requires 0 <= k < |refs| => ReadRef(m, st, refs[k]))
  }

  function SetTemp(st: Machine, t: nat, b: Bytes): Machine {
    st.(temps := x => if x == t then b else st.temps(x))
  }

  /** As many bytes as asked for, from the start of a tensor on. */
  function Stretched(m: Meaning, b: Bytes, off: int, n: nat): (r: Bytes)
    ensures |r| == n && (|b| <= n ==> r[..|b|] == b)
  {
    if n <= |b| then b[..n] else b + seq<Byte>(n - |b|, i => m.behind(off, i))
  }

  /** One instruction; n counts two-byte elements. */
  function Exec(m: Meaning, st: Machine, i: Instr): Machine {
    match i
    case Compute(node, srcs, dst) => SetTemp(st, dst, m.apply(node, ReadRefs(m, st, srcs)))
    case Spill(t, off, n) =>
      if off + 2 * n <= |st.pool| then
        st.(pool := st.pool[..off] + Stretched(m, st.temps(t), off, 2 * n) + st.pool[off + 2 * n..])
      else
        st
    case Fill(off, t, n) =>
      if off + 2 * n <= |st.pool| then SetTemp(st, t, st.pool[off..off + 2 * n]) else st
  }

  function ExecAll(m: Meaning, st: Machine, ops: seq<Instr>): Machine
    decreases |ops|
  {
    if ops == [] then st else ExecAll(m, Exec(m, st, ops[0]), ops[1..])
  }

  /** What an adversary does before position p: it overwrites every temporary that does not
      hold a live unspilled tensor, and every byte of the pool outside the regions of live
      spilled ones. */
  datatype Adversary = Adversary(temp: (int, int) -> Bytes, byte: (int, int) -> Byte)

  ghost predicate Protected(plan: Plan, a: Alloc, t: int) {
    exists k :: k in a.opTemp && a.opTemp[k] == t && k !in plan.spill
  }

  ghost predicate InLiveRegion(plan: Plan, a: Alloc, i: int) {
    exists k :: k in a.opTemp && k in plan.spill && plan.spill[k].off <= i < plan.spill[k].off + plan.spill[k].size
  }

  ghost function ClobberPool(plan: Plan, a: Alloc, adv: Adversary, p: nat, pool: Bytes): (r: Bytes)
    ensures |r| == |pool|
  {
    seq<Byte>(|pool|, i requires 0 <= i < |pool| => ClobberByte(plan, a, adv, p, pool, i))
  }

  ghost function ClobberByte(plan: Plan, a: Alloc, adv: Adversary, p: nat, pool: Bytes, i: int): Byte
    requires 0 <= i < |pool|
  {
    if InLiveRegion(plan, a, i) then pool[i] else adv.byte(p, i)
  }

  ghost function Clobber(plan: Plan, a: Alloc, adv: Adversary, p: nat, st: Machine): Machine {
    Machine(t => if Protected(plan, a, t) then st.temps(t) else adv.temp(p, t), ClobberPool(plan, a, adv, p, st.pool))
  }

  /** The machine after the groups of the first p nodes. */
  ghost function RunAt(plan: Plan, m: Meaning, order: seq<nat>, adv: Adversary, st: Machine, p: nat): Machine
    requires p <= |order|
  {
    if p == 0 then st
    else
      var a := AllocAt(plan, order, p - 1);
      ExecAll(m, Clobber(plan, a, adv, p - 1, RunAt(plan, m, order, adv, st, p - 1)), Group(plan, a, order[p - 1]))
  }

  // ----- What the plan must promise -----

  ghost predicate InPool(plan: Plan, size: nat) {
    forall k :: k in plan.spill ==> plan.spill[k].off + plan.spill[k].size <= size && plan.spill[k].size % 2 == 0
  }

  ghost predicate DisjointRegions(plan: Plan) {
    forall k, j :: k in plan.spill && j in plan.spill && k != j ==>
      plan.spill[k].off + plan.spill[k].size <= plan.spill[j].off || plan.spill[j].off + plan.spill[j].size <= plan.spill[k].off
  }

  /** Tensors have their sizes, and a spilled one fits its region. */
  ghost predicate TensorsFit(plan: Plan, m: Meaning) {
    && (forall id, data :: |m.apply(id, data)| == m.size(id))
    && (forall id :: id in plan.spill ==> m.size(id) <= plan.spill[id].size)
  }

  ghost predicate UsedBy(plan: Plan, k: nat, id: nat) {
    id in plan.nodes && k in plan.nodes[id].ins
  }

  /** Producers come before their consumers. */
  ghost predicate ProducerFirst(plan: Plan, order: seq<nat>) {
    forall p, q :: 0 <= p < |order| && 0 <= q < |order| && UsedBy(plan, order[q], order[p]) && Emits(plan, order[q]) ==> q < p
  }

  /** Recorded last uses are not before any use, as `ComputeLastUse` leaves them; keeping
      the graph's output longer does no harm. */
  ghost predicate CoversUses(plan: Plan, order: seq<nat>) {
    forall k, p :: UsedAt(plan.nodes, order, p, k) ==> k in plan.lastUse && p <= plan.lastUse[k]
  }

  ghost predicate ValidPlan(plan: Plan, m: Meaning, order: seq<nat>, size: nat) {
    InPool(plan, size) && DisjointRegions(plan) && TensorsFit(plan, m) && Distinct(order) && CoversUses(plan, order)
  }

  // ----- Allocation invariants -----

  /** Live tensors have distinct temporaries, none of them free. */
  ghost predicate ValidAlloc(a: Alloc) {
    && (forall k, j :: k in a.opTemp && j in a.opTemp && k != j ==> a.opTemp[k] != a.opTemp[j])
    && (forall k :: k in a.opTemp ==> a.opTemp[k] < a.nextTemp)
    && (forall i :: 0 <= i < |a.free| ==> a.free[i] < a.nextTemp)
    && (forall i, j :: 0 <= i < j < |a.free| ==> a.free[i] != a.free[j])
    && (forall i, k :: 0 <= i < |a.free| && k in a.opTemp ==> a.free[i] != a.opTemp[k])
  }

  lemma FreshIsFresh(a: Alloc, id: nat)
    requires ValidAlloc(a) && id !in a.opTemp
    ensures ValidAlloc(Allocate(a, id)) && forall k :: k in a.opTemp ==> a.opTemp[k] != FreshTemp(a)
  {
  }

  lemma {:induction false} ReleaseKeepsValid(plan: Plan, a: Alloc, keys: seq<nat>, pos: nat)
    requires ValidAlloc(a)
    ensures ValidAlloc(ReleaseAll(plan, a, keys, pos))
    ensures forall k :: k in ReleaseAll(plan, a, keys, pos).opTemp ==>
      k in a.opTemp && ReleaseAll(plan, a, keys, pos).opTemp[k] == a.opTemp[k]
    ensures forall k :: k in a.opTemp && (k !in keys || (k in plan.lastUse && plan.lastUse[k] > pos)) ==>
      k in ReleaseAll(plan, a, keys, pos).opTemp
    decreases |keys|
  {
    if keys != [] {
      ReleaseKeepsValid(plan, ReleaseAt(plan, a, keys[0], pos), keys[1..], pos);
    }
  }

  // ----- Memory invariants -----

  ghost predicate RegionHolds(pool: Bytes, r: Region, b: Bytes) {
    |b| <= r.size && r.off + r.size <= |pool| && pool[r.off..r.off + |b|] == b
  }

  /** Tensor k is where the plan keeps it: in its region if it is spilled, else in its
      temporary. */
  ghost predicate Kept(plan: Plan, m: Meaning, a: Alloc, vals: map<nat, Bytes>, st: Machine, k: nat)
    requires k in a.opTemp
  {
    && k in vals && |vals[k]| == m.size(k)
    && if k in plan.spill then RegionHolds(st.pool, plan.spill[k], vals[k]) else st.temps(a.opTemp[k]) == vals[k]
  }

  ghost predicate Holds(plan: Plan, m: Meaning, a: Alloc, vals: map<nat, Bytes>, st: Machine) {
    forall k :: k in a.opTemp ==> Kept(plan, m, a, vals, st, k)
  }

  /** A live operand is in its temporary. */
  ghost predicate Ready(m: Meaning, a: Alloc, vals: map<nat, Bytes>, st: Machine, key: nat) {
    key in a.opTemp ==> key in vals && Leading(st.temps(a.opTemp[key]), m.size(key)) == vals[key]
  }

  lemma ClobberHolds(plan: Plan, m: Meaning, a: Alloc, vals: map<nat, Bytes>, adv: Adversary, p: nat, st: Machine)
    requires Holds(plan, m, a, vals, st)
    ensures Holds(plan, m, a, vals, Clobber(plan, a, adv, p, st))
  {
    var st' := Clobber(plan, a, adv, p, st);
    forall k | k in a.opTemp
      ensures Kept(plan, m, a, vals, st', k)
    {
      assert Kept(plan, m, a, vals, st, k);
      if k in plan.spill {
        ClobberKeepsRegion(plan, a, adv, p, st.pool, k, vals[k]);
      } else {
        assert Protected(plan, a, a.opTemp[k]);
      }
    }
  }

  lemma ClobberKeepsRegion(plan: Plan, a: Alloc, adv: Adversary, p: nat, pool: Bytes, k: nat, b: Bytes)
    requires k in a.opTemp && k in plan.spill && RegionHolds(pool, plan.spill[k], b)
    ensures RegionHolds(ClobberPool(plan, a, adv, p, pool), plan.spill[k], b)
  {
    var r, pool' := plan.spill[k], ClobberPool(plan, a, adv, p, pool);
    forall i | 0 <= i < |b|
      ensures pool'[r.off..r.off + |b|][i] == b[i]
    {
      assert InLiveRegion(plan, a, r.off + i);
      assert b[i] == pool[r.off..r.off + |b|][i];
    }
  }

  /** A FILL puts a spilled tensor into its temporary and disturbs nothing. */
  lemma FillMakesReady(plan: Plan, m: Meaning, a: Alloc, vals: map<nat, Bytes>, st: Machine, k: nat)
    requires ValidAlloc(a) && InPool(plan, |st.pool|) && Holds(plan, m, a, vals, st) && k in plan.spill && k in a.opTemp
    ensures var st' := Exec(m, st, Fill(plan.spill[k].off, a.opTemp[k], plan.spill[k].size / 2));
            && st'.pool == st.pool && Holds(plan, m, a, vals, st') && Ready(m, a, vals, st', k)
            && forall j :: Ready(m, a, vals, st, j) ==> Ready(m, a, vals, st', j)
  {
    var r := plan.spill[k];
    assert Kept(plan, m, a, vals, st, k);
    assert 2 * (r.size / 2) == r.size;
    var st' := SetTemp(st, a.opTemp[k], st.pool[r.off..r.off + r.size]);
    assert st.pool[r.off..r.off + r.size][..|vals[k]|] == st.pool[r.off..r.off + |vals[k]|];
    forall j | j in a.opTemp
      ensures Kept(plan, m, a, vals, st', j)
    {
      assert Kept(plan, m, a, vals, st, j);
    }
  }

  /** The FILLs make every operand ready and disturb nothing. */
  lemma {:induction false} FillsMakeReady(plan: Plan, m: Meaning, a: Alloc, vals: map<nat, Bytes>, st: Machine, keys: seq<nat>)
    requires ValidAlloc(a) && InPool(plan, |st.pool|) && Holds(plan, m, a, vals, st)
    ensures ExecAll(m, st, Fills(plan, a, keys)).pool == st.pool
    ensures Holds(plan, m, a, vals, ExecAll(m, st, Fills(plan, a, keys)))
    ensures forall k :: k in keys || Ready(m, a, vals, st, k) ==> Ready(m, a, vals, ExecAll(m, st, Fills(plan, a, keys)), k)
    decreases |keys|
  {
    if keys != [] {
      var k0 := keys[0];
      var rest := Fills(plan, a, keys[1..]);
      if k0 in plan.spill && k0 in a.opTemp {
        var fill := Fill(plan.spill[k0].off, a.opTemp[k0], plan.spill[k0].size / 2);
        FillMakesReady(plan, m, a, vals, st, k0);
        FillsMakeReady(plan, m, a, vals, Exec(m, st, fill), keys[1..]);
        ExecFirst(m, st, fill, rest);
      } else {
        UnspilledIsReady(plan, m, a, vals, st, k0);
        assert [] + rest == rest;
        FillsMakeReady(plan, m, a, vals, st, keys[1..]);
      }
    }
  }

  lemma UnspilledIsReady(plan: Plan, m: Meaning, a: Alloc, vals: map<nat, Bytes>, st: Machine, k: nat)
    requires Holds(plan, m, a, vals, st) && (k !in plan.spill || k !in a.opTemp)
    ensures Ready(m, a, vals, st, k)
  {
    if k in a.opTemp {
      assert Kept(plan, m, a, vals, st, k);
    }
  }

  lemma {:induction false} ExecConcat(m: Meaning, st: Machine, x: seq<Instr>, y: seq<Instr>)
    ensures ExecAll(m, st, x + y) == ExecAll(m, ExecAll(m, st, x), y)
    decreases |x|
  {
    if x == [] {
      assert x + y == y;
    } else {
      assert (x + y)[1..] == x[1..] + y;
      ExecConcat(m, Exec(m, st, x[0]), x[1..], y);
    }
  }

  /** With every operand ready, an operation reads its operands. */
  lemma ReadyOperands(m: Meaning, a: Alloc, vals: map<nat, Bytes>, st: Machine, keys: seq<nat>)
    requires forall k :: k in keys ==> Ready(m, a, vals, st, k) && (k in vals ==> k in a.opTemp)
    ensures ReadRefs(m, st, SourceRefs(a, keys)) == Operands(m, vals, keys)
  {
    forall i | 0 <= i < |keys|
      ensures ReadRef(m, st, SourceRef(a, keys[i])) == Operand(m, vals, keys[i])
    {
      assert Ready(m, a, vals, st, keys[i]);
    }
  }

  /** The operation and its SPILL: the new tensor is kept, the others are not disturbed. */
  lemma ComputeAndSpill(plan: Plan, m: Meaning, a: Alloc, vals: map<nat, Bytes>, st: Machine, id: nat, keys: seq<nat>)
    requires ValidAlloc(a) && id !in a.opTemp && Holds(plan, m, a, vals, st)
    requires InPool(plan, |st.pool|) && DisjointRegions(plan) && TensorsFit(plan, m)
    requires ReadRefs(m, st, SourceRefs(a, keys)) == Operands(m, vals, keys)
    ensures var ops := [Compute(id, SourceRefs(a, keys), FreshTemp(a))] + Spills(plan, id, FreshTemp(a));
            var st' := ExecAll(m, st, ops);
            |st'.pool| == |st.pool| && Holds(plan, m, Allocate(a, id), vals[id := m.apply(id, Operands(m, vals, keys))], st')
  {
    var compute, dst := Compute(id, SourceRefs(a, keys), FreshTemp(a)), FreshTemp(a);
    var data := m.apply(id, Operands(m, vals, keys));
    var st1, spills := SetTemp(st, dst, data), Spills(plan, id, dst);
    FreshIsFresh(a, id);
    assert Exec(m, st, compute) == st1;
    ExecFirst(m, st, compute, spills);
    forall k | k in a.opTemp
      ensures Kept(plan, m, a, vals, st1, k)
    {
      assert Kept(plan, m, a, vals, st, k);
    }
    if id in plan.spill {
      SpillHolds(plan, m, a, vals, st1, id, data);
    } else {
      NewHolds(plan, m, a, vals, st1, id, data);
    }
  }

  lemma NewHolds(plan: Plan, m: Meaning, a: Alloc, vals: map<nat, Bytes>, st: Machine, id: nat, data: Bytes)
    requires ValidAlloc(a) && id !in a.opTemp && Holds(plan, m, a, vals, st) && |data| == m.size(id)
    requires if id in plan.spill then RegionHolds(st.pool, plan.spill[id], data) else st.temps(FreshTemp(a)) == data
    ensures Holds(plan, m, Allocate(a, id), vals[id := data], st)
  {
    forall k | k in Allocate(a, id).opTemp
      ensures Kept(plan, m, Allocate(a, id), vals[id := data], st, k)
    {
      if k != id {
        assert Kept(plan, m, a, vals, st, k);
      }
    }
  }

  lemma SpillHolds(plan: Plan, m: Meaning, a: Alloc, vals: map<nat, Bytes>, st: Machine, id: nat, data: Bytes)
    requires ValidAlloc(a) && id !in a.opTemp && Holds(plan, m, a, vals, st)
    requires InPool(plan, |st.pool|) && DisjointRegions(plan) && id in plan.spill
    requires st.temps(FreshTemp(a)) == data && |data| == m.size(id) <= plan.spill[id].size
    ensures var st' := ExecAll(m, st, Spills(plan, id, FreshTemp(a)));
            |st'.pool| == |st.pool| && Holds(plan, m, Allocate(a, id), vals[id := data], st')
  {
    var spill := Spill(FreshTemp(a), plan.spill[id].off, plan.spill[id].size / 2);
    var st' := Exec(m, st, spill);
    SpillKeepsRegions(plan, m, st, id, FreshTemp(a), data);
    ExecFirst(m, st, spill, []);
    assert Spills(plan, id, FreshTemp(a)) == [spill] + [];
    forall k | k in a.opTemp
      ensures Kept(plan, m, a, vals, st', k)
    {
      assert Kept(plan, m, a, vals, st, k);
    }
    NewHolds(plan, m, a, vals, st', id, data);
  }

  /** The pool after a region was spilled. */
  function SpilledPool(m: Meaning, st: Machine, t: nat, r: Region): (pool: Bytes)
    requires r.off + r.size <= |st.pool|
    ensures |pool| == |st.pool|
  {
    st.pool[..r.off] + Stretched(m, st.temps(t), r.off, r.size) + st.pool[r.off + r.size..]
  }

  lemma SpillStores(m: Meaning, st: Machine, t: nat, r: Region)
    requires r.off + r.size <= |st.pool| && r.size % 2 == 0
    ensures Exec(m, st, Spill(t, r.off, r.size / 2)) == st.(pool := SpilledPool(m, st, t, r))
  {
    assert 2 * (r.size / 2) == r.size;
  }

  lemma SpillKeepsRegions(plan: Plan, m: Meaning, st: Machine, id: nat, t: nat, data: Bytes)
    requires InPool(plan, |st.pool|) && DisjointRegions(plan) && id in plan.spill
    requires st.temps(t) == data && |data| <= plan.spill[id].size
    ensures var st' := Exec(m, st, Spill(t, plan.spill[id].off, plan.spill[id].size / 2));
            && st'.temps == st.temps && |st'.pool| == |st.pool| && RegionHolds(st'.pool, plan.spill[id], data)
            && forall k, b :: k in plan.spill && k != id && RegionHolds(st.pool, plan.spill[k], b) ==> RegionHolds(st'.pool, plan.spill[k], b)
  {
    var r := plan.spill[id];
    var block := Stretched(m, data, r.off, r.size);
    var pool' := SpilledPool(m, st, t, r);
    SpillStores(m, st, t, r);
    assert pool'[r.off..r.off + |data|] == block[..|data|] == data;
    forall k, b | k in plan.spill && k != id && RegionHolds(st.pool, plan.spill[k], b)
      ensures RegionHolds(pool', plan.spill[k], b)
    {
      RegionElsewhere(st.pool, r, block, plan.spill[k], |b|);
    }
  }

  lemma RegionElsewhere(pool: Bytes, r: Region, block: Bytes, q: Region, n: nat)
    requires r.off + r.size <= |pool| && |block| == r.size && q.off + q.size <= |pool| && n <= q.size
    requires q.off + q.size <= r.off || r.off + r.size <= q.off
    ensures (pool[..r.off] + block + pool[r.off + r.size..])[q.off..q.off + n] == pool[q.off..q.off + n]
  {
    var pool' := pool[..r.off] + block + pool[r.off + r.size..];
    forall i | q.off <= i < q.off + n
      ensures pool'[i] == pool[i]
    {
    }
  }

  lemma ExecFirst(m: Meaning, st: Machine, i: Instr, rest: seq<Instr>)
    ensures ExecAll(m, st, [i] + rest) == ExecAll(m, Exec(m, st, i), rest)
  {
    assert ([i] + rest)[1..] == rest;
  }

  // ----- The run -----

  /** Everything that has been produced and is still to be used is live. */
  ghost predicate UsesAreLive(plan: Plan, order: seq<nat>, p: nat, a: Alloc, vals: map<nat, Bytes>) {
    forall k, q :: k in vals && p <= q < |order| && UsedBy(plan, k, order[q]) ==> k in a.opTemp
  }

  /** Exactly the emitting nodes before p have values. */
  lemma {:induction false} ValuesSoFar(plan: Plan, m: Meaning, order: seq<nat>, p: nat, k: nat)
    requires p <= |order|
    ensures k in Vals(plan, m, order, p) <==> Emits(plan, k) && k in order[..p]
    decreases p
  {
    if p > 0 {
      ValuesSoFar(plan, m, order, p - 1, k);
      assert order[..p] == order[..p - 1] + [order[p - 1]];
    }
  }

  /** With producers first, an emitting operand of the order is never taken from a slot. */
  lemma OperandsAreProduced(plan: Plan, m: Meaning, order: seq<nat>, p: nat, q: nat)
    requires ProducerFirst(plan, order) && p < |order| && q < |order| && UsedBy(plan, order[q], order[p]) && Emits(plan, order[q])
    ensures order[q] in Vals(plan, m, order, p)
  {
    ValuesSoFar(plan, m, order, p, order[q]);
    assert order[..p][q] == order[q];
  }

  lemma NotYetProduced(plan: Plan, m: Meaning, order: seq<nat>, p: nat)
    requires Distinct(order) && p < |order|
    ensures order[p] !in Vals(plan, m, order, p)
  {
    ValuesSoFar(plan, m, order, p, order[p]);
  }

  /** What emission keeps about the allocation. */
  ghost predicate AllocInvariant(plan: Plan, order: seq<nat>, p: nat, a: Alloc, vals: map<nat, Bytes>) {
    ValidAlloc(a) && a.opTemp.Keys <= vals.Keys && UsesAreLive(plan, order, p, a, vals)
  }

  lemma AllocStep(plan: Plan, order: seq<nat>, p: nat, a: Alloc, vals: map<nat, Bytes>, data: Bytes)
    requires CoversUses(plan, order) && p < |order| && Emits(plan, order[p]) && order[p] !in vals
    requires AllocInvariant(plan, order, p, a, vals)
    ensures AllocInvariant(plan, order, p + 1, AfterNode(plan, a, order[p], p), vals[order[p] := data])
  {
    var id := order[p];
    var b := Allocate(a, id);
    FreshIsFresh(a, id);
    ReleaseKeepsValid(plan, b, plan.nodes[id].ins, p);
    forall k, q | k in vals[id := data] && p + 1 <= q < |order| && UsedBy(plan, k, order[q])
      ensures k in AfterNode(plan, a, id, p).opTemp
    {
      assert k in b.opTemp;
      assert UsedAt(plan.nodes, order, q, k);
    }
  }

  lemma {:induction false} AllocationRun(plan: Plan, m: Meaning, order: seq<nat>, p: nat)
    requires Distinct(order) && CoversUses(plan, order) && p <= |order|
    ensures AllocInvariant(plan, order, p, AllocAt(plan, order, p), Vals(plan, m, order, p))
    decreases p
  {
    if p > 0 {
      AllocationRun(plan, m, order, p - 1);
      var vals, id := Vals(plan, m, order, p - 1), order[p - 1];
      if Emits(plan, id) {
        NotYetProduced(plan, m, order, p - 1);
        AllocStep(plan, order, p - 1, AllocAt(plan, order, p - 1), vals, m.apply(id, Operands(m, vals, plan.nodes[id].ins)));
      }
    }
  }

  /** The state of the machine when the operation at position p reads its operands: after
      the adversary and the FILLs. */
  ghost function BeforeCompute(plan: Plan, m: Meaning, order: seq<nat>, adv: Adversary, st: Machine, p: nat): Machine
    requires p < |order| && Emits(plan, order[p])
  {
    var a := AllocAt(plan, order, p);
    ExecAll(m, Clobber(plan, a, adv, p, RunAt(plan, m, order, adv, st, p)), Fills(plan, a, plan.nodes[order[p]].ins))
  }

  /** After the FILLs, the operation reads its operands, and nothing has been disturbed. */
  lemma OperandsReady(plan: Plan, m: Meaning, order: seq<nat>, adv: Adversary, p: nat, a: Alloc, vals: map<nat, Bytes>, st: Machine)
    requires p < |order| && Emits(plan, order[p]) && InPool(plan, |st.pool|)
    requires AllocInvariant(plan, order, p, a, vals) && Holds(plan, m, a, vals, st)
    ensures var keys := plan.nodes[order[p]].ins;
            var ready := ExecAll(m, Clobber(plan, a, adv, p, st), Fills(plan, a, keys));
            && |ready.pool| == |st.pool| && Holds(plan, m, a, vals, ready)
            && ReadRefs(m, ready, SourceRefs(a, keys)) == Operands(m, vals, keys)
  {
    var keys := plan.nodes[order[p]].ins;
    var clobbered := Clobber(plan, a, adv, p, st);
    ClobberHolds(plan, m, a, vals, adv, p, st);
    FillsMakeReady(plan, m, a, vals, clobbered, keys);
    var ready := ExecAll(m, clobbered, Fills(plan, a, keys));
    forall k | k in keys
      ensures Ready(m, a, vals, ready, k) && (k in vals ==> k in a.opTemp)
    {
      assert UsedBy(plan, k, order[p]);
    }
    ReadyOperands(m, a, vals, ready, keys);
  }

  lemma {:induction false} RunHolds(plan: Plan, m: Meaning, order: seq<nat>, adv: Adversary, st: Machine, p: nat)
    requires ValidPlan(plan, m, order, |st.pool|) && p <= |order|
    ensures |RunAt(plan, m, order, adv, st, p).pool| == |st.pool|
    ensures Holds(plan, m, AllocAt(plan, order, p), Vals(plan, m, order, p), RunAt(plan, m, order, adv, st, p))
    decreases p
  {
    if p > 0 {
      RunHolds(plan, m, order, adv, st, p - 1);
      RunStepHolds(plan, m, order, adv, st, p - 1);
    }
  }

  lemma RunStepHolds(plan: Plan, m: Meaning, order: seq<nat>, adv: Adversary, st: Machine, p: nat)
    requires ValidPlan(plan, m, order, |st.pool|) && p < |order|
    requires |RunAt(plan, m, order, adv, st, p).pool| == |st.pool|
    requires Holds(plan, m, AllocAt(plan, order, p), Vals(plan, m, order, p), RunAt(plan, m, order, adv, st, p))
    ensures |RunAt(plan, m, order, adv, st, p + 1).pool| == |st.pool|
    ensures Holds(plan, m, AllocAt(plan, order, p + 1), Vals(plan, m, order, p + 1), RunAt(plan, m, order, adv, st, p + 1))
  {
    var a, vals, id := AllocAt(plan, order, p), Vals(plan, m, order, p), order[p];
    var s := RunAt(plan, m, order, adv, st, p);
    if Emits(plan, id) {
      AllocationRun(plan, m, order, p);
      NotYetProduced(plan, m, order, p);
      GroupHolds(plan, m, order, adv, p, a, vals, s);
    } else {
      ClobberHolds(plan, m, a, vals, adv, p, s);
      assert Group(plan, a, id) == [];
    }
  }

  lemma GroupHolds(plan: Plan, m: Meaning, order: seq<nat>, adv: Adversary, p: nat, a: Alloc, vals: map<nat, Bytes>, st: Machine)
    requires ValidPlan(plan, m, order, |st.pool|) && p < |order| && Emits(plan, order[p])
    requires AllocInvariant(plan, order, p, a, vals) && Holds(plan, m, a, vals, st) && order[p] !in vals
    ensures var st' := ExecAll(m, Clobber(plan, a, adv, p, st), Group(plan, a, order[p]));
            && |st'.pool| == |st.pool|
            && Holds(plan, m, AfterNode(plan, a, order[p], p), vals[order[p] := m.apply(order[p], Operands(m, vals, plan.nodes[order[p]].ins))], st')
  {
    var id, keys := order[p], plan.nodes[order[p]].ins;
    var clobbered, fills := Clobber(plan, a, adv, p, st), Fills(plan, a, keys);
    OperandsReady(plan, m, order, adv, p, a, vals, st);
    var ready := ExecAll(m, clobbered, fills);
    ComputeAndSpill(plan, m, a, vals, ready, id, keys);
    var rest := [Compute(id, SourceRefs(a, keys), FreshTemp(a))] + Spills(plan, id, FreshTemp(a));
    assert Group(plan, a, id) == fills + rest;
    ExecConcat(m, clobbered, fills, rest);
    FreshIsFresh(a, id);
    ReleaseKeepsValid(plan, Allocate(a, id), keys, p);
  }

  /** The spill theorem: whatever the adversary writes, and wherever the machine starts,
      every operation of the emitted list reads exactly the operands it has in the source
      graph, so it computes the same result. */
  lemma EveryOperationReadsItsOperands(plan: Plan, m: Meaning, order: seq<nat>, adv: Adversary, st: Machine, p: nat)
    requires ValidPlan(plan, m, order, |st.pool|) && p < |order| && Emits(plan, order[p])
    ensures ReadRefs(m, BeforeCompute(plan, m, order, adv, st, p), SourceRefs(AllocAt(plan, order, p), plan.nodes[order[p]].ins))
         == Operands(m, Vals(plan, m, order, p), plan.nodes[order[p]].ins)
  {
    RunHolds(plan, m, order, adv, st, p);
    AllocationRun(plan, m, order, p);
    OperandsReady(plan, m, order, adv, p, AllocAt(plan, order, p), Vals(plan, m, order, p), RunAt(plan, m, order, adv, st, p));
  }

  // ----- The result of the graph -----

  /** The operand of the graph's output is kept beyond the order. */
  ghost predicate Pinned(plan: Plan, order: seq<nat>, output: nat) {
    output in order && Emits(plan, output) && output in plan.lastUse && plan.lastUse[output] >= |order|
  }

  /** A pinned tensor is never released. */
  lemma {:induction false} PinnedIsLive(plan: Plan, order: seq<nat>, output: nat, p: nat)
    requires Pinned(plan, order, output) && p <= |order| && output in order[..p]
    ensures output in AllocAt(plan, order, p).opTemp
    decreases p
  {
    var a, id := AllocAt(plan, order, p - 1), order[p - 1];
    assert order[..p] == order[..p - 1] + [id];
    if id != output {
      PinnedIsLive(plan, order, output, p - 1);
    } else if output in order[..p - 1] {
      PinnedIsLive(plan, order, output, p - 1);
    }
    if Emits(plan, id) {
      PinnedStays(plan, Allocate(a, id), plan.nodes[id].ins, p - 1, output);
    }
  }

  lemma {:induction false} PinnedStays(plan: Plan, a: Alloc, keys: seq<nat>, pos: nat, k: nat)
    requires k in a.opTemp && k in plan.lastUse && plan.lastUse[k] > pos
    ensures k in ReleaseAll(plan, a, keys, pos).opTemp
    decreases |keys|
  {
    if keys != [] {
      PinnedStays(plan, ReleaseAt(plan, a, keys[0], pos), keys[1..], pos, k);
    }
  }

  /** What is read as the output after the last node, when the adversary has had its turn;
      no FILL is emitted for it. */
  ghost function Result(plan: Plan, m: Meaning, order: seq<nat>, adv: Adversary, st: Machine, output: nat): Bytes {
    var a := AllocAt(plan, order, |order|);
    ReadRef(m, Clobber(plan, a, adv, |order|, RunAt(plan, m, order, adv, st, |order|)), SourceRef(a, output))
  }

  /** An unspilled output is read right. */
  lemma UnspilledResult(plan: Plan, m: Meaning, order: seq<nat>, adv: Adversary, st: Machine, output: nat)
    requires ValidPlan(plan, m, order, |st.pool|) && Pinned(plan, order, output) && output !in plan.spill
    ensures output in Vals(plan, m, order, |order|) && Result(plan, m, order, adv, st, output) == Vals(plan, m, order, |order|)[output]
  {
    var a, vals := AllocAt(plan, order, |order|), Vals(plan, m, order, |order|);
    var s := RunAt(plan, m, order, adv, st, |order|);
    assert order[..|order|] == order;
    PinnedIsLive(plan, order, output, |order|);
    RunHolds(plan, m, order, adv, st, |order|);
    ClobberHolds(plan, m, a, vals, adv, |order|, s);
    assert Kept(plan, m, a, vals, Clobber(plan, a, adv, |order|, s), output);
  }

  /** A spilled output is whatever was last written over its temporary. */
  lemma SpilledResult(plan: Plan, m: Meaning, order: seq<nat>, adv: Adversary, st: Machine, output: nat)
    requires ValidPlan(plan, m, order, |st.pool|) && Pinned(plan, order, output) && output in plan.spill
    ensures output in AllocAt(plan, order, |order|).opTemp
    ensures Result(plan, m, order, adv, st, output)
         == Leading(adv.temp(|order|, AllocAt(plan, order, |order|).opTemp[output]), m.size(output))
  {
    var a := AllocAt(plan, order, |order|);
    assert order[..|order|] == order;
    PinnedIsLive(plan, order, output, |order|);
    AllocationRun(plan, m, order, |order|);
    assert !Protected(plan, a, a.opTemp[output]);
  }

  /** Bytes that differ from b in every place. */
  function Flipped(b: Bytes): (r: Bytes)
    ensures |r| == |b| && forall i :: 0 <= i < |b| ==> r[i] != b[i]
  {
    seq<Byte>(|b|, i requires 0 <= i < |b| => Flip(b[i]))
  }

  function Flip(b: Byte): Byte {
    if b == 0 then 1 else 0
  }

  /** The adversary that leaves the wrong bytes in every temporary. */
  function Spoiler(b: Bytes): Adversary {
    Adversary((p, t) => Flipped(b), (p, i) => 0)
  }

  lemma ValueHasSize(plan: Plan, m: Meaning, order: seq<nat>, st: Machine, output: nat)
    requires ValidPlan(plan, m, order, |st.pool|) && Pinned(plan, order, output)
    ensures output in Vals(plan, m, order, |order|) && |Vals(plan, m, order, |order|)[output]| == m.size(output)
  {
    var adv := Spoiler([]);
    assert order[..|order|] == order;
    PinnedIsLive(plan, order, output, |order|);
    RunHolds(plan, m, order, adv, st, |order|);
    assert Kept(plan, m, AllocAt(plan, order, |order|), Vals(plan, m, order, |order|), RunAt(plan, m, order, adv, st, |order|), output);
  }

  /** The result theorem: after the instrumented list the graph's result is right under
      every adversary if and only if its tensor is not spilled, or is empty. */
  lemma ResultIsRightIffNotSpilled(plan: Plan, m: Meaning, order: seq<nat>, st: Machine, output: nat)
    requires ValidPlan(plan, m, order, |st.pool|) && Pinned(plan, order, output)
    ensures output in Vals(plan, m, order, |order|)
    ensures (forall adv :: Result(plan, m, order, adv, st, output) == Vals(plan, m, order, |order|)[output])
       <==> output !in plan.spill || m.size(output) == 0
  {
    ValueHasSize(plan, m, order, st, output);
    var value := Vals(plan, m, order, |order|)[output];
    if output !in plan.spill {
      forall adv ensures Result(plan, m, order, adv, st, output) == value { UnspilledResult(plan, m, order, adv, st, output); }
    } else {
      forall adv
        ensures m.size(output) == 0 ==> Result(plan, m, order, adv, st, output) == value
      {
        SpilledResult(plan, m, order, adv, st, output);
      }
      SpilledResult(plan, m, order, Spoiler(value), st, output);
      assert Leading(Flipped(value), m.size(output)) == Flipped(value);
      assert m.size(output) > 0 ==> Flipped(value)[0] != value[0];
    }
  }

  // ----- Against the plain list -----

  function Plain(plan: Plan): Plan {
    plan.(spill := map[])
  }

  lemma {:induction false} PlainValues(plan: Plan, m: Meaning, order: seq<nat>, p: nat)
    requires p <= |order|
    ensures Vals(Plain(plan), m, order, p) == Vals(plan, m, order, p)
    decreases p
  {
    if p > 0 {
      PlainValues(plan, m, order, p - 1);
    }
  }

  /** The instrumented list and the plain list give every operation the same operands, the
      first under any adversary, the second likewise. */
  lemma SpillingChangesNothing(plan: Plan, m: Meaning, order: seq<nat>, adv: Adversary, adv': Adversary, st: Machine, st': Machine, p: nat)
    requires ValidPlan(plan, m, order, |st.pool|) && p < |order| && Emits(plan, order[p])
    ensures ReadRefs(m, BeforeCompute(plan, m, order, adv, st, p), SourceRefs(AllocAt(plan, order, p), plan.nodes[order[p]].ins))
         == ReadRefs(m, BeforeCompute(Plain(plan), m, order, adv', st', p), SourceRefs(AllocAt(Plain(plan), order, p), plan.nodes[order[p]].ins))
  {
    EveryOperationReadsItsOperands(plan, m, order, adv, st, p);
    assert forall k, id :: UsedBy(Plain(plan), k, id) <==> UsedBy(plan, k, id);
    EveryOperationReadsItsOperands(Plain(plan), m, order, adv', st', p);
    PlainValues(plan, m, order, p);
  }

  lemma PlainIsValid(plan: Plan, m: Meaning, order: seq<nat>, size: nat, size': nat)
    requires ValidPlan(plan, m, order, size)
    ensures ValidPlan(Plain(plan), m, order, size')
  {
  }

  /** Nor does it change the result of the graph, exactly when the result's tensor is not
      spilled, or is empty. */
  lemma SpillingKeepsResultIff(plan: Plan, m: Meaning, order: seq<nat>, adv': Adversary, st: Machine, st': Machine, output: nat)
    requires ValidPlan(plan, m, order, |st.pool|) && Pinned(plan, order, output)
    ensures (forall adv :: Result(plan, m, order, adv, st, output) == Result(Plain(plan), m, order, adv', st', output))
       <==> output !in plan.spill || m.size(output) == 0
  {
    ResultIsRightIffNotSpilled(plan, m, order, st, output);
    PlainIsValid(plan, m, order, |st.pool|, |st'.pool|);
    UnspilledResult(Plain(plan), m, order, adv', st', output);
    PlainValues(plan, m, order, |order|);
  }

  /** A plan of one operation, which is the output and is spilled. */
  const SPILLED_OUTPUT := Plan(map[1 := Node(true, true, [])], map[1 := Region(0, 2)], map[1 := 1])

  /** Its result can be lost, whatever the operation computes. */
  lemma SpilledOutputCanBeLost(m: Meaning, st: Machine)
    requires |st.pool| == 2 && m.size(1) == 2 && forall id, data :: |m.apply(id, data)| == m.size(id)
    ensures ValidPlan(SPILLED_OUTPUT, m, [1], 2)
    ensures exists adv :: Result(SPILLED_OUTPUT, m, [1], adv, st, 1) != Result(Plain(SPILLED_OUTPUT), m, [1], adv, st, 1)
  {
    var plan := SPILLED_OUTPUT;
    ResultIsRightIffNotSpilled(plan, m, [1], st, 1);
    var adv :| Result(plan, m, [1], adv, st, 1) != Vals(plan, m, [1], |[1]|)[1];
    PlainIsValid(plan, m, [1], 2, 2);
    UnspilledResult(Plain(plan), m, [1], adv, st, 1);
    PlainValues(plan, m, [1], 1);
  }
}
