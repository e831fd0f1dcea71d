/** Emission of the operation list with SPILL and FILL inserted around the operations that
    produce and consume spilled tensors (compiler/tools/wtop_emit.cpp:496-566), together
    with the emitter's allocation of temporaries (compiler/tools/wtop_ops/wtop_ops.hpp:119-145).
 */
module SpillFill {
  import opened Options

  /** An operand is the temporary of a tensor or a fixed slot. */
  datatype Ref = Temp(t: nat, key: nat) | Slot(id: nat)

  datatype Instr =
    | Compute(node: nat, srcs: seq<Ref>, dst: nat)
    | Spill(temp: nat, off: nat, n: nat)
    | Fill(off: nat, temp: nat, n: nat)

  /** Constants, inputs, outputs and parameters emit nothing; a kind without a handler is
      an error. */
  datatype Node = Node(emits: bool, supported: bool, ins: seq<nat>)

  datatype Region = Region(off: nat, size: nat)

  datatype Plan = Plan(nodes: map<nat, Node>, spill: map<nat, Region>, lastUse: map<nat, nat>)

  /** The emitter's allocation state. */
  datatype Alloc = Alloc(opTemp: map<nat, nat>, nextTemp: nat, free: seq<nat>)

  const START := Alloc(map[], 0, [])

  // ----- What one node emits -----

  function FreshTemp(a: Alloc): nat {
    if a.free != [] then a.free[|a.free| - 1] else a.nextTemp
  }

  function Allocate(a: Alloc, id: nat): Alloc {
    var b := if a.free != [] then a.(free := a.free[..|a.free| - 1]) else a.(nextTemp := a.nextTemp + 1);
    b.(opTemp := b.opTemp[id := FreshTemp(a)])
  }

  function ReleaseAt(plan: Plan, a: Alloc, key: nat, pos: nat): Alloc {
    if key !in a.opTemp then a
    else if key in plan.lastUse && plan.lastUse[key] > pos then a
    else a.(free := a.free + [a.opTemp[key]], opTemp := a.opTemp - {key})
  }

  function ReleaseAll(plan: Plan, a: Alloc, keys: seq<nat>, pos: nat): Alloc
    decreases |keys|
  {
    if keys == [] then a else ReleaseAll(plan, ReleaseAt(plan, a, keys[0], pos), keys[1..], pos)
  }

  /** FILL instructions for the operands that are spilled and materialised. */
  function Fills(plan: Plan, a: Alloc, keys: seq<nat>): seq<Instr>
    decreases |keys|
  {
    if keys == [] then []
    else
      (if keys[0] in plan.spill && keys[0] in a.opTemp then
         [Fill(plan.spill[keys[0]].off, a.opTemp[keys[0]], plan.spill[keys[0]].size / 2)]
       else
         [])
      + Fills(plan, a, keys[1..])
  }

  function SourceRef(a: Alloc, key: nat): Ref {
    if key in a.opTemp then Temp(a.opTemp[key], key) else Slot(key)
  }

  function SourceRefs(a: Alloc, keys: seq<nat>): (r: seq<Ref>)
    ensures |r| == |keys|
  {
    seq(|keys|, k requires 0 <= k < |keys| => SourceRef(a, keys[k]))
  }

  function Spills(plan: Plan, id: nat, temp: nat): seq<Instr> {
    if id in plan.spill then [Spill(temp, plan.spill[id].off, plan.spill[id].size / 2)] else []
  }

  predicate Emits(plan: Plan, id: nat) {
    id in plan.nodes && plan.nodes[id].emits
  }

  /** The emitter has a handler for what the node emits. */
  predicate Handled(plan: Plan, id: nat) {
    Emits(plan, id) ==> plan.nodes[id].supported
  }

  lemma HandledSpelledOut(plan: Plan, order: seq<nat>)
    ensures AllHandled(plan, order, |order|)
       <==> forall p :: 0 <= p < |order| && order[p] in plan.nodes && plan.nodes[order[p]].emits ==> plan.nodes[order[p]].supported
  {
    forall p | 0 <= p < |order|
      ensures Handled(plan, order[p]) <==> (order[p] in plan.nodes && plan.nodes[order[p]].emits ==> plan.nodes[order[p]].supported)
    {
    }
  }

  predicate AllHandled(plan: Plan, order: seq<nat>, n: nat)
    requires n <= |order|
  {
    forall p :: 0 <= p < n ==> Handled(plan, order[p])
  }

  function Group(plan: Plan, a: Alloc, id: nat): seq<Instr> {
    if Emits(plan, id) then
      Fills(plan, a, plan.nodes[id].ins)
      + [Compute(id, SourceRefs(a, plan.nodes[id].ins), FreshTemp(a))]
      + Spills(plan, id, FreshTemp(a))
    else
      []
  }

  function AfterNode(plan: Plan, a: Alloc, id: nat, pos: nat): Alloc {
    if Emits(plan, id) then ReleaseAll(plan, Allocate(a, id), plan.nodes[id].ins, pos) else a
  }

  /** The allocation before position p, and the operation list emitted so far. */
  function AllocAt(plan: Plan, order: seq<nat>, p: nat): Alloc
    requires p <= |order|
  {
    if p == 0 then START else AfterNode(plan, AllocAt(plan, order, p - 1), order[p - 1], p - 1)
  }

  function OpsAt(plan: Plan, order: seq<nat>, p: nat): seq<Instr>
    requires p <= |order|
  {
    if p == 0 then [] else OpsAt(plan, order, p - 1) + Group(plan, AllocAt(plan, order, p - 1), order[p - 1])
  }

  /** The list and the allocation after the first p nodes. */
  ghost predicate Emitted(plan: Plan, order: seq<nat>, p: nat, ops: seq<Instr>, a: Alloc)
    requires p <= |order|
  {
    ops == OpsAt(plan, order, p) && a == AllocAt(plan, order, p)
  }

  lemma MoreEmitted(plan: Plan, order: seq<nat>, p: nat, ops: seq<Instr>, a: Alloc)
    requires p < |order| && Emitted(plan, order, p, ops, a)
    ensures Emitted(plan, order, p + 1, ops + Group(plan, a, order[p]), AfterNode(plan, a, order[p], p))
  {
  }

  // ----- The emitter -----

  class Emitter {
    var ops: seq<Instr>
    var opTemp: map<nat, nat>
    var nextTemp: nat
    var freeTemps: seq<nat>

    function State(): Alloc
      reads this
    {
      Alloc(opTemp, nextTemp, freeTemps)
    }

    constructor ()
      ensures ops == [] && State() == START
    {
      ops, opTemp, nextTemp, freeTemps := [], map[], 0, [];
    }

    method NewTemp(id: nat) returns (t: nat)
      modifies this
      ensures t == FreshTemp(old(State())) && State() == Allocate(old(State()), id) && ops == old(ops)
      ensures opTemp == old(opTemp)[id := t]
      ensures old(freeTemps) != [] ==> freeTemps + [t] == old(freeTemps) && nextTemp == old(nextTemp)
      ensures old(freeTemps) == [] ==> freeTemps == [] && t == old(nextTemp) && nextTemp == t + 1
    {
      if freeTemps != [] {
        t := freeTemps[|freeTemps| - 1];
        freeTemps := freeTemps[..|freeTemps| - 1];
      } else {
        t := nextTemp;
        nextTemp := nextTemp + 1;
      }
      opTemp := opTemp[id := t];
    }

    method Release(plan: Plan, key: nat, pos: nat)
      modifies this
      ensures State() == ReleaseAt(plan, old(State()), key, pos) && ops == old(ops)
      ensures if key in old(opTemp) && (key in plan.lastUse ==> plan.lastUse[key] <= pos)
              then opTemp == old(opTemp) - {key} && freeTemps == old(freeTemps) + [old(opTemp)[key]]
              else opTemp == old(opTemp) && freeTemps == old(freeTemps)
    {
      if key !in opTemp {
        return;
      }
      if key in plan.lastUse && plan.lastUse[key] > pos {
        return;
      }
      freeTemps := freeTemps + [opTemp[key]];
      opTemp := opTemp - {key};
    }

    method EmitFills(plan: Plan, keys: seq<nat>)
      modifies this`ops
      ensures ops == old(ops) + Fills(plan, State(), keys)
    {
      ghost var was := ops;
      for k := 0 to |keys|
        invariant was + Fills(plan, State(), keys) == ops + Fills(plan, State(), keys[k..])
      {
        if keys[k] in plan.spill && keys[k] in opTemp {
          ops := ops + [Fill(plan.spill[keys[k]].off, opTemp[keys[k]], plan.spill[keys[k]].size / 2)];
        }
      }
      assert keys[|keys|..] == [];
    }

    method ReleaseInputs(plan: Plan, keys: seq<nat>, pos: nat)
      modifies this
      ensures State() == ReleaseAll(plan, old(State()), keys, pos) && ops == old(ops)
    {
      for k := 0 to |keys|
        invariant ReleaseAll(plan, State(), keys[k..], pos) == ReleaseAll(plan, old(State()), keys, pos)
        invariant ops == old(ops)
      {
        Release(plan, keys[k], pos);
      }
    }

    /** One node: FILLs, the operation, SPILL before the release, then the releases; or an
        error after the FILLs. */
    method EmitNode(plan: Plan, id: nat, pos: nat) returns (ok: bool)
      modifies this
      ensures ok == Handled(plan, id)
      ensures ok ==> ops == old(ops) + Group(plan, old(State()), id) && State() == AfterNode(plan, old(State()), id, pos)
      ensures !ok ==> ops == old(ops) + Fills(plan, old(State()), plan.nodes[id].ins) && State() == old(State())
    {
      if !Emits(plan, id) {
        return true;
      }
      var keys := plan.nodes[id].ins;
      EmitFills(plan, keys);
      if !plan.nodes[id].supported {
        return false;
      }
      var srcs := seq(|keys|, k requires 0 <= k < |keys| reads this => if keys[k] in opTemp then Temp(opTemp[keys[k]], keys[k]) else Slot(keys[k]));
      assert srcs == SourceRefs(State(), keys);
      var dst := NewTemp(id);
      ops := ops + [Compute(id, srcs, dst)];
      if id in plan.spill {
        ops := ops + [Spill(opTemp[id], plan.spill[id].off, plan.spill[id].size / 2)];
      }
      assert ops == old(ops) + Group(plan, old(State()), id);
      ReleaseInputs(plan, keys, pos);
      return true;
    }

    /** The emission loop over the planned order; it stops at the first error. */
    method EmitAll(plan: Plan, order: seq<nat>) returns (ok: bool)
      requires ops == [] && State() == START
      modifies this
      ensures ok <==> forall p :: 0 <= p < |order| && order[p] in plan.nodes && plan.nodes[order[p]].emits ==> plan.nodes[order[p]].supported
      ensures ok ==> ops == OpsAt(plan, order, |order|) && State() == AllocAt(plan, order, |order|)
    {
      ok := EmitNodes(plan, order);
      HandledSpelledOut(plan, order);
    }

    method EmitNodes(plan: Plan, order: seq<nat>) returns (ok: bool)
      requires ops == [] && State() == START
      modifies this
      ensures ok <==> AllHandled(plan, order, |order|)
      ensures ok ==> Emitted(plan, order, |order|, ops, State())
    {
      for pos := 0 to |order|
        invariant AllHandled(plan, order, pos) && Emitted(plan, order, pos, ops, State())
      {
        ghost var emitted, a := ops, State();
        ok := EmitNode(plan, order[pos], pos);
        if !ok {
          return;
        }
        MoreEmitted(plan, order, pos, emitted, a);
      }
      ok := true;
    }

    /** Where the graph's output is read when all is emitted. */
    method OutputRef(output: nat) returns (r: Ref)
      ensures r == SourceRef(State(), output) && r == if output in opTemp then Temp(opTemp[output], output) else Slot(output)
    {
      if output in opTemp {
        return Temp(opTemp[output], output);
      }
      return Slot(output);
    }
  }

  /** Key k is consumed at position p. */
  ghost predicate UsedAt(nodes: map<nat, Node>, order: seq<nat>, p: int, k: nat) {
    0 <= p < |order| && order[p] in nodes && k in nodes[order[p]].ins
  }

  /** compute_last_use: the last position that consumes each key. */
  method ComputeLastUse(nodes: map<nat, Node>, order: seq<nat>) returns (lastUse: map<nat, nat>)
    ensures forall k, p :: UsedAt(nodes, order, p, k) ==> k in lastUse && p <= lastUse[k]
    ensures forall k :: k in lastUse ==> UsedAt(nodes, order, lastUse[k], k)
  {
    lastUse := map[];
    for pos := 0 to |order|
      invariant forall k, p :: p < pos && UsedAt(nodes, order, p, k) ==> k in lastUse && p <= lastUse[k]
      invariant forall k :: k in lastUse ==> lastUse[k] < pos && UsedAt(nodes, order, lastUse[k], k)
    {
      if order[pos] in nodes {
        lastUse := NoteUses(lastUse, nodes[order[pos]].ins, pos);
      }
    }
  }

  /** Last uses, with the operand of the graph's output kept beyond the whole order. */
  method LastUses(nodes: map<nat, Node>, order: seq<nat>, output: Option<nat>) returns (lastUse: map<nat, nat>)
    ensures forall k, p :: UsedAt(nodes, order, p, k) ==> k in lastUse && p <= lastUse[k]
    ensures output.Some? ==> output.value in lastUse && lastUse[output.value] == |order|
    ensures forall k :: k in lastUse && output != Some(k) ==> UsedAt(nodes, order, lastUse[k], k)
  {
    lastUse := ComputeLastUse(nodes, order);
    if output.Some? {
      lastUse := lastUse[output.value := |order|];
    }
  }

  method NoteUses(lastUse: map<nat, nat>, keys: seq<nat>, pos: nat) returns (r: map<nat, nat>)
    ensures forall k :: k in r <==> k in lastUse || k in keys
    ensures forall k :: k in r ==> r[k] == if k in keys then pos else lastUse[k]
  {
    r := lastUse;
    for i := 0 to |keys|
      invariant forall k :: k in r <==> k in lastUse || k in keys[..i]
      invariant forall k :: k in r ==> r[k] == if k in keys[..i] then pos else lastUse[k]
    {
      r := r[keys[i] := pos];
    }
    assert keys[..|keys|] == keys;
  }
}
