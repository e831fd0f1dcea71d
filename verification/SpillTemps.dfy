/** The emitter's temporaries, tensor by tensor (compiler/tools/wtop_ops/wtop_ops.hpp:131-145,
    compiler/tools/wtop_emit.cpp:486-565): which tensors hold one at each position, and that
    no more are made than are in use at some position.
 */
module SpillTemps {
  import opened Sequences
  import opened SpillFill

  /** Node at position q of the order emits an operation. */
  predicate EmitsAt(plan: Plan, order: seq<nat>, q: int) {
    0 <= q < |order| && order[q] in plan.nodes && plan.nodes[order[q]].emits
  }

  /** Position r consumes tensor k, and no later use of it is recorded. */
  predicate LastUsedAt(plan: Plan, order: seq<nat>, k: nat, r: int) {
    EmitsAt(plan, order, r) && k in plan.nodes[order[r]].ins && (k in plan.lastUse ==> plan.lastUse[k] <= r)
  }

  /** Tensor k was produced before position p, and not used for the last time since. */
  ghost predicate InUse(plan: Plan, order: seq<nat>, p: int, k: nat) {
    exists q :: 0 <= q < p && EmitsAt(plan, order, q) && order[q] == k && forall r :: q <= r < p ==> !LastUsedAt(plan, order, k, r)
  }

  lemma {:induction false} ReleasedKeys(plan: Plan, a: Alloc, keys: seq<nat>, pos: nat, k: nat)
    ensures k in ReleaseAll(plan, a, keys, pos).opTemp
       <==> k in a.opTemp && !(k in keys && (k in plan.lastUse ==> plan.lastUse[k] <= pos))
    decreases |keys|
  {
    if keys != [] {
      ReleasedKeys(plan, ReleaseAt(plan, a, keys[0], pos), keys[1..], pos, k);
    }
  }

  /** A tensor has a temporary exactly while it is in use. */
  lemma {:induction false} TempsAreInUse(plan: Plan, order: seq<nat>, p: nat, k: nat)
    requires Distinct(order) && p <= |order|
    ensures k in AllocAt(plan, order, p).opTemp <==> InUse(plan, order, p, k)
  {
    if p > 0 {
      var a, id := AllocAt(plan, order, p - 1), order[p - 1];
      TempsAreInUse(plan, order, p - 1, k);
      if Emits(plan, id) {
        ReleasedKeys(plan, Allocate(a, id), plan.nodes[id].ins, p - 1, k);
      }
      OneFurther(plan, order, p, k);
    }
  }

  lemma OneFurther(plan: Plan, order: seq<nat>, p: nat, k: nat)
    requires Distinct(order) && 0 < p <= |order|
    ensures InUse(plan, order, p, k) <==>
      (InUse(plan, order, p - 1, k) || (EmitsAt(plan, order, p - 1) && order[p - 1] == k)) && !LastUsedAt(plan, order, k, p - 1)
  {
    if InUse(plan, order, p, k) {
      var q :| 0 <= q < p && EmitsAt(plan, order, q) && order[q] == k && forall r :: q <= r < p ==> !LastUsedAt(plan, order, k, r);
      assert !LastUsedAt(plan, order, k, p - 1);
    }
  }

  // ----- How many -----

  ghost function UseAt(plan: Plan, order: seq<nat>, p: nat): (r: set<nat>)
    ensures forall k :: k in r <==> k in order && InUse(plan, order, p, k)
  {
    set k | k in order && InUse(plan, order, p, k)
  }

  /** The most tensors that are in use at once, when each operation has made its own and not
      yet let go of its operands. */
  ghost function Peak(plan: Plan, order: seq<nat>, p: nat): nat
    requires p <= |order|
  {
    if p == 0 then 0
    else
      var before := Peak(plan, order, p - 1);
      var now := if EmitsAt(plan, order, p - 1) then |UseAt(plan, order, p - 1) + {order[p - 1]}| else 0;
      if now > before then now else before
  }

  /** Every temporary ever made is free or holds a tensor. */
  ghost predicate AllAccounted(a: Alloc) {
    |a.opTemp| + |a.free| == a.nextTemp
  }

  lemma AllocateAccounts(a: Alloc, id: nat)
    requires AllAccounted(a) && id !in a.opTemp
    ensures AllAccounted(Allocate(a, id))
    ensures Allocate(a, id).nextTemp == if |a.opTemp| + 1 > a.nextTemp then |a.opTemp| + 1 else a.nextTemp
  {
    var b := Allocate(a, id);
    assert b.opTemp.Keys == a.opTemp.Keys + {id};
    assert |b.opTemp| == |b.opTemp.Keys| && |a.opTemp| == |a.opTemp.Keys|;
  }

  lemma {:induction false} ReleaseAccounts(plan: Plan, a: Alloc, keys: seq<nat>, pos: nat)
    requires AllAccounted(a)
    ensures AllAccounted(ReleaseAll(plan, a, keys, pos)) && ReleaseAll(plan, a, keys, pos).nextTemp == a.nextTemp
    decreases |keys|
  {
    if keys != [] {
      var b := ReleaseAt(plan, a, keys[0], pos);
      if b != a {
        assert b.opTemp.Keys == a.opTemp.Keys - {keys[0]};
        assert |b.opTemp| == |b.opTemp.Keys| && |a.opTemp| == |a.opTemp.Keys|;
      }
      ReleaseAccounts(plan, b, keys[1..], pos);
    }
  }

  lemma KeysInUse(plan: Plan, order: seq<nat>, p: nat)
    requires Distinct(order) && p <= |order|
    ensures AllocAt(plan, order, p).opTemp.Keys == UseAt(plan, order, p)
  {
    forall k: nat
      ensures k in AllocAt(plan, order, p).opTemp <==> k in UseAt(plan, order, p)
    {
      TempsAreInUse(plan, order, p, k);
    }
  }

  /** The emitter makes exactly as many temporaries as are in use at once. */
  lemma {:induction false} TempsArePeak(plan: Plan, order: seq<nat>, p: nat)
    requires Distinct(order) && p <= |order|
    ensures AllAccounted(AllocAt(plan, order, p)) && AllocAt(plan, order, p).nextTemp == Peak(plan, order, p)
  {
    if p > 0 {
      var a, id := AllocAt(plan, order, p - 1), order[p - 1];
      TempsArePeak(plan, order, p - 1);
      if Emits(plan, id) {
        NotYetProduced(plan, order, p - 1);
        AllocateAccounts(a, id);
        ReleaseAccounts(plan, Allocate(a, id), plan.nodes[id].ins, p - 1);
        KeysInUse(plan, order, p - 1);
        assert |a.opTemp| == |a.opTemp.Keys|;
        assert id !in UseAt(plan, order, p - 1);
        assert |UseAt(plan, order, p - 1) + {id}| == |UseAt(plan, order, p - 1)| + 1;
      }
    }
  }

  lemma NotYetProduced(plan: Plan, order: seq<nat>, p: nat)
    requires Distinct(order) && p < |order|
    ensures order[p] !in AllocAt(plan, order, p).opTemp
  {
    TempsAreInUse(plan, order, p, order[p]);
  }
}
