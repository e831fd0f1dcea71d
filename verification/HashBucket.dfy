/** The descriptor table of the dependency engine, probed, grown and rebuilt in place
    (compiler/src/ir/graph_deps.cpp:22-126, 385-417).
 */
module HashBucket {
  import opened Options
  import opened ProbeSequence
  import opened HashTable

  class OpDescHashBucket {
    var slots: seq<Slot>
    var mask: nat
    var count: nat
    ghost var exponent: nat

    /** Either not set up yet, or well formed. */
    ghost predicate Valid()
      reads this
    {
      && count == |Ids(slots)|
      && if mask == 0 then slots == [] else |slots| == mask + 1 && WellFormed(slots, exponent)
    }

    /** The map from ids to descriptors that the table holds. */
    ghost function Map(): map<Id, Desc>
      reads this
    {
      Contents(slots)
    }

    /** The next insertion of a new id makes the table grow. */
    predicate AtLimit()
      reads this
    {
      mask != 0 && count >= |slots|
    }

    constructor ()
      ensures Valid() && Map() == map[] && mask == 0
    {
      slots, mask, count := [], 0, 0;
    }

    /** An empty table with room for twice the capacity. */
    method Init(capacity: nat)
      modifies this
      ensures Valid() && Map() == map[] && count == 0
      ensures |slots| >= 16 && |slots| >= 2 * capacity && mask != 0
      ensures |slots| == 16 || |slots| < 4 * capacity
    {
      var sz := 16;
      exponent := 4;
      assert Pow2(4) == 2 * Pow2(3) == 4 * Pow2(2) == 8 * Pow2(1) == 16;
      while sz < capacity * 2
        invariant sz == Pow2(exponent) && sz >= 16
        invariant sz == 16 || sz < 4 * capacity
        decreases capacity * 2 - sz
      {
        sz := sz * 2;
        exponent := exponent + 1;
      }
      mask := sz - 1;
      slots := seq(sz, _ => EMPTY);
      count := 0;
      EmptyTable(slots, exponent);
    }

    /** Follow the path of an id up to its slot or an empty one. */
    method Locate(id: Id) returns (place: Place)
      requires Valid() && mask != 0
      ensures place == Search(slots, exponent, id, 0)
    {
      var bucket, step := Hash(id) % (mask + 1), StepOf(Hash(id));
      PathAdvances(id, exponent, 0);
      var i := 0;
      while i <= mask
        invariant 0 <= i <= mask + 1
        invariant bucket == Path(id, exponent, i)
        invariant Search(slots, exponent, id, i) == Search(slots, exponent, id, 0)
      {
        if slots[bucket].flags == 1 && slots[bucket].op_id == id {
          return Found(bucket);
        }
        if slots[bucket].flags == 0 {
          return Vacant(bucket);
        }
        PathAdvances(id, exponent, i);
        bucket := (bucket + step) % (mask + 1);
        i := i + 1;
      }
      return Full;
    }

    /** The slot of an id, when the table holds it. */
    method Lookup(id: Id) returns (r: Option<nat>)
      requires Valid()
      ensures r.Some? <==> id in Map()
      ensures r.Some? ==> r.value < |slots| && slots[r.value] == Slot(id, 1, Map()[id])
    {
      if mask == 0 {
        return None;
      }
      SearchIsRight(slots, exponent, id);
      var place := Locate(id);
      match place
      case Found(bucket) => return Some(bucket);
      case Vacant(_) => return None;
      case Full => return None;
    }

    /** Find the slot of an id, or take an empty one for it; a full table grows first.
        Nothing else changes. */
    method Insert(id: Id) returns (k: nat)
      requires Valid()
      modifies this
      ensures Valid() && mask != 0 && k < |slots| && Map() == Inserted(old(Map()), id)
      ensures slots[k] == Slot(id, 1, Map()[id])
      ensures count == if id in old(Map()) then old(count) else old(count) + 1
      ensures old(mask) != 0 && (id in old(Map()) || !old(AtLimit())) ==> |slots| == old(|slots|)
      decreases if AtLimit() then 1 else 0, 1
    {
      if mask == 0 {
        Init(64);
      }
      SearchIsRight(slots, exponent, id);
      var place := Locate(id);
      match place
      case Found(bucket) =>
        k := bucket;
      case Vacant(bucket) =>
        Take(bucket, id);
        k := bucket;
      case Full =>
        Grow();
        k := Insert(id);
    }

    /** All occupied slots of a full table move to one at least four times as large. */
    method Grow()
      requires Valid() && AtLimit()
      modifies this
      ensures Valid() && Map() == old(Map()) && count == old(count) && mask != 0 && !AtLimit()
      decreases 1, 0
    {
      var old_slots := slots;
      Init((mask + 1) * 2);
      var i := 0;
      while i < |old_slots|
        invariant 0 <= i <= |old_slots| && Valid() && mask != 0 && count <= i && |slots| >= 4 * |old_slots|
        invariant Map() == Contents(old_slots[..i])
      {
        ContentsOfPrefix(old_slots, i + 1);
        if old_slots[i].flags == 1 {
          Copy(old_slots[i]);
        }
        i := i + 1;
      }
      assert old_slots[..i] == old_slots;
      KeysAreIds(slots);
      KeysAreIds(old_slots);
    }

    /** Insert a descriptor with all its fields. */
    method Copy(s: Slot)
      requires Valid() && mask != 0 && !AtLimit()
      modifies this
      ensures Valid() && mask != 0 && |slots| == old(|slots|) && count <= old(count) + 1
      ensures Map() == old(Map())[s.op_id := s.desc]
      decreases 0, 2
    {
      var ns := Insert(s.op_id);
      Store(ns, s.desc);
    }

    /** An empty slot becomes that of a new id. */
    method Take(bucket: nat, id: Id)
      requires Valid() && mask != 0 && bucket < |slots| && slots[bucket].flags == 0 && id !in Ids(slots)
      requires PathTaken(slots, exponent, id, TurnOf(id, exponent, bucket))
      modifies this`slots, this`count
      ensures Valid() && slots == old(slots)[bucket := Slot(id, 1, UNUSED)]
      ensures Map() == old(Map())[id := UNUSED] && count == old(count) + 1
    {
      FillVacant(slots, exponent, id, bucket);
      slots := slots[bucket := slots[bucket].(op_id := id, flags := 1)];
      count := count + 1;
    }

    /** Write through the slot that a lookup or an insertion returned. */
    method Store(k: nat, desc: Desc)
      requires Valid() && mask != 0 && Occupied(slots, k)
      modifies this`slots
      ensures Valid() && |slots| == old(|slots|)
      ensures Map() == old(Map())[old(slots[k].op_id) := desc]
    {
      Overwrite(slots, exponent, k, desc);
      slots := slots[k := slots[k].(desc := desc)];
    }

    /** Collect the occupied slots and insert them into a table of the size they need. */
    method Rebuild()
      requires Valid()
      modifies this
      ensures Valid() && Map() == old(Map()) && count == old(count)
    {
      if slots == [] {
        return;
      }
      var valid := Collected();
      Init(|valid|);
      Refill(valid);
      KeysAreIds(slots);
      KeysAreIds(old(slots));
    }

    method Refill(valid: seq<Slot>)
      requires Valid() && mask != 0 && count == 0 && Map() == map[]
      requires |slots| >= 16 && |slots| >= 2 * |valid| && AllOccupied(valid) && Distinct(valid)
      modifies this
      ensures Valid() && Map() == Contents(valid)
    {
      var i := 0;
      while i < |valid|
        invariant 0 <= i <= |valid| && Valid() && mask != 0 && count <= i
        invariant |slots| >= 16 && |slots| >= 2 * |valid|
        invariant Map() == Contents(valid[..i])
      {
        ContentsOfPrefix(valid, i + 1);
        Copy(valid[i]);
        i := i + 1;
      }
      assert valid[..i] == valid;
    }

    method Collected() returns (valid: seq<Slot>)
      requires Valid() && mask != 0
      ensures Distinct(valid) && Contents(valid) == Map() && AllOccupied(valid)
    {
      valid := [];
      var i := 0;
      while i < |slots|
        invariant 0 <= i <= |slots|
        invariant AllOccupied(valid) && Distinct(valid) && Contents(valid) == Contents(slots[..i])
      {
        ContentsOfPrefix(slots, i + 1);
        KeysAreIds(valid);
        KeysAreIds(slots[..i]);
        if slots[i].flags == 1 {
          Appended(valid, slots[i]);
          valid := valid + [slots[i]];
        }
        i := i + 1;
      }
      assert slots[..i] == slots;
    }
  }

  predicate AllOccupied(s: seq<Slot>) {
    forall k :: 0 <= k < |s| ==> s[k].flags == 1
  }

  /** The map after an insertion: a new id stands for an unused descriptor. */
  function Inserted(m: map<Id, Desc>, id: Id): map<Id, Desc> {
    if id in m then m else m[id := UNUSED]
  }

  lemma PathAdvances(id: Id, e: nat, i: nat)
    ensures Path(id, e, 0) == Hash(id) % Pow2(e)
    ensures Path(id, e, i + 1) == (Path(id, e, i) + StepOf(Hash(id))) % Pow2(e)
  {
    ProbeAdvances(Hash(id), StepOf(Hash(id)), Pow2(e), i);
  }

  lemma Appended(s: seq<Slot>, x: Slot)
    requires Distinct(s) && x.flags == 1 && x.op_id !in Ids(s)
    ensures Distinct(s + [x]) && Contents(s + [x]) == Contents(s)[x.op_id := x.desc]
  {
    var r := s + [x];
    assert forall k :: Occupied(r, k) && k < |s| ==> Occupied(s, k) && s[k].op_id in Ids(s);
    assert r[..|r| - 1] == s && r[..|r|] == r;
    ContentsOfPrefix(r, |r|);
  }
}
