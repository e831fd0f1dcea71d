/** Slots of an open-addressing table, as values: when a search is right, and what writing
    one slot does to the map that the table stands for (compiler/src/ir/graph_deps.cpp:14-74). */
module HashTable {
  import opened ProbeSequence

  /** A 64-bit operation id. */
  type Id = x: int | 0 <= x < 0x1_0000_0000_0000_0000

  /** What a descriptor knows of its operation; an `opdef` of 0 is the null pointer and a
      `predecessor` of 0 is none. */
  datatype Desc = Desc(opdef: nat, distance: nat, predecessor: nat)

  const UNUSED := Desc(0, 0, 0)

  /** A slot; flags 0 means empty and 1 occupied. */
  datatype Slot = Slot(op_id: Id, flags: nat, desc: Desc)

  const EMPTY := Slot(0, 0, UNUSED)

  function FibonacciHash(id: bv64): bv64 {
    var h1 := (id >> 32) * 0x192e2101;
    var lo := (id ^ h1) & 0xffff_ffff;
    var h := lo * 0x740f1de9;
    (h >> 32) ^ h
  }

  /** Both multipliers and all shifts at work. */
  lemma HashSamples()
    ensures FibonacciHash(1) == 0x740f1de9 && FibonacciHash(0xffff_ffff) == 0x740f1de8_ffff_ffff
    ensures FibonacciHash(0x1_0000_0000) == 0x0b6a_6399_8ca2_4570 && FibonacciHash(0x1234_5678_9abc_def0) == 0x3dce_9867_6d8d_ebaf
  {
  }

  function Hash(id: Id): nat {
    FibonacciHash(id as bv64) as nat
  }

  /** Bits 16 to 31 of the hash shifted by 15, with the lowest bit set. */
  function StepOf(h: nat): (s: nat)
    ensures s % 2 == 1
  {
    (h / 0x8000) % 0x20000 / 2 * 2 + 1
  }

  /** Bits 16 to 31, doubled, plus one. */
  lemma StepIsOdd(h: nat)
    ensures StepOf(h) == 2 * (h / 0x1_0000 % 0x1_0000) + 1
  {
    var q := h / 0x8000;
    assert q / 2 == h / 0x1_0000;
    assert q % 0x2_0000 / 2 == q / 2 % 0x1_0000;
  }

  /** Slot of the i-th probe for an id in a table of 2^e slots: 32-bit wrap-around and masking
      come to the remainder, because 2^e divides 2^32. */
  function Path(id: Id, e: nat, i: nat): (k: nat)
    ensures k < Pow2(e)
  {
    Probe(Hash(id), StepOf(Hash(id)), Pow2(e), i)
  }

  /** The probe of an id that sees slot k. */
  function TurnOf(id: Id, e: nat, k: nat): (i: nat)
    requires k < Pow2(e)
    ensures i < Pow2(e)
  {
    ProbeOf(Hash(id), StepOf(Hash(id)), e, k)
  }

  lemma TurnAndPath(id: Id, e: nat)
    ensures forall k: nat :: k < Pow2(e) ==> Path(id, e, TurnOf(id, e, k)) == k
    ensures forall i: nat :: i < Pow2(e) ==> TurnOf(id, e, Path(id, e, i)) == i
  {
    var h := Hash(id);
    forall k: nat | k < Pow2(e) ensures Path(id, e, TurnOf(id, e, k)) == k { ProbeReaches(h, StepOf(h), e, k); }
    forall i: nat | i < Pow2(e) ensures TurnOf(id, e, Path(id, e, i)) == i { ProbeIsProbeOf(h, StepOf(h), e, i); }
  }

  // ----- What the table stands for -----

  predicate Occupied(s: seq<Slot>, k: int) {
    0 <= k < |s| && s[k].flags == 1
  }

  ghost predicate Distinct(s: seq<Slot>) {
    forall i, j :: Occupied(s, i) && Occupied(s, j) && s[i].op_id == s[j].op_id ==> i == j
  }

  function Ids(s: seq<Slot>): set<Id> {
    set k | 0 <= k < |s| && Occupied(s, k) :: s[k].op_id
  }

  ghost function SlotOf(s: seq<Slot>, id: Id): (k: int)
    requires id in Ids(s)
    ensures Occupied(s, k) && s[k].op_id == id
  {
    var k :| Occupied(s, k) && s[k].op_id == id;
    k
  }

  ghost function Contents(s: seq<Slot>): map<Id, Desc> {
    map id | id in Ids(s) :: s[SlotOf(s, id)].desc
  }

  lemma ContentsAt(s: seq<Slot>, k: int)
    requires Distinct(s) && Occupied(s, k)
    ensures s[k].op_id in Ids(s) && SlotOf(s, s[k].op_id) == k && Contents(s)[s[k].op_id] == s[k].desc
  {
  }

  /** Empty slots are untouched ones, ids do not repeat, and no key lies beyond an empty slot
      of its probe path. */
  ghost predicate WellFormed(s: seq<Slot>, e: nat) {
    && |s| == Pow2(e)
    && (forall k :: 0 <= k < |s| ==> s[k].flags == 1 || (s[k].flags == 0 && s[k].desc == UNUSED))
    && Distinct(s)
    && NoKeyBeyondGap(s, e)
  }

  ghost predicate NoKeyBeyondGap(s: seq<Slot>, e: nat)
    requires |s| == Pow2(e)
  {
    forall k: nat, i: nat :: Occupied(s, k) && i < TurnOf(s[k].op_id, e, k) ==> Occupied(s, Path(s[k].op_id, e, i))
  }

  // ----- Search -----

  datatype Place = Found(at: nat) | Vacant(at: nat) | Full

  /** Probe from the i-th slot of the path up to the id or an empty slot. */
  function Search(s: seq<Slot>, e: nat, id: Id, i: nat): Place
    requires |s| == Pow2(e) && i <= |s|
    decreases |s| - i
  {
    if i == |s| then Full
    else
      var p := Path(id, e, i);
      if s[p].flags == 1 && s[p].op_id == id then Found(p)
      else if s[p].flags == 0 then Vacant(p)
      else Search(s, e, id, i + 1)
  }

  /** Another id occupies the first n slots of the path. */
  ghost predicate PathTaken(s: seq<Slot>, e: nat, id: Id, n: nat)
    requires |s| == Pow2(e)
  {
    forall i: nat :: i < n ==> Occupied(s, Path(id, e, i)) && s[Path(id, e, i)].op_id != id
  }

  ghost predicate Located(s: seq<Slot>, e: nat, id: Id, place: Place)
    requires |s| == Pow2(e)
  {
    if place.Full? then PathTaken(s, e, id, |s|)
    else
      && place.at < |s|
      && (place.Found? ==> s[place.at].flags == 1 && s[place.at].op_id == id)
      && (place.Vacant? ==> s[place.at].flags == 0 && PathTaken(s, e, id, TurnOf(id, e, place.at)))
  }

  lemma {:induction false} SearchFrom(s: seq<Slot>, e: nat, id: Id, i: nat)
    requires WellFormed(s, e) && i <= |s| && PathTaken(s, e, id, i)
    ensures Located(s, e, id, Search(s, e, id, i))
    decreases |s| - i
  {
    if i < |s| {
      var p := Path(id, e, i);
      if s[p].flags == 1 && s[p].op_id == id {
      } else if s[p].flags == 0 {
        TurnAndPath(id, e);
      } else {
        SearchFrom(s, e, id, i + 1);
      }
    }
  }

  /** A search finds an id exactly when it is in the table, and is at a loss only when every
      slot is occupied. */
  lemma SearchIsRight(s: seq<Slot>, e: nat, id: Id)
    requires WellFormed(s, e)
    ensures Located(s, e, id, Search(s, e, id, 0))
    ensures Search(s, e, id, 0).Found? <==> id in Ids(s)
    ensures Search(s, e, id, 0).Found? ==> Contents(s)[id] == s[Search(s, e, id, 0).at].desc
    ensures Search(s, e, id, 0).Full? ==> |Ids(s)| == |s|
  {
    SearchFrom(s, e, id, 0);
    TurnAndPath(id, e);
    match Search(s, e, id, 0)
    case Found(p) => ContentsAt(s, p);
    case Vacant(p) => NotBeyond(s, e, id, TurnOf(id, e, p));
    case Full =>
      NotBeyond(s, e, id, |s|);
      forall k: nat | k < |s| ensures Occupied(s, k) { assert Occupied(s, Path(id, e, TurnOf(id, e, k))); }
      FullTable(s, |s|);
      assert s[..|s|] == s;
  }

  /** An id is nowhere when others hold its path up to an empty slot or all around. */
  lemma NotBeyond(s: seq<Slot>, e: nat, id: Id, n: nat)
    requires WellFormed(s, e) && n <= |s| && PathTaken(s, e, id, n)
    requires n < |s| ==> !Occupied(s, Path(id, e, n))
    ensures id !in Ids(s)
  {
    TurnAndPath(id, e);
    forall k: nat | Occupied(s, k)
      ensures s[k].op_id != id
    {
      var i := TurnOf(id, e, k);
      assert Path(id, e, i) == k;
      if i > n {
        assert s[k].op_id == id ==> Occupied(s, Path(id, e, n));
      }
    }
  }

  lemma {:induction false} FullTable(s: seq<Slot>, n: nat)
    requires Distinct(s) && n <= |s| && forall k: nat :: k < n ==> Occupied(s, k)
    ensures |Ids(s[..n])| == n
  {
    if n > 0 {
      FullTable(s, n - 1);
      var before, x := Ids(s[..n - 1]), s[n - 1].op_id;
      assert x !in before by {
        if x in before {
          var k := SlotOf(s[..n - 1], x);
        }
      }
      IdsOfPrefix(s, n);
    }
  }

  lemma IdsOfPrefix(s: seq<Slot>, n: nat)
    requires 0 < n <= |s|
    ensures Ids(s[..n]) == Ids(s[..n - 1]) + (if Occupied(s, n - 1) then {s[n - 1].op_id} else {})
  {
    var a, b := s[..n], s[..n - 1];
    forall x | x in Ids(a)
      ensures x in Ids(b) + (if Occupied(s, n - 1) then {s[n - 1].op_id} else {})
    {
      var k := SlotOf(a, x);
      assert k < n - 1 ==> Occupied(b, k) && b[k].op_id == x;
    }
    forall x | x in Ids(b)
      ensures x in Ids(a)
    {
      var k := SlotOf(b, x);
      assert Occupied(a, k) && a[k].op_id == x;
    }
    assert Occupied(s, n - 1) ==> Occupied(a, n - 1) && a[n - 1].op_id == s[n - 1].op_id;
  }

  // ----- Writing -----

  /** An empty slot at the end of its path takes a new id. */
  lemma FillVacant(s: seq<Slot>, e: nat, id: Id, p: nat)
    requires WellFormed(s, e) && p < |s| && s[p].flags == 0 && id !in Ids(s) && PathTaken(s, e, id, TurnOf(id, e, p))
    ensures var r := s[p := s[p].(op_id := id, flags := 1)];
            WellFormed(r, e) && Contents(r) == Contents(s)[id := UNUSED] && |Ids(r)| == |Ids(s)| + 1 && r[p] == Slot(id, 1, UNUSED)
  {
    var r := s[p := Slot(id, 1, UNUSED)];
    FilledIsDistinct(s, p, r[p]);
    SameContents(s, r, p);
    FilledHasNoGap(s, e, p, r[p]);
    KeysAreIds(s);
    KeysAreIds(r);
    assert Ids(r) == Ids(s) + {id};
  }

  lemma KeysAreIds(s: seq<Slot>)
    ensures Contents(s).Keys == Ids(s)
  {
  }

  lemma FilledIsDistinct(s: seq<Slot>, p: nat, x: Slot)
    requires Distinct(s) && p < |s| && x.flags == 1 && x.op_id !in Ids(s)
    ensures Distinct(s[p := x])
  {
    var r := s[p := x];
    assert forall k :: Occupied(r, k) && k != p ==> Occupied(s, k) && s[k].op_id in Ids(s);
  }

  lemma FilledHasNoGap(s: seq<Slot>, e: nat, p: nat, x: Slot)
    requires |s| == Pow2(e) && NoKeyBeyondGap(s, e) && p < |s| && x.flags == 1 && s[p].flags == 0
    requires PathTaken(s, e, x.op_id, TurnOf(x.op_id, e, p))
    ensures NoKeyBeyondGap(s[p := x], e)
  {
    assert forall k :: Occupied(s, k) ==> Occupied(s[p := x], k);
  }

  lemma SameContents(s: seq<Slot>, r: seq<Slot>, p: nat)
    requires Distinct(s) && Distinct(r) && Occupied(r, p) && |r| == |s|
    requires Occupied(s, p) ==> s[p].op_id == r[p].op_id
    requires forall k :: k != p ==> Occupied(r, k) == Occupied(s, k) && (Occupied(s, k) ==> r[k] == s[k])
    ensures Contents(r) == Contents(s)[r[p].op_id := r[p].desc]
  {
    ContentsAt(r, p);
    forall id | id in Ids(r)
      ensures id == r[p].op_id || (id in Ids(s) && Contents(s)[id] == Contents(r)[id])
    {
      var k := SlotOf(r, id);
      if k != p { ContentsAt(s, k); }
    }
    forall id | id in Ids(s)
      ensures id in Ids(r)
    {
      var k := SlotOf(s, id);
      ContentsAt(r, k);
    }
  }

  /** An occupied slot takes a new value. */
  lemma Overwrite(s: seq<Slot>, e: nat, p: nat, desc: Desc)
    requires WellFormed(s, e) && Occupied(s, p)
    ensures var r := s[p := s[p].(desc := desc)];
            WellFormed(r, e) && Contents(r) == Contents(s)[s[p].op_id := desc] && Ids(r) == Ids(s)
  {
    var r := s[p := s[p].(desc := desc)];
    assert forall k :: Occupied(r, k) == Occupied(s, k) && (Occupied(s, k) ==> r[k].op_id == s[k].op_id);
    SameContents(s, r, p);
    ContentsAt(s, p);
    KeysAreIds(s);
    KeysAreIds(r);
  }

  /** One more slot of a list. */
  lemma ContentsOfPrefix(s: seq<Slot>, n: nat)
    requires Distinct(s) && 0 < n <= |s|
    ensures Contents(s[..n]) == if Occupied(s, n - 1) then Contents(s[..n - 1])[s[n - 1].op_id := s[n - 1].desc] else Contents(s[..n - 1])
    ensures Occupied(s, n - 1) ==> s[n - 1].op_id !in Ids(s[..n - 1])
  {
    var a, b := s[..n], s[..n - 1];
    IdsOfPrefix(s, n);
    PrefixDistinct(s, n);
    PrefixDistinct(s, n - 1);
    forall id | id in Ids(b)
      ensures id in Ids(a) && Contents(a)[id] == Contents(b)[id] && (Occupied(s, n - 1) ==> id != s[n - 1].op_id)
    {
      var k := SlotOf(b, id);
      assert Occupied(a, k) && Occupied(s, k);
      ContentsAt(a, k);
    }
    if Occupied(s, n - 1) {
      assert Occupied(a, n - 1);
      ContentsAt(a, n - 1);
    }
  }

  lemma PrefixDistinct(s: seq<Slot>, n: nat)
    requires Distinct(s) && n <= |s|
    ensures Distinct(s[..n])
  {
    assert forall k :: Occupied(s[..n], k) ==> Occupied(s, k);
  }

  lemma EmptyTable(s: seq<Slot>, e: nat)
    requires |s| == Pow2(e) && forall k :: 0 <= k < |s| ==> s[k] == EMPTY
    ensures WellFormed(s, e) && Contents(s) == map[] && Ids(s) == {}
  {
  }
}
