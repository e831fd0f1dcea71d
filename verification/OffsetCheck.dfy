/** The judge of a static memory plan (kernels/host/check_offsets.c:76-162): bounds,
    alignment, lifetimes and aliasing of the temporaries in one shared pool.
 */
module OffsetCheck {

  const U64 := 0x1_0000_0000_0000_0000

  /** One tensor of the plan; every field is a 64-bit unsigned integer. */
  datatype Row = Row(opId: int, offset: int, size: int, lifeBegin: int, lifeEnd: int)

  ghost predicate Fits(r: Row) {
    && 0 <= r.opId < U64 && 0 <= r.offset < U64 && 0 <= r.size < U64
    && 0 <= r.lifeBegin < U64 && 0 <= r.lifeEnd < U64
  }

  /** offset + size, with the wrap-around of 64-bit addition. */
  function End(r: Row): int {
    (r.offset + r.size) % U64
  }

  predicate LivesOverlap(a: Row, b: Row) {
    a.lifeBegin < b.lifeEnd && b.lifeBegin < a.lifeEnd
  }

  predicate AddrOverlap(a: Row, b: Row) {
    a.offset < End(b) && b.offset < End(a)
  }

  datatype Verdict = Ok | Fail | Usage

  /** What the judge promises: nothing out of bounds (when a capacity is given), every
      offset aligned, every lifetime non-empty, no two live tensors sharing an address. */
  ghost predicate SoundPlan(rows: seq<Row>, poolCap: int, align: int)
    requires align > 0
  {
    && (forall i :: 0 <= i < |rows| ==> SoundRow(rows[i], poolCap, align))
    && (forall i, j :: 0 <= i < j < |rows| ==> !(LivesOverlap(rows[i], rows[j]) && AddrOverlap(rows[i], rows[j])))
  }

  ghost predicate SoundRow(r: Row, poolCap: int, align: int)
    requires align > 0
  {
    (poolCap != 0 ==> End(r) <= poolCap) && r.offset % align == 0 && r.lifeBegin < r.lifeEnd
  }

  // ----- The same, time by time and byte by byte -----

  predicate Alive(r: Row, t: int) {
    r.lifeBegin <= t < r.lifeEnd
  }

  /** A row occupies byte b of the pool at time t. */
  predicate Occupies(r: Row, t: int, b: int) {
    Alive(r, t) && r.offset <= b < r.offset + r.size
  }

  ghost predicate AliveTogether(a: Row, b: Row) {
    exists t :: Alive(a, t) && Alive(b, t)
  }

  ghost predicate Share(a: Row, b: Row) {
    exists t, x :: Occupies(a, t, x) && Occupies(b, t, x)
  }

  /** An empty row lies strictly inside another while both are alive. */
  ghost predicate CutsInto(a: Row, b: Row) {
    a.size == 0 && b.offset < a.offset < b.offset + b.size && AliveTogether(a, b)
  }

  /** What a plan must be when no row wraps around: inside the capacity if one is given,
      aligned, alive at some time, and no byte occupied twice at any time.  An empty row
      occupies nothing, but must not lie strictly inside another. */
  ghost predicate Accepted(rows: seq<Row>, poolCap: int, align: int)
    requires align > 0
  {
    && (forall i :: 0 <= i < |rows| ==> AcceptedRow(rows[i], poolCap, align))
    && (forall i, j :: 0 <= i < |rows| && 0 <= j < |rows| && i != j ==> !Share(rows[i], rows[j]) && !CutsInto(rows[i], rows[j]))
  }

  ghost predicate AcceptedRow(r: Row, poolCap: int, align: int)
    requires align > 0
  {
    && (poolCap != 0 ==> r.offset + r.size <= poolCap)
    && r.offset % align == 0
    && (exists t :: Alive(r, t))
  }

  lemma RowIsAccepted(r: Row, poolCap: int, align: int)
    requires align > 0 && Fits(r) && r.offset + r.size < U64
    ensures SoundRow(r, poolCap, align) <==> AcceptedRow(r, poolCap, align)
  {
    EndWithoutWrap(r);
    if SoundRow(r, poolCap, align) {
      assert Alive(r, r.lifeBegin);
    }
  }

  lemma EndWithoutWrap(r: Row)
    requires Fits(r) && r.offset + r.size < U64
    ensures End(r) == r.offset + r.size
  {
  }

  lemma ConflictIsShared(a: Row, b: Row)
    requires Fits(a) && Fits(b) && a.offset + a.size < U64 && b.offset + b.size < U64
    requires a.lifeBegin < a.lifeEnd && b.lifeBegin < b.lifeEnd
    ensures LivesOverlap(a, b) && AddrOverlap(a, b) <==> Share(a, b) || CutsInto(a, b) || CutsInto(b, a)
  {
    EndWithoutWrap(a);
    EndWithoutWrap(b);
    var t := if a.lifeBegin < b.lifeBegin then b.lifeBegin else a.lifeBegin;
    var x := if a.offset < b.offset then b.offset else a.offset;
    if LivesOverlap(a, b) && AddrOverlap(a, b) {
      assert Alive(a, t) && Alive(b, t);
      assert a.size > 0 && b.size > 0 ==> Occupies(a, t, x) && Occupies(b, t, x);
    }
  }

  /** The judge's arithmetic says what it means. */
  lemma SoundIsAccepted(rows: seq<Row>, poolCap: int, align: int)
    requires align > 0 && forall i :: 0 <= i < |rows| ==> Fits(rows[i]) && rows[i].offset + rows[i].size < U64
    ensures SoundPlan(rows, poolCap, align) <==> Accepted(rows, poolCap, align)
  {
    forall i | 0 <= i < |rows|
      ensures SoundRow(rows[i], poolCap, align) <==> AcceptedRow(rows[i], poolCap, align)
    {
      RowIsAccepted(rows[i], poolCap, align);
    }
    if forall i :: 0 <= i < |rows| ==> SoundRow(rows[i], poolCap, align) {
      forall i, j | 0 <= i < j < |rows|
        ensures LivesOverlap(rows[i], rows[j]) && AddrOverlap(rows[i], rows[j])
           <==> Share(rows[i], rows[j]) || CutsInto(rows[i], rows[j]) || CutsInto(rows[j], rows[i])
        ensures Share(rows[i], rows[j]) <==> Share(rows[j], rows[i])
      {
        assert SoundRow(rows[i], poolCap, align) && SoundRow(rows[j], poolCap, align);
        ConflictIsShared(rows[i], rows[j]);
      }
      if SoundPlan(rows, poolCap, align) {
        AllPairs(rows);
      }
    }
  }

  lemma AllPairs(rows: seq<Row>)
    requires forall i, j :: 0 <= i < j < |rows| ==>
      !Share(rows[i], rows[j]) && !Share(rows[j], rows[i]) && !CutsInto(rows[i], rows[j]) && !CutsInto(rows[j], rows[i])
    ensures forall i, j :: 0 <= i < |rows| && 0 <= j < |rows| && i != j ==> !Share(rows[i], rows[j]) && !CutsInto(rows[i], rows[j])
  {
  }

  method CheckRow(r: Row, poolCap: int, align: int) returns (fails: nat)
    requires align > 0
    ensures fails == 0 <==> SoundRow(r, poolCap, align)
  {
    fails := 0;
    if poolCap != 0 && End(r) > poolCap {
      fails := fails + 1;
    }
    if r.offset % align != 0 {
      fails := fails + 1;
    }
    if r.lifeEnd <= r.lifeBegin {
      fails := fails + 1;
    }
  }

  /** The verdict and the pool usage; alias reporting stops after 51 conflicts. */
  method CheckOffsets(rows: array<Row>, poolCap: int, align: int) returns (verdict: Verdict, used: int)
    requires 0 <= poolCap < U64 && 0 < align < U64
    ensures verdict == if rows.Length == 0 then Usage else if SoundPlan(rows[..], poolCap, align) then Ok else Fail
    ensures (forall i :: 0 <= i < rows.Length ==> Fits(rows[i]) && rows[i].offset + rows[i].size < U64) ==>
      (verdict == Ok <==> rows.Length > 0 && Accepted(rows[..], poolCap, align))
    ensures verdict != Usage ==> forall i :: 0 <= i < rows.Length ==> End(rows[i]) <= used
    ensures verdict != Usage ==> used == 0 || exists i :: 0 <= i < rows.Length && End(rows[i]) == used
  {
    if rows.Length == 0 {
      return Usage, 0;
    }
    var gFail := 0;
    for i := 0 to rows.Length
      invariant gFail >= 0
      invariant gFail == 0 <==> forall k :: 0 <= k < i ==> SoundRow(rows[k], poolCap, align)
    {
      var fails := CheckRow(rows[i], poolCap, align);
      gFail := gFail + fails;
    }

    var aliases := 0;
    ghost var rowsSound := gFail == 0;
    var i := 0;
    while i < rows.Length
      invariant 0 <= i
      invariant 0 <= aliases <= gFail && (gFail == 0 <==> rowsSound && aliases == 0)
      invariant aliases == 0 ==> i <= rows.Length && NoConflictBelow(rows[..], i, 0)
      invariant aliases > 0 ==> !NoConflict(rows[..])
    {
      var j := i + 1;
      while j < rows.Length
        invariant i < j
        invariant 0 <= aliases <= gFail && (gFail == 0 <==> rowsSound && aliases == 0)
        invariant aliases == 0 ==> i < rows.Length && j <= rows.Length && NoConflictBelow(rows[..], i, j)
        invariant aliases > 0 ==> !NoConflict(rows[..])
        invariant j < rows.Length ==> i < rows.Length
        decreases rows.Length - j
      {
        if LivesOverlap(rows[i], rows[j]) && AddrOverlap(rows[i], rows[j]) {
          assert rows[..][i] == rows[i] && rows[..][j] == rows[j];
          aliases := aliases + 1;
          gFail := gFail + 1;
          if aliases > 50 {
            i := rows.Length;
            break;
          }
        }
        j := j + 1;
      }
      i := i + 1;
    }

    used := 0;
    for k := 0 to rows.Length
      invariant forall m :: 0 <= m < k ==> End(rows[m]) <= used
      invariant used == 0 || exists m :: 0 <= m < k && End(rows[m]) == used
    {
      if End(rows[k]) > used {
        used := End(rows[k]);
      }
    }
    verdict := if gFail != 0 then Fail else Ok;
    if forall i :: 0 <= i < rows.Length ==> Fits(rows[i]) && rows[i].offset + rows[i].size < U64 {
      SoundIsAccepted(rows[..], poolCap, align);
    }
  }

  ghost predicate NoConflict(rows: seq<Row>) {
    NoConflictBelow(rows, |rows|, 0)
  }

  /** No conflict in the pairs visited before row i, column j. */
  ghost predicate NoConflictBelow(rows: seq<Row>, i: int, j: int) {
    forall a, b :: 0 <= a < b < |rows| && (a < i || (a == i && b < j)) ==>
      !(LivesOverlap(rows[a], rows[b]) && AddrOverlap(rows[a], rows[b]))
  }
}
