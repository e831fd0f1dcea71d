/** Archiving the tensors of a flat weight file and reading the archive back, candidate by
    candidate (compiler/tools/hnnx_compile.cpp:231-273, compiler/src/frontend/qnn_ir_loader.cpp:861-899):
    the reader finds under each name the bytes at the place that the tensor has in the file.
 */
module WeightSlices {
  import opened Options
  import opened Bytes
  import opened Tar
  import opened TarReader
  import opened TarHeader
  import opened WeightArchive

  /** No candidate before has the name. */
  ghost predicate First(cands: seq<Cand>, i: int)
    requires 0 <= i < |cands|
  {
    forall j :: 0 <= j < i ==> cands[j].name != cands[i].name
  }

  /** Where the tensors lie in the flat file: the cursor is at ends[i] before candidate i.  The
      first of a name is looked for at the next multiple of four, starts[i], and moves the
      cursor past itself if it is there; an empty or overlong one leaves it at its start, and
      one whose name was seen before leaves it alone. */
  ghost predicate Layout(cands: seq<Cand>, size: nat, ends: seq<nat>, starts: seq<nat>) {
    && |ends| == |cands| + 1 && |starts| == |cands| && ends[0] == 0
    && forall i :: 0 <= i < |cands| ==> Placed(cands, size, ends, starts, i)
  }

  ghost predicate Placed(cands: seq<Cand>, size: nat, ends: seq<nat>, starts: seq<nat>, i: int)
    requires 0 <= i < |cands| == |starts| && |ends| == |cands| + 1
  {
    if First(cands, i) then
      && starts[i] % 4 == 0 && ends[i] <= starts[i] < ends[i] + 4
      && ends[i + 1] == if cands[i].bytes == 0 || starts[i] + cands[i].bytes > size then starts[i] else starts[i] + cands[i].bytes
    else
      ends[i + 1] == ends[i]
  }

  /** Candidate i is the first of its name, not empty, and ends in the flat file. */
  ghost predicate Kept(cands: seq<Cand>, size: nat, starts: seq<nat>, i: int)
    requires 0 <= i < |cands| == |starts|
  {
    First(cands, i) && cands[i].bytes > 0 && starts[i] + cands[i].bytes <= size
  }

  /** What the tensor holds, widened. */
  function Content(cands: seq<Cand>, raw: Bytes, widen: Widening, starts: seq<nat>, i: int): Bytes
    requires 0 <= i < |cands| == |starts| && starts[i] + cands[i].bytes <= |raw|
  {
    widen(cands[i].dtype, raw[starts[i]..starts[i] + cands[i].bytes])
  }

  /** Every kept tensor can be stored: its name survives, and its size has eleven octal digits. */
  ghost predicate Storable(cands: seq<Cand>, raw: Bytes, widen: Widening, starts: seq<nat>)
    requires |cands| == |starts|
  {
    forall i :: 0 <= i < |cands| && Kept(cands, |raw|, starts, i) ==>
      GoodName(cands[i].name) && |Content(cands, raw, widen, starts, i)| < 0x2_0000_0000
  }

  /** The reader finds every kept tensor under its name, and no other name. */
  ghost predicate ReadsTensors(cands: seq<Cand>, raw: Bytes, widen: Widening, starts: seq<nat>, files: map<Bytes, Bytes>)
    requires |cands| == |starts|
  {
    && (forall i :: 0 <= i < |cands| && Kept(cands, |raw|, starts, i) ==>
          cands[i].name in files && files[cands[i].name] == Content(cands, raw, widen, starts, i))
    && (forall x :: x in files ==> exists i :: 0 <= i < |cands| && Kept(cands, |raw|, starts, i) && cands[i].name == x)
  }

  /** Archive and read back.  The archive is a member for each kept tensor and two
      blocks of zeros. */
  method ArchiveAndRead(cands: seq<Cand>, raw: Bytes, widen: Widening, ghost ends: seq<nat>, ghost starts: seq<nat>)
      returns (archive: Option<Bytes>, read: Outcome, ghost files: seq<File>)
    requires Layout(cands, |raw|, ends, starts) && Storable(cands, raw, widen, starts)
    ensures archive.Some? <==> exists i :: 0 <= i < |cands| && Kept(cands, |raw|, starts, i)
    ensures archive.Some? ==> read.Loaded? && ReadsTensors(cands, raw, widen, starts, read.files)
    ensures archive.Some? ==> KeptFiles(cands, raw, widen, starts, |cands|, files) && IsArchive(archive.value, files)
  {
    archive := AdaptWeights(cands, raw, widen);
    read := Loaded(map[]);
    files := FilesTo(cands, raw, widen, starts, |cands|);
    SlicesAreFiles(cands, raw, widen, ends, starts);
    FilesAreKept(cands, raw, widen, ends, starts, |cands|);
    if archive.None? {
      return;
    }
    read := LoadWeightBin(archive.value);
    EightToEleven();
    ClosedIsArchive(files);
    RoundTrip(files);
    NamesOfFiles(files);
    forall i | 0 <= i < |cands| && Kept(cands, |raw|, starts, i)
      ensures cands[i].name in read.files && read.files[cands[i].name] == Content(cands, raw, widen, starts, i)
    {
      var k :| 0 <= k < |files| && files[k] == File(cands[i].name, Content(cands, raw, widen, starts, i));
      FilesOfDistinct(files, k);
    }
  }

  ghost predicate IsArchive(archive: Bytes, files: seq<File>) {
    && |archive| >= 1024 && AllZero(archive[|archive| - 1024..])
    && IsMembers(archive[..|archive| - 1024], files)
  }

  ghost predicate IsMembers(buf: Bytes, files: seq<File>) {
    exists ends :: HoldsMembers(buf, files, ends)
  }

  lemma ClosedIsArchive(files: seq<File>)
    ensures IsArchive(Closed(files), files)
  {
    var ends := ArchiveHoldsMembers(files);
    var all := Closed(files);
    assert all[..|all| - 1024] == Archive(files) && all[|all| - 1024..] == Fill(1024, 0);
  }

  /** For distinct names of tensors that all fit, the places are the running sum, rounded up to
      multiples of four. */
  lemma PlainLayout(cands: seq<Cand>, size: nat, offs: seq<nat>)
    requires |offs| == |cands| && forall i, j :: 0 <= i < j < |cands| ==> cands[i].name != cands[j].name
    requires forall i :: 0 <= i < |cands| ==> cands[i].bytes > 0 && offs[i] + cands[i].bytes <= size && offs[i] % 4 == 0
    requires cands != [] ==> offs[0] == 0
    requires forall i :: 0 < i < |cands| ==> offs[i - 1] + cands[i - 1].bytes <= offs[i] < offs[i - 1] + cands[i - 1].bytes + 4
    ensures Layout(cands, size, seq(|cands| + 1, i requires 0 <= i <= |cands| => if i == 0 then 0 else offs[i - 1] + cands[i - 1].bytes), offs)
    ensures forall i :: 0 <= i < |cands| ==> Kept(cands, size, offs, i)
  {
    assert forall i :: 0 <= i < |cands| ==> First(cands, i);
  }

  // ----- The slices, one candidate after the other -----

  lemma EightToEleven()
    ensures Pow8(11) == 0x2_0000_0000
  {
    assert Pow8(4) == 8 * Pow8(3) == 64 * Pow8(2) == 512 * Pow8(1) == 4096;
    assert Pow8(8) == 8 * Pow8(7) == 64 * Pow8(6) == 512 * Pow8(5) == 4096 * Pow8(4);
    assert Pow8(11) == 8 * Pow8(10) == 64 * Pow8(9) == 512 * Pow8(8);
  }

  /** The files of the first i candidates. */
  ghost function FilesTo(cands: seq<Cand>, raw: Bytes, widen: Widening, starts: seq<nat>, i: nat): seq<File>
    requires i <= |cands| == |starts|
  {
    if i == 0 then []
    else
      FilesTo(cands, raw, widen, starts, i - 1)
      + if Kept(cands, |raw|, starts, i - 1) then [File(cands[i - 1].name, Content(cands, raw, widen, starts, i - 1))] else []
  }

  /** Every kept candidate has its file, every file is that of one, and names differ. */
  ghost predicate KeptFiles(cands: seq<Cand>, raw: Bytes, widen: Widening, starts: seq<nat>, i: nat, files: seq<File>)
    requires i <= |cands| == |starts|
  {
    && (forall j :: 0 <= j < i && Kept(cands, |raw|, starts, j) ==> HasFile(files, File(cands[j].name, Content(cands, raw, widen, starts, j))))
    && (forall k :: 0 <= k < |files| ==> IsKeptFile(cands, raw, widen, starts, i, files[k]))
    && (forall a, b :: 0 <= a < b < |files| ==> files[a].name != files[b].name)
  }

  ghost predicate IsKeptFile(cands: seq<Cand>, raw: Bytes, widen: Widening, starts: seq<nat>, i: nat, f: File)
    requires i <= |cands| == |starts|
  {
    exists j :: 0 <= j < i && Kept(cands, |raw|, starts, j) && f == File(cands[j].name, Content(cands, raw, widen, starts, j))
  }

  ghost predicate HasFile(files: seq<File>, f: File) {
    exists k :: 0 <= k < |files| && files[k] == f
  }

  lemma {:induction false} FilesAreKept(cands: seq<Cand>, raw: Bytes, widen: Widening, ends: seq<nat>, starts: seq<nat>, i: nat)
    requires i <= |cands| && Layout(cands, |raw|, ends, starts)
    ensures KeptFiles(cands, raw, widen, starts, i, FilesTo(cands, raw, widen, starts, i))
  {
    if i > 0 {
      FilesAreKept(cands, raw, widen, ends, starts, i - 1);
      var before, files := FilesTo(cands, raw, widen, starts, i - 1), FilesTo(cands, raw, widen, starts, i);
      MoreKept(cands, raw, widen, starts, i, before, files);
    }
  }

  lemma MoreKept(cands: seq<Cand>, raw: Bytes, widen: Widening, starts: seq<nat>, i: nat, before: seq<File>, files: seq<File>)
    requires 0 < i <= |cands| == |starts| && KeptFiles(cands, raw, widen, starts, i - 1, before)
    requires files == before + if Kept(cands, |raw|, starts, i - 1) then [File(cands[i - 1].name, Content(cands, raw, widen, starts, i - 1))] else []
    ensures KeptFiles(cands, raw, widen, starts, i, files)
  {
    forall j | 0 <= j < i && Kept(cands, |raw|, starts, j)
      ensures HasFile(files, File(cands[j].name, Content(cands, raw, widen, starts, j)))
    {
      if j < i - 1 {
        var k :| 0 <= k < |before| && before[k] == File(cands[j].name, Content(cands, raw, widen, starts, j));
        assert files[k] == before[k];
      } else {
        assert files[|before|] == File(cands[j].name, Content(cands, raw, widen, starts, j));
      }
    }
    forall k | 0 <= k < |files|
      ensures IsKeptFile(cands, raw, widen, starts, i, files[k])
    {
      if k < |before| {
        assert files[k] == before[k] && IsKeptFile(cands, raw, widen, starts, i - 1, before[k]);
      }
    }
    forall a, b | 0 <= a < b < |files|
      ensures files[a].name != files[b].name
    {
      assert files[a] == before[a] && IsKeptFile(cands, raw, widen, starts, i - 1, before[a]);
    }
  }

  ghost predicate Named(cands: seq<Cand>, x: Bytes) {
    exists j :: 0 <= j < |cands| && cands[j].name == x
  }

  lemma NamedSnoc(cands: seq<Cand>, c: Cand, x: Bytes)
    ensures Named(cands + [c], x) <==> Named(cands, x) || c.name == x
  {
    var all := cands + [c];
    assert all[|cands|] == c;
    assert forall j :: 0 <= j < |cands| ==> all[j] == cands[j];
  }

  /** Unique candidates have all the names. */
  lemma {:induction false} UniqueHolds(cands: seq<Cand>, x: Bytes)
    ensures Named(Unique(cands), x) <==> Named(cands, x)
  {
    if cands != [] {
      var front, c := cands[..|cands| - 1], cands[|cands| - 1];
      assert cands == front + [c];
      UniqueHolds(front, x);
      UniqueHolds(front, c.name);
      NamedSnoc(front, c, x);
      NamedSnoc(Unique(front), c, x);
      NamedIsMember(Unique(front), c.name);
    }
  }

  lemma NamedIsMember(cands: seq<Cand>, x: Bytes)
    ensures Named(cands, x) <==> exists u :: u in cands && u.name == x
  {
    if Named(cands, x) {
      var j :| 0 <= j < |cands| && cands[j].name == x;
      assert cands[j] in cands;
    }
  }

  lemma UniqueSnoc(cands: seq<Cand>, i: nat)
    requires i < |cands|
    ensures Unique(cands[..i + 1]) == Unique(cands[..i]) + if First(cands, i) then [cands[i]] else []
  {
    var front, c := cands[..i], cands[i];
    assert cands[..i + 1] == front + [c] && cands[..i + 1][..i] == front;
    UniqueHolds(front, c.name);
    NamedIsMember(Unique(front), c.name);
    assert First(cands, i) <==> !Named(front, c.name);
  }

  /** The cursor after slicing. */
  function Cursor(cands: seq<Cand>, raw: Bytes, off: nat): nat
    decreases |cands|
  {
    if cands == [] then off
    else
      var c, o := cands[0], Aligned(off);
      Cursor(cands[1..], raw, if Fits(c, raw, o) then o + c.bytes else o)
  }

  lemma {:induction false} SlicedSnoc(cands: seq<Cand>, c: Cand, raw: Bytes, widen: Widening, off: nat)
    ensures var o := Aligned(Cursor(cands, raw, off));
            && Sliced(cands + [c], raw, widen, off)
               == Sliced(cands, raw, widen, off) + (if Fits(c, raw, o) then [Slice(c, raw, widen, o)] else [])
            && Cursor(cands + [c], raw, off) == if Fits(c, raw, o) then o + c.bytes else o
    decreases |cands|
  {
    if cands == [] {
      assert ([] + [c])[1..] == [];
    } else {
      var o := Aligned(off);
      assert (cands + [c])[1..] == cands[1..] + [c] && (cands + [c])[0] == cands[0];
      SlicedSnoc(cands[1..], c, raw, widen, if Fits(cands[0], raw, o) then o + cands[0].bytes else o);
    }
  }

  /** The slices of the unique candidates are the kept files, and the cursor is at its end. */
  ghost predicate SlicedTo(cands: seq<Cand>, raw: Bytes, widen: Widening, ends: seq<nat>, starts: seq<nat>, i: nat)
    requires i <= |cands| == |starts| && |ends| == |cands| + 1
  {
    && Sliced(Unique(cands[..i]), raw, widen, 0) == FilesTo(cands, raw, widen, starts, i)
    && Cursor(Unique(cands[..i]), raw, 0) == ends[i]
  }

  lemma {:induction false} SlicedToEach(cands: seq<Cand>, raw: Bytes, widen: Widening, ends: seq<nat>, starts: seq<nat>, i: nat)
    requires i <= |cands| && Layout(cands, |raw|, ends, starts)
    ensures SlicedTo(cands, raw, widen, ends, starts, i)
  {
    if i > 0 {
      SlicedToEach(cands, raw, widen, ends, starts, i - 1);
      SlicedOnce(cands, raw, widen, ends, starts, i);
    }
  }

  lemma AlignedIs(off: nat, o: nat)
    requires o % 4 == 0 && off <= o < off + 4
    ensures Aligned(off) == o
  {
  }

  /** What slicing makes of a first candidate, and where its cursor goes. */
  lemma SamePiece(cands: seq<Cand>, raw: Bytes, widen: Widening, ends: seq<nat>, starts: seq<nat>, i: nat)
    requires i < |cands| && Layout(cands, |raw|, ends, starts) && First(cands, i)
    ensures Aligned(ends[i]) == starts[i] && (Fits(cands[i], raw, starts[i]) <==> Kept(cands, |raw|, starts, i))
    ensures Fits(cands[i], raw, starts[i]) ==> Slice(cands[i], raw, widen, starts[i]) == File(cands[i].name, Content(cands, raw, widen, starts, i))
    ensures ends[i + 1] == if Fits(cands[i], raw, starts[i]) then starts[i] + cands[i].bytes else starts[i]
  {
    assert Placed(cands, |raw|, ends, starts, i);
    AlignedIs(ends[i], starts[i]);
  }

  lemma SlicedNext(cands: seq<Cand>, raw: Bytes, widen: Widening, ends: seq<nat>, starts: seq<nat>, i: nat)
    requires 0 < i <= |cands| && Layout(cands, |raw|, ends, starts) && SlicedTo(cands, raw, widen, ends, starts, i - 1)
    requires Unique(cands[..i]) == Unique(cands[..i - 1]) + if First(cands, i - 1) then [cands[i - 1]] else []
    requires var (us, c, o) := (Unique(cands[..i - 1]), cands[i - 1], Aligned(ends[i - 1]));
             && Sliced(us + [c], raw, widen, 0) == Sliced(us, raw, widen, 0) + (if Fits(c, raw, o) then [Slice(c, raw, widen, o)] else [])
             && Cursor(us + [c], raw, 0) == if Fits(c, raw, o) then o + c.bytes else o
    ensures SlicedTo(cands, raw, widen, ends, starts, i)
  {
    var before := FilesTo(cands, raw, widen, starts, i - 1);
    assert Placed(cands, |raw|, ends, starts, i - 1);
    if First(cands, i - 1) {
      SamePiece(cands, raw, widen, ends, starts, i - 1);
    } else {
      assert Unique(cands[..i]) == Unique(cands[..i - 1]);
      assert FilesTo(cands, raw, widen, starts, i) == before;
    }
  }

  lemma SlicedOnce(cands: seq<Cand>, raw: Bytes, widen: Widening, ends: seq<nat>, starts: seq<nat>, i: nat)
    requires 0 < i <= |cands| && Layout(cands, |raw|, ends, starts) && SlicedTo(cands, raw, widen, ends, starts, i - 1)
    ensures SlicedTo(cands, raw, widen, ends, starts, i)
  {
    UniqueSnoc(cands, i - 1);
    SlicedSnoc(Unique(cands[..i - 1]), cands[i - 1], raw, widen, 0);
    SlicedNext(cands, raw, widen, ends, starts, i);
  }

  lemma SlicesAreFiles(cands: seq<Cand>, raw: Bytes, widen: Widening, ends: seq<nat>, starts: seq<nat>)
    requires Layout(cands, |raw|, ends, starts)
    ensures Sliced(Unique(cands), raw, widen, 0) == FilesTo(cands, raw, widen, starts, |cands|)
  {
    SlicedToEach(cands, raw, widen, ends, starts, |cands|);
    assert cands[..|cands|] == cands;
  }
}
