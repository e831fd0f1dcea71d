/** Slicing a flat weight file into a weight archive, one file for each static tensor
    (compiler/tools/hnnx_compile.cpp:231-273), and what a reader of that archive gets. */
module WeightArchive {
  import opened Options
  import opened Bytes
  import opened Tar
  import opened TarReader

  /** A static tensor: its name, its size in the flat file, its data type. */
  datatype Cand = Cand(name: Bytes, bytes: nat, dtype: nat)

  /** Widening to 32-bit elements, as bytes. */
  type Widening = (nat, Bytes) -> Bytes

  /** The first candidate of each name. */
  function Unique(cands: seq<Cand>): seq<Cand> {
    if cands == [] then []
    else
      var front, c := Unique(cands[..|cands| - 1]), cands[|cands| - 1];
      if exists u :: u in front && u.name == c.name then front else front + [c]
  }

  function Aligned(off: nat): (r: nat)
    ensures off <= r < off + 4 && r % 4 == 0
  {
    (off + 3) / 4 * 4
  }

  /** Slices in order, each from the next multiple of four; one that is empty or does not fit
      is left out. */
  function Sliced(cands: seq<Cand>, raw: Bytes, widen: Widening, off: nat): seq<File>
    decreases |cands|
  {
    if cands == [] then []
    else
      var c, o := cands[0], Aligned(off);
      if Fits(c, raw, o) then [Slice(c, raw, widen, o)] + Sliced(cands[1..], raw, widen, o + c.bytes)
      else Sliced(cands[1..], raw, widen, o)
  }

  method FirstOfEachName(cands: seq<Cand>) returns (uniq: seq<Cand>)
    ensures uniq == Unique(cands)
  {
    uniq := [];
    var i := 0;
    while i < |cands|
      invariant 0 <= i <= |cands|
      invariant uniq == Unique(cands[..i])
    {
      assert cands[..i + 1][..i] == cands[..i];
      var dup := false;
      var j := 0;
      while j < |uniq|
        invariant 0 <= j <= |uniq|
        invariant dup <==> exists k :: 0 <= k < j && uniq[k].name == cands[i].name
      {
        if uniq[j].name == cands[i].name {
          dup := true;
        }
        j := j + 1;
      }
      if !dup {
        uniq := uniq + [cands[i]];
      }
      i := i + 1;
    }
    assert cands[..i] == cands;
  }

  /** The archive of all slices, closed; none when there is nothing to archive. */
  method AdaptWeights(cands: seq<Cand>, raw: Bytes, widen: Widening) returns (r: Option<Bytes>)
    ensures var files := Sliced(Unique(cands), raw, widen, 0);
            r == if files == [] then None else Some(Closed(files))
  {
    var uniq := FirstOfEachName(cands);
    var tar := new TarBuffer();
    var n_hits := AppendSlices(tar, uniq, raw, widen);
    if n_hits == 0 {
      return None;
    }
    return Some(tar.bytes + Fill(1024, 0));
  }

  method AppendSlices(tar: TarBuffer, uniq: seq<Cand>, raw: Bytes, widen: Widening) returns (n_hits: nat)
    requires tar.bytes == []
    modifies tar
    ensures tar.bytes == Archive(Sliced(uniq, raw, widen, 0)) && n_hits == |Sliced(uniq, raw, widen, 0)|
  {
    ghost var files: seq<File> := [];
    var off: nat := 0;
    n_hits := 0;
    var i := 0;
    SlicingStarts(uniq, raw, widen);
    while i < |uniq|
      invariant 0 <= i <= |uniq| && n_hits == |files|
      invariant tar.bytes == Archive(files)
      invariant Slicing(uniq, raw, widen, i, off, files)
    {
      var hit;
      hit, off, files := AppendSlice(tar, uniq, i, raw, widen, off, files);
      if hit {
        n_hits := n_hits + 1;
      }
      i := i + 1;
    }
    SlicingEnds(uniq, raw, widen, off, files);
  }

  predicate Fits(c: Cand, raw: Bytes, o: nat) {
    o + c.bytes <= |raw| && c.bytes != 0
  }

  function Slice(c: Cand, raw: Bytes, widen: Widening, o: nat): File
    requires Fits(c, raw, o)
  {
    File(c.name, widen(c.dtype, raw[o..o + c.bytes]))
  }

  /** Append the slice of candidate i, if it fits. */
  method AppendSlice(tar: TarBuffer, uniq: seq<Cand>, i: nat, raw: Bytes, widen: Widening, off0: nat, ghost files0: seq<File>)
      returns (hit: bool, off: nat, ghost files: seq<File>)
    requires i < |uniq| && tar.bytes == Archive(files0) && Slicing(uniq, raw, widen, i, off0, files0)
    modifies tar
    ensures tar.bytes == Archive(files) && Slicing(uniq, raw, widen, i + 1, off, files)
    ensures |files| == |files0| + if hit then 1 else 0
  {
    var c := uniq[i];
    SlicingGoesOn(uniq, raw, widen, i, off0, files0);
    off := Aligned(off0);
    files := files0;
    hit := !(off + c.bytes > |raw| || c.bytes == 0);
    if hit {
      ghost var f := Slice(c, raw, widen, off);
      ArchiveSnoc(files0, f);
      files := files0 + [f];
      tar.Append(c.name + RAW, widen(c.dtype, raw[off..off + c.bytes]));
      off := off + c.bytes;
    }
  }

  lemma ArchiveSnoc(files: seq<File>, f: File)
    ensures Archive(files + [f]) == Appended(Archive(files), f.name + RAW, f.data)
  {
    var all := files + [f];
    assert all[..|all| - 1] == files && all[|all| - 1] == f;
  }

  /** The slices so far and those to come, before candidate i. */
  ghost predicate Slicing(uniq: seq<Cand>, raw: Bytes, widen: Widening, i: nat, off: nat, files: seq<File>)
    requires i <= |uniq|
  {
    Sliced(uniq, raw, widen, 0) == files + Sliced(uniq[i..], raw, widen, off)
  }

  lemma SlicingStarts(uniq: seq<Cand>, raw: Bytes, widen: Widening)
    ensures Slicing(uniq, raw, widen, 0, 0, [])
  {
    assert uniq[0..] == uniq;
  }

  lemma SlicingEnds(uniq: seq<Cand>, raw: Bytes, widen: Widening, off: nat, files: seq<File>)
    requires Slicing(uniq, raw, widen, |uniq|, off, files)
    ensures Sliced(uniq, raw, widen, 0) == files
  {
    assert uniq[|uniq|..] == [];
  }

  lemma SlicingGoesOn(uniq: seq<Cand>, raw: Bytes, widen: Widening, i: nat, off: nat, files: seq<File>)
    requires i < |uniq| && Slicing(uniq, raw, widen, i, off, files)
    ensures Fits(uniq[i], raw, Aligned(off)) ==>
              Slicing(uniq, raw, widen, i + 1, Aligned(off) + uniq[i].bytes, files + [Slice(uniq[i], raw, widen, Aligned(off))])
    ensures !Fits(uniq[i], raw, Aligned(off)) ==> Slicing(uniq, raw, widen, i + 1, Aligned(off), files)
  {
    var tail, o := uniq[i..], Aligned(off);
    assert tail[0] == uniq[i] && tail[1..] == uniq[i + 1..];
    if Fits(uniq[i], raw, o) {
      var f := Slice(uniq[i], raw, widen, o);
      var rest := Sliced(uniq[i + 1..], raw, widen, o + uniq[i].bytes);
      assert files + ([f] + rest) == files + [f] + rest;
    }
  }

  // ----- What the reader gets -----

  lemma {:induction false} UniqueNames(cands: seq<Cand>)
    ensures forall i, j :: 0 <= i < j < |Unique(cands)| ==> Unique(cands)[i].name != Unique(cands)[j].name
  {
    if cands != [] {
      UniqueNames(cands[..|cands| - 1]);
    }
  }

  function Names(cands: seq<Cand>): set<Bytes> {
    set i | 0 <= i < |cands| :: cands[i].name
  }

  /** Slices have names of candidates, no two the same. */
  ghost predicate NamedFrom(files: seq<File>, cands: seq<Cand>) {
    && (forall k :: 0 <= k < |files| ==> files[k].name in Names(cands))
    && (forall i, j :: 0 <= i < j < |files| ==> files[i].name != files[j].name)
  }

  ghost predicate DistinctNames(cands: seq<Cand>) {
    forall i, j :: 0 <= i < j < |cands| ==> cands[i].name != cands[j].name
  }

  lemma {:induction false} SlicedNames(cands: seq<Cand>, raw: Bytes, widen: Widening, off: nat)
    requires DistinctNames(cands)
    ensures NamedFrom(Sliced(cands, raw, widen, off), cands)
    decreases |cands|
  {
    if cands != [] {
      var c, o := cands[0], Aligned(off);
      NamesOfTail(cands);
      if !Fits(c, raw, o) {
        SlicedNames(cands[1..], raw, widen, o);
      } else {
        SlicedNames(cands[1..], raw, widen, o + c.bytes);
        var rest := Sliced(cands[1..], raw, widen, o + c.bytes);
        var f := Slice(c, raw, widen, o);
        assert forall k :: 1 <= k < |[f] + rest| ==> ([f] + rest)[k] == rest[k - 1];
      }
    }
  }

  lemma NamesOfTail(cands: seq<Cand>)
    requires cands != [] && DistinctNames(cands)
    ensures DistinctNames(cands[1..]) && Names(cands) == {cands[0].name} + Names(cands[1..]) && cands[0].name !in Names(cands[1..])
  {
    assert forall k :: 0 <= k < |cands| - 1 ==> cands[1..][k] == cands[k + 1];
    forall x | x in Names(cands)
      ensures x in {cands[0].name} + Names(cands[1..])
    {
      var i :| 0 <= i < |cands| && cands[i].name == x;
      assert i > 0 ==> cands[1..][i - 1].name == x;
    }
  }

  /** Reading the archive finds every slice under its tensor's name, and nothing else. */
  lemma ReaderGetsSlices(cands: seq<Cand>, raw: Bytes, widen: Widening, k: nat)
    requires var files := Sliced(Unique(cands), raw, widen, 0);
             k < |files| && forall i :: 0 <= i < |files| ==> Good(files[i])
    ensures var files := Sliced(Unique(cands), raw, widen, 0);
            var read := Load(Closed(files), 0, map[]);
            read.Loaded? && |read.files| == |files| && files[k].name in read.files && read.files[files[k].name] == files[k].data
  {
    var files := Sliced(Unique(cands), raw, widen, 0);
    UniqueNames(cands);
    assert DistinctNames(Unique(cands));
    SlicedNames(Unique(cands), raw, widen, 0);
    RoundTrip(files);
    FilesOfDistinct(files, k);
  }
}
