/** Reading a weight archive back (compiler/src/frontend/qnn_ir_loader.cpp:861-899), and when
    reading undoes writing. */
module TarReader {
  import opened Bytes
  import opened Tar

  datatype Outcome = Loaded(files: map<Bytes, Bytes>) | Threw

  datatype Step = Member(name: Bytes, data: Bytes, next: nat) | Stop | Bad

  /** Position of the first b, or the length. */
  function Find(s: Bytes, b: Byte): (k: nat)
    ensures k <= |s| && (forall i :: 0 <= i < k ==> s[i] != b) && (k < |s| ==> s[k] == b)
  {
    if s == [] || s[0] == b then 0 else 1 + Find(s[1..], b)
  }

  /** Without a final ".raw", unless that is all there is. */
  function Stripped(name: Bytes): Bytes {
    if |name| > 4 && name[|name| - 4..] == RAW then name[..|name| - 4] else name
  }

  function NameOf(field: Bytes): Bytes {
    field[..Find(field, 0)]
  }

  /** Where the number begins: after white space and a plus sign. */
  function NumberStart(s: Bytes): (k: nat)
    ensures k <= |s|
  {
    var k := SpaceEnd(s, 0);
    if k < |s| && s[k] == 43 then k + 1 else k
  }

  function SpaceEnd(s: Bytes, k: nat): (r: nat)
    requires k <= |s|
    ensures r <= |s|
    decreases |s| - k
  {
    if k < |s| && (9 <= s[k] <= 13 || s[k] == 32) then SpaceEnd(s, k + 1) else k
  }

  /** The digits of a size field. */
  function SizeDigits(size_str: Bytes): (r: Bytes)
    ensures |r| <= |size_str| && forall k :: 0 <= k < |r| ==> 48 <= r[k] <= 55
  {
    Digits(size_str[NumberStart(size_str)..])
  }

  predicate IsSpace(b: Byte) {
    b == 9 || b == 10 || b == 11 || b == 12 || b == 13 || b == 32
  }

  lemma {:induction false} SpaceEndsAt(sp: Bytes, rest: Bytes, k: nat)
    requires (forall i :: 0 <= i < |sp| ==> IsSpace(sp[i])) && (rest != [] ==> !IsSpace(rest[0])) && k <= |sp|
    ensures SpaceEnd(sp + rest, k) == |sp|
    decreases |sp| - k
  {
    if k < |sp| {
      SpaceEndsAt(sp, rest, k + 1);
    }
  }

  /** After white space and at most one plus sign come the octal digits of the number, up to
      what is none. */
  lemma SizeIsNumber(sp: Bytes, plus: bool, digits: Bytes, rest: Bytes)
    requires forall i :: 0 <= i < |sp| ==> IsSpace(sp[i])
    requires forall i :: 0 <= i < |digits| ==> 48 <= digits[i] <= 55
    requires rest != [] ==> !(48 <= rest[0] <= 55) && !IsSpace(rest[0]) && rest[0] != 43
    ensures SizeDigits(sp + (if plus then [43] else []) + digits + rest) == digits
  {
    var sign: Bytes := if plus then [43] else [];
    NumberStarts(sp, plus, digits + rest);
    assert sp + sign + digits + rest == sp + sign + (digits + rest);
    assert (sp + sign + (digits + rest))[|sp| + |sign|..] == digits + rest;
    DigitsStop(digits, rest);
  }

  lemma NumberStarts(sp: Bytes, plus: bool, tail: Bytes)
    requires forall i :: 0 <= i < |sp| ==> IsSpace(sp[i])
    requires tail != [] ==> !IsSpace(tail[0]) && tail[0] != 43
    ensures var sign: Bytes := if plus then [43] else [];
            NumberStart(sp + sign + tail) == |sp| + |sign|
  {
    var sign: Bytes := if plus then [43] else [];
    assert sp + sign + tail == sp + (sign + tail);
    SpaceEndsAt(sp, sign + tail, 0);
  }

  lemma {:induction false} DigitsStop(digits: Bytes, rest: Bytes)
    requires forall i :: 0 <= i < |digits| ==> 48 <= digits[i] <= 55
    requires rest != [] ==> !(48 <= rest[0] <= 55)
    ensures Digits(digits + rest) == digits
  {
    if digits != [] {
      assert (digits + rest)[1..] == digits[1..] + rest;
      DigitsStop(digits[1..], rest);
    } else {
      assert digits + rest == rest;
    }
  }

  /** The size in a field, or -1 without a number. */
  function SizeOf(size_str: Bytes): (size: int)
    ensures -1 <= size
  {
    var digits := SizeDigits(size_str);
    if digits == [] then -1 else Value(digits)
  }

  /** Bytes of the whole blocks that hold n bytes. */
  function Blocks(n: nat): (b: nat)
    ensures n <= b < n + 512 && b % 512 == 0
  {
    (n + 511) / 512 * 512
  }

  /** The size field up to a space.  The search for its end sees no NUL, because the literal
      that lists the characters ends at it; the number conversion does. */
  function SizeText(buf: Bytes, pos: nat): Bytes
    requires pos + 512 <= |buf|
  {
    var field := buf[pos + 124..pos + 135];
    field[..Find(field, 32)]
  }

  /** The member at a position. */
  function ReadMember(buf: Bytes, pos: nat): Step {
    if pos + 512 > |buf| then Stop
    else
      var name := NameOf(buf[pos..pos + 100]);
      var size_str := SizeText(buf, pos);
      var fsize := SizeOf(size_str);
      if name == [] || size_str == [] then Stop
      else if fsize < 0 then Bad
      else if pos + 512 + fsize > |buf| then Stop
      else Member(Stripped(name), buf[pos + 512..pos + 512 + fsize], pos + 512 + Blocks(fsize))
  }

  /** A size without digits makes the reader throw. */
  lemma NoDigitsThrows(buf: Bytes, pos: nat, acc: map<Bytes, Bytes>)
    requires pos + 512 <= |buf| && NameOf(buf[pos..pos + 100]) != [] && SizeText(buf, pos) != [] && SizeDigits(SizeText(buf, pos)) == []
    ensures Load(buf, pos, acc) == Threw
  {
  }

  predicate ZeroBlock(buf: Bytes, pos: nat) {
    forall i :: pos <= i < pos + 512 && i < |buf| ==> buf[i] == 0
  }

  /** The map of all members from a position on. */
  function Load(buf: Bytes, pos: nat, acc: map<Bytes, Bytes>): Outcome
    decreases |buf| - pos
  {
    match ReadMember(buf, pos)
    case Stop => Loaded(acc)
    case Bad => Threw
    case Member(name, data, next) =>
      if ZeroBlock(buf, next) then Loaded(acc[name := data]) else Load(buf, next, acc[name := data])
  }

  method LoadWeightBin(buf: Bytes) returns (result: Outcome)
    ensures result == Load(buf, 0, map[])
  {
    var files: map<Bytes, Bytes> := map[];
    var pos := 0;
    while pos + 512 <= |buf|
      invariant Load(buf, pos, files) == Load(buf, 0, map[])
      decreases |buf| - pos
    {
      var step := ReadHeader(buf, pos);
      match step
      case Stop => return Loaded(files);
      case Bad => return Threw;
      case Member(name, data, next) =>
        files := files[name := data];
        var all_zero := IsZeroBlock(buf, next);
        if all_zero {
          return Loaded(files);
        }
        pos := next;
    }
    return Loaded(files);
  }

  method ReadHeader(buf: Bytes, pos: nat) returns (step: Step)
    requires pos + 512 <= |buf|
    ensures step == ReadMember(buf, pos)
  {
    var name := buf[pos..pos + 100];
    name := name[..Find(name, 0)];
    if name == [] {
      return Stop;
    }
    var size_str := buf[pos + 124..pos + 135];
    size_str := size_str[..Find(size_str, 32)];
    if size_str == [] {
      return Stop;
    }
    var fsize := SizeOf(size_str);
    if fsize < 0 {
      return Bad;
    }
    if pos + 512 + fsize > |buf| {
      return Stop;
    }
    var data := buf[pos + 512..pos + 512 + fsize];
    if |name| > 4 && name[|name| - 4..] == RAW {
      name := name[..|name| - 4];
    }
    return Member(name, data, pos + 512 + Blocks(fsize));
  }

  method IsZeroBlock(buf: Bytes, pos: nat) returns (all_zero: bool)
    ensures all_zero == ZeroBlock(buf, pos)
  {
    all_zero := true;
    var i := 0;
    while i < 512 && pos + i < |buf|
      invariant 0 <= i <= 512 && all_zero
      invariant forall k :: pos <= k < pos + i && k < |buf| ==> buf[k] == 0
    {
      if buf[pos + i] != 0 {
        return false;
      }
      i := i + 1;
    }
  }

  // ----- Reading undoes writing -----

  datatype File = File(name: Bytes, data: Bytes)

  /** All files appended in turn, each as its name with ".raw". */
  function Archive(files: seq<File>): (tar: Bytes)
    ensures |tar| % 512 == 0
  {
    if files == [] then []
    else
      var f := files[|files| - 1];
      Appended(Archive(files[..|files| - 1]), f.name + RAW, f.data)
  }

  /** The archive and the two zero blocks that end it. */
  function Closed(files: seq<File>): Bytes {
    Archive(files) + Fill(1024, 0)
  }

  function FilesOf(files: seq<File>): map<Bytes, Bytes> {
    if files == [] then map[] else FilesOf(files[..|files| - 1])[files[|files| - 1].name := files[|files| - 1].data]
  }

  /** No NUL, and room for ".raw" in a header; or just no room for any of it, if the name
      itself does not end so. */
  predicate GoodName(name: Bytes) {
    0 !in name && (1 <= |name| <= 95 || (|name| == 99 && name[95..] != RAW))
  }

  predicate Good(f: File) {
    GoodName(f.name) && |f.data| < Pow8(11)
  }

  /** The key under which a stored name is found. */
  function KeyOf(name: Bytes): Bytes {
    Stripped(NameOf(Header(name + RAW, 0)[..100]))
  }

  lemma HeaderFields(name: Bytes, len: nat)
    ensures var h := Header(name, len);
            && h[124..135] == Printed(len, 11)
            && |h[..100]| == 100 && forall k :: 0 <= k < 100 ==> h[k] == if k < |name| && k < 99 then name[k] else 0
  {
    var h, u := Header(name, len), Unsigned(name, len);
    assert forall k :: 0 <= k < 148 ==> h[k] == u[k];
    assert forall k :: 0 <= k < 11 ==> h[124..135][k] == Printed(len, 11)[k];
  }

  lemma StoredName(name: Bytes, len: nat)
    ensures NameOf(Header(name, len)[..100]) == NameOf(Header(name, 0)[..100])
    ensures 0 !in NameOf(Header(name, len)[..100]) && |NameOf(Header(name, len)[..100])| <= 99
    ensures 0 !in name ==> NameOf(Header(name, len)[..100]) == name[..Min(|name|, 99)]
  {
    HeaderFields(name, len);
    HeaderFields(name, 0);
    var f := Header(name, len)[..100];
    assert f == Header(name, 0)[..100];
    assert f[99] == 0;
    if 0 !in name {
      var n := Min(|name|, 99);
      assert f[n] == 0;
      assert forall k :: 0 <= k < n ==> name[k] in name;
      assert NameOf(f) == name[..n];
    }
  }

  /** A name is found under itself exactly when it is good. */
  lemma NameReadsBack(name: Bytes)
    ensures KeyOf(name) == name <==> GoodName(name)
  {
    var stored := name + RAW;
    StoredName(stored, 0);
    var found := NameOf(Header(stored, 0)[..100]);
    if 0 !in name {
      assert 0 !in stored;
      assert found == stored[..Min(|stored|, 99)];
      if |name| <= 95 {
        assert found == stored;
        assert stored[|name|..] == RAW && stored[..|name|] == name;
      } else if |name| < 99 {
        assert found[98] == RAW[98 - |name|];
        assert |name| == 98 ==> found[98] == 46;
        assert found[95..] != RAW;
      } else {
        assert found == name[..99];
      }
    }
  }

  // ----- The whole archive -----

  lemma {:induction false} ArchiveGrows(files: seq<File>, k: nat)
    requires k <= |files|
    ensures Archive(files[..k]) <= Archive(files)
  {
    if k < |files| {
      var front := files[..|files| - 1];
      ArchiveGrows(front, k);
      assert front[..k] == files[..k];
    } else {
      assert files[..k] == files;
    }
  }

  lemma SliceOfSlice(buf: Bytes, a: nat, b: nat, c: nat, d: nat)
    requires a <= b <= |buf| && c <= d <= b - a
    ensures buf[a..b][c..d] == buf[a + c..a + d]
  {
    var x, y := buf[a..b][c..d], buf[a + c..a + d];
    assert |x| == |y|;
    assert forall k :: 0 <= k < |x| ==> x[k] == buf[a..b][c + k] == buf[a + c + k] == y[k];
  }

  /** Where the parts of a concatenation lie in what begins with it. */
  lemma Parts(buf: Bytes, before: Bytes, h: Bytes, data: Bytes, pad: Bytes)
    requires before + h + data + pad <= buf
    ensures var n := |before|;
            buf[n..n + |h|] == h && buf[n + |h|..n + |h| + |data|] == data
  {
    var all, n := before + h + data + pad, |before|;
    SliceOfSlice(buf, 0, |all|, n, n + |h|);
    SliceOfSlice(buf, 0, |all|, n + |h|, n + |h| + |data|);
    assert buf[0..|all|] == all;
    assert all[n..n + |h|] == h;
    assert all[n + |h|..n + |h| + |data|] == data;
  }

  /** The k-th member lies where the ones before it end. */
  lemma MemberLies(files: seq<File>, k: nat)
    requires k < |files|
    ensures var (buf, pos, f) := (Closed(files), |Archive(files[..k])|, files[k]);
            && |Archive(files[..k + 1])| == pos + 512 + Blocks(|f.data|) <= |buf| - 1024
            && buf[pos..pos + 512] == Header(f.name + RAW, |f.data|)
            && buf[pos + 512..pos + 512 + |f.data|] == f.data
  {
    ArchiveGrows(files, k + 1);
    ArchiveStep(files, k);
    assert Archive(files) <= Closed(files);
    OneMember(Closed(files), Archive(files[..k]), files[k]);
  }

  lemma ArchiveStep(files: seq<File>, k: nat)
    requires k < |files|
    ensures Archive(files[..k + 1]) == Appended(Archive(files[..k]), files[k].name + RAW, files[k].data)
  {
    var some := files[..k + 1];
    assert some[..|some| - 1] == files[..k] && some[|some| - 1] == files[k];
  }

  lemma OneMember(buf: Bytes, before: Bytes, f: File)
    requires |before| % 512 == 0 && Appended(before, f.name + RAW, f.data) <= buf
    ensures var pos := |before|;
            && |Appended(before, f.name + RAW, f.data)| == pos + 512 + Blocks(|f.data|)
            && buf[pos..pos + 512] == Header(f.name + RAW, |f.data|)
            && buf[pos + 512..pos + 512 + |f.data|] == f.data
  {
    PaddedLength(|before|, |f.data|);
    Parts(buf, before, Header(f.name + RAW, |f.data|), f.data, Padding(|before| + 512 + |f.data|));
  }

  lemma PaddedLength(pos: nat, n: nat)
    requires pos % 512 == 0
    ensures n + |Padding(pos + 512 + n)| == Blocks(n)
  {
  }

  lemma AllDigits(s: Bytes)
    requires forall k :: 0 <= k < |s| ==> 48 <= s[k] <= 55
    ensures SizeDigits(s) == s && Find(s, 32) == |s|
  {
    assert Digits(s) <= s;
    assert s[0..] == s;
  }

  lemma NameField(buf: Bytes, pos: nat, name: Bytes, len: nat)
    requires pos + 512 <= |buf| && buf[pos..pos + 512] == Header(name + RAW, len) && (name == [] || name[0] != 0)
    ensures NameOf(buf[pos..pos + 100]) != [] && Stripped(NameOf(buf[pos..pos + 100])) == KeyOf(name)
  {
    var stored := name + RAW;
    var h := Header(stored, len);
    HeaderFields(stored, len);
    StoredName(stored, len);
    SliceOfSlice(buf, pos, pos + 512, 0, 100);
    assert h[..100] == h[0..100];
    assert h[..100][0] == stored[0] != 0;
    assert NameOf(h[..100]) != [];
  }

  lemma SizeField(buf: Bytes, pos: nat, name: Bytes, len: nat)
    requires pos + 512 <= |buf| && buf[pos..pos + 512] == Header(name, len)
    ensures buf[pos + 124..pos + 135] == Printed(len, 11)
  {
    HeaderFields(name, len);
    SliceOfSlice(buf, pos, pos + 512, 124, 135);
  }

  /** A header at a position is read as its member, as much of the data as the size says. */
  lemma MemberIsRead(buf: Bytes, pos: nat, f: File, size: nat)
    requires pos + 512 + size <= |buf| && buf[pos..pos + 512] == Header(f.name + RAW, |f.data|)
    requires size == Value(Printed(|f.data|, 11)) && (f.name == [] || f.name[0] != 0)
    ensures ReadMember(buf, pos) == Member(KeyOf(f.name), buf[pos + 512..pos + 512 + size], pos + 512 + Blocks(size))
  {
    NameField(buf, pos, f.name, |f.data|);
    SizeField(buf, pos, f.name + RAW, |f.data|);
    SizeIsPrinted(buf[pos + 124..pos + 135], |f.data|);
    MemberByParts(buf, pos, NameOf(buf[pos..pos + 100]), SizeText(buf, pos), size);
  }

  lemma MemberByParts(buf: Bytes, pos: nat, name: Bytes, size_str: Bytes, size: nat)
    requires pos + 512 + size <= |buf| && name == NameOf(buf[pos..pos + 100]) != []
    requires size_str == SizeText(buf, pos) != [] && SizeOf(size_str) == size
    ensures ReadMember(buf, pos) == Member(Stripped(name), buf[pos + 512..pos + 512 + size], pos + 512 + Blocks(size))
  {
  }

  lemma SizeIsPrinted(field: Bytes, len: nat)
    requires field == Printed(len, 11)
    ensures field[..Find(field, 32)] == field != [] && SizeOf(field[..Find(field, 32)]) == Value(field)
  {
    AllDigits(field);
    assert field[..11] == field;
  }

  /** From the k-th member on, reading adds the files from the k-th on. */
  lemma {:induction false} LoadFrom(files: seq<File>, k: nat)
    requires k < |files| && forall i :: 0 <= i < |files| ==> Good(files[i])
    ensures Load(Closed(files), |Archive(files[..k])|, FilesOf(files[..k])) == Loaded(FilesOf(files))
    decreases |files| - k
  {
    ReadsMember(files, k);
    var next := |Archive(files[..k + 1])|;
    assert files[..k + 1][..k] == files[..k];
    if k + 1 == |files| {
      assert files[..k + 1] == files;
      assert ZeroBlock(Closed(files), next);
    } else {
      NextIsNotZero(files, k + 1);
      LoadFrom(files, k + 1);
    }
  }

  lemma ReadsMember(files: seq<File>, k: nat)
    requires k < |files| && Good(files[k])
    ensures ReadMember(Closed(files), |Archive(files[..k])|) == Member(files[k].name, files[k].data, |Archive(files[..k + 1])|)
  {
    MemberLies(files, k);
    GoodMemberIsRead(Closed(files), |Archive(files[..k])|, files[k]);
  }

  lemma GoodMemberIsRead(buf: Bytes, pos: nat, f: File)
    requires Good(f) && pos + 512 + |f.data| <= |buf| && buf[pos..pos + 512] == Header(f.name + RAW, |f.data|)
    requires buf[pos + 512..pos + 512 + |f.data|] == f.data
    ensures ReadMember(buf, pos) == Member(f.name, f.data, pos + 512 + Blocks(|f.data|))
  {
    GoodFields(f);
    MemberIsRead(buf, pos, f, |f.data|);
  }

  lemma GoodFields(f: File)
    requires Good(f)
    ensures |f.data| == Value(Printed(|f.data|, 11)) && KeyOf(f.name) == f.name && (f.name == [] || f.name[0] != 0)
  {
    SizeReadsBack(|f.data|, 11);
    FirstByte(f.name);
    NameReadsBack(f.name);
  }

  lemma FirstByte(name: Bytes)
    requires GoodName(name)
    ensures name != [] && name[0] != 0
  {
    assert name != [] ==> name[0] in name;
  }

  lemma NextIsNotZero(files: seq<File>, k: nat)
    requires k < |files| && Good(files[k])
    ensures !ZeroBlock(Closed(files), |Archive(files[..k])|)
  {
    var buf, pos, f := Closed(files), |Archive(files[..k])|, files[k];
    MemberLies(files, k);
    HeaderFields(f.name + RAW, |f.data|);
    assert buf[pos] == buf[pos..pos + 512][0] == f.name[0];
    assert f.name[0] in f.name;
  }

  /** Reading a closed archive of good files gives back exactly their names and bytes, the
      last one where a name repeats. */
  lemma RoundTrip(files: seq<File>)
    requires forall i :: 0 <= i < |files| ==> Good(files[i])
    ensures Load(Closed(files), 0, map[]) == Loaded(FilesOf(files))
  {
    if files == [] {
      var field := Closed(files)[0..100];
      assert field[0] == 0;
      assert NameOf(field) == [];
    } else {
      assert files[..0] == [];
      LoadFrom(files, 0);
    }
  }

  lemma {:induction false} FilesOfDistinct(files: seq<File>, k: nat)
    requires k < |files| && forall i, j :: 0 <= i < j < |files| ==> files[i].name != files[j].name
    ensures files[k].name in FilesOf(files) && FilesOf(files)[files[k].name] == files[k].data
    ensures |FilesOf(files)| == |files|
  {
    var front := files[..|files| - 1];
    NamesOfFiles(front);
    if front != [] {
      FilesOfDistinct(front, if k < |front| then k else 0);
    }
    assert files[|files| - 1].name !in FilesOf(front);
  }

  lemma {:induction false} NamesOfFiles(files: seq<File>)
    ensures forall x :: x in FilesOf(files) <==> exists i :: 0 <= i < |files| && files[i].name == x
  {
    if files != [] {
      var front := files[..|files| - 1];
      NamesOfFiles(front);
      assert forall i :: 0 <= i < |front| ==> front[i] == files[i];
    }
  }

  /** One file survives writing and reading exactly when it is good: its name as above and
      its size below 8 to the 11th. */
  lemma OneFileSurvives(f: File)
    ensures Load(Closed([f]), 0, map[]) == Loaded(map[f.name := f.data]) <==> Good(f)
  {
    assert FilesOf([f]) == map[f.name := f.data];
    if Good(f) {
      RoundTrip([f]);
    } else if |f.data| >= Pow8(11) {
      DataIsShort(Closed([f]), 0, map[]);
      assert f.name in map[f.name := f.data];
    } else {
      BadNameIsLost(f);
    }
  }

  /** Nothing that is read is as long as 8 to the 11th. */
  lemma {:induction false} DataIsShort(buf: Bytes, pos: nat, acc: map<Bytes, Bytes>)
    requires forall x :: x in acc ==> |acc[x]| < Pow8(11)
    ensures Load(buf, pos, acc).Loaded? ==> forall x :: x in Load(buf, pos, acc).files ==> |Load(buf, pos, acc).files[x]| < Pow8(11)
    decreases |buf| - pos
  {
    var step := ReadMember(buf, pos);
    if step.Member? {
      var field := buf[pos + 124..pos + 135];
      var digits := SizeDigits(field[..Find(field, 32)]);
      ValueBound(digits);
      Pow8Grows(|digits|, 11);
      if !ZeroBlock(buf, step.next) {
        DataIsShort(buf, step.next, acc[step.name := step.data]);
      }
    }
  }

  lemma {:induction false} Pow8Grows(a: nat, b: nat)
    requires a <= b
    ensures Pow8(a) <= Pow8(b)
  {
    if a > 0 {
      Pow8Grows(a - 1, b - 1);
    }
  }

  lemma BadNameIsLost(f: File)
    requires !GoodName(f.name) && |f.data| < Pow8(11)
    ensures Load(Closed([f]), 0, map[]) != Loaded(map[f.name := f.data])
  {
    var buf := Closed([f]);
    assert [f][..0] == [] && [f][..1] == [f];
    MemberLies([f], 0);
    HeaderFields(f.name + RAW, |f.data|);
    if f.name != [] && f.name[0] == 0 {
      assert buf[0..100][0] == buf[0..512][0] == 0;
      assert NameOf(buf[0..100]) == [];
      assert f.name in map[f.name := f.data];
    } else {
      NameReadsBack(f.name);
      BadKey(f, buf);
    }
  }

  lemma BadKey(f: File, buf: Bytes)
    requires |buf| >= 512 + Blocks(|f.data|) && buf[0..512] == Header(f.name + RAW, |f.data|)
    requires |f.data| < Pow8(11) && (f.name == [] || f.name[0] != 0) && KeyOf(f.name) != f.name
    requires ZeroBlock(buf, 512 + Blocks(|f.data|))
    requires buf[512..512 + |f.data|] == f.data
    ensures Load(buf, 0, map[]) != Loaded(map[f.name := f.data])
  {
    SizeReadsBack(|f.data|, 11);
    MemberIsRead(buf, 0, f, |f.data|);
    assert f.name in map[f.name := f.data];
  }

  /** A last member that ends with the buffer is read; cut short by anything, it is not. */
  lemma LastMemberIsWhole(f: File, cut: nat)
    requires Good(f) && cut < |Header(f.name + RAW, |f.data|) + f.data|
    ensures Load(Header(f.name + RAW, |f.data|) + f.data, 0, map[]) == Loaded(map[f.name := f.data])
    ensures Load((Header(f.name + RAW, |f.data|) + f.data)[..cut], 0, map[]) == Loaded(map[])
  {
    var h := Header(f.name + RAW, |f.data|);
    var buf := h + f.data;
    assert buf[0..0 + 512] == h && buf[512..512 + |f.data|] == f.data;
    GoodMemberIsRead(buf, 0, f);
    assert map[][f.name := f.data] == map[f.name := f.data];
    if cut >= 512 {
      CutMemberStops(f, buf[..cut]);
    }
  }

  lemma CutMemberStops(f: File, buf: Bytes)
    requires Good(f) && 512 <= |buf| < 512 + |f.data| && buf[..512] == Header(f.name + RAW, |f.data|)
    ensures ReadMember(buf, 0) == Stop
  {
    assert buf[0..0 + 512] == buf[..512];
    GoodFields(f);
    NameField(buf, 0, f.name, |f.data|);
    SizeField(buf, 0, f.name + RAW, |f.data|);
    SizeIsPrinted(buf[0 + 124..0 + 135], |f.data|);
  }
}
