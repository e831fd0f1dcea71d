/** The header of an archive member field by field, as the ustar interchange format of the pax
    utility in IEEE Std 1003.1 lays it out (compiler/tools/hnnx_compile.cpp:116-141).
 */
module TarHeader {
  import opened Bytes
  import opened Tar
  import opened TarReader

  function Ascii(s: string): (r: Bytes)
    requires forall i :: 0 <= i < |s| ==> s[i] as int < 128
    ensures |r| == |s|
  {
    seq<Byte>(|s|, i requires 0 <= i < |s| => s[i] as int)
  }

  function Total(s: Bytes): nat {
    if s == [] then 0 else s[0] + Total(s[1..])
  }

  predicate AllZero(s: Bytes) {
    forall k :: 0 <= k < |s| ==> s[k] == 0
  }

  /** Octal digits that give a number. */
  predicate Prints(digits: Bytes, n: nat) {
    (forall k :: 0 <= k < |digits| ==> 48 <= digits[k] <= 55) && Value(digits) == n
  }

  /** The header with spaces for its checksum. */
  function WithSpaces(h: Bytes): Bytes
    requires |h| == 512
  {
    h[..148] + Ascii("        ") + h[156..]
  }

  /** The name, cut off after 99 bytes. */
  ghost predicate NameField(h: Bytes, name: Bytes)
    requires |h| == 512
  {
    forall k :: 0 <= k < 100 ==> h[k] == if k < |name| && k < 99 then name[k] else 0
  }

  ghost predicate ConstantFields(h: Bytes)
    requires |h| == 512
  {
    && h[100..108] == Ascii("0000644") + [0] && h[108..116] == Ascii("0000000") + [0] && h[116..124] == Ascii("0000000") + [0]
    && h[135] == 0 && h[136..148] == Ascii("00000000000") + [0] && h[156] == 48
    && h[257..262] == Ascii("ustar") && h[262] == 0 && h[263..265] == Ascii("00")
    && AllZero(h[157..257]) && AllZero(h[265..])
  }

  /** A member's header: its name, mode 644, no owner and group, its size if that has eleven
      octal digits, no time, and the sum of all bytes, the sum's own counted as spaces. */
  ghost predicate IsHeader(h: Bytes, name: Bytes, size: nat) {
    && |h| == 512 && NameField(h, name) && ConstantFields(h)
    && (size < 0x2_0000_0000 ==> Prints(h[124..135], size))
    && Prints(h[148..154], Total(WithSpaces(h))) && h[154] == 0 && h[155] == 32
  }

  lemma ConstantsHold(name: Bytes, len: nat)
    ensures ConstantFields(Header(name, len)) && NameField(Header(name, len), name)
  {
    var h, u, size := Header(name, len), Unsigned(name, len), Printed(len, 11);
    assert forall k :: 0 <= k < 148 ==> h[k] == u[k] == HeaderByte(name, size, k);
    assert forall k :: 156 <= k < 512 ==> h[k] == u[k] == HeaderByte(name, size, k);
    assert forall k :: 0 <= k < 12 ==> h[136..148][k] == (Ascii("00000000000") + [0])[k];
    assert forall k :: 0 <= k < 8 ==> h[100..108][k] == (Ascii("0000644") + [0])[k];
    assert forall k :: 0 <= k < 8 ==> h[108..116][k] == (Ascii("0000000") + [0])[k];
    assert forall k :: 0 <= k < 8 ==> h[116..124][k] == (Ascii("0000000") + [0])[k];
    assert forall k :: 0 <= k < 5 ==> h[257..262][k] == Ascii("ustar")[k];
    assert forall k :: 0 <= k < 2 ==> h[263..265][k] == Ascii("00")[k];
  }

  lemma {:induction false} TotalIsSum(s: Bytes)
    ensures Total(s) == Sum(s)
    decreases |s|
  {
    if s != [] {
      TotalSnoc(s[..|s| - 1], s[|s| - 1]);
      assert s == s[..|s| - 1] + [s[|s| - 1]];
      TotalIsSum(s[..|s| - 1]);
    }
  }

  lemma {:induction false} TotalSnoc(s: Bytes, b: Byte)
    ensures Total(s + [b]) == Total(s) + b
  {
    if s == [] {
      assert [] + [b] == [b] && [b][1..] == [];
    } else {
      assert (s + [b])[1..] == s[1..] + [b];
      TotalSnoc(s[1..], b);
    }
  }

  lemma {:induction false} TotalBound(s: Bytes)
    ensures Total(s) <= 255 * |s|
  {
    if s != [] {
      TotalBound(s[1..]);
    }
  }

  lemma EightPowers()
    ensures Pow8(6) == 0x4_0000 && Pow8(11) == 0x2_0000_0000
  {
    assert Pow8(3) == 8 * Pow8(2) == 64 * Pow8(1) == 512;
    assert Pow8(6) == 8 * Pow8(5) == 64 * Pow8(4) == 512 * Pow8(3);
    assert Pow8(9) == 8 * Pow8(8) == 64 * Pow8(7) == 512 * Pow8(6);
    assert Pow8(11) == 8 * Pow8(10) == 64 * Pow8(9);
  }

  lemma NumbersHold(name: Bytes, len: nat)
    ensures var h := Header(name, len);
            && (len < 0x2_0000_0000 ==> Prints(h[124..135], len))
            && Prints(h[148..154], Total(WithSpaces(h))) && h[154] == 0 && h[155] == 32
  {
    var h, u := Header(name, len), Unsigned(name, len);
    var size := Printed(len, 11);
    assert forall k :: 0 <= k < 11 ==> h[124..135][k] == u[124 + k] == HeaderByte(name, size, 124 + k) == size[k];
    assert h[124..135] == size;
    SpacesRestored(name, len);
    TotalIsSum(u);
    TotalBound(u);
    EightPowers();
    SizeReadsBack(len, 11);
    SizeReadsBack(Sum(u), 6);
    assert forall k :: 0 <= k < 6 ==> h[148..154][k] == Printed(Sum(u), 6)[k];
    assert h[148..154] == Printed(Sum(u), 6);
  }

  lemma SpacesRestored(name: Bytes, len: nat)
    ensures WithSpaces(Header(name, len)) == Unsigned(name, len)
  {
    var h, u, size := Header(name, len), Unsigned(name, len), Printed(len, 11);
    assert forall k :: 148 <= k < 156 ==> u[k] == HeaderByte(name, size, k) == 32;
    assert forall k :: 0 <= k < 148 ==> h[k] == u[k];
    assert forall k :: 156 <= k < 512 ==> h[k] == u[k];
    assert forall k :: 0 <= k < 512 ==> WithSpaces(h)[k] == u[k];
  }

  /** The header that is written is one. */
  lemma HeaderIsHeader(name: Bytes, len: nat)
    ensures IsHeader(Header(name, len), name, len)
  {
    ConstantsHold(name, len);
    NumbersHold(name, len);
  }

  /** A member is a header, its data, and zeros up to a multiple of 512. */
  ghost predicate IsMember(m: Bytes, name: Bytes, data: Bytes) {
    && |m| % 512 == 0 && 512 + |data| <= |m| < 512 + |data| + 512
    && IsHeader(m[..512], name, |data|) && m[512..512 + |data|] == data && AllZero(m[512 + |data|..])
  }

  lemma AppendedIsMember(before: Bytes, name: Bytes, data: Bytes)
    requires |before| % 512 == 0
    ensures before <= Appended(before, name, data) && IsMember(Appended(before, name, data)[|before|..], name, data)
  {
    var h, pad := Header(name, |data|), Padding(|before| + 512 + |data|);
    var m := h + data + pad;
    HeaderIsHeader(name, |data|);
    assert Appended(before, name, data) == before + m;
    assert Appended(before, name, data)[|before|..] == m;
    assert m[..512] == h && m[512..512 + |data|] == data && m[512 + |data|..] == pad;
    assert (512 + |data| + |pad|) % 512 == 0;
  }

  // ----- The archive -----

  /** Members one after the other, each file under its name with ".raw". */
  ghost predicate HoldsMembers(buf: Bytes, files: seq<File>, ends: seq<nat>) {
    && |ends| == |files| + 1 && ends[0] == 0 && ends[|files|] == |buf|
    && forall k :: 0 <= k < |files| ==> MemberAt(buf, files[k], ends[k], ends[k + 1])
  }

  ghost predicate MemberAt(buf: Bytes, f: File, from: nat, to: nat) {
    from <= to <= |buf| && IsMember(buf[from..to], f.name + Ascii(".raw"), f.data)
  }

  lemma RawIsSuffix()
    ensures RAW == Ascii(".raw")
  {
  }

  /** An archive is its members in order. */
  lemma {:induction false} ArchiveHoldsMembers(files: seq<File>) returns (ends: seq<nat>)
    ensures HoldsMembers(Archive(files), files, ends) && |Archive(files)| % 512 == 0
  {
    if files == [] {
      ends := [0];
    } else {
      var front, f := files[..|files| - 1], files[|files| - 1];
      var before := ArchiveHoldsMembers(front);
      RawIsSuffix();
      AppendedIsMember(Archive(front), f.name + RAW, f.data);
      ends := before + [|Archive(files)|];
      OneMoreMember(Archive(front), front, before, Archive(files), f);
      assert files == front + [f];
    }
  }

  lemma OneMoreMember(a: Bytes, files: seq<File>, ends: seq<nat>, b: Bytes, f: File)
    requires HoldsMembers(a, files, ends) && a <= b && IsMember(b[|a|..], f.name + Ascii(".raw"), f.data)
    ensures HoldsMembers(b, files + [f], ends + [|b|])
  {
    var files', ends' := files + [f], ends + [|b|];
    forall k: nat | k < |files'|
      ensures MemberAt(b, files'[k], ends'[k], ends'[k + 1])
    {
      if k < |files| {
        assert MemberAt(a, files[k], ends[k], ends[k + 1]);
        StaysMember(a, b, files[k], ends[k], ends[k + 1]);
      } else {
        assert b[|a|..|b|] == b[|a|..];
      }
    }
  }

  lemma StaysMember(a: Bytes, b: Bytes, f: File, from: nat, to: nat)
    requires a <= b && MemberAt(a, f, from, to)
    ensures MemberAt(b, f, from, to)
  {
    assert b[from..to] == a[from..to];
  }
}
