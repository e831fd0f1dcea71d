/** The weight archive: appended members and the reader that maps names to bytes
    (compiler/tools/hnnx_compile.cpp:116-141, 244-273,
    compiler/src/frontend/qnn_ir_loader.cpp:861-899).  The format is the ustar interchange
    format of the pax utility in IEEE Std 1003.1.
 */
module Tar {
  import opened Bytes

  const RAW: Bytes := [46, 114, 97, 119]

  // ----- Octal numbers -----

  function Octal(n: nat): (r: Bytes)
    ensures |r| >= 1 && forall k :: 0 <= k < |r| ==> 48 <= r[k] <= 55
  {
    if n < 8 then [48 + n] else Octal(n / 8) + [48 + n % 8]
  }

  /** The first characters of a number printed with leading zeros. */
  function Printed(n: nat, width: nat): (r: Bytes)
    ensures |r| == width && forall k :: 0 <= k < |r| ==> 48 <= r[k] <= 55
  {
    var o := Octal(n);
    ((if |o| < width then Fill(width - |o|, 48) else []) + o)[..width]
  }

  function Digits(s: Bytes): (r: Bytes)
    ensures r <= s && forall k :: 0 <= k < |r| ==> 48 <= r[k] <= 55
    ensures |r| < |s| ==> !(48 <= s[|r|] <= 55)
  {
    if s == [] || !(48 <= s[0] <= 55) then [] else [s[0]] + Digits(s[1..])
  }

  function Value(digits: Bytes): nat
    requires forall k :: 0 <= k < |digits| ==> 48 <= digits[k] <= 55
  {
    if digits == [] then 0 else Value(digits[..|digits| - 1]) * 8 + (digits[|digits| - 1] - 48)
  }

  function Pow8(k: nat): (r: nat)
    ensures r > 0
  {
    if k == 0 then 1 else 8 * Pow8(k - 1)
  }

  lemma {:induction false} ValueOfOctal(n: nat)
    ensures Value(Octal(n)) == n
  {
    if n >= 8 {
      ValueOfOctal(n / 8);
      var o := Octal(n / 8);
      assert (o + [48 + n % 8])[..|o|] == o;
    } else {
      assert [48 + n][..0] == [];
    }
  }

  lemma {:induction false} ValueOfZeros(k: nat, o: Bytes)
    requires forall i :: 0 <= i < |o| ==> 48 <= o[i] <= 55
    ensures Value(Fill(k, 48) + o) == Value(o)
    decreases |o|, k
  {
    var s := Fill(k, 48) + o;
    if o != [] {
      ValueOfZeros(k, o[..|o| - 1]);
      assert s[..|s| - 1] == Fill(k, 48) + o[..|o| - 1];
    } else if k > 0 {
      ValueOfZeros(k - 1, o);
      assert s[..k - 1] == Fill(k - 1, 48) + [];
      assert o == [];
    }
  }

  /** The length of an octal number is that of its value. */
  lemma {:induction false} OctalFits(n: nat, width: nat)
    ensures width > 0 ==> (|Octal(n)| <= width <==> n < Pow8(width))
  {
    if width > 1 {
      if n >= 8 {
        OctalFits(n / 8, width - 1);
      }
    } else if width == 1 {
      assert Pow8(1) == 8;
    }
  }

  lemma {:induction false} ValueBound(s: Bytes)
    requires forall k :: 0 <= k < |s| ==> 48 <= s[k] <= 55
    ensures Value(s) < Pow8(|s|)
  {
    if s != [] {
      ValueBound(s[..|s| - 1]);
    }
  }

  /** A size that is printed in a field is read back exactly when it fits. */
  lemma SizeReadsBack(n: nat, width: nat)
    requires width > 0
    ensures Value(Printed(n, width)) == n <==> n < Pow8(width)
  {
    var o := Octal(n);
    ValueOfOctal(n);
    OctalFits(n, width);
    if n < Pow8(width) {
      ValueOfZeros(width - |o|, o);
      assert Printed(n, width) == Fill(width - |o|, 48) + o;
    } else {
      ValueBound(Printed(n, width));
    }
  }

  // ----- Writing -----

  function Min(a: nat, b: nat): nat {
    if a < b then a else b
  }

  /** The k-th byte of a header that has spaces for its checksum: name, mode, owner, group,
      size, time, checksum, type, magic and version. */
  function HeaderByte(name: Bytes, size: Bytes, k: nat): Byte
    requires |size| == 11
  {
    if k < 100 then if k < |name| && k < 99 then name[k] else 0
    else if k < 108 then if k == 107 then 0 else if k == 104 then 54 else if k == 105 || k == 106 then 52 else 48
    else if k < 124 then if k == 115 || k == 123 then 0 else 48
    else if k < 136 then if k == 135 then 0 else size[k - 124]
    else if k < 148 then if k == 147 then 0 else 48
    else if k < 156 then 32
    else if k == 156 then 48
    else if 257 <= k < 262 then [117, 115, 116, 97, 114][k - 257]
    else if k == 263 || k == 264 then 48
    else 0
  }

  function Unsigned(name: Bytes, len: nat): (h: Bytes)
    ensures |h| == 512
  {
    var size := Printed(len, 11);
    seq(512, k requires 0 <= k < 512 => HeaderByte(name, size, k))
  }

  function Sum(s: Bytes): nat {
    if s == [] then 0 else Sum(s[..|s| - 1]) + s[|s| - 1]
  }

  /** The header of a member, with its checksum. */
  function Header(name: Bytes, len: nat): (h: Bytes)
    ensures |h| == 512
  {
    var u := Unsigned(name, len);
    u[..148] + Printed(Sum(u), 6) + [0, 32] + u[156..]
  }

  /** Zeros up to the next multiple of 512. */
  function Padding(n: nat): (r: Bytes)
    ensures (n + |r|) % 512 == 0 && |r| < 512
  {
    Fill(if n % 512 == 0 then 0 else 512 - n % 512, 0)
  }

  /** A buffer with one more member. */
  function Appended(before: Bytes, name: Bytes, data: Bytes): (r: Bytes)
    ensures |r| % 512 == 0 && |before| + 512 + |data| <= |r|
  {
    before + Header(name, |data|) + data + Padding(|before| + 512 + |data|)
  }

  /** A buffer that members are appended to. */
  class TarBuffer {
    var bytes: Bytes

    constructor ()
      ensures bytes == []
    {
      bytes := [];
    }

    method Append(name: Bytes, data: Bytes)
      modifies this
      ensures bytes == Appended(old(bytes), name, data)
    {
      var h := UnsignedHeader(name, |data|);
      var sum := SumOf(h);
      h := Patch(h, 148, Printed(sum, 6));
      h := Patch(h, 154, [0, 32]);
      assert h == Header(name, |data|);
      bytes := bytes + h;
      bytes := bytes + data;
      ghost var unpadded := bytes;
      ghost var zeros: nat := 0;
      while |bytes| % 512 != 0
        invariant zeros <= |Padding(|unpadded|)|
        invariant bytes == unpadded + Fill(zeros, 0)
        decreases 512 - zeros
      {
        bytes := bytes + [0];
        zeros := zeros + 1;
      }
    }
  }

  method UnsignedHeader(name: Bytes, len: nat) returns (h: Bytes)
    ensures h == Unsigned(name, len)
  {
    h := Fill(512, 0);
    var n := Min(|name|, 99);
    h := Patch(h, 0, name[..n]);
    h := Patch(h, 100, [48, 48, 48, 48, 54, 52, 52]);
    h := Patch(h, 108, Fill(7, 48));
    h := Patch(h, 116, Fill(7, 48));
    var size := Printed(len, 11);
    h := Patch(h, 124, size);
    h := Patch(h, 136, Fill(11, 48));
    h := Patch(h, 148, Fill(8, 32));
    h := Patch(h, 156, [48]);
    h := Patch(h, 257, [117, 115, 116, 97, 114]);
    h := Patch(h, 263, [48, 48]);
    assert forall k :: 0 <= k < 512 ==> h[k] == HeaderByte(name, size, k);
  }

  method SumOf(h: Bytes) returns (sum: nat)
    ensures sum == Sum(h)
  {
    sum := 0;
    var i := 0;
    while i < |h|
      invariant 0 <= i <= |h|
      invariant sum == Sum(h[..i])
    {
      assert h[..i + 1][..i] == h[..i];
      sum := sum + h[i];
      i := i + 1;
    }
    assert h[..i] == h;
  }
}
