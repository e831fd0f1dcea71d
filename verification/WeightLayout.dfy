/** The layout of packed convolution weights (kernels/host/weight_layout_pack.py:45-99,
    kernels/include/hmx_crouton.h:28-31): tiles of 32 input by 32 output channels, padded with
    zeros, for each bank of output channels, bank of input channels and tap.
 */
module WeightLayout {
  import opened MixedRadix

  datatype Shape = Shape(kh: nat, kw: nat, cin: nat, cout: nat)

  datatype Tap = Tap(h: int, kw: int)

  /** One weight: its tap and channels. */
  datatype Weight = Weight(tap: Tap, cin: int, cout: int)

  predicate ValidTap(s: Shape, t: Tap) {
    0 <= t.h < s.kh && 0 <= t.kw < s.kw
  }

  predicate ValidWeight(s: Shape, w: Weight) {
    ValidTap(s, w.tap) && 0 <= w.cin < s.cin && 0 <= w.cout < s.cout
  }

  /** Where the unpacked tensor holds a weight. */
  function Flat(s: Shape, w: Weight): int {
    At(s.cout, At(s.cin, At(s.kw, w.tap.h, w.tap.kw), w.cin), w.cout)
  }

  function Count(s: Shape): nat {
    s.kh * s.kw * s.cin * s.cout
  }

  lemma FlatBound(s: Shape, w: Weight)
    requires ValidWeight(s, w)
    ensures 0 <= Flat(s, w) < Count(s)
  {
    AtBound(s.kw, s.kh, w.tap.h, w.tap.kw);
    AtBound(s.cin, s.kh * s.kw, At(s.kw, w.tap.h, w.tap.kw), w.cin);
    AtBound(s.cout, s.kh * s.kw * s.cin, At(s.cin, At(s.kw, w.tap.h, w.tap.kw), w.cin), w.cout);
  }

  // ----- Tap orders -----

  /** Rows ascending, columns descending. */
  function DefaultTaps(kh: nat, kw: nat): (taps: seq<Tap>)
  {
    if kh == 0 then [] else DefaultTaps(kh - 1, kw) + RowTaps(kh - 1, kw)
  }

  function RowTaps(h: int, kw: nat): (taps: seq<Tap>)
    ensures |taps| == kw && forall k :: 0 <= k < kw ==> taps[k] == Tap(h, kw - 1 - k)
  {
    seq(kw, k => Tap(h, kw - 1 - k))
  }

  /** Parity classes of a 3 by 3 kernel. */
  const T2: seq<Tap> := [
    Tap(0, 2), Tap(0, 0), Tap(2, 2), Tap(2, 0), Tap(0, 1), Tap(2, 1), Tap(1, 2), Tap(1, 0), Tap(1, 1)
  ]

  /** A 5 by 5 kernel with its first column last. */
  const T5: seq<Tap> := [
    Tap(0, 4), Tap(0, 3), Tap(0, 2), Tap(0, 1), Tap(1, 4), Tap(1, 3), Tap(1, 2), Tap(1, 1),
    Tap(2, 4), Tap(2, 3), Tap(2, 2), Tap(2, 1), Tap(3, 4), Tap(3, 3), Tap(3, 2), Tap(3, 1),
    Tap(4, 4), Tap(4, 3), Tap(4, 2), Tap(4, 1), Tap(0, 0), Tap(1, 0), Tap(2, 0), Tap(3, 0), Tap(4, 0)
  ]

  function TapOrder(stride2: bool, s: Shape): seq<Tap> {
    if s.kh == 5 && s.kw == 5 then T5
    else if stride2 && s.kh == 3 && s.kw == 3 then T2
    else DefaultTaps(s.kh, s.kw)
  }

  /** Position of a tap in the order of its kernel. */
  function TapIndex(stride2: bool, s: Shape, t: Tap): int {
    if s.kh == 5 && s.kw == 5 then if t.kw == 0 then 20 + t.h else t.h * 4 + 4 - t.kw
    else if stride2 && s.kh == 3 && s.kw == 3 then
      (if t.h % 2 == 0 then if t.kw % 2 == 0 then t.h - t.kw / 2 + 1 else 4 + t.h / 2 else if t.kw % 2 == 0 then 7 - t.kw / 2 else 8)
    else At(s.kw, t.h, s.kw - 1 - t.kw)
  }

  lemma {:induction false} DefaultTapAt(kh: nat, kw: nat, h: int, k: int)
    requires 0 <= h < kh && 0 <= k < kw
    ensures |DefaultTaps(kh, kw)| == kh * kw
    ensures 0 <= At(kw, h, k) < kh * kw && DefaultTaps(kh, kw)[At(kw, h, k)] == Tap(h, kw - 1 - k)
  {
    AtBound(kw, kh, h, k);
    DefaultTapCount(kh - 1, kw);
    DefaultTapCount(kh, kw);
    if h < kh - 1 {
      DefaultTapAt(kh - 1, kw, h, k);
    }
  }

  lemma {:induction false} DefaultTapCount(kh: nat, kw: nat)
    ensures |DefaultTaps(kh, kw)| == kh * kw
  {
    if kh > 0 {
      DefaultTapCount(kh - 1, kw);
    }
  }

  lemma PositiveFactor(a: nat, b: nat, k: int)
    requires 0 <= k < a * b
    ensures b > 0
  {
  }

  /** A list holds every tap of the kernel exactly once, where TapIndex says. */
  ghost predicate ListsTaps(stride2: bool, s: Shape, taps: seq<Tap>) {
    && |taps| == s.kh * s.kw
    && (forall k :: 0 <= k < |taps| ==> ValidTap(s, taps[k]) && TapIndex(stride2, s, taps[k]) == k)
    && (forall t :: ValidTap(s, t) ==> 0 <= TapIndex(stride2, s, t) < |taps| && taps[TapIndex(stride2, s, t)] == t)
  }

  lemma T5ListsTaps(stride2: bool, s: Shape)
    requires s.kh == 5 && s.kw == 5
    ensures ListsTaps(stride2, s, T5)
  {
  }

  lemma T2ListsTaps(s: Shape)
    requires s.kh == 3 && s.kw == 3
    ensures ListsTaps(true, s, T2)
  {
  }

  lemma DefaultListsTaps(stride2: bool, s: Shape)
    requires !(s.kh == 5 && s.kw == 5) && !(stride2 && s.kh == 3 && s.kw == 3)
    ensures ListsTaps(stride2, s, DefaultTaps(s.kh, s.kw))
  {
    DefaultTapCount(s.kh, s.kw);
    forall t | ValidTap(s, t)
      ensures 0 <= TapIndex(stride2, s, t) < s.kh * s.kw && DefaultTaps(s.kh, s.kw)[TapIndex(stride2, s, t)] == t
    {
      DefaultTapAt(s.kh, s.kw, t.h, s.kw - 1 - t.kw);
    }
    forall k | 0 <= k < s.kh * s.kw
      ensures ValidTap(s, DefaultTaps(s.kh, s.kw)[k]) && TapIndex(stride2, s, DefaultTaps(s.kh, s.kw)[k]) == k
    {
      PositiveFactor(s.kh, s.kw, k);
      DivModAt(s.kw, k);
      DivBound(s.kw, s.kh, k);
      DefaultTapAt(s.kh, s.kw, k / s.kw, k % s.kw);
    }
  }

  /** Every order lists every tap of the kernel exactly once. */
  lemma OrderListsTaps(stride2: bool, s: Shape)
    ensures ListsTaps(stride2, s, TapOrder(stride2, s))
  {
    if s.kh == 5 && s.kw == 5 {
      T5ListsTaps(stride2, s);
    } else if stride2 && s.kh == 3 && s.kw == 3 {
      T2ListsTaps(s);
    } else {
      DefaultListsTaps(stride2, s);
    }
  }

  // ----- Positions -----

  /** Position in a tile: rows in pairs, side by side. */
  function CroutonPos(row: int, col: int): int {
    row / 2 * 64 + 2 * col + row % 2
  }

  function CroutonRow(i: int): int {
    i / 64 * 2 + i % 2
  }

  function CroutonCol(i: int): int {
    i % 64 / 2
  }

  lemma PairsComeApart(row: nat, col: nat)
    requires col < 32
    ensures CroutonPos(row, col) / 64 == row / 2 && CroutonRow(CroutonPos(row, col)) == row && CroutonCol(CroutonPos(row, col)) == col
  {
    var i, r := CroutonPos(row, col), 2 * col + row % 2;
    QuotientOf(row / 2, r);
    assert i == 64 * (row / 2) + r && i % 2 == row % 2;
  }

  lemma QuotientOf(q: nat, r: nat)
    requires r < 64
    ensures (64 * q + r) / 64 == q && (64 * q + r) % 64 == r
  {
  }

  lemma CroutonIsOneToOne(row: int, col: int)
    requires 0 <= row < 32 && 0 <= col < 32
    ensures 0 <= CroutonPos(row, col) < 1024 && CroutonRow(CroutonPos(row, col)) == row && CroutonCol(CroutonPos(row, col)) == col
  {
    PairsComeApart(row, col);
  }

  lemma CroutonIsOnto(i: int)
    requires 0 <= i < 1024
    ensures 0 <= CroutonRow(i) < 32 && 0 <= CroutonCol(i) < 32 && CroutonPos(CroutonRow(i), CroutonCol(i)) == i
  {
  }

  /** Banks of 32 channels. */
  function Banks(channels: nat): nat {
    (channels + 31) / 32
  }

  /** Where the packer puts a weight, given the index of its tap. */
  function Position(s: Shape, taps: nat, tap: int, w: Weight): int {
    At(1024, At(taps, At(Banks(s.cin), w.cout / 32, w.cin / 32), tap), CroutonPos(w.cin % 32, w.cout % 32))
  }

  /** The tile at a position: banks and index of the tap. */
  datatype Tile = Tile(n: int, k: int, tap: int)

  function TileIndex(s: Shape, taps: nat, t: Tile): int {
    At(taps, At(Banks(s.cin), t.n, t.k), t.tap)
  }

  function TileOf(s: Shape, taps: nat, i: nat): Tile
    requires taps > 0 && s.cin > 0
  {
    Tile(i / taps / Banks(s.cin), i / taps % Banks(s.cin), i % taps)
  }

  predicate ValidTile(s: Shape, taps: nat, t: Tile) {
    0 <= t.n < Banks(s.cout) && 0 <= t.k < Banks(s.cin) && 0 <= t.tap < taps
  }

  function Tiles(s: Shape, taps: nat): nat {
    Banks(s.cout) * Banks(s.cin) * taps
  }

  lemma TileOfIndex(s: Shape, taps: nat, t: Tile)
    requires ValidTile(s, taps, t)
    ensures 0 <= TileIndex(s, taps, t) < Tiles(s, taps) && TileOf(s, taps, TileIndex(s, taps, t)) == t
  {
    var a := At(Banks(s.cin), t.n, t.k);
    AtBound(Banks(s.cin), Banks(s.cout), t.n, t.k);
    AtBound(taps, Banks(s.cout) * Banks(s.cin), a, t.tap);
    AtDivMod(taps, a, t.tap);
    AtDivMod(Banks(s.cin), t.n, t.k);
  }

  lemma IndexOfTile(s: Shape, taps: nat, i: nat)
    requires taps > 0 && s.cin > 0 && i < Tiles(s, taps)
    ensures ValidTile(s, taps, TileOf(s, taps, i)) && TileIndex(s, taps, TileOf(s, taps, i)) == i
  {
    DivModAt(taps, i);
    DivBound(taps, Banks(s.cout) * Banks(s.cin), i);
    DivModAt(Banks(s.cin), i / taps);
    DivBound(Banks(s.cin), Banks(s.cout), i / taps);
  }

  // ----- What is packed -----

  /** The weight, real or padding, that belongs at position i of a tile. */
  function WeightAt(taps: seq<Tap>, t: Tile, i: int): Weight
    requires 0 <= t.tap < |taps|
  {
    Weight(taps[t.tap], t.k * 32 + CroutonRow(i), t.n * 32 + CroutonCol(i))
  }

  /** A weight of the tensor, or zero beyond its channels. */
  function Value(s: Shape, v: seq<int>, w: Weight): int
    requires |v| == Count(s)
  {
    if ValidWeight(s, w) then FlatBound(s, w); v[Flat(s, w)] else 0
  }

  function TileData(s: Shape, v: seq<int>, taps: seq<Tap>, t: Tile): (data: seq<int>)
    requires |v| == Count(s) && 0 <= t.tap < |taps|
    ensures |data| == 1024
  {
    seq(1024, i => Value(s, v, WeightAt(taps, t, i)))
  }

  /** All tiles in order. */
  function TilesData(s: Shape, v: seq<int>, taps: seq<Tap>, n: nat): (data: seq<int>)
    requires |v| == Count(s) && n <= Tiles(s, |taps|)
    ensures |data| == 1024 * n
  {
    if n == 0 then []
    else
      assert |taps| > 0 && s.cin > 0 by { TilesNeedBoth(s, |taps|); }
      IndexOfTile(s, |taps|, n - 1);
      TilesData(s, v, taps, n - 1) + TileData(s, v, taps, TileOf(s, |taps|, n - 1))
  }

  lemma TilesNeedBoth(s: Shape, taps: nat)
    requires Tiles(s, taps) > 0
    ensures taps > 0 && s.cin > 0
  {
  }

  lemma {:induction false} TilesDataAt(s: Shape, v: seq<int>, taps: seq<Tap>, n: nat, p: nat)
    requires |v| == Count(s) && n <= Tiles(s, |taps|) && p < 1024 * n
    ensures |taps| > 0 && s.cin > 0 && ValidTile(s, |taps|, TileOf(s, |taps|, p / 1024))
    ensures TilesData(s, v, taps, n)[p] == Value(s, v, WeightAt(taps, TileOf(s, |taps|, p / 1024), p % 1024))
  {
    TilesNeedBoth(s, |taps|);
    IndexOfTile(s, |taps|, p / 1024);
    if p < 1024 * (n - 1) {
      TilesDataAt(s, v, taps, n - 1, p);
    } else {
      assert p / 1024 == n - 1;
    }
  }

  function Packed(s: Shape, v: seq<int>, stride2: bool): (data: seq<int>)
    requires |v| == Count(s)
  {
    var taps := TapOrder(stride2, s);
    TilesData(s, v, taps, Tiles(s, |taps|))
  }

  // ----- The layout is right -----

  /** Where a weight of a kernel goes. */
  function PlaceOf(s: Shape, stride2: bool, w: Weight): int {
    Position(s, s.kh * s.kw, TapIndex(stride2, s, w.tap), w)
  }

  lemma PlaceBound(s: Shape, stride2: bool, w: Weight)
    requires ValidWeight(s, w)
    ensures var t := Tile(w.cout / 32, w.cin / 32, TapIndex(stride2, s, w.tap));
            && ValidTile(s, s.kh * s.kw, t)
            && PlaceOf(s, stride2, w) == At(1024, TileIndex(s, s.kh * s.kw, t), CroutonPos(w.cin % 32, w.cout % 32))
            && 0 <= PlaceOf(s, stride2, w) < 1024 * Tiles(s, s.kh * s.kw)
            && PlaceOf(s, stride2, w) / 1024 == TileIndex(s, s.kh * s.kw, t)
            && PlaceOf(s, stride2, w) % 1024 == CroutonPos(w.cin % 32, w.cout % 32)
  {
    var t := Tile(w.cout / 32, w.cin / 32, TapIndex(stride2, s, w.tap));
    OrderListsTaps(stride2, s);
    TileOfIndex(s, s.kh * s.kw, t);
    CroutonIsOneToOne(w.cin % 32, w.cout % 32);
    AtDivMod(1024, TileIndex(s, s.kh * s.kw, t), CroutonPos(w.cin % 32, w.cout % 32));
    AtBound(1024, Tiles(s, s.kh * s.kw), TileIndex(s, s.kh * s.kw, t), CroutonPos(w.cin % 32, w.cout % 32));
  }

  /** Every weight is at its place. */
  lemma WeightIsAtPlace(s: Shape, v: seq<int>, stride2: bool, w: Weight)
    requires |v| == Count(s) && ValidWeight(s, w)
    ensures 0 <= PlaceOf(s, stride2, w) < |Packed(s, v, stride2)| && 0 <= Flat(s, w) < |v|
    ensures Packed(s, v, stride2)[PlaceOf(s, stride2, w)] == v[Flat(s, w)]
  {
    var taps := TapOrder(stride2, s);
    var t := Tile(w.cout / 32, w.cin / 32, TapIndex(stride2, s, w.tap));
    OrderListsTaps(stride2, s);
    PlaceBound(s, stride2, w);
    FlatBound(s, w);
    TileOfIndex(s, |taps|, t);
    TilesDataAt(s, v, taps, Tiles(s, |taps|), PlaceOf(s, stride2, w));
    CroutonIsOneToOne(w.cin % 32, w.cout % 32);
    assert WeightAt(taps, t, CroutonPos(w.cin % 32, w.cout % 32)) == w;
  }

  /** The weight that belongs at a position, of a kernel that has weights. */
  function WeightOf(s: Shape, stride2: bool, p: nat): Weight
    requires s.cin > 0 && TapOrder(stride2, s) != []
  {
    var taps := TapOrder(stride2, s);
    WeightAt(taps, TileOf(s, |taps|, p / 1024), p % 1024)
  }

  /** A place gives its weight back. */
  lemma PlaceGivesWeight(s: Shape, stride2: bool, w: Weight)
    requires ValidWeight(s, w)
    ensures s.cin > 0 && TapOrder(stride2, s) != [] && PlaceOf(s, stride2, w) >= 0
    ensures WeightOf(s, stride2, PlaceOf(s, stride2, w)) == w
  {
    var taps := TapOrder(stride2, s);
    var t := Tile(w.cout / 32, w.cin / 32, TapIndex(stride2, s, w.tap));
    OrderListsTaps(stride2, s);
    PlaceBound(s, stride2, w);
    TileOfIndex(s, |taps|, t);
    CroutonIsOneToOne(w.cin % 32, w.cout % 32);
    assert WeightAt(taps, t, CroutonPos(w.cin % 32, w.cout % 32)) == w;
  }

  /** Distinct weights have distinct places. */
  lemma PlacesAreDistinct(s: Shape, stride2: bool, w: Weight, w': Weight)
    requires ValidWeight(s, w) && ValidWeight(s, w') && w != w'
    ensures PlaceOf(s, stride2, w) != PlaceOf(s, stride2, w')
  {
    PlaceGivesWeight(s, stride2, w);
    PlaceGivesWeight(s, stride2, w');
  }

  lemma TapAt(stride2: bool, s: Shape, k: int)
    requires 0 <= k < s.kh * s.kw
    ensures |TapOrder(stride2, s)| == s.kh * s.kw && TapIndex(stride2, s, TapOrder(stride2, s)[k]) == k
  {
    OrderListsTaps(stride2, s);
  }

  lemma WeightDigits(taps: seq<Tap>, t: Tile, i: int)
    requires 0 <= t.tap < |taps| && 0 <= i < 1024
    ensures var w := WeightAt(taps, t, i);
            w.cout / 32 == t.n && w.cin / 32 == t.k && CroutonPos(w.cin % 32, w.cout % 32) == i
  {
    CroutonIsOnto(i);
    AtDivMod(32, t.n, CroutonCol(i));
    AtDivMod(32, t.k, CroutonRow(i));
  }

  lemma PositionFromDigits(s: Shape, taps: nat, w: Weight, t: Tile, i: int)
    requires w.cout / 32 == t.n && w.cin / 32 == t.k && CroutonPos(w.cin % 32, w.cout % 32) == i
    ensures Position(s, taps, t.tap, w) == At(1024, TileIndex(s, taps, t), i)
  {
  }

  /** The weight of the tensor that belongs at a position has its place there. */
  lemma PlaceOfWeightAt(s: Shape, stride2: bool, taps: seq<Tap>, t: Tile, i: int)
    requires taps == TapOrder(stride2, s) && |taps| == s.kh * s.kw && ValidTile(s, |taps|, t) && 0 <= i < 1024
    ensures PlaceOf(s, stride2, WeightAt(taps, t, i)) == At(1024, TileIndex(s, |taps|, t), i)
  {
    TapAt(stride2, s, t.tap);
    WeightDigits(taps, t, i);
    PositionFromDigits(s, |taps|, WeightAt(taps, t, i), t, i);
  }

  /** Every other position holds zero. */
  lemma OtherPlacesAreZero(s: Shape, v: seq<int>, stride2: bool, p: nat)
    requires |v| == Count(s) && p < |Packed(s, v, stride2)|
    requires forall w :: ValidWeight(s, w) ==> PlaceOf(s, stride2, w) != p
    ensures Packed(s, v, stride2)[p] == 0
  {
    var taps := TapOrder(stride2, s);
    OrderListsTaps(stride2, s);
    TilesDataAt(s, v, taps, Tiles(s, |taps|), p);
    var t := TileOf(s, |taps|, p / 1024);
    IndexOfTile(s, |taps|, p / 1024);
    if ValidWeight(s, WeightAt(taps, t, p % 1024)) {
      PlaceOfWeightAt(s, stride2, taps, t, p % 1024);
      DivModAt(1024, p);
    }
  }

  // ----- Members of a network -----

  const S2_MEMBERS: set<nat> := {52, 58, 148, 150}
  const NATURAL_MEMBERS: set<nat> := {0}

  /** The tiles before bank n of output channels. */
  function FirstTile(s: Shape, taps: nat, n: nat): nat {
    n * Banks(s.cin) * taps
  }

  lemma FirstTileBound(s: Shape, taps: nat, n: nat)
    requires n <= Banks(s.cout)
    ensures FirstTile(s, taps, n) <= Tiles(s, taps)
    ensures TileIndex(s, taps, Tile(n, 0, 0)) == FirstTile(s, taps, n)
    ensures n > 0 ==> FirstTile(s, taps, n - 1) <= FirstTile(s, taps, n)
  {
    TimesGrows(n, Banks(s.cout), Banks(s.cin));
    TimesGrows(n * Banks(s.cin), Banks(s.cout) * Banks(s.cin), taps);
    AtStart(Banks(s.cin), n);
    AtStart(taps, n * Banks(s.cin));
    if n > 0 {
      TimesGrows(n - 1, n, Banks(s.cin));
      TimesGrows((n - 1) * Banks(s.cin), n * Banks(s.cin), taps);
    }
  }

  lemma AtStart(width: int, row: int)
    ensures At(width, row, 0) == row * width
  {
  }

  lemma TimesGrows(a: nat, b: nat, k: nat)
    requires a <= b
    ensures a * k <= b * k
  {
  }

  /** The part of the packed weights that belongs to one bank of output channels. */
  function BankOf(s: Shape, v: seq<int>, stride2: bool, n: nat): seq<int>
    requires |v| == Count(s) && n < Banks(s.cout)
  {
    var taps := |TapOrder(stride2, s)|;
    FirstTileBound(s, taps, n);
    FirstTileBound(s, taps, n + 1);
    Packed(s, v, stride2)[1024 * FirstTile(s, taps, n)..1024 * FirstTile(s, taps, n + 1)]
  }

  lemma {:induction false} TilesDataPrefix(s: Shape, v: seq<int>, taps: seq<Tap>, n: nat, m: nat)
    requires |v| == Count(s) && n <= m <= Tiles(s, |taps|)
    ensures TilesData(s, v, taps, m)[..1024 * n] == TilesData(s, v, taps, n)
  {
    if n < m {
      TilesNeedBoth(s, |taps|);
      TilesDataPrefix(s, v, taps, n, m - 1);
    }
  }

  // ----- The natural layout -----

  /** The tensor in rows of 32, two by two, with zeros at the end. */
  function Natural(v: seq<int>): (data: seq<int>)
    ensures |data| == 64 * ((|v| + 63) / 64)
  {
    seq(64 * ((|v| + 63) / 64), i requires 0 <= i => if NaturalIndex(i) < |v| then v[NaturalIndex(i)] else 0)
  }

  /** Which element a position holds. */
  function NaturalIndex(i: nat): nat {
    CroutonRow(i) * 32 + CroutonCol(i)
  }

  lemma PlaceFits(j: nat, count: nat)
    requires j < count
    ensures j / 32 / 2 < (count + 63) / 64
  {
  }

  lemma Below(p: nat, pair: nat, pairs: nat)
    requires p / 64 == pair < pairs
    ensures p < 64 * pairs
  {
  }

  /** Every element is at the place of its row and column, and elements do not collide. */
  lemma NaturalIsAtPlace(v: seq<int>, j: nat)
    requires j < |v|
    ensures var p := j / 32 / 2 * 64 + 2 * (j % 32) + j / 32 % 2;
            0 <= p < |Natural(v)| && Natural(v)[p] == v[j] && NaturalIndex(p) == j
  {
    var p := CroutonPos(j / 32, j % 32);
    PairsComeApart(j / 32, j % 32);
    PlaceFits(j, |v|);
    Below(p, j / 32 / 2, (|v| + 63) / 64);
    assert NaturalIndex(p) == j;
  }
}
