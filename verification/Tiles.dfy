/** Tiles, payloads and exactness. */
module Tiles {
  // Cutting a level into tiles, sending each through a codec and putting the
  // level back together; counting payloads; and the check that a lossless codec
  // was exact.

  import opened Words
  import opened Grid
  import opened Halving

  const TILE: nat := 256

  datatype Raster = Raster(w: nat, h: nat, data: seq<nat>)

  type Payload = seq<nat>

  datatype Codec = Codec(
    name: string,
    lossless: bool,
    encode: Raster -> Result<Payload, string>,
    decode: Payload -> Result<seq<nat>, string>)

  // ---- one tile -----------------------------------------------------------

  function Extent(size: nat, k: nat): nat
    requires k * TILE <= size
  {
    if TILE < size - k * TILE then TILE else size - k * TILE
  }

  predicate IsTile(px: seq<nat>, size: nat, tx: nat, ty: nat) {
    IsSquare(px, size) && tx * TILE < size && ty * TILE < size
  }

  /** The sample at (x, y) of tile (tx, ty), as the level holds it. */
  function Source(px: seq<nat>, size: nat, tx: nat, ty: nat, x: nat, y: nat): nat
    requires IsTile(px, size, tx, ty) && x < 3 * Extent(size, tx) && y < Extent(size, ty)
  {
    Sample(px, 3 * size, size, 3 * (tx * TILE) + x, ty * TILE + y)
  }

  /** The first `rows` rows of a tile, `w` samples each. */
  ghost predicate AreRows(data: seq<nat>, px: seq<nat>, size: nat, tx: nat, ty: nat, w: nat, rows: nat) {
    IsTile(px, size, tx, ty) && w == 3 * Extent(size, tx) && rows <= Extent(size, ty) && |data| == w * rows &&
    forall x: nat, y: nat :: x < w && y < rows ==> Sample(data, w, rows, x, y) == Source(px, size, tx, ty, x, y)
  }

  ghost predicate IsCut(t: Raster, px: seq<nat>, size: nat, tx: nat, ty: nat) {
    IsTile(px, size, tx, ty) && t.w == Extent(size, tx) && t.h == Extent(size, ty) &&
    AreRows(t.data, px, size, tx, ty, 3 * t.w, t.h)
  }

  /** Only one raster is the cut of a tile. */
  lemma CutIsUnique(t: Raster, r: Raster, px: seq<nat>, size: nat, tx: nat, ty: nat)
    requires IsCut(t, px, size, tx, ty) && IsCut(r, px, size, tx, ty)
    ensures t == r
  {
    SameSamples(t.data, r.data, 3 * t.w, t.h);
  }

  /** What comes back of a tile, if anything, has as many samples as went in. */
  predicate KeepsSize(codec: Codec, t: Raster) {
    codec.encode(t).Success? && codec.decode(codec.encode(t).value).Success? ==>
      |codec.decode(codec.encode(t).value).value| == |t.data|
  }

  predicate GivesBack(codec: Codec, t: Raster) {
    codec.encode(t).Success? && codec.decode(codec.encode(t).value) == Success(t.data)
  }

  /** No tile of the level changes its size. */
  ghost predicate KeepsShape(codec: Codec, px: seq<nat>, size: nat) {
    forall tx, ty, t :: IsCut(t, px, size, tx, ty) ==> KeepsSize(codec, t)
  }

  /** Every tile of the level goes in, and comes back as it was. */
  ghost predicate ComesBack(codec: Codec, px: seq<nat>, size: nat) {
    forall tx, ty, t :: IsCut(t, px, size, tx, ty) ==> GivesBack(codec, t)
  }

  method TileOf(px: seq<nat>, size: nat, ty: nat, tx: nat) returns (t: Raster)
    requires IsTile(px, size, tx, ty)
    ensures IsCut(t, px, size, tx, ty)
  {
    var w, h := Extent(size, tx), Extent(size, ty);
    var data: seq<nat> := [];
    var y := 0;
    while y < h
      invariant y <= h && AreRows(data, px, size, tx, ty, 3 * w, y)
    {
      var row := RowOf(px, size, 3 * (tx * TILE), ty * TILE + y, 3 * w);
      RowCompletes(data, row, px, size, tx, ty, 3 * w, y);
      data := data + row;
      y := y + 1;
    }
    t := Raster(w, h, data);
  }

  lemma RowCompletes(data: seq<nat>, row: seq<nat>, px: seq<nat>, size: nat, tx: nat, ty: nat, w: nat, y: nat)
    requires AreRows(data, px, size, tx, ty, w, y) && y < Extent(size, ty) && |row| == w
    requires forall x: nat :: x < w ==> row[x] == Source(px, size, tx, ty, x, y)
    ensures AreRows(data + row, px, size, tx, ty, w, y + 1)
  {
    assert w * (y + 1) == w * y + w;
    forall x: nat, v: nat | x < w && v < y + 1
      ensures Sample(data + row, w, y + 1, x, v) == Source(px, size, tx, ty, x, v)
    {
      RowIsAppended(data, row, w, y, x, v);
      if v < y {
        assert Sample(data, w, y, x, v) == Source(px, size, tx, ty, x, v);
      } else {
        assert row[x] == Source(px, size, tx, ty, x, y);
      }
    }
  }

  /** A stretch of one row is a stretch of the buffer. */
  method RowOf(px: seq<nat>, size: nat, left: nat, y: nat, len: nat) returns (row: seq<nat>)
    requires IsSquare(px, size) && y < size && left + len <= 3 * size
    ensures |row| == len
    ensures forall x: nat :: x < len ==> row[x] == Sample(px, 3 * size, size, left + x, y)
  {
    StretchFits(left, y, size, len);
    var o := At(left, y, 3 * size);
    row := px[o..o + len];
    forall x: nat | x < len ensures row[x] == Sample(px, 3 * size, size, left + x, y) {
      AtShifts(left, x, y, 3 * size);
    }
  }

  lemma StretchFits(left: nat, y: nat, size: nat, len: nat)
    requires y < size && left + len <= 3 * size
    ensures At(left, y, 3 * size) + len <= (3 * size) * size
  {
    AtIsProduct(left, y, 3 * size);
    Rows(y + 1, size, 3 * size);
  }

  /** Adding a row under a buffer leaves the rows above it where they were. */
  lemma RowIsAppended(data: seq<nat>, row: seq<nat>, w: nat, rows: nat, x: nat, y: nat)
    requires |data| == w * rows && |row| == w && x < w && y < rows + 1
    ensures |data + row| == w * (rows + 1)
    ensures Sample(data + row, w, rows + 1, x, y) == if y < rows then Sample(data, w, rows, x, y) else row[x]
  {
    assert w * (rows + 1) == w * rows + w;
    AtBounded(x, y, w, rows + 1);
    if y < rows { AtBounded(x, y, w, rows); } else { AtIsProduct(x, y, w); }
  }

  // ---- putting tiles back -------------------------------------------------

  predicate IsInTile(size: nat, tx: nat, ty: nat, x: nat, y: nat)
    requires tx * TILE <= size && ty * TILE <= size
  {
    3 * (tx * TILE) <= x < 3 * (tx * TILE) + 3 * Extent(size, tx) && ty * TILE <= y < ty * TILE + Extent(size, ty)
  }

  /** `now` is `was` with the first `rows` rows of tile (tx, ty) replaced, and
      in the next row the first `columns` samples. */
  ghost predicate HasPlaced(now: seq<nat>, was: seq<nat>, back: seq<nat>, size: nat, tx: nat, ty: nat, columns: nat, rows: nat) {
    IsTile(now, size, tx, ty) && IsSquare(was, size) && |back| == (3 * Extent(size, tx)) * Extent(size, ty) &&
    forall x: nat, y: nat :: x < 3 * size && y < size ==>
      Sample(now, 3 * size, size, x, y) ==
      if IsInTile(size, tx, ty, x, y) &&
         (y - ty * TILE < rows || (y - ty * TILE == rows && x - 3 * (tx * TILE) < columns))
      then Sample(back, 3 * Extent(size, tx), Extent(size, ty), x - 3 * (tx * TILE), y - ty * TILE)
      else Sample(was, 3 * size, size, x, y)
  }

  /** The decoded tile has the tile's size. */
  predicate FitsTile(back: seq<nat>, size: nat, tx: nat, ty: nat)
    requires tx * TILE <= size && ty * TILE <= size
  {
    |back| == (3 * Extent(size, tx)) * Extent(size, ty)
  }

  /** Write a decoded tile over the level, a stretch of its own width at a time.
      When it has the tile's size exactly the tile's samples are written; when it
      has not, a stretch may end early or lie below the tile, and one that would
      run out of the level makes the program give up. */
  method PlaceTile(rebuilt: array<nat>, size: nat, ty: nat, tx: nat, back: seq<nat>) returns (ok: bool)
    requires IsTile(rebuilt[..], size, tx, ty)
    modifies rebuilt
    ensures FitsTile(back, size, tx, ty) ==>
      ok && HasPlaced(rebuilt[..], old(rebuilt[..]), back, size, tx, ty, 0, Extent(size, ty))
  {
    var w := 3 * Extent(size, tx);
    var y, start := 0, 0;
    ok := true;
    while start < |back| && ok
      invariant start == At(0, y, w)
      invariant FitsTile(back, size, tx, ty) ==>
        ok && y <= Extent(size, ty) && HasPlaced(rebuilt[..], old(rebuilt[..]), back, size, tx, ty, 0, y)
      decreases |back| + w - start, ok
    {
      StretchesOfTile(back, size, tx, ty, w, y);
      ok := PlaceStretch(rebuilt, size, ty, tx, back, y, old(rebuilt[..]));
      y := y + 1;
      start := start + w;
    }
    StretchesOfTile(back, size, tx, ty, w, y);
  }

  /** A tile of its own size has as many stretches as rows. */
  lemma StretchesOfTile(back: seq<nat>, size: nat, tx: nat, ty: nat, w: nat, y: nat)
    requires tx * TILE < size && ty * TILE < size && w == 3 * Extent(size, tx)
    ensures FitsTile(back, size, tx, ty) ==> (At(0, y, w) < |back| <==> y < Extent(size, ty))
  {
    AtIsProduct(0, y, w);
    if y < Extent(size, ty) { Rows(y + 1, Extent(size, ty), w); } else { Rows(Extent(size, ty), y, w); }
  }

  method PlaceStretch(rebuilt: array<nat>, size: nat, ty: nat, tx: nat, back: seq<nat>, y: nat, ghost was: seq<nat>) returns (ok: bool)
    requires IsTile(rebuilt[..], size, tx, ty) && At(0, y, 3 * Extent(size, tx)) < |back|
    modifies rebuilt
    ensures FitsTile(back, size, tx, ty) && y < Extent(size, ty) && HasPlaced(old(rebuilt[..]), was, back, size, tx, ty, 0, y) ==>
      ok && HasPlaced(rebuilt[..], was, back, size, tx, ty, 0, y + 1)
  {
    var w, left := 3 * Extent(size, tx), 3 * (tx * TILE);
    var start, o := At(0, y, w), At(left, ty * TILE + y, 3 * size);
    var len := if |back| - start < w then |back| - start else w;
    ghost var fits := FitsTile(back, size, tx, ty) && y < Extent(size, ty) && HasPlaced(old(rebuilt[..]), was, back, size, tx, ty, 0, y);
    if fits { StretchIsInside(back, size, tx, ty, y); }
    if o + len > rebuilt.Length { return false; }
    var x := 0;
    while x < len
      invariant x <= len
      invariant fits ==> HasPlaced(rebuilt[..], was, back, size, tx, ty, x, y)
    {
      AtShifts(left, x, ty * TILE + y, 3 * size);
      AtShifts(0, x, y, w);
      ghost var before := rebuilt[..];
      rebuilt[o + x] := back[start + x];
      if fits { OnePlaced(before, rebuilt[..], was, back, size, tx, ty, x, y); }
      x := x + 1;
    }
    ok := true;
  }

  lemma StretchIsInside(back: seq<nat>, size: nat, tx: nat, ty: nat, y: nat)
    requires tx * TILE < size && ty * TILE < size && y < Extent(size, ty) && FitsTile(back, size, tx, ty)
    ensures var w := 3 * Extent(size, tx);
      At(0, y, w) + w <= |back| && At(3 * (tx * TILE), ty * TILE + y, 3 * size) + w <= (3 * size) * size
  {
    var w := 3 * Extent(size, tx);
    OneMoreRow(y, w, Extent(size, ty));
    StretchFits(3 * (tx * TILE), ty * TILE + y, size, w);
  }

  lemma OneMoreRow(y: nat, w: nat, h: nat)
    requires y < h
    ensures At(0, y, w) + w <= w * h
  {
    AtIsProduct(0, y, w);
    Rows(y + 1, h, w);
    assert (y + 1) * w == y * w + w;
  }

  lemma OnePlaced(before: seq<nat>, after: seq<nat>, was: seq<nat>, back: seq<nat>, size: nat, tx: nat, ty: nat, x: nat, y: nat)
    requires IsTile(before, size, tx, ty) && |after| == |before| && x < 3 * Extent(size, tx) && y < Extent(size, ty)
    requires HasPlaced(before, was, back, size, tx, ty, x, y)
    requires At(3 * (tx * TILE) + x, ty * TILE + y, 3 * size) < |before| && At(x, y, 3 * Extent(size, tx)) < |back|
    requires after == before[At(3 * (tx * TILE) + x, ty * TILE + y, 3 * size) := back[At(x, y, 3 * Extent(size, tx))]]
    ensures HasPlaced(after, was, back, size, tx, ty, x + 1, y)
  {
    OneWrite(before, after, 3 * size, size, 3 * (tx * TILE) + x, ty * TILE + y, back[At(x, y, 3 * Extent(size, tx))]);
  }

  /** The level shows the decoded tile where the tile was cut. */
  ghost predicate Shows(now: seq<nat>, size: nat, tx: nat, ty: nat, back: seq<nat>) {
    IsTile(now, size, tx, ty) && |back| == (3 * Extent(size, tx)) * Extent(size, ty) &&
    forall x: nat, y: nat :: x < 3 * Extent(size, tx) && y < Extent(size, ty) ==>
      Source(now, size, tx, ty, x, y) == Sample(back, 3 * Extent(size, tx), Extent(size, ty), x, y)
  }

  lemma PlacedShows(now: seq<nat>, was: seq<nat>, back: seq<nat>, size: nat, tx: nat, ty: nat)
    requires tx * TILE < size && ty * TILE < size
    requires HasPlaced(now, was, back, size, tx, ty, 0, Extent(size, ty))
    ensures Shows(now, size, tx, ty, back)
  {
    forall x: nat, y: nat | x < 3 * Extent(size, tx) && y < Extent(size, ty)
      ensures Source(now, size, tx, ty, x, y) == Sample(back, 3 * Extent(size, tx), Extent(size, ty), x, y)
    {
      assert IsInTile(size, tx, ty, 3 * (tx * TILE) + x, ty * TILE + y);
    }
  }

  /** No sample lies in two tiles, so placing one leaves the others alone. */
  lemma OthersStillShow(now: seq<nat>, was: seq<nat>, back: seq<nat>, size: nat, tx: nat, ty: nat, tx2: nat, ty2: nat, other: seq<nat>)
    requires tx * TILE < size && ty * TILE < size && (tx2 != tx || ty2 != ty)
    requires HasPlaced(now, was, back, size, tx, ty, 0, Extent(size, ty)) && Shows(was, size, tx2, ty2, other)
    ensures Shows(now, size, tx2, ty2, other)
  {
    forall x: nat, y: nat | x < 3 * Extent(size, tx2) && y < Extent(size, ty2)
      ensures Source(now, size, tx2, ty2, x, y) == Source(was, size, tx2, ty2, x, y)
    {
      assert !IsInTile(size, tx, ty, 3 * (tx2 * TILE) + x, ty2 * TILE + y);
    }
  }

  /** Every sample lies in one tile. */
  lemma SampleHasATile(size: nat, x: nat, y: nat) returns (tx: nat, ty: nat)
    requires x < 3 * size && y < size
    ensures tx * TILE < size && ty * TILE < size && IsInTile(size, tx, ty, x, y)
    ensures tx < Across(size) && ty < Across(size)
  {
    tx, ty := x / 768, y / 256;
  }

  // ---- payloads -----------------------------------------------------------

  function TotalBytes(payloads: seq<Payload>): nat {
    if payloads == [] then 0 else TotalBytes(payloads[..|payloads| - 1]) + |payloads[|payloads| - 1]|
  }

  /** A table keeps the first value given for a key. */
  function Entered(table: seq<Entry<nat>>, key: string, size: nat): seq<Entry<nat>> {
    if exists i :: 0 <= i < |table| && table[i].key == key then table else table + [Entry(key, size)]
  }

  function Table(payloads: seq<Payload>, hash: Payload -> string): seq<Entry<nat>> {
    if payloads == [] then []
    else Entered(Table(payloads[..|payloads| - 1], hash), hash(payloads[|payloads| - 1]), |payloads[|payloads| - 1]|)
  }

  function TableBytes(table: seq<Entry<nat>>): nat {
    if table == [] then 0 else TableBytes(table[..|table| - 1]) + table[|table| - 1].value
  }

  /** The payloads that no earlier one equals. */
  function Firsts(payloads: seq<Payload>): seq<Payload> {
    if payloads == [] then []
    else
      var init := payloads[..|payloads| - 1];
      if payloads[|payloads| - 1] in init then Firsts(init) else Firsts(init) + [payloads[|payloads| - 1]]
  }

  ghost predicate IsInjective(hash: Payload -> string) {
    forall a, b :: hash(a) == hash(b) ==> a == b
  }

  lemma {:induction false} FirstsAreThePayloads(payloads: seq<Payload>)
    ensures forall p :: p in Firsts(payloads) <==> p in payloads
    ensures forall i, j :: 0 <= i < j < |Firsts(payloads)| ==> Firsts(payloads)[i] != Firsts(payloads)[j]
  {
    if payloads != [] {
      var init, last := payloads[..|payloads| - 1], payloads[|payloads| - 1];
      FirstsAreThePayloads(init);
      assert payloads == init + [last];
    }
  }

  /** The table has one entry for each of these payloads, with its length. */
  ghost predicate TableIs(t: seq<Entry<nat>>, f: seq<Payload>, hash: Payload -> string) {
    |t| == |f| && (forall i :: 0 <= i < |f| ==> t[i] == Entry(hash(f[i]), |f[i]|)) && TableBytes(t) == TotalBytes(f)
  }

  /** Under a collision-free hash the table is the distinct payloads, each with
      its own length. */
  lemma {:induction false} TableIsTheDistinct(payloads: seq<Payload>, hash: Payload -> string)
    requires IsInjective(hash)
    ensures TableIs(Table(payloads, hash), Firsts(payloads), hash)
  {
    if payloads != [] {
      var init, last := payloads[..|payloads| - 1], payloads[|payloads| - 1];
      TableIsTheDistinct(init, hash);
      FirstsAreThePayloads(init);
      OneMoreEntry(Table(init, hash), Firsts(init), last, hash);
    }
  }

  lemma OneMoreEntry(t: seq<Entry<nat>>, f: seq<Payload>, p: Payload, hash: Payload -> string)
    requires IsInjective(hash) && TableIs(t, f, hash)
    ensures TableIs(Entered(t, hash(p), |p|), if p in f then f else f + [p], hash)
  {
    if p in f {
      var i :| 0 <= i < |f| && f[i] == p;
      assert t[i].key == hash(p);
    } else {
      forall i | 0 <= i < |t| ensures t[i].key != hash(p) { assert f[i] in f && t[i].key == hash(f[i]); }
      assert (t + [Entry(hash(p), |p|)])[..|t|] == t && (f + [p])[..|f|] == f;
    }
  }

  ghost predicate NoneRepeats(payloads: seq<Payload>) {
    forall i, j :: 0 <= i < j < |payloads| ==> payloads[i] != payloads[j]
  }

  lemma NoneRepeatsIff(init: seq<Payload>, last: Payload)
    ensures NoneRepeats(init + [last]) <==> NoneRepeats(init) && last !in init
  {
    var all := init + [last];
    if NoneRepeats(all) {
      forall i | 0 <= i < |init| ensures init[i] != last { assert all[i] == init[i] && all[|init|] == last; }
      forall i, j | 0 <= i < j < |init| ensures init[i] != init[j] { assert all[i] != all[j]; }
    }
  }

  /** Dropping repeats never adds bytes or payloads; nothing is dropped exactly
      when no payload repeats. */
  lemma {:induction false} DedupeNeverGrows(payloads: seq<Payload>)
    ensures |Firsts(payloads)| <= |payloads| && TotalBytes(Firsts(payloads)) <= TotalBytes(payloads)
    ensures |Firsts(payloads)| == |payloads| <==> NoneRepeats(payloads)
    ensures |Firsts(payloads)| == |payloads| ==> Firsts(payloads) == payloads
  {
    if payloads != [] {
      var init, last := payloads[..|payloads| - 1], payloads[|payloads| - 1];
      assert payloads == init + [last];
      DedupeNeverGrows(init);
      NoneRepeatsIff(init, last);
      if last !in init { assert (Firsts(init) + [last])[..|Firsts(init)|] == Firsts(init); }
    }
  }

  // ---- one level through one codec ----------------------------------------

  function Across(size: nat): nat {
    (size + 255) / 256
  }

  datatype Level = Level(tiles: nat, before: nat, distinct: seq<Entry<nat>>, rebuilt: seq<nat>)

  ghost predicate IsCoded(codec: Codec, px: seq<nat>, size: nat, tx: nat, ty: nat, p: Payload) {
    codec.decode(p).Success? && exists t :: IsCut(t, px, size, tx, ty) && codec.encode(t) == Success(p)
  }

  /** Tiles before number `count`, in row order, have been coded and put back. */
  ghost predicate AreBack(codec: Codec, px: seq<nat>, size: nat, now: seq<nat>, payloads: seq<Payload>) {
    IsSquare(now, size) &&
    forall tx: nat, ty: nat :: tx < Across(size) && ty < Across(size) && At(tx, ty, Across(size)) < |payloads| ==>
      var p := payloads[At(tx, ty, Across(size))];
      IsCoded(codec, px, size, tx, ty, p) && Shows(now, size, tx, ty, codec.decode(p).value)
  }

  /** Some tile of the level is refused by the codec, or comes back with another
      size. */
  ghost predicate Fails(codec: Codec, px: seq<nat>, size: nat) {
    exists tx: nat, ty: nat, t :: IsCut(t, px, size, tx, ty) && Mishandles(codec, t)
  }

  predicate Mishandles(codec: Codec, t: Raster) {
    codec.encode(t).Failure? || codec.decode(codec.encode(t).value).Failure? ||
    |codec.decode(codec.encode(t).value).value| != |t.data|
  }

  ghost predicate AreCoded(codec: Codec, px: seq<nat>, size: nat, payloads: seq<Payload>) {
    forall tx: nat, ty: nat :: tx < Across(size) && ty < Across(size) && At(tx, ty, Across(size)) < |payloads| ==>
      IsCoded(codec, px, size, tx, ty, payloads[At(tx, ty, Across(size))])
  }

  /** Encode, decode and put back one tile. */
  method MeasureTile(codec: Codec, px: seq<nat>, size: nat, ty: nat, tx: nat, rebuilt: array<nat>) returns (r: Result<Payload, string>)
    requires IsTile(px, size, tx, ty) && IsSquare(rebuilt[..], size)
    modifies rebuilt
    ensures r.Failure? ==> Fails(codec, px, size)
    ensures r.Success? ==> IsCoded(codec, px, size, tx, ty, r.value)
    ensures r.Success? && KeepsShape(codec, px, size) ==>
      HasPlaced(rebuilt[..], old(rebuilt[..]), codec.decode(r.value).value, size, tx, ty, 0, Extent(size, ty))
  {
    var tile := TileOf(px, size, ty, tx);
    var bytes := codec.encode(tile);
    if bytes.Failure? { return Failure(bytes.error); }
    var back := codec.decode(bytes.value);
    if back.Failure? { return Failure(back.error); }
    var placed := PlaceTile(rebuilt, size, ty, tx, back.value);
    assert |back.value| == |tile.data| <==> FitsTile(back.value, size, tx, ty);
    assert placed || Mishandles(codec, tile);
    r := if placed then Success(bytes.value) else Failure("range end index out of range for slice");
  }

  /** Whatever the codec does: tiles, bytes and distinct payloads are counted
      right. When every tile comes back with its own size, the rebuilt level shows
      every tile as it came back. */
  method Measure(codec: Codec, px: seq<nat>, size: nat, hash: Payload -> string)
    returns (r: Result<Level, string>, ghost payloads: seq<Payload>)
    requires IsSquare(px, size)
    ensures r.Failure? ==> Fails(codec, px, size)
    ensures r.Success? ==>
      |payloads| == Across(size) * Across(size) && AreCoded(codec, px, size, payloads) && |r.value.rebuilt| == |px| &&
      r.value.tiles == |payloads| && r.value.before == TotalBytes(payloads) && r.value.distinct == Table(payloads, hash)
    ensures r.Success? && KeepsShape(codec, px, size) ==> AreBack(codec, px, size, r.value.rebuilt, payloads)
  {
    var n := Across(size);
    var rebuilt := new nat[|px|](_ => 0);
    var m := Level(0, 0, [], []);
    payloads := [];
    var ty := 0;
    while ty < n
      invariant ty <= n && |payloads| == n * ty && IsMeasured(codec, px, size, hash, rebuilt[..], payloads, m)
    {
      var tx := 0;
      while tx < n
        invariant tx <= n && |payloads| == n * ty + tx && IsMeasured(codec, px, size, hash, rebuilt[..], payloads, m)
      {
        ghost var was := rebuilt[..];
        var bytes := MeasureTile(codec, px, size, ty, tx, rebuilt);
        if bytes.Failure? { return Failure(bytes.error), payloads; }
        var next := Level(m.tiles + 1, m.before + |bytes.value|, Entered(m.distinct, hash(bytes.value), |bytes.value|), []);
        OneMoreIsMeasured(codec, px, size, hash, was, rebuilt[..], payloads, m, next, tx, ty, bytes.value);
        payloads := payloads + [bytes.value];
        m := next;
        tx := tx + 1;
      }
      ty := ty + 1;
    }
    r := Success(m.(rebuilt := rebuilt[..]));
  }

  /** The counts are those of the tiles so far and, when no tile changes its size,
      the buffer shows each of them as it came back. */
  ghost predicate IsMeasured(codec: Codec, px: seq<nat>, size: nat, hash: Payload -> string, now: seq<nat>, payloads: seq<Payload>, m: Level) {
    |now| == |px| && AreCoded(codec, px, size, payloads) && (KeepsShape(codec, px, size) ==> AreBack(codec, px, size, now, payloads)) &&
    m.tiles == |payloads| && m.before == TotalBytes(payloads) && m.distinct == Table(payloads, hash)
  }

  lemma OneMoreIsMeasured(codec: Codec, px: seq<nat>, size: nat, hash: Payload -> string, was: seq<nat>, now: seq<nat>,
                          payloads: seq<Payload>, m: Level, next: Level, tx: nat, ty: nat, p: Payload)
    requires tx < Across(size) && ty < Across(size) && |payloads| == Across(size) * ty + tx && |now| == |was|
    requires IsMeasured(codec, px, size, hash, was, payloads, m) && IsCoded(codec, px, size, tx, ty, p)
    requires KeepsShape(codec, px, size) ==> HasPlaced(now, was, codec.decode(p).value, size, tx, ty, 0, Extent(size, ty))
    requires next.tiles == m.tiles + 1 && next.before == m.before + |p| && next.distinct == Entered(m.distinct, hash(p), |p|)
    ensures IsMeasured(codec, px, size, hash, now, payloads + [p], next)
  {
    OneMoreIsCoded(codec, px, size, payloads, tx, ty, p);
    if KeepsShape(codec, px, size) { OneMoreIsBack(codec, px, size, was, now, payloads, tx, ty, p); }
    OneMorePayload(payloads, p, hash);
  }

  lemma OneMoreIsCoded(codec: Codec, px: seq<nat>, size: nat, payloads: seq<Payload>, tx: nat, ty: nat, p: Payload)
    requires tx < Across(size) && ty < Across(size) && |payloads| == Across(size) * ty + tx
    requires AreCoded(codec, px, size, payloads) && IsCoded(codec, px, size, tx, ty, p)
    ensures AreCoded(codec, px, size, payloads + [p])
  {
    var n := Across(size);
    AtIsProduct(tx, ty, n);
    forall u: nat, v: nat | u < n && v < n && At(u, v, n) < |payloads + [p]|
      ensures IsCoded(codec, px, size, u, v, (payloads + [p])[At(u, v, n)])
    {
      if At(u, v, n) == |payloads| { AtInjective(u, v, tx, ty, n); }
    }
  }

  lemma OneMorePayload(payloads: seq<Payload>, p: Payload, hash: Payload -> string)
    ensures TotalBytes(payloads + [p]) == TotalBytes(payloads) + |p|
    ensures Table(payloads + [p], hash) == Entered(Table(payloads, hash), hash(p), |p|)
  {
    assert (payloads + [p])[..|payloads|] == payloads;
  }

  lemma OneMoreIsBack(codec: Codec, px: seq<nat>, size: nat, was: seq<nat>, now: seq<nat>, payloads: seq<Payload>,
                      tx: nat, ty: nat, p: Payload)
    requires tx < Across(size) && ty < Across(size) && |payloads| == Across(size) * ty + tx
    requires AreBack(codec, px, size, was, payloads) && IsCoded(codec, px, size, tx, ty, p)
    requires HasPlaced(now, was, codec.decode(p).value, size, tx, ty, 0, Extent(size, ty))
    ensures AreBack(codec, px, size, now, payloads + [p])
  {
    var n := Across(size);
    AtIsProduct(tx, ty, n);
    PlacedShows(now, was, codec.decode(p).value, size, tx, ty);
    forall u: nat, v: nat | u < n && v < n && At(u, v, n) < |payloads + [p]|
      ensures var q := (payloads + [p])[At(u, v, n)];
        IsCoded(codec, px, size, u, v, q) && Shows(now, size, u, v, codec.decode(q).value)
    {
      if At(u, v, n) == |payloads| {
        AtInjective(u, v, tx, ty, n);
      } else {
        var q := payloads[At(u, v, n)];
        OthersStillShow(now, was, codec.decode(p).value, size, tx, ty, u, v, codec.decode(q).value);
      }
    }
  }

  /** Cutting and rebuilding is the identity exactly when every tile comes back as
      it was, ragged edges included. */
  lemma RebuiltIff(codec: Codec, px: seq<nat>, size: nat, now: seq<nat>, payloads: seq<Payload>)
    requires IsSquare(px, size) && AreBack(codec, px, size, now, payloads)
    requires |payloads| == Across(size) * Across(size)
    ensures now == px <==> ComesBack(codec, px, size)
  {
    if now == px {
      forall tx, ty, t | IsCut(t, px, size, tx, ty) ensures GivesBack(codec, t) {
        TileCameBack(codec, px, size, now, payloads, tx, ty, t);
        SameSamples(codec.decode(codec.encode(t).value).value, t.data, 3 * t.w, t.h);
      }
    }
    if ComesBack(codec, px, size) { FaithfulRebuilds(codec, px, size, now, payloads); }
  }

  /** The tile went in, and the level shows what came back. */
  lemma TileCameBack(codec: Codec, px: seq<nat>, size: nat, now: seq<nat>, payloads: seq<Payload>, tx: nat, ty: nat, t: Raster)
    requires IsCut(t, px, size, tx, ty) && AreBack(codec, px, size, now, payloads)
    requires |payloads| == Across(size) * Across(size)
    ensures codec.encode(t).Success? && codec.decode(codec.encode(t).value).Success?
    ensures Shows(now, size, tx, ty, codec.decode(codec.encode(t).value).value)
    ensures now == px ==> AreSamples(codec.decode(codec.encode(t).value).value, t)
  {
    AtBounded(tx, ty, Across(size), Across(size));
    var p := payloads[At(tx, ty, Across(size))];
    var r :| IsCut(r, px, size, tx, ty) && codec.encode(r) == Success(p);
    CutIsUnique(t, r, px, size, tx, ty);
    if now == px { ShownAreSamples(px, size, tx, ty, t, codec.decode(p).value); }
  }

  ghost predicate AreSamples(back: seq<nat>, t: Raster) {
    |back| == |t.data| == 3 * t.w * t.h &&
    forall x: nat, y: nat :: x < 3 * t.w && y < t.h ==> Sample(back, 3 * t.w, t.h, x, y) == Sample(t.data, 3 * t.w, t.h, x, y)
  }

  lemma ShownAreSamples(px: seq<nat>, size: nat, tx: nat, ty: nat, t: Raster, back: seq<nat>)
    requires IsCut(t, px, size, tx, ty) && Shows(px, size, tx, ty, back)
    ensures AreSamples(back, t)
  {
    forall x: nat, y: nat | x < 3 * t.w && y < t.h
      ensures Sample(back, 3 * t.w, t.h, x, y) == Sample(t.data, 3 * t.w, t.h, x, y)
    {
      assert Source(px, size, tx, ty, x, y) == Sample(back, 3 * t.w, t.h, x, y);
    }
  }

  lemma FaithfulRebuilds(codec: Codec, px: seq<nat>, size: nat, now: seq<nat>, payloads: seq<Payload>)
    requires ComesBack(codec, px, size) && IsSquare(px, size) && AreBack(codec, px, size, now, payloads)
    requires |payloads| == Across(size) * Across(size)
    ensures now == px
  {
    var n := Across(size);
    forall x: nat, y: nat | x < 3 * size && y < size
      ensures Sample(now, 3 * size, size, x, y) == Sample(px, 3 * size, size, x, y)
    {
      var tx, ty := SampleHasATile(size, x, y);
      AtBounded(tx, ty, n, n);
      var p := payloads[At(tx, ty, n)];
      var t :| IsCut(t, px, size, tx, ty) && codec.encode(t) == Success(p);
      assert GivesBack(codec, t);
      FaithfulShows(px, size, now, tx, ty, t, x, y);
    }
    SameSamples(now, px, 3 * size, size);
  }

  lemma FaithfulShows(px: seq<nat>, size: nat, now: seq<nat>, tx: nat, ty: nat, t: Raster, x: nat, y: nat)
    requires IsCut(t, px, size, tx, ty) && Shows(now, size, tx, ty, t.data)
    requires x < 3 * size && y < size && IsInTile(size, tx, ty, x, y) && IsSquare(now, size)
    ensures Sample(now, 3 * size, size, x, y) == Sample(px, 3 * size, size, x, y)
  {
    var u, v := x - 3 * (tx * TILE), y - ty * TILE;
    assert Source(now, size, tx, ty, u, v) == Sample(t.data, 3 * t.w, t.h, u, v) == Source(px, size, tx, ty, u, v);
  }

  // ---- the exact match rate -----------------------------------------------

  function Matches(a: seq<nat>, b: seq<nat>, channels: nat, i: nat): bool
    requires (i + 1) * channels <= |a| && (i + 1) * channels <= |b|
  {
    a[i * channels..(i + 1) * channels] == b[i * channels..(i + 1) * channels]
  }

  /** How many of the first `n` pixels agree. */
  function SameCount(a: seq<nat>, b: seq<nat>, channels: nat, n: nat): (count: nat)
    requires n * channels <= |a| && n * channels <= |b|
    ensures count <= n
  {
    if n == 0 then 0
    else
      Rows(n - 1, n, channels);
      SameCount(a, b, channels, n - 1) + (if Matches(a, b, channels, n - 1) then 1 else 0)
  }

  lemma {:induction false} AllAgree(a: seq<nat>, b: seq<nat>, channels: nat, n: nat)
    requires n * channels <= |a| && n * channels <= |b|
    ensures SameCount(a, b, channels, n) == n <==> forall k :: 0 <= k < n * channels ==> a[k] == b[k]
  {
    if n > 0 {
      Rows(n - 1, n, channels);
      AllAgree(a, b, channels, n - 1);
      PixelAgrees(a, b, channels, n - 1);
    }
  }

  /** The share of whole pixels with every channel the same: 1 exactly when the
      buffers have pixels and agree on all of them. */
  method ExactMatchRate(reference: seq<nat>, candidate: seq<nat>, channels: nat) returns (rate: real)
    ensures 0.0 <= rate <= 1.0
    ensures rate == 1.0 <==>
      channels > 0 && |reference| == |candidate| && |reference| >= channels &&
      forall k :: 0 <= k < |reference| / channels * channels ==> reference[k] == candidate[k]
  {
    if channels == 0 || |reference| != |candidate| || |reference| == 0 { return 0.0; }
    var pixels := |reference| / channels;
    if pixels == 0 { return 0.0; }
    var same := CountSame(reference, candidate, channels, pixels);
    rate := same as real / pixels as real;
    Ratio(same, pixels);
    AllAgree(reference, candidate, channels, pixels);
  }

  method CountSame(reference: seq<nat>, candidate: seq<nat>, channels: nat, pixels: nat) returns (same: nat)
    requires pixels * channels <= |reference| && pixels * channels <= |candidate|
    ensures same == SameCount(reference, candidate, channels, pixels)
  {
    same := 0;
    var i := 0;
    while i < pixels
      invariant i <= pixels && i * channels <= |reference| && i * channels <= |candidate|
      invariant same == SameCount(reference, candidate, channels, i)
    {
      Rows(i + 1, pixels, channels);
      if Matches(reference, candidate, channels, i) { same := same + 1; }
      i := i + 1;
    }
  }

  lemma PixelAgrees(a: seq<nat>, b: seq<nat>, channels: nat, i: nat)
    requires (i + 1) * channels <= |a| && (i + 1) * channels <= |b|
    ensures i * channels + channels == (i + 1) * channels
    ensures Matches(a, b, channels, i) <==> forall k :: i * channels <= k < i * channels + channels ==> a[k] == b[k]
  {
    var lo, hi := i * channels, (i + 1) * channels;
    assert hi == lo + channels;
    if Matches(a, b, channels, i) {
      forall k | lo <= k < hi ensures a[k] == b[k] {
        assert a[lo..hi][k - lo] == b[lo..hi][k - lo];
      }
    }
  }

  lemma Ratio(a: nat, b: nat)
    requires a <= b && b > 0
    ensures 0.0 <= a as real / b as real <= 1.0
    ensures a as real / b as real == 1.0 <==> a == b
  {
  }

  // ---- the run ------------------------------------------------------------

  datatype CellRow = CellRow(format: string, level: nat, lossless: bool, tiles: nat, before: nat, after: nat, distinct: nat, exact: real)

  predicate IsNotExact(row: CellRow) {
    row.lossless && row.exact != 1.0
  }

  /** `validate`: the run stands exactly when every lossless row is exact. */
  method Validate(rows: seq<CellRow>) returns (ok: bool)
    ensures ok <==> forall i :: 0 <= i < |rows| ==> !IsNotExact(rows[i])
  {
    var i := 0;
    while i < |rows|
      invariant i <= |rows|
      invariant forall j :: 0 <= j < i ==> !IsNotExact(rows[j])
    {
      if rows[i].lossless && rows[i].exact != 1.0 { return false; }
      i := i + 1;
    }
    ok := true;
  }

  /** What a row says: sizes that dedupe can only shrink and, for a codec that
      keeps the shape of this level's tiles, an exact match exactly when the level
      has pixels and every tile came back as it was. */
  ghost predicate RowFits(row: CellRow, codec: Codec, level: nat, px: seq<nat>, size: nat) {
    row.format == codec.name && row.lossless == codec.lossless && row.level == level &&
    row.tiles == Across(size) * Across(size) && row.distinct <= row.tiles && row.after <= row.before &&
    (KeepsShape(codec, px, size) ==> (row.exact == 1.0 <==> size > 0 && ComesBack(codec, px, size)))
  }

  method MeasureRow(codec: Codec, level: nat, px: seq<nat>, size: nat, hash: Payload -> string) returns (r: Result<CellRow, string>)
    requires IsSquare(px, size) && IsInjective(hash)
    ensures r.Failure? ==> Fails(codec, px, size)
    ensures r.Success? ==> RowFits(r.value, codec, level, px, size)
  {
    var measured, payloads := Measure(codec, px, size, hash);
    if measured.Failure? { return Failure(measured.error); }
    var m := measured.value;
    var exact := ExactMatchRate(px, m.rebuilt, 3);
    TableIsTheDistinct(payloads, hash);
    DedupeNeverGrows(payloads);
    SquareHasPixels(px, size);
    SameExactly(px, m.rebuilt, size);
    if KeepsShape(codec, px, size) { RebuiltIff(codec, px, size, m.rebuilt, payloads); }
    r := Success(CellRow(codec.name, level, codec.lossless, m.tiles, m.before, TableBytes(m.distinct), |m.distinct|, exact));
  }

  /** A level is whole pixels, so agreeing on them is being the same level. */
  lemma SameExactly(px: seq<nat>, now: seq<nat>, size: nat)
    requires IsSquare(px, size) && |now| == |px|
    ensures (forall k :: 0 <= k < |px| / 3 * 3 ==> px[k] == now[k]) <==> now == px
  {
    assert |px| == 3 * (size * size);
  }

  lemma SquareHasPixels(px: seq<nat>, size: nat)
    requires IsSquare(px, size)
    ensures |px| >= 3 <==> size > 0
  {
    assert size > 0 ==> (3 * size) * size >= 3 * size;
  }

  predicate HasLossless(codecs: seq<Codec>) {
    exists i :: 0 <= i < |codecs| && codecs[i].lossless
  }

  ghost predicate SomeFails(codecs: seq<Codec>, px: seq<nat>, size: nat) {
    exists i :: 0 <= i < |codecs| && Fails(codecs[i], px, size)
  }

  method MeasureLevel(codecs: seq<Codec>, level: nat, px: seq<nat>, size: nat, hash: Payload -> string)
    returns (r: Result<seq<CellRow>, string>)
    requires IsSquare(px, size) && IsInjective(hash)
    ensures r.Failure? ==> SomeFails(codecs, px, size)
    ensures r.Success? ==> |r.value| == |codecs| && forall i :: 0 <= i < |codecs| ==> RowFits(r.value[i], codecs[i], level, px, size)
  {
    var rows: seq<CellRow> := [];
    while |rows| < |codecs|
      invariant |rows| <= |codecs|
      invariant forall i :: 0 <= i < |rows| ==> RowFits(rows[i], codecs[i], level, px, size)
      decreases |codecs| - |rows|
    {
      var row := MeasureRow(codecs[|rows|], level, px, size, hash);
      if row.Failure? { return Failure(row.error); }
      rows := rows + [row.value];
    }
    r := Success(rows);
  }

  /** How a run can end without rows. */
  datatype RunError = CodecFailed(why: string) | NotExact

  /** The rows of the first `n` levels: level after level, codec after codec. */
  ghost predicate AreRowsOf(rows: seq<CellRow>, codecs: seq<Codec>, ls: seq<seq<nat>>, size: nat, n: nat) {
    n <= |ls| && |rows| == |codecs| * n &&
    forall i: nat, k: nat :: i < |codecs| && k < n ==> HasRowAt(rows, codecs, ls, size, i, k)
  }

  ghost predicate HasRowAt(rows: seq<CellRow>, codecs: seq<Codec>, ls: seq<seq<nat>>, size: nat, i: nat, k: nat)
    requires i < |codecs| && k < |ls|
  {
    At(i, k, |codecs|) < |rows| && RowFits(rows[At(i, k, |codecs|)], codecs[i], k, ls[k], Side(size, k))
  }

  /** No codec changes the size of a tile of the first `n` levels. */
  ghost predicate ShapesAreKept(codecs: seq<Codec>, ls: seq<seq<nat>>, size: nat, n: nat)
    requires n <= |ls|
  {
    forall i: nat, k: nat :: i < |codecs| && k < n ==> KeepsShape(codecs[i], ls[k], Side(size, k))
  }

  /** The first `n` levels have pixels, and every lossless codec gives every tile
      of them back as it was. */
  ghost predicate LosslessAreExact(codecs: seq<Codec>, ls: seq<seq<nat>>, size: nat, n: nat)
    requires n <= |ls|
  {
    forall i: nat, k: nat :: i < |codecs| && codecs[i].lossless && k < n ==>
      Side(size, k) > 0 && ComesBack(codecs[i], ls[k], Side(size, k))
  }

  /** `run_synthetic_control`, whatever the codecs: it fails at the first level
      some codec mishandles a tile of; otherwise it has a row for every level and
      codec and, when no tile changes its size, stands exactly when every level
      has pixels and every lossless codec gave all of its tiles back. */
  method RunControl(codecs: seq<Codec>, levels: nat, control: seq<nat>, size: nat, hash: Payload -> string)
    returns (r: Result<seq<CellRow>, RunError>, ghost ls: seq<seq<nat>>)
    requires IsSquare(control, size) && IsInjective(hash)
    ensures IsPyramid(ls, size) && ls[0] == control
    ensures r.Failure? && r.error.CodecFailed? ==> |ls| <= levels && SomeFails(codecs, ls[|ls| - 1], Side(size, |ls| - 1))
    ensures r.Success? ==> AreRowsOf(r.value, codecs, ls, size, levels)
    ensures r == Failure(NotExact) || r.Success? ==>
      |ls| == levels + 1 &&
      (ShapesAreKept(codecs, ls, size, levels) ==> (r.Success? <==> LosslessAreExact(codecs, ls, size, levels)))
  {
    var px, side := control, size;
    var rows: seq<CellRow> := [];
    ls := [control];
    var level := 0;
    while level < levels
      invariant level <= levels && IsSquare(px, side) && side == Side(size, level)
      invariant |ls| == level + 1 && IsPyramid(ls, size) && ls[0] == control && ls[level] == px
      invariant AreRowsOf(rows, codecs, ls, size, level)
    {
      var more := MeasureLevel(codecs, level, px, side, hash);
      if more.Failure? { return Failure(CodecFailed(more.error)), ls; }
      LevelIsAdded(rows, more.value, codecs, ls, size, level);
      rows := rows + more.value;
      px := Halve(px, side);
      RowsStay(rows, codecs, ls, px, size, level + 1);
      ls := ls + [px];
      side := side / 2;
      level := level + 1;
    }
    var ok := Validate(rows);
    if ShapesAreKept(codecs, ls, size, levels) { AllExactIff(rows, codecs, ls, size, levels); }
    r := if ok then Success(rows) else Failure(NotExact);
  }

  lemma LevelIsAdded(rows: seq<CellRow>, more: seq<CellRow>, codecs: seq<Codec>, ls: seq<seq<nat>>, size: nat, level: nat)
    requires AreRowsOf(rows, codecs, ls, size, level) && level < |ls| && |more| == |codecs|
    requires forall i :: 0 <= i < |codecs| ==> RowFits(more[i], codecs[i], level, ls[level], Side(size, level))
    ensures AreRowsOf(rows + more, codecs, ls, size, level + 1)
  {
    var n := |codecs|;
    assert n * (level + 1) == n * level + n;
    forall i: nat, k: nat | i < n && k < level + 1 ensures HasRowAt(rows + more, codecs, ls, size, i, k) {
      if k < level {
        assert HasRowAt(rows, codecs, ls, size, i, k);
      } else {
        AtIsProduct(i, level, n);
        assert RowFits(more[i], codecs[i], level, ls[level], Side(size, level));
      }
    }
  }

  lemma RowsStay(rows: seq<CellRow>, codecs: seq<Codec>, ls: seq<seq<nat>>, px: seq<nat>, size: nat, n: nat)
    requires AreRowsOf(rows, codecs, ls, size, n)
    ensures AreRowsOf(rows, codecs, ls + [px], size, n)
  {
    forall i: nat, k: nat | i < |codecs| && k < n ensures HasRowAt(rows, codecs, ls + [px], size, i, k) {
      assert HasRowAt(rows, codecs, ls, size, i, k) && (ls + [px])[k] == ls[k];
    }
  }

  lemma AllExactIff(rows: seq<CellRow>, codecs: seq<Codec>, ls: seq<seq<nat>>, size: nat, n: nat)
    requires AreRowsOf(rows, codecs, ls, size, n) && ShapesAreKept(codecs, ls, size, n)
    ensures (forall j :: 0 <= j < |rows| ==> !IsNotExact(rows[j])) <==> LosslessAreExact(codecs, ls, size, n)
  {
    forall i: nat, k: nat | i < |codecs| && k < n
      ensures HasRowAt(rows, codecs, ls, size, i, k) && rows[At(i, k, |codecs|)].lossless == codecs[i].lossless
      ensures rows[At(i, k, |codecs|)].exact == 1.0 <==> Side(size, k) > 0 && ComesBack(codecs[i], ls[k], Side(size, k))
    {
      assert HasRowAt(rows, codecs, ls, size, i, k);
      assert KeepsShape(codecs[i], ls[k], Side(size, k));
    }
    if LosslessAreExact(codecs, ls, size, n) {
      forall j | 0 <= j < |rows| ensures !IsNotExact(rows[j]) {
        var i, k := AtCovers(j, |codecs|, n);
        assert HasRowAt(rows, codecs, ls, size, i, k);
      }
    }
  }

  /** With lossless codecs that give every tile back, a run stands exactly when
      its last level has not shrunk to nothing. */
  lemma TrustedRunStandsIff(codecs: seq<Codec>, ls: seq<seq<nat>>, size: nat, n: nat)
    requires n <= |ls|
    requires forall i: nat, k: nat :: i < |codecs| && codecs[i].lossless && k < n ==> ComesBack(codecs[i], ls[k], Side(size, k))
    ensures LosslessAreExact(codecs, ls, size, n) <==> !HasLossless(codecs) || n == 0 || Side(size, n - 1) > 0
  {
    if n > 0 {
      forall k: nat | k < n ensures Side(size, k) >= Side(size, n - 1) { SidesShrink(size, k, n - 1); }
      if HasLossless(codecs) && LosslessAreExact(codecs, ls, size, n) {
        var i: nat :| i < |codecs| && codecs[i].lossless;
        assert ComesBack(codecs[i], ls[n - 1], Side(size, n - 1));
      }
    }
  }

  /** The control is 1024 pixels square: up to eleven levels stand, and no more. */
  lemma ElevenLevelsStand(levels: nat)
    requires levels > 0
    ensures Side(1024, levels - 1) > 0 <==> levels <= 11
  {
    assert Side(1024, 10) == 1 by {
      assert Side(1024, 4) == 64;
      assert Side(1024, 8) == 4;
    }
    if levels <= 11 { SidesShrink(1024, levels - 1, 10); } else { SidesShrink(1024, 11, levels - 1); }
  }

  lemma {:induction false} SidesShrink(size: nat, j: nat, k: nat)
    requires j <= k
    ensures Side(size, j) >= Side(size, k)
  {
    if j < k { SidesShrink(size, j, k - 1); }
  }
}
