/**
 * The level decoder of pkg/game/level.go, as functions of the level image: every
 * pixel is matched against the colour table, and the level cell it matches gives a
 * map cell and, for a marker, one item, one eeper or the player's start. The pixels
 * are read row by row, left to right, and the items and eepers are appended in that
 * order. The `State` method that runs the decoder's loops is proved equal to these
 * functions.
 */
module Levels {
  import opened Wrappers
  import opened Geometry
  import opened Entities

  newtype Byte = x: int | 0 <= x < 256

  datatype Color = Color(r: Byte, g: Byte, b: Byte, a: Byte)

  /** A decoded level image: its bounds and the 8-bit colour of each pixel. */
  datatype Image = Image(width: nat, height: nat, at: (int, int) -> Color)

  datatype LevelCell =
    | LevelNone
    | LevelGnome
    | LevelMother
    | LevelGuard
    | LevelFloor
    | LevelWall
    | LevelDoor
    | LevelCheckpoint
    | LevelBombRefill
    | LevelBarricade
    | LevelKey
    | LevelPlayer
    | LevelFather
    | LevelBombSlot

  /** The colour that marks each level cell in a level image. */
  function LevelCellColor(c: LevelCell): Color {
    match c
    case LevelNone => Color(0, 0, 0, 0)
    case LevelGnome => Color(255, 150, 0, 255)
    case LevelMother => Color(150, 255, 0, 255)
    case LevelGuard => Color(0, 255, 0, 255)
    case LevelFloor => Color(255, 255, 255, 255)
    case LevelWall => Color(0, 0, 0, 255)
    case LevelDoor => Color(0, 255, 255, 255)
    case LevelCheckpoint => Color(255, 0, 255, 255)
    case LevelBombRefill => Color(255, 0, 0, 255)
    case LevelBarricade => Color(255, 0, 150, 255)
    case LevelKey => Color(255, 255, 0, 255)
    case LevelPlayer => Color(0, 0, 255, 255)
    case LevelFather => Color(38, 95, 218, 255)
    case LevelBombSlot => Color(188, 83, 83, 255)
  }

  /** The entries of the colour table, in the order the decoder tries them. */
  const LevelCells: seq<LevelCell> := [
    LevelNone, LevelGnome, LevelMother, LevelGuard, LevelFloor, LevelWall, LevelDoor,
    LevelCheckpoint, LevelBombRefill, LevelBarricade, LevelKey, LevelPlayer, LevelFather, LevelBombSlot]

  /** The table lists every level cell once, and no two level cells share a colour. */
  lemma ColorTableIsInjective(c: LevelCell, d: LevelCell)
    ensures c in LevelCells
    ensures LevelCellColor(c) == LevelCellColor(d) ==> c == d
    ensures forall i, j :: 0 <= i < j < |LevelCells| ==> LevelCells[i] != LevelCells[j]
  {
  }

  /** The first entry from `k` on whose colour is `color`, or `LevelNone` when none matches. */
  function MatchFrom(color: Color, k: nat): LevelCell
    requires k <= |LevelCells|
    decreases |LevelCells| - k
  {
    if k == |LevelCells| then LevelNone
    else if LevelCellColor(LevelCells[k]) == color then LevelCells[k]
    else MatchFrom(color, k + 1)
  }

  /** The level cell a pixel of colour `color` stands for. */
  function ClassOf(color: Color): LevelCell {
    MatchFrom(color, 0)
  }

  lemma {:induction false} MatchFromFinds(color: Color, k: nat, d: LevelCell)
    requires k <= |LevelCells|
    ensures (exists j :: k <= j < |LevelCells| && LevelCells[j] == d) && LevelCellColor(d) == color ==>
              MatchFrom(color, k) == d
    ensures (forall j :: k <= j < |LevelCells| ==> LevelCellColor(LevelCells[j]) != color) ==>
              MatchFrom(color, k) == LevelNone
    decreases |LevelCells| - k
  {
    if k < |LevelCells| {
      MatchFromFinds(color, k + 1, d);
      if LevelCellColor(LevelCells[k]) == color && LevelCellColor(d) == color {
        ColorTableIsInjective(LevelCells[k], d);
      }
    }
  }

  /**
   * Classification depends on the colour only, not on the order the table is tried
   * in: a colour of the table gives its own level cell, and any other colour gives
   * `LevelNone`.
   */
  lemma ClassOfIsTheMatch(color: Color, d: LevelCell)
    ensures LevelCellColor(d) == color ==> ClassOf(color) == d
    ensures (forall c :: LevelCellColor(c) != color) ==> ClassOf(color) == LevelNone
  {
    ColorTableIsInjective(d, d);
    MatchFromFinds(color, 0, d);
  }

  /** The map cell of a level cell: walls, doors and barricades are kept, everything else is floor. */
  function CellOf(c: LevelCell): (cell: Cell)
    ensures cell == CellWall <==> c == LevelWall
    ensures cell == CellDoor <==> c == LevelDoor
    ensures cell == CellBarricade <==> c == LevelBarricade
    ensures cell != CellWall && cell != CellDoor && cell != CellBarricade ==> cell == CellFloor
  {
    match c
    case LevelWall => CellWall
    case LevelDoor => CellDoor
    case LevelBarricade => CellBarricade
    case _ => CellFloor
  }

  /** The item a marker places. */
  function ItemOf(c: LevelCell): (kind: Option<ItemKind>)
    ensures kind.Some? <==> c in {LevelCheckpoint, LevelBombRefill, LevelBombSlot, LevelKey}
    ensures kind.Some? ==> kind.value != ItemNone
  {
    match c
    case LevelCheckpoint => Some(ItemCheckpoint)
    case LevelBombRefill => Some(ItemBombRefill)
    case LevelBombSlot => Some(ItemBombSlot)
    case LevelKey => Some(ItemKey)
    case _ => None
  }

  /** The eeper a marker spawns; a father marker spawns none. */
  function EeperOf(c: LevelCell): (kind: Option<EeperKind>)
    ensures kind.Some? <==> c in {LevelGuard, LevelMother, LevelGnome}
    ensures kind.Some? ==> kind.value != EeperFather
  {
    match c
    case LevelGuard => Some(EeperGuard)
    case LevelMother => Some(EeperMother)
    case LevelGnome => Some(EeperGnome)
    case _ => None
  }

  // ---------------------------------------------------------------- the map

  /** The map cell decoded from pixel `(x, y)`. */
  function Decoded(img: Image, x: int, y: int): Cell {
    CellOf(ClassOf(img.at(x, y)))
  }

  /** The decoded map: `height` rows of `width` cells. */
  function DecodedGrid(img: Image): (g: Grid)
    ensures |g| == img.height && forall y :: 0 <= y < |g| ==> |g[y]| == img.width
  {
    seq(img.height, y requires 0 <= y < img.height =>
      seq(img.width, x requires 0 <= x < img.width => Decoded(img, x, y)))
  }

  /** Whether pixel `(x, y)` comes before `(x', y')` in the scan: an earlier row, or the same row further left. */
  predicate ScansBefore(x: int, y: int, x': int, y': int) {
    y < y' || (y == y' && x < x')
  }

  /** Cell `(c, r)` while the decoder is at pixel `(x, y)`: decoded when it comes before, else as made. */
  function Pending(img: Image, c: int, r: int, x: int, y: int): Cell {
    if ScansBefore(c, r, x, y) then Decoded(img, c, r) else CellNone
  }

  /**
   * The map while the decoder runs: the cells before `(x, y)` decoded, the others
   * still `CellNone` as the freshly made rows hold them.
   */
  function Partial(img: Image, y: nat, x: nat): (g: Grid)
    ensures |g| == img.height && forall r :: 0 <= r < |g| ==> |g[r]| == img.width
    ensures forall r, c :: 0 <= r < img.height && 0 <= c < img.width ==> g[r][c] == Pending(img, c, r, x, y)
  {
    seq(img.height, r requires 0 <= r < img.height =>
      seq(img.width, c requires 0 <= c < img.width => Pending(img, c, r, x, y)))
  }

  /** Before the first pixel, the partial map is the freshly made one: every cell `CellNone`. */
  lemma PartialStart(img: Image, g: Grid)
    requires |g| == img.height && forall r :: 0 <= r < |g| ==> |g[r]| == img.width
    requires forall r, c :: 0 <= r < img.height && 0 <= c < img.width ==> g[r][c] == CellNone
    ensures g == Partial(img, 0, 0)
  {
    var h := Partial(img, 0, 0);
    forall r | 0 <= r < img.height
      ensures g[r] == h[r]
    {
    }
  }

  /** Decoding pixel `(x - 1, y)` turns one partial map into the next. */
  lemma PartialStep(img: Image, y: nat, x: nat)
    requires y < img.height && 0 < x <= img.width
    ensures var g := Partial(img, y, x - 1);
            g[y := g[y][x - 1 := Decoded(img, x - 1, y)]] == Partial(img, y, x)
  {
    var g := Partial(img, y, x - 1);
    var g' := g[y := g[y][x - 1 := Decoded(img, x - 1, y)]];
    var h := Partial(img, y, x);
    forall r | 0 <= r < img.height
      ensures g'[r] == h[r]
    {
      if r == y {
        PartialRowStep(img, y, x);
      } else {
        PartialOtherRow(img, y, x, r);
      }
    }
  }

  /** Row `y` of the partial map gains pixel `(x - 1, y)`. */
  lemma PartialRowStep(img: Image, y: nat, x: nat)
    requires y < img.height && 0 < x <= img.width
    ensures Partial(img, y, x - 1)[y][x - 1 := Decoded(img, x - 1, y)] == Partial(img, y, x)[y]
  {
    var a, b := Partial(img, y, x - 1)[y], Partial(img, y, x)[y];
    var row := a[x - 1 := Decoded(img, x - 1, y)];
    forall c | 0 <= c < img.width
      ensures row[c] == b[c]
    {
      if c < x - 1 {
        assert row[c] == a[c] == Pending(img, c, y, x - 1, y) == Decoded(img, c, y);
        assert b[c] == Pending(img, c, y, x, y);
      } else if c == x - 1 {
        assert b[c] == Pending(img, c, y, x, y);
      } else {
        assert row[c] == a[c] == Pending(img, c, y, x - 1, y) == CellNone;
        assert b[c] == Pending(img, c, y, x, y);
      }
    }
  }

  /** The other rows of the partial map stay as they are while row `y` is decoded. */
  lemma PartialOtherRow(img: Image, y: nat, x: nat, r: nat)
    requires y < img.height && 0 < x <= img.width && r < img.height && r != y
    ensures Partial(img, y, x - 1)[r] == Partial(img, y, x)[r]
  {
    var a, b := Partial(img, y, x - 1)[r], Partial(img, y, x)[r];
    forall c | 0 <= c < img.width
      ensures a[c] == b[c]
    {
      assert a[c] == Pending(img, c, r, x - 1, y) && b[c] == Pending(img, c, r, x, y);
    }
  }

  /** A finished row ends where the next row starts; the last row ends with the whole map decoded. */
  lemma PartialRows(img: Image, y: nat)
    requires 0 < y <= img.height
    ensures Partial(img, y - 1, img.width) == Partial(img, y, 0)
    ensures Partial(img, img.height, 0) == DecodedGrid(img)
  {
    var g, h := Partial(img, y - 1, img.width), Partial(img, y, 0);
    forall r | 0 <= r < img.height
      ensures g[r] == h[r]
    {
      forall c | 0 <= c < img.width
        ensures g[r][c] == h[r][c]
      {
      }
    }
    var f, d := Partial(img, img.height, 0), DecodedGrid(img);
    forall r | 0 <= r < img.height
      ensures f[r] == d[r]
    {
      forall c | 0 <= c < img.width
        ensures f[r][c] == d[r][c]
      {
      }
    }
  }

  /** Every decoded cell is floor, wall, door or barricade, never empty or exploding. */
  lemma DecodedCellsAreTerrain(img: Image, x: int, y: int)
    requires 0 <= y < img.height && 0 <= x < img.width
    ensures DecodedGrid(img)[y][x] == Decoded(img, x, y)
    ensures Decoded(img, x, y) == CellFloor || Decoded(img, x, y) == CellWall
            || Decoded(img, x, y) == CellDoor || Decoded(img, x, y) == CellBarricade
  {
  }

  // ---------------------------------------------------------------- markers

  /** One classified pixel. */
  datatype Marker = Marker(position: IVector2, cell: LevelCell)

  function MarkerAt(img: Image, x: int, y: int): Marker {
    Marker(IVector2(x, y), ClassOf(img.at(x, y)))
  }

  /** The pixels before `(x, y)`, in scan order. */
  function Scan(img: Image, y: nat, x: nat): seq<Marker>
    requires y <= img.height && x <= img.width && (y == img.height ==> x == 0)
    decreases y, x
  {
    if x == 0 then (if y == 0 then [] else Scan(img, y - 1, img.width))
    else Scan(img, y, x - 1) + [MarkerAt(img, x - 1, y)]
  }

  /** All pixels of the image, in scan order. */
  function FullScan(img: Image): seq<Marker> {
    Scan(img, img.height, 0)
  }

  predicate InScanOrder(ms: seq<Marker>) {
    forall i, j :: 0 <= i < j < |ms| ==>
      ScansBefore(ms[i].position.x, ms[i].position.y, ms[j].position.x, ms[j].position.y)
  }

  /** Every marker of `ms` is a pixel of the image before `(x, y)`, with its own classification. */
  predicate PixelsBefore(img: Image, ms: seq<Marker>, x: int, y: int) {
    forall i :: 0 <= i < |ms| ==>
      && 0 <= ms[i].position.x < img.width && 0 <= ms[i].position.y < img.height
      && ScansBefore(ms[i].position.x, ms[i].position.y, x, y)
      && ms[i] == MarkerAt(img, ms[i].position.x, ms[i].position.y)
  }

  /** The scan up to `(x, y)` holds only pixels of the image before `(x, y)`, each with its own classification. */
  lemma {:induction false} ScanIsSound(img: Image, y: nat, x: nat)
    requires y <= img.height && x <= img.width && (y == img.height ==> x == 0)
    ensures PixelsBefore(img, Scan(img, y, x), x, y)
    decreases y, x
  {
    if x == 0 {
      if y > 0 {
        ScanIsSound(img, y - 1, img.width);
      }
    } else {
      ScanIsSound(img, y, x - 1);
      var pre, ms := Scan(img, y, x - 1), Scan(img, y, x);
      forall i | 0 <= i < |ms|
        ensures && 0 <= ms[i].position.x < img.width && 0 <= ms[i].position.y < img.height
                && ScansBefore(ms[i].position.x, ms[i].position.y, x, y)
                && ms[i] == MarkerAt(img, ms[i].position.x, ms[i].position.y)
      {
        if i < |pre| {
          assert ms[i] == pre[i];
        } else {
          assert ms[i] == MarkerAt(img, x - 1, y);
        }
      }
    }
  }

  /** The scan up to `(x, y)` lists its pixels in row-major order. */
  lemma {:induction false} ScanIsRowMajor(img: Image, y: nat, x: nat)
    requires y <= img.height && x <= img.width && (y == img.height ==> x == 0)
    ensures InScanOrder(Scan(img, y, x))
    decreases y, x
  {
    if x == 0 {
      if y > 0 {
        ScanIsRowMajor(img, y - 1, img.width);
      }
    } else {
      ScanIsRowMajor(img, y, x - 1);
      ScanIsSound(img, y, x - 1);
      var pre, ms := Scan(img, y, x - 1), Scan(img, y, x);
      forall i, j | 0 <= i < j < |ms|
        ensures ScansBefore(ms[i].position.x, ms[i].position.y, ms[j].position.x, ms[j].position.y)
      {
        assert ms[i] == pre[i];
        if j < |pre| {
          assert ms[j] == pre[j];
        } else {
          assert ms[j] == MarkerAt(img, x - 1, y);
        }
      }
    }
  }

  /** The scan up to `(x, y)` holds every pixel of the image before `(x, y)`. */
  lemma {:induction false} ScanIsComplete(img: Image, y: nat, x: nat)
    requires y <= img.height && x <= img.width && (y == img.height ==> x == 0)
    ensures forall px, py :: 0 <= px < img.width && 0 <= py < img.height && ScansBefore(px, py, x, y) ==>
              MarkerAt(img, px, py) in Scan(img, y, x)
    decreases y, x
  {
    if x == 0 {
      if y > 0 {
        ScanIsComplete(img, y - 1, img.width);
        forall px, py | 0 <= px < img.width && 0 <= py < img.height && ScansBefore(px, py, x, y)
          ensures MarkerAt(img, px, py) in Scan(img, y, x)
        {
          assert ScansBefore(px, py, img.width, y - 1);
        }
      }
    } else {
      ScanIsComplete(img, y, x - 1);
      assert Scan(img, y, x) == Scan(img, y, x - 1) + [MarkerAt(img, x - 1, y)];
      forall px, py | 0 <= px < img.width && 0 <= py < img.height && ScansBefore(px, py, x, y)
        ensures MarkerAt(img, px, py) in Scan(img, y, x)
      {
        if px != x - 1 || py != y {
          assert ScansBefore(px, py, x - 1, y);
        }
      }
    }
  }

  /** The things the markers of `ms` produce, in marker order. */
  function Harvest<T>(ms: seq<Marker>, f: Marker -> Option<T>): seq<T>
    decreases |ms|
  {
    if |ms| == 0 then []
    else
      var last := ms[|ms| - 1];
      Harvest(ms[..|ms| - 1], f) + (if f(last).Some? then [f(last).value] else [])
  }

  /** The keys of `hs` come in scan order. */
  predicate KeysInScanOrder<T>(hs: seq<T>, key: T -> IVector2) {
    forall i, j :: 0 <= i < j < |hs| ==> ScansBefore(key(hs[i]).x, key(hs[i]).y, key(hs[j]).x, key(hs[j]).y)
  }

  /**
   * Every harvested thing comes from a marker, every marker that produces something
   * has it harvested, and the harvest keeps the order of the markers: when `key` gives
   * back the marker's position, harvested things come in scan order.
   */
  lemma {:induction false} HarvestOfMarkers<T>(ms: seq<Marker>, f: Marker -> Option<T>, key: T -> IVector2)
    requires forall m :: f(m).Some? ==> key(f(m).value) == m.position
    requires InScanOrder(ms)
    ensures var hs := Harvest(ms, f);
            && (forall t :: t in hs ==> exists j :: 0 <= j < |ms| && f(ms[j]) == Some(t))
            && (forall j :: 0 <= j < |ms| && f(ms[j]).Some? ==> f(ms[j]).value in hs)
            && KeysInScanOrder(hs, key)
    decreases |ms|
  {
    if |ms| > 0 {
      var init, last := ms[..|ms| - 1], ms[|ms| - 1];
      HarvestOfMarkers(init, f, key);
      var hs, hi := Harvest(ms, f), Harvest(init, f);
      forall t | t in hs
        ensures exists j :: 0 <= j < |ms| && f(ms[j]) == Some(t)
      {
        if t in hi {
          var j :| 0 <= j < |init| && f(init[j]) == Some(t);
          assert ms[j] == init[j];
        } else {
          assert f(ms[|ms| - 1]) == Some(t);
        }
      }
      forall j | 0 <= j < |ms| && f(ms[j]).Some?
        ensures f(ms[j]).value in hs
      {
        if j < |init| {
          assert init[j] == ms[j];
        }
      }
      assert hs[..|hi|] == hi;
      forall i, j | 0 <= i < j < |hs|
        ensures ScansBefore(key(hs[i]).x, key(hs[i]).y, key(hs[j]).x, key(hs[j]).y)
      {
        if j < |hi| {
          assert KeysInScanOrder(hi, key);
          assert hs[i] == hi[i] && hs[j] == hi[j];
        } else {
          assert hs[i] == hi[i] && hs[i] in hi;
          var k :| 0 <= k < |init| && f(init[k]) == Some(hs[i]);
          assert ms[k] == init[k] && k < |ms| - 1;
          assert key(hs[i]) == ms[k].position;
          assert f(last).Some? && hs[j] == f(last).value;
          assert key(hs[j]) == last.position;
          assert ScansBefore(ms[k].position.x, ms[k].position.y, last.position.x, last.position.y);
        }
      }
    }
  }

  /** The item placed by a marker, with cooldown zero. */
  function ItemFor(m: Marker): Option<Item> {
    match ItemOf(m.cell)
    case Some(kind) => Some(Item(kind, m.position, 0))
    case None => None
  }

  /** The eeper spawned by a marker. */
  function EeperFor(sp: Spawner, m: Marker): Option<Eeper> {
    match EeperOf(m.cell)
    case Some(kind) => Some(Spawn(sp, kind, m.position))
    case None => None
  }

  /** The items a scan places, in scan order. */
  function ItemsOf(ms: seq<Marker>): seq<Item> {
    Harvest(ms, ItemFor)
  }

  /** The eepers a scan spawns, in scan order. */
  function EepersOf(sp: Spawner, ms: seq<Marker>): seq<Eeper> {
    Harvest(ms, m => EeperFor(sp, m))
  }

  /** One pixel more adds its item, if it places one. */
  lemma ItemsOfStep(ms: seq<Marker>, m: Marker)
    ensures ItemsOf(ms + [m]) == ItemsOf(ms) + match ItemOf(m.cell) case Some(kind) => [Item(kind, m.position, 0)] case None => []
  {
    assert (ms + [m])[..|ms|] == ms;
  }

  /** One pixel more adds its eeper, if it spawns one. */
  lemma EepersOfStep(sp: Spawner, ms: seq<Marker>, m: Marker)
    ensures EepersOf(sp, ms + [m]) == EepersOf(sp, ms) + match EeperOf(m.cell) case Some(kind) => [Spawn(sp, kind, m.position)] case None => []
  {
    assert (ms + [m])[..|ms|] == ms;
  }

  /**
   * The items of a level: one item of the matching kind with cooldown zero for each
   * key, bomb refill, bomb slot and checkpoint pixel, at that pixel, whose cell is
   * floor; nothing else; and in scan order.
   */
  lemma LevelItems(img: Image)
    ensures var items := ItemsOf(FullScan(img));
            && (forall it :: it in items ==>
                  && it.cooldown == 0 && 0 <= it.position.x < img.width && 0 <= it.position.y < img.height
                  && ItemOf(ClassOf(img.at(it.position.x, it.position.y))) == Some(it.kind)
                  && Decoded(img, it.position.x, it.position.y) == CellFloor)
            && (forall x, y :: 0 <= x < img.width && 0 <= y < img.height && ItemOf(ClassOf(img.at(x, y))).Some? ==>
                  Item(ItemOf(ClassOf(img.at(x, y))).value, IVector2(x, y), 0) in items)
            && (forall i, j :: 0 <= i < j < |items| ==>
                  ScansBefore(items[i].position.x, items[i].position.y, items[j].position.x, items[j].position.y))
  {
    var ms := FullScan(img);
    ScanIsSound(img, img.height, 0);
    ScanIsRowMajor(img, img.height, 0);
    ScanIsComplete(img, img.height, 0);
    HarvestOfMarkers(ms, ItemFor, (it: Item) => it.position);
    forall x, y | 0 <= x < img.width && 0 <= y < img.height && ItemOf(ClassOf(img.at(x, y))).Some?
      ensures Item(ItemOf(ClassOf(img.at(x, y))).value, IVector2(x, y), 0) in ItemsOf(ms)
    {
      assert ScansBefore(x, y, 0, img.height) && MarkerAt(img, x, y) in ms;
      var j :| 0 <= j < |ms| && ms[j] == MarkerAt(img, x, y);
      assert ItemFor(ms[j]).Some?;
    }
  }

  /**
   * The eepers of a level: one freshly spawned guard, mother or gnome for each pixel of
   * that kind, standing there on a floor cell; nothing for a father pixel or any
   * other; and in scan order.
   */
  lemma LevelEepers(sp: Spawner, img: Image)
    ensures var es := EepersOf(sp, FullScan(img));
            && (forall e :: e in es ==>
                  && 0 <= e.position.x < img.width && 0 <= e.position.y < img.height
                  && EeperOf(ClassOf(img.at(e.position.x, e.position.y))) == Some(e.kind)
                  && e == Spawn(sp, e.kind, e.position)
                  && Decoded(img, e.position.x, e.position.y) == CellFloor)
            && (forall x, y :: 0 <= x < img.width && 0 <= y < img.height && EeperOf(ClassOf(img.at(x, y))).Some? ==>
                  Spawn(sp, EeperOf(ClassOf(img.at(x, y))).value, IVector2(x, y)) in es)
            && (forall i, j :: 0 <= i < j < |es| ==>
                  ScansBefore(es[i].position.x, es[i].position.y, es[j].position.x, es[j].position.y))
  {
    var ms := FullScan(img);
    var f := m => EeperFor(sp, m);
    ScanIsSound(img, img.height, 0);
    ScanIsRowMajor(img, img.height, 0);
    ScanIsComplete(img, img.height, 0);
    HarvestOfMarkers(ms, f, (e: Eeper) => e.position);
    forall x, y | 0 <= x < img.width && 0 <= y < img.height && EeperOf(ClassOf(img.at(x, y))).Some?
      ensures Spawn(sp, EeperOf(ClassOf(img.at(x, y))).value, IVector2(x, y)) in EepersOf(sp, ms)
    {
      assert ScansBefore(x, y, 0, img.height) && MarkerAt(img, x, y) in ms;
      var j :| 0 <= j < |ms| && ms[j] == MarkerAt(img, x, y);
      assert f(ms[j]).Some?;
    }
  }

  // ---------------------------------------------------------------- the player

  /** The player after a marker: a player pixel moves it there and points its eyes one cell down. */
  function PlaceAt(p: Player, m: Marker, updatePlayer: bool): Player {
    if updatePlayer && m.cell == LevelPlayer then
      p.(position := m.position, eyesTarget := IVector2(m.position.x, m.position.y + 1))
    else p
  }

  /** The player after the markers of `ms`, in order. */
  function Placed(p: Player, ms: seq<Marker>, updatePlayer: bool): Player
    decreases |ms|
  {
    if |ms| == 0 then p else PlaceAt(Placed(p, ms[..|ms| - 1], updatePlayer), ms[|ms| - 1], updatePlayer)
  }

  lemma PlacedStep(p: Player, ms: seq<Marker>, m: Marker, updatePlayer: bool)
    ensures Placed(p, ms + [m], updatePlayer) == PlaceAt(Placed(p, ms, updatePlayer), m, updatePlayer)
  {
    assert (ms + [m])[..|ms|] == ms;
  }

  /** The position of the last player pixel among the markers, if any. */
  function LastPlayerPixel(ms: seq<Marker>): Option<IVector2>
    decreases |ms|
  {
    if |ms| == 0 then None
    else if ms[|ms| - 1].cell == LevelPlayer then Some(ms[|ms| - 1].position)
    else LastPlayerPixel(ms[..|ms| - 1])
  }

  /** `LastPlayerPixel` finds a player pixel with none after it, and finds none exactly when there is none. */
  lemma {:induction false} LastPlayerPixelIsLast(ms: seq<Marker>)
    ensures LastPlayerPixel(ms).None? <==> forall j :: 0 <= j < |ms| ==> ms[j].cell != LevelPlayer
    ensures LastPlayerPixel(ms).Some? ==>
              exists j :: 0 <= j < |ms| && ms[j].cell == LevelPlayer && ms[j].position == LastPlayerPixel(ms).value
                          && forall k :: j < k < |ms| ==> ms[k].cell != LevelPlayer
    decreases |ms|
  {
    if |ms| > 0 {
      var init := ms[..|ms| - 1];
      LastPlayerPixelIsLast(init);
      if ms[|ms| - 1].cell != LevelPlayer {
        assert forall j :: 0 <= j < |init| ==> init[j] == ms[j];
        if LastPlayerPixel(init).Some? {
          var j :| 0 <= j < |init| && init[j].cell == LevelPlayer && init[j].position == LastPlayerPixel(init).value
                   && forall k :: j < k < |init| ==> init[k].cell != LevelPlayer;
          assert ms[j] == init[j];
        }
      }
    }
  }

  /**
   * Without `updatePlayer`, or without a player pixel, the player is left alone;
   * otherwise it stands on the last player pixel with its eyes one cell below, and
   * nothing else about it changes.
   */
  lemma {:induction false} PlacedOnLastPlayerPixel(p: Player, ms: seq<Marker>, updatePlayer: bool)
    ensures var last := LastPlayerPixel(ms);
            Placed(p, ms, updatePlayer)
              == if updatePlayer && last.Some? then
                   p.(position := last.value, eyesTarget := IVector2(last.value.x, last.value.y + 1))
                 else p
    decreases |ms|
  {
    if |ms| > 0 {
      PlacedOnLastPlayerPixel(p, ms[..|ms| - 1], updatePlayer);
    }
  }

  // ---------------------------------------------------------------- the decoder's loop

  /** What the decoder's loop updates: the map, the items, the eepers and the player. */
  datatype Loading = Loading(grid: Grid, items: seq<Item>, eepers: seq<Eeper>, player: Player)

  /**
   * What the decoder has built when it reaches pixel `(x, y)`, starting from the items,
   * eepers and player of `start`, in closed form: the partial map, and the items, eepers
   * and player placement of the pixels scanned so far.
   */
  function Scanned(img: Image, sp: Spawner, start: Loading, updatePlayer: bool, y: nat, x: nat): Loading
    requires y <= img.height && x <= img.width && (y == img.height ==> x == 0)
  {
    var ms := Scan(img, y, x);
    Loading(Partial(img, y, x), start.items + ItemsOf(ms), start.eepers + EepersOf(sp, ms),
            Placed(start.player, ms, updatePlayer))
  }

  /**
   * What the decoder has built when it reaches pixel `(x, y)`, pixel by pixel as its
   * two loops go: the fresh map and `start` before the first pixel, then `Decode` of
   * each pixel in scan order.
   */
  function Progress(img: Image, sp: Spawner, start: Loading, updatePlayer: bool, y: nat, x: nat): Loading
    requires y <= img.height && x <= img.width && (y == img.height ==> x == 0)
    decreases y, x
  {
    if x == 0 then
      if y == 0 then Loading(Partial(img, 0, 0), start.items, start.eepers, start.player)
      else Progress(img, sp, start, updatePlayer, y - 1, img.width)
    else
      Decode(Progress(img, sp, start, updatePlayer, y, x - 1), sp, x - 1, y, ClassOf(img.at(x - 1, y)), updatePlayer)
  }

  /**
   * The decoder's work on the pixel at `(x, y)` that stands for `c`; the decoder only
   * visits cells of its map, and off the map the cell write is left out.
   */
  function Decode(s: Loading, sp: Spawner, x: int, y: int, c: LevelCell, updatePlayer: bool): Loading {
    Loading(if 0 <= y < |s.grid| && 0 <= x < |s.grid[y]| then s.grid[y := s.grid[y][x := CellOf(c)]] else s.grid,
            s.items + (match ItemOf(c) case Some(kind) => [Item(kind, IVector2(x, y), 0)] case None => []),
            s.eepers + (match EeperOf(c) case Some(kind) => [Spawn(sp, kind, IVector2(x, y))] case None => []),
            PlaceAt(s.player, Marker(IVector2(x, y), c), updatePlayer))
  }

  /** Decoding pixel `(x - 1, y)` moves the closed form one pixel on. */
  lemma ScannedStep(img: Image, sp: Spawner, start: Loading, updatePlayer: bool, y: nat, x: nat)
    requires y < img.height && 0 < x <= img.width
    ensures var s := Scanned(img, sp, start, updatePlayer, y, x - 1);
            0 <= y < |s.grid| && 0 <= x - 1 < |s.grid[y]|
            && Decode(s, sp, x - 1, y, ClassOf(img.at(x - 1, y)), updatePlayer) == Scanned(img, sp, start, updatePlayer, y, x)
  {
    var ms, m := Scan(img, y, x - 1), MarkerAt(img, x - 1, y);
    assert Scan(img, y, x) == ms + [m];
    PartialStep(img, y, x);
    ItemsOfStep(ms, m);
    EepersOfStep(sp, ms, m);
    PlacedStep(start.player, ms, m, updatePlayer);
    var its := match ItemOf(m.cell) case Some(kind) => [Item(kind, m.position, 0)] case None => [];
    var es := match EeperOf(m.cell) case Some(kind) => [Spawn(sp, kind, m.position)] case None => [];
    assert start.items + (ItemsOf(ms) + its) == (start.items + ItemsOf(ms)) + its;
    assert start.eepers + (EepersOf(sp, ms) + es) == (start.eepers + EepersOf(sp, ms)) + es;
  }

  /** In closed form, finishing row `y - 1` is starting row `y`. */
  lemma ScannedRows(img: Image, sp: Spawner, start: Loading, updatePlayer: bool, y: nat)
    requires 0 < y <= img.height
    ensures Scanned(img, sp, start, updatePlayer, y - 1, img.width) == Scanned(img, sp, start, updatePlayer, y, 0)
  {
    PartialRows(img, y);
    assert Scan(img, y, 0) == Scan(img, y - 1, img.width);
  }

  /**
   * The decoder's loops build the closed form at every pixel: the map decoded up to
   * `(x, y)` and blank after it, and the items, eepers and player of the pixels scanned.
   */
  lemma {:induction false} ProgressIsScanned(img: Image, sp: Spawner, start: Loading, updatePlayer: bool, y: nat, x: nat)
    requires y <= img.height && x <= img.width && (y == img.height ==> x == 0)
    ensures Progress(img, sp, start, updatePlayer, y, x) == Scanned(img, sp, start, updatePlayer, y, x)
    decreases y, x, 1
  {
    if x > 0 {
      ProgressPixelIsScanned(img, sp, start, updatePlayer, y, x);
    } else if y > 0 {
      ProgressRowIsScanned(img, sp, start, updatePlayer, y);
    } else {
      assert Scan(img, 0, 0) == [] && start.items + [] == start.items && start.eepers + [] == start.eepers;
    }
  }

  /** The case of `ProgressIsScanned` for a pixel inside a row: one more `Decode`. */
  lemma {:induction false} ProgressPixelIsScanned(img: Image, sp: Spawner, start: Loading, updatePlayer: bool, y: nat, x: nat)
    requires y < img.height && 0 < x <= img.width
    ensures Progress(img, sp, start, updatePlayer, y, x) == Scanned(img, sp, start, updatePlayer, y, x)
    decreases y, x, 0
  {
    ProgressIsScanned(img, sp, start, updatePlayer, y, x - 1);
    ScannedStep(img, sp, start, updatePlayer, y, x);
  }

  /** The case of `ProgressIsScanned` for the start of a row after the first: the end of the row before. */
  lemma {:induction false} ProgressRowIsScanned(img: Image, sp: Spawner, start: Loading, updatePlayer: bool, y: nat)
    requires 0 < y <= img.height
    ensures Progress(img, sp, start, updatePlayer, y, 0) == Scanned(img, sp, start, updatePlayer, y, 0)
    decreases y, 0, 0
  {
    ProgressIsScanned(img, sp, start, updatePlayer, y - 1, img.width);
    ScannedRows(img, sp, start, updatePlayer, y);
  }

  /** Finishing row `y` is starting row `y + 1`. */
  lemma ProgressNextRow(img: Image, sp: Spawner, start: Loading, updatePlayer: bool, y: nat)
    requires y < img.height
    ensures Progress(img, sp, start, updatePlayer, y + 1, 0) == Progress(img, sp, start, updatePlayer, y, img.width)
  {
  }

  /**
   * When both loops are done, the decoder has built the decoded map, appended the
   * image's items and eepers in scan order, and placed the player on the last player pixel.
   */
  lemma ProgressDone(img: Image, sp: Spawner, start: Loading, updatePlayer: bool)
    ensures Progress(img, sp, start, updatePlayer, img.height, 0)
              == Loading(DecodedGrid(img), start.items + ItemsOf(FullScan(img)),
                         start.eepers + EepersOf(sp, FullScan(img)), Placed(start.player, FullScan(img), updatePlayer))
  {
    ProgressIsScanned(img, sp, start, updatePlayer, img.height, 0);
    if img.height > 0 {
      PartialRows(img, img.height);
    }
    assert Partial(img, img.height, 0) == DecodedGrid(img);
  }
}
