/** New maps tiled with one section, and resizing (src/cartographer/newmap.cpp). */
module NewMap {
  import opened Arithmetic
  import opened Basics
  import opened Counting
  import opened GridIndex
  import opened StampView
  import opened TileMap

  // --- Tiling ----------------------------------------------------------------------------

  /** The section block that a periodic map shows at block `c`. */
  function Home(m: MapValue, sec: Section, c: int): int
    requires m.blocksX > 0 && sec.blocksX > 0 && sec.blocksY > 0
  {
    Index(sec.blocksX, Col(m.blocksX, c) % sec.blocksX, Row(m.blocksX, c) % sec.blocksY)
  }

  function HomeArt(m: MapValue, sec: Section, c: int): Option<Tile>
    requires m.blocksX > 0 && sec.Valid() && sec.blocksX > 0 && sec.blocksY > 0
  {
    IndexOf(sec.blocksX, sec.blocksY, Col(m.blocksX, c) % sec.blocksX, Row(m.blocksX, c) % sec.blocksY);
    sec.Block(Home(m, sec, c))
  }

  /** Block `c` was laid by the stamps before the one at (ox, oy). */
  predicate Laid(m: MapValue, sec: Section, ox: int, oy: int, c: int)
    requires m.blocksX > 0
  {
    Row(m.blocksX, c) < oy || (Row(m.blocksX, c) < oy + sec.blocksY && Col(m.blocksX, c) < ox)
  }

  /** A block shows its section block; where that names no tile, it has index 0. */
  predicate ShowsHome(m: MapValue, sec: Section, c: int)
    requires m.Valid() && sec.Valid() && m.blocksX > 0 && sec.blocksX > 0 && sec.blocksY > 0 && 0 <= c < |m.tiles|
  {
    match HomeArt(m, sec, c)
    case Some(t) => m.BlockArt(c) == Some(t)
    case None => m.tiles[c] == 0
  }

  /** Every laid block shows its section block, and the library is exactly the distinct
      contents those blocks show. */
  ghost predicate Tiled(m: MapValue, sec: Section, ox: int, oy: int)
    requires m.Valid() && sec.Valid() && m.blocksX > 0 && sec.blocksX > 0 && sec.blocksY > 0
  {
    && Distinct(m.lib)
    && (forall c :: 0 <= c < |m.tiles| && Laid(m, sec, ox, oy, c) ==> ShowsHome(m, sec, c))
    && (forall t :: t in m.lib ==>
          exists c :: 0 <= c < |m.tiles| && Laid(m, sec, ox, oy, c) && HomeArt(m, sec, c) == Some(t))
  }

  /** A stamp at a multiple of the section size lays section blocks at home. */
  lemma StampAtHome(m: MapValue, sec: Section, ox: int, oy: int, c: int)
    requires m.Valid() && sec.Valid() && sec.blocksX > 0 && sec.blocksY > 0
    requires ox % sec.blocksX == 0 && oy % sec.blocksY == 0
    requires 0 <= c < |m.tiles| && m.BlockCovered(sec, ox, oy, c)
    ensures SectionArt(m, sec, ox, oy, c) == HomeArt(m, sec, c)
  {
    OffsetIsRemainder(Col(m.blocksX, c), ox, sec.blocksX);
    OffsetIsRemainder(Row(m.blocksX, c), oy, sec.blocksY);
  }

  /** A section names at most 65536 different tiles, so a library that holds only its
      contents, each once, never outgrows the index. */
  lemma OneSectionFits(lib: seq<Tile>, sec: Section)
    requires sec.Valid() && Distinct(lib)
    requires forall t :: t in lib ==> exists sid :: 0 <= sid < |sec.tiles| && sec.Block(sid) == Some(t)
    ensures |lib| <= ADDRESSABLE
  {
    var named := First(Tiles(sec.tileGfx), ADDRESSABLE);
    forall t | t in Elements(lib) ensures t in Elements(named) {
      var sid :| 0 <= sid < |sec.tiles| && sec.Block(sid) == Some(t);
      assert named[sec.tiles[sid]] == t;
    }
    DistinctSize(lib);
    ElementsSize(named);
    SubsetSize(Elements(lib), Elements(named));
  }

  /** Growth keeps a small library free of duplicates. */
  lemma GrownDistinct(before: seq<Tile>, after: seq<Tile>, wanted: iset<Tile>, k: nat)
    requires Grown(before, after, wanted, ADDRESSABLE) && Distinct(before)
    requires |before| <= k <= |after| && k <= ADDRESSABLE + 1
    ensures Distinct(after[..k])
  {
    var q := after[..k];
    forall i, j | 0 <= i < j < |q| ensures q[i] != q[j] {
      if j < |before| {
        assert q[i] == before[i] && q[j] == before[j];
      } else {
        assert First(after[..j], ADDRESSABLE) == after[..j];
        assert after[..j][i] == q[i];
      }
    }
  }

  /** So the stamps of a tiling never overflow the library. */
  lemma LibraryStaysSmall(m: MapValue, m': MapValue, sec: Section, ox: int, oy: int)
    requires m.Valid() && sec.Valid() && m.blocksX > 0 && sec.blocksX > 0 && sec.blocksY > 0
    requires Tiled(m, sec, ox, oy) && Stamped(m, m', sec, ox, oy)
    ensures |m'.lib| <= ADDRESSABLE && Distinct(m'.lib)
  {
    FromSection(m, m.lib, sec, ox, oy);
    OneSectionFits(m.lib, sec);
    var k := if |m'.lib| <= ADDRESSABLE then |m'.lib| else ADDRESSABLE + 1;
    GrownDistinct(m.lib, m'.lib, WantedTiles(m, sec, ox, oy), k);
    FromSection(m, m'.lib[..k], sec, ox, oy);
    OneSectionFits(m'.lib[..k], sec);
    assert m'.lib[..k] == m'.lib;
  }

  ghost predicate InSection(sec: Section, t: Tile)
    requires sec.Valid()
  {
    exists sid :: 0 <= sid < |sec.tiles| && sec.Block(sid) == Some(t)
  }

  lemma HomeInSection(m: MapValue, sec: Section, c: int, t: Tile)
    requires m.blocksX > 0 && sec.Valid() && sec.blocksX > 0 && sec.blocksY > 0 && HomeArt(m, sec, c) == Some(t)
    ensures InSection(sec, t)
  {
    IndexOf(sec.blocksX, sec.blocksY, Col(m.blocksX, c) % sec.blocksX, Row(m.blocksX, c) % sec.blocksY);
  }

  lemma WantedInSection(m: MapValue, sec: Section, ox: int, oy: int, t: Tile)
    requires sec.Valid() && t in WantedTiles(m, sec, ox, oy)
    ensures InSection(sec, t)
  {
    var c :| 0 <= c < m.blocksX * m.blocksY && m.BlockCovered(sec, ox, oy, c)
        && SectionArt(m, sec, ox, oy, c) == Some(t);
    SourceInside(m.blocksX, c, ox, oy, sec.blocksX, sec.blocksY);
  }

  /** Laid and wanted contents alike come from the section. */
  lemma FromSection(m: MapValue, lib: seq<Tile>, sec: Section, ox: int, oy: int)
    requires m.Valid() && sec.Valid() && m.blocksX > 0 && sec.blocksX > 0 && sec.blocksY > 0
    requires Tiled(m, sec, ox, oy)
    requires forall t :: t in lib ==> t in m.lib || t in WantedTiles(m, sec, ox, oy)
    ensures forall t :: t in lib ==> InSection(sec, t)
  {
    forall t | t in lib ensures InSection(sec, t) {
      if t in m.lib {
        var c :| 0 <= c < |m.tiles| && Laid(m, sec, ox, oy, c) && HomeArt(m, sec, c) == Some(t);
        HomeInSection(m, sec, c, t);
      } else {
        WantedInSection(m, sec, ox, oy, t);
      }
    }
  }

  /** A block that this stamp covers, or that was laid before, shows its section block. */
  lemma BlockShowsHome(m: MapValue, m': MapValue, sec: Section, ox: int, oy: int, c: int)
    requires m.Valid() && sec.Valid() && m.blocksX > 0 && sec.blocksX > 0 && sec.blocksY > 0
    requires ox % sec.blocksX == 0 && oy % sec.blocksY == 0 && 0 <= c < |m.tiles|
    requires Stamped(m, m', sec, ox, oy) && |m'.lib| <= ADDRESSABLE
    requires m.BlockCovered(sec, ox, oy, c) || ShowsHome(m, sec, c)
    ensures ShowsHome(m', sec, c)
  {
    assert HomeArt(m', sec, c) == HomeArt(m, sec, c);
    if m.BlockCovered(sec, ox, oy, c) {
      StampAtHome(m, sec, ox, oy, c);
      if HomeArt(m, sec, c).Some? { ShownWhenFound(m, m', sec, ox, oy, c); }
    }
  }

  /** One stamp of the tiling. */
  lemma TiledStep(m: MapValue, m': MapValue, sec: Section, ox: int, oy: int)
    requires m.Valid() && sec.Valid() && m.blocksX > 0 && sec.blocksX > 0 && sec.blocksY > 0
    requires ox % sec.blocksX == 0 && oy % sec.blocksY == 0
    requires Tiled(m, sec, ox, oy) && Stamped(m, m', sec, ox, oy)
    ensures Tiled(m', sec, ox + sec.blocksX, oy)
  {
    LibraryStaysSmall(m, m', sec, ox, oy);
    var ox' := ox + sec.blocksX;
    forall c | 0 <= c < |m.tiles| && Laid(m', sec, ox', oy, c) ensures ShowsHome(m', sec, c) {
      BlockShowsHome(m, m', sec, ox, oy, c);
    }
    forall t | t in m'.lib
      ensures exists c :: 0 <= c < |m'.tiles| && Laid(m', sec, ox', oy, c) && HomeArt(m', sec, c) == Some(t)
    {
      if t in m.lib {
        var c :| 0 <= c < |m.tiles| && Laid(m, sec, ox, oy, c) && HomeArt(m, sec, c) == Some(t);
        assert Laid(m', sec, ox', oy, c) && HomeArt(m', sec, c) == Some(t);
      } else {
        assert t in WantedTiles(m, sec, ox, oy);
        var c :| 0 <= c < m.blocksX * m.blocksY && m.BlockCovered(sec, ox, oy, c)
            && SectionArt(m, sec, ox, oy, c) == Some(t);
        StampAtHome(m, sec, ox, oy, c);
        assert Laid(m', sec, ox', oy, c) && HomeArt(m', sec, c) == Some(t);
      }
    }
  }

  /** Past the right edge the next row of stamps begins. */
  lemma TiledRow(m: MapValue, sec: Section, ox: int, oy: int)
    requires m.Valid() && sec.Valid() && m.blocksX > 0 && sec.blocksX > 0 && sec.blocksY > 0
    requires Tiled(m, sec, ox, oy) && ox >= m.blocksX
    ensures Tiled(m, sec, 0, oy + sec.blocksY)
  {
    forall c | 0 <= c < |m.tiles| ensures Laid(m, sec, ox, oy, c) <==> Laid(m, sec, 0, oy + sec.blocksY, c) {
      CellOf(m.blocksX, m.blocksY, c);
    }
    forall t | t in m.lib
      ensures exists c :: 0 <= c < |m.tiles| && Laid(m, sec, 0, oy + sec.blocksY, c) && HomeArt(m, sec, c) == Some(t)
    {
      var c :| 0 <= c < |m.tiles| && Laid(m, sec, ox, oy, c) && HomeArt(m, sec, c) == Some(t);
      assert Laid(m, sec, 0, oy + sec.blocksY, c);
    }
  }

  /** A map that repeats the section: every block shows the section block at the same
      position modulo the section's size (or has index 0 where that names no tile), and the
      library holds exactly the contents the map shows, each once. */
  ghost predicate Periodic(m: MapValue, sec: Section)
    requires m.Valid() && sec.Valid() && m.blocksX > 0 && sec.blocksX > 0 && sec.blocksY > 0
  {
    && Distinct(m.lib)
    && (forall c :: 0 <= c < |m.tiles| ==> ShowsHome(m, sec, c))
    && (forall t :: t in m.lib ==> exists c :: 0 <= c < |m.tiles| && m.BlockArt(c) == Some(t))
  }

  lemma TiledEnd(m: MapValue, sec: Section, oy: int)
    requires m.Valid() && sec.Valid() && m.blocksX > 0 && sec.blocksX > 0 && sec.blocksY > 0
    requires Tiled(m, sec, 0, oy) && oy >= m.blocksY
    ensures Periodic(m, sec)
  {
    forall c | 0 <= c < |m.tiles| ensures Laid(m, sec, 0, oy, c) {
      CellOf(m.blocksX, m.blocksY, c);
    }
    forall t | t in m.lib ensures exists c :: 0 <= c < |m.tiles| && m.BlockArt(c) == Some(t) {
      var c :| 0 <= c < |m.tiles| && Laid(m, sec, 0, oy, c) && HomeArt(m, sec, c) == Some(t);
      assert m.BlockArt(c) == Some(t);
    }
  }

  // --- Heights and features of a tiled map ---------------------------------------------------

  /** What the section loader produces: two cells to a block each way, and full planes. */
  predicate Whole(sec: Section)
  {
    && sec.Valid() && sec.blocksX > 0 && sec.blocksY > 0
    && sec.width == 2 * sec.blocksX && sec.height == 2 * sec.blocksY
    && |sec.heights| == |sec.features| == sec.width * sec.height
  }

  /** The section cell that a periodic map repeats at cell `c`. */
  function HomeCell(m: MapValue, sec: Section, c: int): (i: int)
    requires m.width > 0 && Whole(sec)
    ensures 0 <= i < |sec.heights|
  {
    IndexOf(sec.width, sec.height, Col(m.width, c) % sec.width, Row(m.width, c) % sec.height);
    Index(sec.width, Col(m.width, c) % sec.width, Row(m.width, c) % sec.height)
  }

  function HomeFeature(m: MapValue, sec: Section, c: int): Feature
    requires m.width > 0 && Whole(sec)
  {
    Translated(sec, sec.features[HomeCell(m, sec, c)])
  }

  /** Cell `c` was laid by the stamps before the one at (ox, oy). */
  predicate CellLaid(m: MapValue, sec: Section, ox: int, oy: int, c: int)
    requires m.width > 0
  {
    Row(m.width, c) < 2 * oy || (Row(m.width, c) < 2 * oy + sec.height && Col(m.width, c) < 2 * ox)
  }

  /** A laid cell carries its section cell. */
  predicate AtHome(m: MapValue, sec: Section, c: int)
    requires m.Valid() && m.width > 0 && Whole(sec) && 0 <= c < |m.features|
  {
    && m.heights[c] == sec.heights[HomeCell(m, sec, c)]
    && FeatureFor(m.names, m.features[c], HomeFeature(m, sec, c))
  }

  /** Every laid cell carries its section cell, and the name table is exactly the distinct
      names laid. */
  ghost predicate Grounded(m: MapValue, sec: Section, ox: int, oy: int)
    requires m.Valid() && m.width > 0 && Whole(sec)
  {
    && Distinct(m.names)
    && (forall c :: 0 <= c < |m.features| && CellLaid(m, sec, ox, oy, c) ==> AtHome(m, sec, c))
    && (forall n :: n in m.names ==>
          exists c :: 0 <= c < |m.features| && CellLaid(m, sec, ox, oy, c) && HomeFeature(m, sec, c) == Named(n))
  }

  lemma CellAtHome(m: MapValue, sec: Section, ox: int, oy: int, c: int)
    requires m.Valid() && m.width > 0 && Whole(sec) && ox % sec.blocksX == 0 && oy % sec.blocksY == 0
    requires 0 <= c < |m.features| && m.CellCovered(sec, ox, oy, c)
    ensures SectionHeight(m, sec, ox, oy, c) == Some(sec.heights[HomeCell(m, sec, c)])
    ensures SectionFeature(m, sec, ox, oy, c) == Some(HomeFeature(m, sec, c))
  {
    EvenMultiple(ox, sec.blocksX);
    EvenMultiple(oy, sec.blocksY);
    OffsetIsRemainder(Col(m.width, c), ox * 2, sec.width);
    OffsetIsRemainder(Row(m.width, c), oy * 2, sec.height);
  }

  lemma NamesStayDistinct(before: seq<string>, after: seq<string>, wanted: iset<string>)
    requires Grown(before, after, wanted, |after|) && Distinct(before)
    ensures Distinct(after)
  {
    forall i, j | 0 <= i < j < |after| ensures after[i] != after[j] {
      if j < |before| {
        assert after[i] == before[i] && after[j] == before[j];
      } else {
        assert after[..j][i] == after[i];
      }
    }
  }

  lemma CellStaysAtHome(m: MapValue, m': MapValue, sec: Section, ox: int, oy: int, c: int)
    requires m.Valid() && m.width > 0 && Whole(sec) && Stamped(m, m', sec, ox, oy)
    requires ox % sec.blocksX == 0 && oy % sec.blocksY == 0 && 0 <= c < |m.features|
    requires m.CellCovered(sec, ox, oy, c) || AtHome(m, sec, c)
    ensures AtHome(m', sec, c)
  {
    assert HomeCell(m', sec, c) == HomeCell(m, sec, c);
    if m.CellCovered(sec, ox, oy, c) {
      CellAtHome(m, sec, ox, oy, c);
    } else {
      FeatureForGrows(m.names, m'.names, m.features[c], HomeFeature(m, sec, c));
    }
  }

  /** One stamp of the tiling, for the cells. */
  lemma GroundedStep(m: MapValue, m': MapValue, sec: Section, ox: int, oy: int)
    requires m.Valid() && m.width > 0 && Whole(sec) && Stamped(m, m', sec, ox, oy)
    requires ox % sec.blocksX == 0 && oy % sec.blocksY == 0 && Grounded(m, sec, ox, oy)
    ensures Grounded(m', sec, ox + sec.blocksX, oy)
  {
    var ox' := ox + sec.blocksX;
    NamesStayDistinct(m.names, m'.names, WantedNames(m, sec, ox, oy));
    forall c | 0 <= c < |m'.features| && CellLaid(m', sec, ox', oy, c) ensures AtHome(m', sec, c) {
      CellStaysAtHome(m, m', sec, ox, oy, c);
    }
    forall n | n in m'.names
      ensures exists c :: 0 <= c < |m'.features| && CellLaid(m', sec, ox', oy, c) && HomeFeature(m', sec, c) == Named(n)
    {
      var c: int;
      if n in m.names {
        c :| 0 <= c < |m.features| && CellLaid(m, sec, ox, oy, c) && HomeFeature(m, sec, c) == Named(n);
      } else {
        assert n in WantedNames(m, sec, ox, oy);
        c :| 0 <= c < m.width * m.height && m.CellCovered(sec, ox, oy, c)
            && SectionFeature(m, sec, ox, oy, c) == Some(Named(n));
        CellAtHome(m, sec, ox, oy, c);
      }
      assert CellLaid(m', sec, ox', oy, c) && HomeFeature(m', sec, c) == Named(n);
    }
  }

  /** Past the right edge the next row of stamps begins. */
  lemma GroundedRow(m: MapValue, sec: Section, ox: int, oy: int)
    requires m.Valid() && m.width > 0 && Whole(sec) && Grounded(m, sec, ox, oy) && 2 * ox >= m.width
    ensures Grounded(m, sec, 0, oy + sec.blocksY)
  {
    forall c | 0 <= c < |m.features| ensures CellLaid(m, sec, ox, oy, c) <==> CellLaid(m, sec, 0, oy + sec.blocksY, c) {
      CellOf(m.width, m.height, c);
    }
  }

  /** Every cell has the height and shows the feature of the section cell at its position
      modulo the section's size, and the name table holds exactly the names shown, each once. */
  ghost predicate PeriodicGround(m: MapValue, sec: Section)
    requires m.Valid() && m.width > 0 && Whole(sec)
  {
    && Distinct(m.names)
    && (forall c :: 0 <= c < |m.features| ==>
          m.heights[c] == sec.heights[HomeCell(m, sec, c)] && m.CellFeature(c) == HomeFeature(m, sec, c))
    && (forall n :: n in m.names ==> exists c :: 0 <= c < |m.features| && m.CellFeature(c) == Named(n))
  }

  /** A section names fewer features than there are marker values, so a table that holds
      only its names, each once, stays below the marker range. */
  lemma OneSectionNames(names: seq<string>, sec: Section)
    requires Distinct(names)
    requires forall n :: n in names ==>
             exists i :: 0 <= i < |sec.features| && Translated(sec, sec.features[i]) == Named(n)
    ensures |names| <= MARKERS
  {
    var named := First(sec.featureNames, MARKERS);
    forall n | n in Elements(names) ensures n in Elements(named) {
      var i :| 0 <= i < |sec.features| && Translated(sec, sec.features[i]) == Named(n);
      assert named[sec.features[i]] == n;
    }
    DistinctSize(names);
    ElementsSize(named);
    SubsetSize(Elements(names), Elements(named));
  }

  lemma GroundedEnd(m: MapValue, sec: Section, oy: int)
    requires m.Valid() && m.width > 0 && Whole(sec) && Grounded(m, sec, 0, oy) && 2 * oy >= m.height
    ensures PeriodicGround(m, sec)
  {
    forall n | n in m.names
      ensures exists i :: 0 <= i < |sec.features| && Translated(sec, sec.features[i]) == Named(n)
    {
      var c :| 0 <= c < |m.features| && CellLaid(m, sec, 0, oy, c) && HomeFeature(m, sec, c) == Named(n);
      assert Translated(sec, sec.features[HomeCell(m, sec, c)]) == Named(n);
    }
    OneSectionNames(m.names, sec);
    forall c | 0 <= c < |m.features|
      ensures m.heights[c] == sec.heights[HomeCell(m, sec, c)] && m.CellFeature(c) == HomeFeature(m, sec, c)
    {
      CellOf(m.width, m.height, c);
      assert AtHome(m, sec, c);
      var f := HomeFeature(m, sec, c);
      if f.Named? { MeaningOfFirst(m.names, f.name, Find(m.names, f.name)); }
    }
    forall n | n in m.names ensures exists c :: 0 <= c < |m.features| && m.CellFeature(c) == Named(n) {
      var c :| 0 <= c < |m.features| && CellLaid(m, sec, 0, oy, c) && HomeFeature(m, sec, c) == Named(n);
      assert m.CellFeature(c) == Named(n);
    }
  }

  lemma NoGroundLaid(m: MapValue, sec: Section)
    requires m.Valid() && m.width > 0 && Whole(sec) && m.names == []
    ensures Grounded(m, sec, 0, 0)
  {
    forall c | 0 <= c < |m.features| ensures !CellLaid(m, sec, 0, 0, c) {
      CellOf(m.width, m.height, c);
    }
  }

  // --- The tiling loops ------------------------------------------------------------------------

  /** The state of the tiling before the stamp at (ox, oy). */
  ghost predicate TilingAt(m: MapValue, sec: Section, ox: int, oy: int)
  {
    && m.Valid() && sec.Valid() && m.blocksX > 0 && sec.blocksX > 0 && sec.blocksY > 0
    && m.width == 2 * m.blocksX && m.height == 2 * m.blocksY
    && ox % sec.blocksX == 0 && oy % sec.blocksY == 0
    && Tiled(m, sec, ox, oy) && (Whole(sec) ==> Grounded(m, sec, ox, oy))
  }

  lemma TilingStart(m: MapValue, sec: Section)
    requires m.Valid() && sec.Valid() && m.blocksX > 0 && sec.blocksX > 0 && sec.blocksY > 0
    requires m.width == 2 * m.blocksX && m.height == 2 * m.blocksY && m.lib == [] && m.names == []
    ensures TilingAt(m, sec, 0, 0)
  {
    NothingLaid(m, sec);
    if Whole(sec) { NoGroundLaid(m, sec); }
  }

  lemma TilingStep(m: MapValue, m': MapValue, sec: Section, ox: int, oy: int)
    requires TilingAt(m, sec, ox, oy) && Stamped(m, m', sec, ox, oy)
    ensures TilingAt(m', sec, ox + sec.blocksX, oy)
  {
    TiledStep(m, m', sec, ox, oy);
    NextMultiple(ox, sec.blocksX);
    if Whole(sec) { GroundedStep(m, m', sec, ox, oy); }
  }

  lemma TilingRow(m: MapValue, sec: Section, ox: int, oy: int)
    requires TilingAt(m, sec, ox, oy) && ox >= m.blocksX
    ensures TilingAt(m, sec, 0, oy + sec.blocksY)
  {
    TiledRow(m, sec, ox, oy);
    NextMultiple(oy, sec.blocksY);
    if Whole(sec) { GroundedRow(m, sec, ox, oy); }
  }

  /** A side of `units` map units, at least one, in cells. */
  function Cells(units: int): (c: nat)
    ensures c >= 32 && c == 2 * (c / 2)
  {
    (if units < 1 then 1 else units) * 32
  }

  /** One row of stamps. */
  method StampRow(m: Map, sec: Section, oy: int, hash: Tile -> int)
    requires m.Valid() && 0 <= oy < m.blocksY && TilingAt(m.Value(), sec, 0, oy)
    modifies m`tileGfx, m`numTiles, m`featureNames, m.heights, m.features, m.tiles
    ensures m.Valid() && TilingAt(m.Value(), sec, 0, oy + sec.blocksY)
  {
    var ox := 0;
    while ox < m.blocksX
      invariant m.Valid() && ox >= 0 && TilingAt(m.Value(), sec, ox, oy)
    {
      ghost var before := m.Value();
      var ok := m.StampSection(sec, ox, oy, hash);
      TilingStep(before, m.Value(), sec, ox, oy);
      ox := ox + sec.blocksX;
    }
    TilingRow(m.Value(), sec, ox, oy);
  }

  lemma NothingLaid(m: MapValue, sec: Section)
    requires m.Valid() && sec.Valid() && m.blocksX > 0 && sec.blocksX > 0 && sec.blocksY > 0 && m.lib == []
    ensures Tiled(m, sec, 0, 0)
  {
    forall c | 0 <= c < |m.tiles| ensures !Laid(m, sec, 0, 0, c) {
      CellOf(m.blocksX, m.blocksY, c);
    }
  }

  /** All rows of stamps. */
  method StampAll(m: Map, sec: Section, hash: Tile -> int)
    requires m.Valid() && TilingAt(m.Value(), sec, 0, 0)
    modifies m`tileGfx, m`numTiles, m`featureNames, m.heights, m.features, m.tiles
    ensures m.Valid() && m.blocksX > 0 && sec.blocksX > 0 && sec.blocksY > 0
    ensures Periodic(m.Value(), sec) && (Whole(sec) ==> m.width > 0 && PeriodicGround(m.Value(), sec))
  {
    var oy := 0;
    while oy < m.blocksY
      invariant m.Valid() && oy >= 0 && TilingAt(m.Value(), sec, 0, oy)
    {
      StampRow(m, sec, oy, hash);
      oy := oy + sec.blocksY;
    }
    TiledEnd(m.Value(), sec, oy);
    if Whole(sec) { GroundedEnd(m.Value(), sec, oy); }
  }

  /** A fresh map of the given size in units of 32 cells, tiled with one section.  The
      source loops forever on a section without blocks, hence the two size conditions. */
  method NewBlankMap(sec: Section, wUnits: int, hUnits: int, seaLevel: int, landLevel: byte, hash: Tile -> int)
    returns (m: Map)
    requires sec.Valid() && sec.blocksX > 0 && sec.blocksY > 0
    ensures fresh(m) && m.Valid() && m.blocksX > 0
    ensures m.width == 32 * (if wUnits < 1 then 1 else wUnits) && m.height == 32 * if hUnits < 1 then 1 else hUnits
    ensures m.blocksX * 2 == m.width && m.blocksY * 2 == m.height && m.seaLevel == seaLevel
    ensures Periodic(m.Value(), sec) && (Whole(sec) ==> PeriodicGround(m.Value(), sec))
  {
    var width, height := Cells(wUnits), Cells(hUnits);
    m := new Map(width, height, seaLevel, landLevel);
    TilingStart(m.Value(), sec);
    StampAll(m, sec, hash);
  }

  // --- Resizing ------------------------------------------------------------------------------

  /** A plane of another size: the common top-left part is kept, the rest filled. */
  function Resized<T>(plane: seq<T>, w: nat, h: nat, nw: nat, nh: nat, fill: T): (r: seq<T>)
    requires |plane| == w * h
    ensures |r| == nw * nh
  {
    seq(nw * nh, c requires 0 <= c < nw * nh => ResizedCell(plane, w, h, nw, nh, fill, c))
  }

  function ResizedCell<T>(plane: seq<T>, w: nat, h: nat, nw: nat, nh: nat, fill: T, c: int): T
    requires |plane| == w * h && 0 <= c < nw * nh
  {
    CellOf(nw, nh, c);
    if Col(nw, c) < w && Row(nw, c) < h then
      IndexOf(w, h, Col(nw, c), Row(nw, c));
      plane[Index(w, Col(nw, c), Row(nw, c))]
    else fill
  }

  /** Growing a map and shrinking it back restores every plane. */
  lemma GrowShrink<T>(plane: seq<T>, w: nat, h: nat, nw: nat, nh: nat, fill: T, fill': T)
    requires |plane| == w * h && w <= nw && h <= nh
    ensures Resized(Resized(plane, w, h, nw, nh, fill), nw, nh, w, h, fill') == plane
  {
    var big := Resized(plane, w, h, nw, nh, fill);
    forall c | 0 <= c < w * h ensures ResizedCell(big, nw, nh, w, h, fill', c) == plane[c] {
      CellOf(w, h, c);
      IndexOf(nw, nh, Col(w, c), Row(w, c));
    }
  }

  method CopyCell<T>(r: array<T>, plane: array<T>, w: nat, h: nat, nw: nat, nh: nat, ghost fill: T, x: int, y: int)
    requires r != plane && plane.Length == w * h && 0 <= x < w && 0 <= y < h && x < nw && y < nh
    requires CopiedTo(r[..], plane[..], w, h, nw, nh, fill, x, y)
    modifies r
    ensures CopiedTo(r[..], plane[..], w, h, nw, nh, fill, x + 1, y)
  {
    IndexOf(nw, nh, x, y);
    IndexOf(w, h, x, y);
    CopyOne(r[..], plane[..], w, h, nw, nh, fill, x, y);
    ghost var before := r[..];
    r[y * nw + x] := plane[y * w + x];
    assert r[..] == before[Index(nw, x, y) := plane[..][Index(w, x, y)]];
  }

  /** The copying loops, for one plane. */
  method CopyPlane<T>(plane: array<T>, w: nat, h: nat, nw: nat, nh: nat, fill: T) returns (r: array<T>)
    requires plane.Length == w * h
    ensures fresh(r) && r[..] == Resized(plane[..], w, h, nw, nh, fill)
  {
    r := new T[nw * nh](i => fill);
    ghost var p := plane[..];
    CopyStart(r[..], p, w, h, nw, nh, fill);
    var cw := if w < nw then w else nw;
    var ch := if h < nh then h else nh;
    for y := 0 to ch
      invariant plane[..] == p && CopiedTo(r[..], p, w, h, nw, nh, fill, 0, y)
    {
      for x := 0 to cw
        invariant plane[..] == p && CopiedTo(r[..], p, w, h, nw, nh, fill, x, y)
      {
        CopyCell(r, plane, w, h, nw, nh, fill, x, y);
      }
      CopyRow(r[..], p, w, h, nw, nh, fill, y);
    }
    CopyEnd(r[..], p, w, h, nw, nh, fill);
  }

  /** The plane `r` after the loops have come to column x of row y. */
  ghost predicate CopiedTo<T>(r: seq<T>, plane: seq<T>, w: nat, h: nat, nw: nat, nh: nat, fill: T, x: int, y: int)
    requires |plane| == w * h
  {
    |r| == nw * nh && forall c :: 0 <= c < |r| ==> r[c] == Copied(plane, w, h, nw, nh, fill, x, y, c)
  }

  function Copied<T>(plane: seq<T>, w: nat, h: nat, nw: nat, nh: nat, fill: T, x: int, y: int, c: int): T
    requires |plane| == w * h && 0 <= c < nw * nh
  {
    CellOf(nw, nh, c);
    if Row(nw, c) < y || (Row(nw, c) == y && Col(nw, c) < x) then ResizedCell(plane, w, h, nw, nh, fill, c) else fill
  }

  lemma CopyStart<T>(r: seq<T>, plane: seq<T>, w: nat, h: nat, nw: nat, nh: nat, fill: T)
    requires |plane| == w * h && |r| == nw * nh && forall c :: 0 <= c < |r| ==> r[c] == fill
    ensures CopiedTo(r, plane, w, h, nw, nh, fill, 0, 0)
  {
    forall c | 0 <= c < |r| ensures Copied(plane, w, h, nw, nh, fill, 0, 0, c) == fill {
      CellOf(nw, nh, c);
    }
  }

  lemma CopyOne<T>(r: seq<T>, plane: seq<T>, w: nat, h: nat, nw: nat, nh: nat, fill: T, x: int, y: int)
    requires |plane| == w * h && 0 <= x < w && 0 <= y < h && x < nw && y < nh
    requires CopiedTo(r, plane, w, h, nw, nh, fill, x, y)
    requires 0 <= Index(nw, x, y) < |r| && 0 <= Index(w, x, y) < |plane|
    ensures CopiedTo(r[Index(nw, x, y) := plane[Index(w, x, y)]], plane, w, h, nw, nh, fill, x + 1, y)
  {
    IndexOf(nw, nh, x, y);
    forall c | 0 <= c < nw * nh && c != Index(nw, x, y)
      ensures Copied(plane, w, h, nw, nh, fill, x + 1, y, c) == Copied(plane, w, h, nw, nh, fill, x, y, c)
    {
      CellOf(nw, nh, c);
    }
  }

  lemma CopyRow<T>(r: seq<T>, plane: seq<T>, w: nat, h: nat, nw: nat, nh: nat, fill: T, y: int)
    requires |plane| == w * h && 0 <= y && CopiedTo(r, plane, w, h, nw, nh, fill, if w < nw then w else nw, y)
    ensures CopiedTo(r, plane, w, h, nw, nh, fill, 0, y + 1)
  {
    var cw := if w < nw then w else nw;
    forall c | 0 <= c < nw * nh
      ensures Copied(plane, w, h, nw, nh, fill, cw, y, c) == Copied(plane, w, h, nw, nh, fill, 0, y + 1, c)
    {
      CellOf(nw, nh, c);
    }
  }

  lemma CopyEnd<T>(r: seq<T>, plane: seq<T>, w: nat, h: nat, nw: nat, nh: nat, fill: T)
    requires |plane| == w * h && CopiedTo(r, plane, w, h, nw, nh, fill, 0, if h < nh then h else nh)
    ensures r == Resized(plane, w, h, nw, nh, fill)
  {
    forall c | 0 <= c < nw * nh ensures r[c] == ResizedCell(plane, w, h, nw, nh, fill, c) {
      CellOf(nw, nh, c);
    }
  }

  /** The height of new ground. */
  function FlatLand(seaLevel: int): byte { (seaLevel + 22) % 0x100 }

  /** A map resized to nw x nh cells.  The tables are untouched; new ground is flat and
      borrows the first tile. */
  function ResizedMap(v: MapValue, seaLevel: int, nw: nat, nh: nat): (r: MapValue)
    requires v.Valid()
    ensures r.Valid()
  {
    if nw == v.width && nh == v.height then v
    else
      MapValue(nw, nh, nw / 2, nh / 2,
               Resized(v.heights, v.width, v.height, nw, nh, FlatLand(seaLevel)),
               Resized(v.features, v.width, v.height, nw, nh, NO_FEATURE),
               Resized(v.tiles, v.blocksX, v.blocksY, nw / 2, nh / 2, if v.tiles == [] then 0 else v.tiles[0]),
               v.lib, v.names)
  }

  /** Growing a map and shrinking it back restores it, tables and all. */
  lemma ResizeBack(v: MapValue, seaLevel: int, nw: nat, nh: nat)
    requires v.Valid() && v.blocksX == v.width / 2 && v.blocksY == v.height / 2
    requires v.width <= nw && v.height <= nh
    ensures ResizedMap(ResizedMap(v, seaLevel, nw, nh), seaLevel, v.width, v.height) == v
  {
    if nw != v.width || nh != v.height {
      var r := ResizedMap(v, seaLevel, nw, nh);
      GrowShrink(v.heights, v.width, v.height, nw, nh, FlatLand(seaLevel), FlatLand(seaLevel));
      GrowShrink(v.features, v.width, v.height, nw, nh, NO_FEATURE, NO_FEATURE);
      GrowShrink(v.tiles, v.blocksX, v.blocksY, nw / 2, nh / 2,
                 if v.tiles == [] then 0 else v.tiles[0], if r.tiles == [] then 0 else r.tiles[0]);
    }
  }

  /** The common part of the map reads as before: the same art, heights and features. */
  lemma ResizeKeeps(v: MapValue, seaLevel: int, nw: nat, nh: nat, x: int, y: int)
    requires v.Valid()
    ensures var r := ResizedMap(v, seaLevel, nw, nh);
            && (0 <= x < v.blocksX && 0 <= y < v.blocksY && x < r.blocksX && y < r.blocksY ==>
                  var c, c' := Index(v.blocksX, x, y), Index(r.blocksX, x, y);
                  0 <= c < |v.tiles| && 0 <= c' < |r.tiles| && r.BlockArt(c') == v.BlockArt(c))
            && (0 <= x < v.width && 0 <= y < v.height && x < nw && y < nh ==>
                  var c, c' := Index(v.width, x, y), Index(nw, x, y);
                  0 <= c < |v.features| && 0 <= c' < |r.features|
                  && r.heights[c'] == v.heights[c] && r.CellFeature(c') == v.CellFeature(c))
  {
    if nw == v.width && nh == v.height {
      if 0 <= x < v.blocksX && 0 <= y < v.blocksY { IndexOf(v.blocksX, v.blocksY, x, y); }
      if 0 <= x < v.width && 0 <= y < v.height { IndexOf(v.width, v.height, x, y); }
    } else {
      var tile := if v.tiles == [] then 0 else v.tiles[0];
      PlaneKeeps(v.tiles, v.blocksX, v.blocksY, nw / 2, nh / 2, tile, x, y);
      PlaneKeeps(v.heights, v.width, v.height, nw, nh, FlatLand(seaLevel), x, y);
      PlaneKeeps(v.features, v.width, v.height, nw, nh, NO_FEATURE, x, y);
    }
  }

  /** The common part of a resized plane. */
  lemma PlaneKeeps<T>(plane: seq<T>, w: nat, h: nat, nw: nat, nh: nat, fill: T, x: int, y: int)
    requires |plane| == w * h
    ensures 0 <= x < w && 0 <= y < h && x < nw && y < nh ==>
              && 0 <= Index(w, x, y) < |plane| && 0 <= Index(nw, x, y) < nw * nh
              && Resized(plane, w, h, nw, nh, fill)[Index(nw, x, y)] == plane[Index(w, x, y)]
  {
    if 0 <= x < w && 0 <= y < h && x < nw && y < nh {
      IndexOf(w, h, x, y);
      IndexOf(nw, nh, x, y);
    }
  }

  /** The three new planes. */
  method CopyPlanes(m: Map, nw: nat, nh: nat, nbx: nat, nby: nat, fillTile: u16)
    returns (hs: array<byte>, ft: array<u16>, tk: array<u16>)
    requires m.Valid()
    ensures fresh(hs) && fresh(ft) && fresh(tk) && ft != tk
    ensures hs[..] == Resized(m.heights[..], m.width, m.height, nw, nh, FlatLand(m.seaLevel))
    ensures ft[..] == Resized(m.features[..], m.width, m.height, nw, nh, NO_FEATURE)
    ensures tk[..] == Resized(m.tiles[..], m.blocksX, m.blocksY, nbx, nby, fillTile)
  {
    hs := CopyPlane(m.heights, m.width, m.height, nw, nh, FlatLand(m.seaLevel));
    ft := CopyPlane(m.features, m.width, m.height, nw, nh, NO_FEATURE);
    tk := CopyPlane(m.tiles, m.blocksX, m.blocksY, nbx, nby, fillTile);
  }

  /** Three planes that are the old ones resized make up the resized map. */
  lemma PlanesMakeMap(v: MapValue, seaLevel: int, nw: nat, nh: nat, hs: seq<byte>, ft: seq<u16>, tk: seq<u16>)
    requires v.Valid() && !(nw == v.width && nh == v.height)
    requires hs == Resized(v.heights, v.width, v.height, nw, nh, FlatLand(seaLevel))
    requires ft == Resized(v.features, v.width, v.height, nw, nh, NO_FEATURE)
    requires tk == Resized(v.tiles, v.blocksX, v.blocksY, nw / 2, nh / 2, if v.tiles == [] then 0 else v.tiles[0])
    ensures MapValue(nw, nh, nw / 2, nh / 2, hs, ft, tk, v.lib, v.names) == ResizedMap(v, seaLevel, nw, nh)
  {
  }

  /** Give a map new planes and the sizes that go with them. */
  method Replace(m: Map, nw: nat, nh: nat, nbx: nat, nby: nat, hs: array<byte>, ft: array<u16>, tk: array<u16>)
    requires m.Valid() && hs.Length == ft.Length == nw * nh && tk.Length == nbx * nby && ft != tk
    modifies m
    ensures m.Valid() && m.seaLevel == old(m.seaLevel)
    ensures var v := old(m.Value()); m.Value() == MapValue(nw, nh, nbx, nby, hs[..], ft[..], tk[..], v.lib, v.names)
  {
    m.width, m.height, m.blocksX, m.blocksY := nw, nh, nbx, nby;
    m.heights, m.features, m.tiles := hs, ft, tk;
  }

  /** Resize a map in place. */
  method ResizeMap(m: Map, wUnits: int, hUnits: int)
    requires m.Valid()
    modifies m
    ensures m.Valid() && m.seaLevel == old(m.seaLevel)
    ensures m.Value() == ResizedMap(old(m.Value()), m.seaLevel, Cells(wUnits), Cells(hUnits))
    ensures m.width == 32 * (if wUnits < 1 then 1 else wUnits) && m.height == 32 * if hUnits < 1 then 1 else hUnits
  {
    var nw, nh := Cells(wUnits), Cells(hUnits);
    var nbx, nby := nw / 2, nh / 2;
    if nw == m.width && nh == m.height { return; }
    var fillTile := if m.tiles.Length == 0 then 0 else m.tiles[0];
    var hs, ft, tk := CopyPlanes(m, nw, nh, nbx, nby, fillTile);
    PlanesMakeMap(m.Value(), m.seaLevel, nw, nh, hs[..], ft[..], tk[..]);
    Replace(m, nw, nh, nbx, nby, hs, ft, tk);
  }
}
