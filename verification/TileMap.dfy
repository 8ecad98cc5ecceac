/** Terrain maps, section prefabs and the stamp brush (src/tnt/tnt.h,
    src/cartographer/sections.cpp).

    Both index planes of a map point into tables the map owns, so a stamp must translate
    every index it copies.  The state of a map is the class `Map`; `Stamped` says what a
    stamp does to its value, and the lemmas say what that means for a reader of the map. */
module TileMap {
  import opened Basics
  import opened GridIndex

  type u16 = v: int | 0 <= v < 0x1_0000
  type Tile = seq<byte>

  const TILE_BYTES := 1024
  /** Number of tiles a 16-bit index can name. */
  const ADDRESSABLE := 0x1_0000
  /** Feature values from here on are markers, not indices. */
  const MARKERS := 0xFFFA
  const NO_FEATURE: u16 := 0xFFFF

  /** What a cell of the feature plane says. */
  datatype Feature = Marker(code: u16) | Named(name: string) | Dangling

  function U16(n: nat): u16 { n % 0x1_0000 }

  // --- Tables ------------------------------------------------------------------------

  /** The tiles of a library held as one byte string. */
  function Tiles(gfx: seq<byte>): (lib: seq<Tile>)
    requires |gfx| % TILE_BYTES == 0
    ensures |lib| == |gfx| / TILE_BYTES
  {
    seq(|gfx| / TILE_BYTES, i requires 0 <= i < |gfx| / TILE_BYTES => gfx[i * TILE_BYTES..(i + 1) * TILE_BYTES])
  }

  function Lookup(lib: seq<Tile>, i: int): Option<Tile> { if 0 <= i < |lib| then Some(lib[i]) else None }

  function Meaning(names: seq<string>, v: u16): Feature
  {
    if v >= MARKERS then Marker(v) else if v < |names| then Named(names[v]) else Dangling
  }

  lemma AppendTile(gfx: seq<byte>, src: Tile)
    requires |gfx| % TILE_BYTES == 0 && |src| == TILE_BYTES
    ensures |gfx + src| % TILE_BYTES == 0 && Tiles(gfx + src) == Tiles(gfx) + [src]
  {
    var n := |gfx| / TILE_BYTES;
    var a, b := Tiles(gfx + src), Tiles(gfx) + [src];
    assert |a| == |b|;
    forall i | 0 <= i < |a| ensures a[i] == b[i] {
      if i < n {
        assert (gfx + src)[i * TILE_BYTES..(i + 1) * TILE_BYTES] == gfx[i * TILE_BYTES..(i + 1) * TILE_BYTES];
      } else {
        assert (gfx + src)[n * TILE_BYTES..(n + 1) * TILE_BYTES] == src;
      }
    }
  }

  /** The entries an index of the given width can reach. */
  function First<T>(table: seq<T>, width: nat): seq<T> { if |table| <= width then table else table[..width] }

  /** A table grew at its end only, by wanted entries, and never by one that a search of
      its reachable part would have found. */
  ghost predicate Grown<T(!new)>(before: seq<T>, after: seq<T>, wanted: iset<T>, width: nat)
  {
    && before <= after
    && forall j :: |before| <= j < |after| ==> after[j] in wanted && after[j] !in First(after[..j], width)
  }

  lemma GrownStep<T(!new)>(before: seq<T>, after: seq<T>, wanted: iset<T>, width: nat, t: T)
    requires Grown(before, after, wanted, width) && t in wanted && t !in First(after, width)
    ensures Grown(before, after + [t], wanted, width)
  {
    var longer := after + [t];
    forall j | |before| <= j < |longer| ensures longer[j] in wanted && longer[j] !in First(longer[..j], width) {
      assert longer[..j] == after[..j];
      if j == |after| { assert after[..j] == after; }
    }
  }

  lemma FirstNewEntry<T(!new)>(before: seq<T>, after: seq<T>, wanted: iset<T>, width: nat)
    requires Grown(before, after, wanted, width) && |before| < |after|
    ensures after[|before|] in wanted && after[|before|] !in First(before, width)
  {
    assert after[..|before|] == before;
  }

  /** If everything wanted can already be found, the table does not grow. */
  lemma NothingNew<T(!new)>(before: seq<T>, after: seq<T>, wanted: iset<T>, width: nat)
    requires Grown(before, after, wanted, width)
    requires forall t :: t in wanted ==> t in First(before, width)
    ensures after == before
  {
    if |before| < |after| {
      FirstNewEntry(before, after, wanted, width);
    }
  }

  // --- Sections -----------------------------------------------------------------------

  /** A prefab; it is only read. */
  datatype Section = Section(width: int, height: int, blocksX: int, blocksY: int,
                             heights: seq<byte>, features: seq<u16>, tiles: seq<u16>,
                             tileGfx: seq<byte>, featureNames: seq<string>)
  {
    /** What the loader guarantees and the brush relies on to stay inside the planes. */
    predicate Valid()
    {
      && width >= 0 && height >= 0 && blocksX >= 0 && blocksY >= 0
      && |tiles| == blocksX * blocksY && |tileGfx| % TILE_BYTES == 0
    }

    function Block(sid: int): Option<Tile>
      requires Valid() && 0 <= sid < |tiles|
    {
      Lookup(Tiles(tileGfx), tiles[sid])
    }
  }

  /** Translate a feature value: markers pass, unknown values become empty, names are kept. */
  function Translated(sec: Section, v: u16): Feature
  {
    if v >= MARKERS then Marker(v) else if v < |sec.featureNames| then Named(sec.featureNames[v])
        else Marker(NO_FEATURE)
  }

  // --- Coverage ------------------------------------------------------------------------

  /** Cell `c` of a plane `w` wide lies under a `sw` x `sh` rectangle placed at (ox, oy). */
  predicate Covered(w: nat, c: int, ox: int, oy: int, sw: int, sh: int)
    requires w > 0
  {
    ox <= Col(w, c) < ox + sw && oy <= Row(w, c) < oy + sh
  }

  /** The cell of the rectangle that lands on `c`. */
  function Source(w: nat, c: int, ox: int, oy: int, sw: int): int
    requires w > 0 && sw >= 0
  {
    Index(sw, Col(w, c) - ox, Row(w, c) - oy)
  }

  lemma SourceInside(w: nat, c: int, ox: int, oy: int, sw: int, sh: int)
    requires w > 0 && sw >= 0 && sh >= 0 && Covered(w, c, ox, oy, sw, sh)
    ensures 0 <= Source(w, c, ox, oy, sw) < sw * sh
  {
    IndexOf(sw, sh, Col(w, c) - ox, Row(w, c) - oy);
  }

  /** The clipped double loop has already written `c` when it stands at (sx, sy). */
  predicate Passed(w: nat, c: int, ox: int, oy: int, sw: int, sh: int, sx: int, sy: int)
    requires w > 0
  {
    Covered(w, c, ox, oy, sw, sh) &&
    (Row(w, c) - oy < sy || (Row(w, c) - oy == sy && Col(w, c) - ox < sx))
  }

  /** Standing at (sx, sy), the loop writes exactly one plane cell, and that one was not
      passed before and is the only one passed by moving on. */
  lemma PassOne(w: nat, h: nat, ox: int, oy: int, sw: nat, sh: nat, sx: int, sy: int)
    requires 0 <= ox + sx < w && 0 <= oy + sy < h && 0 <= sx < sw && 0 <= sy < sh
    ensures var m := Index(w, ox + sx, oy + sy);
            && 0 <= m < w * h && 0 <= Index(sw, sx, sy) < sw * sh
            && Source(w, m, ox, oy, sw) == Index(sw, sx, sy)
            && !Passed(w, m, ox, oy, sw, sh, sx, sy) && Passed(w, m, ox, oy, sw, sh, sx + 1, sy)
            && forall c :: 0 <= c < w * h && c != m ==>
                 (Passed(w, c, ox, oy, sw, sh, sx + 1, sy) <==> Passed(w, c, ox, oy, sw, sh, sx, sy))
  {
    var m := Index(w, ox + sx, oy + sy);
    IndexOf(w, h, ox + sx, oy + sy);
    IndexOf(sw, sh, sx, sy);
    forall c | 0 <= c < w * h && c != m
      ensures Passed(w, c, ox, oy, sw, sh, sx + 1, sy) <==> Passed(w, c, ox, oy, sw, sh, sx, sy)
    {
      CellOf(w, h, c);
    }
  }

  /** A clipped position passes nothing. */
  lemma PassNone(w: nat, h: nat, ox: int, oy: int, sw: nat, sh: nat, sx: int, sy: int)
    requires w > 0 && !(0 <= ox + sx < w && 0 <= oy + sy < h)
    ensures forall c :: 0 <= c < w * h ==>
              (Passed(w, c, ox, oy, sw, sh, sx + 1, sy) <==> Passed(w, c, ox, oy, sw, sh, sx, sy))
  {
    forall c | 0 <= c < w * h
      ensures Passed(w, c, ox, oy, sw, sh, sx + 1, sy) <==> Passed(w, c, ox, oy, sw, sh, sx, sy)
    {
      CellOf(w, h, c);
    }
  }

  /** The end of one row is the start of the next; a row off the map passes nothing. */
  lemma PassRow(w: nat, h: nat, ox: int, oy: int, sw: nat, sh: nat, sy: int)
    requires w > 0
    ensures forall c :: 0 <= c < w * h ==>
              (Passed(w, c, ox, oy, sw, sh, sw, sy) <==> Passed(w, c, ox, oy, sw, sh, 0, sy + 1))
    ensures !(0 <= oy + sy < h) ==> forall c :: 0 <= c < w * h ==>
              (Passed(w, c, ox, oy, sw, sh, 0, sy) <==> Passed(w, c, ox, oy, sw, sh, 0, sy + 1))
  {
    forall c | 0 <= c < w * h
      ensures Passed(w, c, ox, oy, sw, sh, sw, sy) <==> Passed(w, c, ox, oy, sw, sh, 0, sy + 1)
      ensures !(0 <= oy + sy < h) ==>
                (Passed(w, c, ox, oy, sw, sh, 0, sy) <==> Passed(w, c, ox, oy, sw, sh, 0, sy + 1))
    {
      CellOf(w, h, c);
    }
  }

  // --- What a stamp does ----------------------------------------------------------------

  /** The value of a map: its planes and the tables they point into. */
  datatype MapValue = MapValue(width: nat, height: nat, blocksX: nat, blocksY: nat,
                               heights: seq<byte>, features: seq<u16>, tiles: seq<u16>,
                               lib: seq<Tile>, names: seq<string>)
  {
    predicate Valid()
    {
      |heights| == |features| == width * height && |tiles| == blocksX * blocksY
    }

    /** The art a reader of the map sees at block `c`. */
    function BlockArt(c: int): Option<Tile>
      requires 0 <= c < |tiles|
    {
      Lookup(lib, tiles[c])
    }

    /** The feature a reader of the map sees at cell `c`. */
    function CellFeature(c: int): Feature
      requires 0 <= c < |features|
    {
      Meaning(names, features[c])
    }

    predicate BlockCovered(sec: Section, ox: int, oy: int, c: int)
    {
      blocksX > 0 && Covered(blocksX, c, ox, oy, sec.blocksX, sec.blocksY)
    }

    predicate CellCovered(sec: Section, ox: int, oy: int, c: int)
    {
      width > 0 && Covered(width, c, ox * 2, oy * 2, sec.width, sec.height)
    }
  }

  /** A written tile index: it names the wanted content exactly when that content is among
      the addressable tiles, and it is unless the library outgrew 16 bits. */
  predicate IndexFor(lib: seq<Tile>, v: u16, wanted: Option<Tile>)
  {
    match wanted
    case None => v == 0
    case Some(t) =>
      && v < |lib|
      && (lib[v] == t <==> t in First(lib, ADDRESSABLE))
      && (t in First(lib, ADDRESSABLE) || |lib| > ADDRESSABLE)
  }

  /** The wanted content was there to be found, or has been appended since. */
  predicate Interned(before: seq<Tile>, after: seq<Tile>, wanted: Option<Tile>)
    requires |before| <= |after|
  {
    wanted.None? || wanted.value in First(before, ADDRESSABLE) || wanted.value in after[|before|..]
  }

  lemma InternedLater(before: seq<Tile>, lib: seq<Tile>, longer: seq<Tile>, wanted: Option<Tile>)
    requires before <= lib <= longer
    requires Interned(before, lib, wanted) || (wanted.Some? && wanted.value in First(lib, ADDRESSABLE))
    ensures Interned(before, longer, wanted)
  {
    if wanted.Some? && wanted.value !in First(before, ADDRESSABLE) {
      var t := wanted.value;
      var i :| |before| <= i < |lib| && lib[i] == t;
      assert longer[|before|..][i - |before|] == t;
    }
  }

  lemma IndexForGrows(lib: seq<Tile>, longer: seq<Tile>, v: u16, wanted: Option<Tile>)
    requires IndexFor(lib, v, wanted) && lib <= longer
    ensures IndexFor(longer, v, wanted)
  {
    if wanted.Some? {
      FirstGrows(lib, longer, ADDRESSABLE);
    }
  }

  lemma FirstGrows<T>(table: seq<T>, longer: seq<T>, width: nat)
    requires table <= longer
    ensures First(table, width) <= First(longer, width)
    ensures |table| >= width ==> First(table, width) == First(longer, width)
  {
  }

  /** Position of the first equal name; the length when there is none. */
  function Find(names: seq<string>, name: string): (i: nat)
    ensures i <= |names| && (i < |names| ==> names[i] == name) && (i == |names| <==> name !in names)
    ensures name !in names[..i]
  {
    if names == [] then 0 else if names[0] == name then 0 else 1 + Find(names[1..], name)
  }

  lemma {:induction false} FindIs(names: seq<string>, name: string, i: nat)
    requires i < |names| && names[i] == name && name !in names[..i]
    ensures Find(names, name) == i
  {
    if i > 0 {
      assert names[0] == names[..i][0] && names[1..][..i - 1] == names[..i][1..];
      FindIs(names[1..], name, i - 1);
    }
  }

  lemma FindGrows(names: seq<string>, longer: seq<string>, name: string)
    requires names <= longer && name in names
    ensures Find(longer, name) == Find(names, name)
  {
    var i := Find(names, name);
    assert longer[..i] == names[..i];
    FindIs(longer, name, i);
  }

  /** The stored value means the name exactly when the name's position is no marker. */
  lemma MeaningOfFirst(names: seq<string>, name: string, i: nat)
    requires i < |names| && names[i] == name && name !in names[..i]
    ensures Meaning(names, U16(i)) == Named(name) <==> i < 0xFFFA
  {
    var v := U16(i);
    if v < i { assert names[v] == names[..i][v]; }
  }

  /** A written feature value. */
  predicate FeatureFor(names: seq<string>, v: u16, wanted: Feature)
  {
    match wanted
    case Marker(code) => v == code
    case Named(name) => name in names && v == U16(Find(names, name))
    case Dangling => false
  }

  ghost function WantedTiles(m: MapValue, sec: Section, ox: int, oy: int): iset<Tile>
    requires sec.Valid()
  {
    iset t |
      exists c ::
        && 0 <= c < m.blocksX * m.blocksY && m.BlockCovered(sec, ox, oy, c)
        && SectionArt(m, sec, ox, oy, c) == Some(t)
  }

  /** The section's art for a covered block. */
  function SectionArt(m: MapValue, sec: Section, ox: int, oy: int, c: int): Option<Tile>
    requires sec.Valid() && m.BlockCovered(sec, ox, oy, c)
  {
    SourceInside(m.blocksX, c, ox, oy, sec.blocksX, sec.blocksY);
    sec.Block(Source(m.blocksX, c, ox, oy, sec.blocksX))
  }

  /** The section's feature for a covered cell, when its plane reaches that far. */
  function SectionFeature(m: MapValue, sec: Section, ox: int, oy: int, c: int): Option<Feature>
    requires sec.Valid() && m.CellCovered(sec, ox, oy, c)
  {
    var s := Source(m.width, c, ox * 2, oy * 2, sec.width);
    if 0 <= s < |sec.features| then Some(Translated(sec, sec.features[s])) else None
  }

  function SectionHeight(m: MapValue, sec: Section, ox: int, oy: int, c: int): Option<byte>
    requires sec.Valid() && m.CellCovered(sec, ox, oy, c)
  {
    var s := Source(m.width, c, ox * 2, oy * 2, sec.width);
    if 0 <= s < |sec.heights| then Some(sec.heights[s]) else None
  }

  ghost function WantedNames(m: MapValue, sec: Section, ox: int, oy: int): iset<string>
    requires sec.Valid()
  {
    iset n |
      exists c ::
        && 0 <= c < m.width * m.height && m.CellCovered(sec, ox, oy, c)
        && SectionFeature(m, sec, ox, oy, c) == Some(Named(n))
  }

  /** The effect of stamping `sec` with its top-left block at (ox, oy). */
  ghost predicate Stamped(m: MapValue, m': MapValue, sec: Section, ox: int, oy: int)
    requires m.Valid() && sec.Valid()
  {
    && m'.Valid() && m'.width == m.width && m'.height == m.height && m'.blocksX == m.blocksX && m'.blocksY == m.blocksY
    && Grown(m.lib, m'.lib, WantedTiles(m, sec, ox, oy), ADDRESSABLE)
    && Grown(m.names, m'.names, WantedNames(m, sec, ox, oy), |m'.names|)
    && (forall c :: 0 <= c < |m.tiles| ==>
          if m.BlockCovered(sec, ox, oy, c)
          then
            var art := SectionArt(m, sec, ox, oy, c);
            IndexFor(m'.lib, m'.tiles[c], art) && Interned(m.lib, m'.lib, art)
          else m'.tiles[c] == m.tiles[c])
    && (forall c :: 0 <= c < |m.heights| ==>
          m'.heights[c] == if m.CellCovered(sec, ox, oy, c) && SectionHeight(m, sec, ox, oy, c).Some?
                           then SectionHeight(m, sec, ox, oy, c).value else m.heights[c])
    && (forall c :: 0 <= c < |m.features| ==>
          if m.CellCovered(sec, ox, oy, c) && SectionFeature(m, sec, ox, oy, c).Some?
          then FeatureFor(m'.names, m'.features[c], SectionFeature(m, sec, ox, oy, c).value)
          else m'.features[c] == m.features[c])
  }

  /** The section cells visible at one offset are visible at another, on a w x h plane. */
  predicate VisibleWithin(w: int, h: int, sw: int, sh: int, ox': int, oy': int, ox: int, oy: int)
  {
    forall sx, sy :: 0 <= sx < sw && 0 <= sy < sh && Visible(w, h, ox', oy', sx, sy) ==> Visible(w, h, ox, oy, sx, sy)
  }

  predicate Visible(w: int, h: int, ox: int, oy: int, sx: int, sy: int) { 0 <= ox + sx < w && 0 <= oy + sy < h }

  /** The cell on which the part of the section now at `c` lay at the earlier offset. */
  lemma EarlierCell(w: nat, h: nat, sw: nat, sh: nat, ox': int, oy': int, ox: int, oy: int, c: int) returns (d: int)
    requires VisibleWithin(w, h, sw, sh, ox', oy', ox, oy)
    requires w > 0 && 0 <= c < w * h && Covered(w, c, ox', oy', sw, sh)
    ensures 0 <= d < w * h && Covered(w, d, ox, oy, sw, sh) && Source(w, d, ox, oy, sw) == Source(w, c, ox', oy', sw)
  {
    CellOf(w, h, c);
    var sx, sy := Col(w, c) - ox', Row(w, c) - oy';
    assert Visible(w, h, ox', oy', sx, sy);
    IndexOf(w, h, ox + sx, oy + sy);
    d := Index(w, ox + sx, oy + sy);
  }

  /** Stamping the same section again, wherever its visible part was visible before, adds
      no feature name, and adds no tile exactly when every tile it shows is addressable;
      in particular while the library stays within 16 bits. */
  lemma RestampGrowsNothing(m: MapValue, m1: MapValue, m2: MapValue, sec: Section, ox: int, oy: int, ox': int, oy': int)
    requires m.Valid() && m1.Valid() && sec.Valid()
    requires Stamped(m, m1, sec, ox, oy) && Stamped(m1, m2, sec, ox', oy')
    requires VisibleWithin(m.blocksX, m.blocksY, sec.blocksX, sec.blocksY, ox', oy', ox, oy)
    requires VisibleWithin(m.width, m.height, sec.width, sec.height, ox' * 2, oy' * 2, ox * 2, oy * 2)
    ensures m2.names == m1.names
    ensures m2.lib == m1.lib <==> forall t :: t in WantedTiles(m1, sec, ox', oy') ==> t in First(m1.lib, ADDRESSABLE)
    ensures |m1.lib| <= ADDRESSABLE ==> m2.lib == m1.lib
  {
    NamesKnown(m, m1, sec, ox, oy, ox', oy');
    NothingNew(m1.names, m2.names, WantedNames(m1, sec, ox', oy'), |m2.names|);
    LibraryGrows(m1, m2, sec, ox', oy');
    if |m1.lib| <= ADDRESSABLE { TilesKnown(m, m1, sec, ox, oy, ox', oy'); }
  }

  /** A stamp leaves the library alone exactly when all it shows can be found there. */
  lemma LibraryGrows(m: MapValue, m': MapValue, sec: Section, ox: int, oy: int)
    requires m.Valid() && sec.Valid() && Stamped(m, m', sec, ox, oy)
    ensures m'.lib == m.lib <==> forall t :: t in WantedTiles(m, sec, ox, oy) ==> t in First(m.lib, ADDRESSABLE)
  {
    if forall t :: t in WantedTiles(m, sec, ox, oy) ==> t in First(m.lib, ADDRESSABLE) {
      NothingNew(m.lib, m'.lib, WantedTiles(m, sec, ox, oy), ADDRESSABLE);
    }
    if m'.lib == m.lib {
      forall t | t in WantedTiles(m, sec, ox, oy) ensures t in First(m.lib, ADDRESSABLE) {
        var c :| 0 <= c < m.blocksX * m.blocksY && m.BlockCovered(sec, ox, oy, c)
            && SectionArt(m, sec, ox, oy, c) == Some(t);
        assert Interned(m.lib, m'.lib, SectionArt(m, sec, ox, oy, c));
      }
    }
  }

  lemma TilesKnown(m: MapValue, m1: MapValue, sec: Section, ox: int, oy: int, ox': int, oy': int)
    requires m.Valid() && m1.Valid() && sec.Valid() && Stamped(m, m1, sec, ox, oy) && |m1.lib| <= ADDRESSABLE
    requires VisibleWithin(m.blocksX, m.blocksY, sec.blocksX, sec.blocksY, ox', oy', ox, oy)
    ensures forall t :: t in WantedTiles(m1, sec, ox', oy') ==> t in First(m1.lib, ADDRESSABLE)
  {
    forall t | t in WantedTiles(m1, sec, ox', oy') ensures t in First(m1.lib, ADDRESSABLE) {
      var c :| 0 <= c < m1.blocksX * m1.blocksY && m1.BlockCovered(sec, ox', oy', c)
          && SectionArt(m1, sec, ox', oy', c) == Some(t);
      var d := EarlierCell(m.blocksX, m.blocksY, sec.blocksX, sec.blocksY, ox', oy', ox, oy, c);
      assert m.BlockCovered(sec, ox, oy, d) && SectionArt(m, sec, ox, oy, d) == Some(t);
      assert IndexFor(m1.lib, m1.tiles[d], Some(t));
    }
  }

  lemma NamesKnown(m: MapValue, m1: MapValue, sec: Section, ox: int, oy: int, ox': int, oy': int)
    requires m.Valid() && m1.Valid() && sec.Valid() && Stamped(m, m1, sec, ox, oy)
    requires VisibleWithin(m.width, m.height, sec.width, sec.height, ox' * 2, oy' * 2, ox * 2, oy * 2)
    ensures forall n :: n in WantedNames(m1, sec, ox', oy') ==> n in m1.names
  {
    forall n | n in WantedNames(m1, sec, ox', oy') ensures n in m1.names {
      var c :| 0 <= c < m1.width * m1.height && m1.CellCovered(sec, ox', oy', c)
          && SectionFeature(m1, sec, ox', oy', c) == Some(Named(n));
      var d := EarlierCell(m.width, m.height, sec.width, sec.height, ox' * 2, oy' * 2, ox * 2, oy * 2, c);
      assert m.CellCovered(sec, ox, oy, d) && SectionFeature(m, sec, ox, oy, d) == Some(Named(n));
      assert FeatureFor(m1.names, m1.features[d], Named(n));
    }
  }

  // --- Progress of the two plane loops -------------------------------------------------------

  ghost predicate TilesDone(m: MapValue, lib: seq<Tile>, tiles: seq<u16>, sec: Section, ox: int, oy: int, sx: int,
                            sy: int)
    requires m.Valid() && sec.Valid()
  {
    && |tiles| == |m.tiles| && Grown(m.lib, lib, WantedTiles(m, sec, ox, oy), ADDRESSABLE)
    && forall c :: 0 <= c < |tiles| ==> BlockState(m, lib, tiles[c], sec, ox, oy, sx, sy, c)
  }

  predicate BlockState(m: MapValue, lib: seq<Tile>, v: u16, sec: Section, ox: int, oy: int, sx: int, sy: int, c: int)
    requires m.Valid() && sec.Valid() && 0 <= c < |m.tiles|
  {
    if m.blocksX > 0 && Passed(m.blocksX, c, ox, oy, sec.blocksX, sec.blocksY, sx, sy)
    then m.lib <= lib && IndexFor(lib, v, SectionArt(m, sec, ox, oy, c))
        && Interned(m.lib, lib, SectionArt(m, sec, ox, oy, c))
    else v == m.tiles[c]
  }

  lemma OtherBlock(m: MapValue, lib: seq<Tile>, longer: seq<Tile>, v: u16,
                   sec: Section, ox: int, oy: int, sx: int, sy: int, sx': int, sy': int, c: int)
    requires m.Valid() && sec.Valid() && 0 <= c < |m.tiles| && m.blocksX > 0 && lib <= longer
    requires BlockState(m, lib, v, sec, ox, oy, sx, sy, c)
    requires Passed(m.blocksX, c, ox, oy, sec.blocksX, sec.blocksY, sx', sy') <==>
             Passed(m.blocksX, c, ox, oy, sec.blocksX, sec.blocksY, sx, sy)
    ensures BlockState(m, longer, v, sec, ox, oy, sx', sy', c)
  {
    if Passed(m.blocksX, c, ox, oy, sec.blocksX, sec.blocksY, sx, sy) {
      IndexForGrows(lib, longer, v, SectionArt(m, sec, ox, oy, c));
      InternedLater(m.lib, lib, longer, SectionArt(m, sec, ox, oy, c));
    }
  }

  /** The block of the section at (sx, sy) lands on block `mi` of the map. */
  lemma BlockLands(m: MapValue, sec: Section, ox: int, oy: int, sx: int, sy: int, mi: int)
    requires m.Valid() && sec.Valid() && mi == Index(m.blocksX, ox + sx, oy + sy)
    requires 0 <= ox + sx < m.blocksX && 0 <= oy + sy < m.blocksY && 0 <= sx < sec.blocksX && 0 <= sy < sec.blocksY
    ensures 0 <= mi < |m.tiles| && 0 <= Index(sec.blocksX, sx, sy) < |sec.tiles|
    ensures m.BlockCovered(sec, ox, oy, mi) && SectionArt(m, sec, ox, oy, mi) == sec.Block(Index(sec.blocksX, sx, sy))
    ensures Passed(m.blocksX, mi, ox, oy, sec.blocksX, sec.blocksY, sx + 1, sy)
  {
    PassOne(m.blocksX, m.blocksY, ox, oy, sec.blocksX, sec.blocksY, sx, sy);
  }

  /** One more tile of the section keeps the library's growth rule. */
  lemma LibraryMoves(m: MapValue, lib: seq<Tile>, lib': seq<Tile>, sec: Section, ox: int, oy: int, mi: int,
                     art: Option<Tile>)
    requires m.Valid() && sec.Valid() && Grown(m.lib, lib, WantedTiles(m, sec, ox, oy), ADDRESSABLE)
    requires 0 <= mi < |m.tiles| && m.BlockCovered(sec, ox, oy, mi) && SectionArt(m, sec, ox, oy, mi) == art
    requires lib' == (if art.Some? && art.value !in First(lib, ADDRESSABLE) then lib + [art.value] else lib)
    ensures Grown(m.lib, lib', WantedTiles(m, sec, ox, oy), ADDRESSABLE) && lib <= lib' && Interned(m.lib, lib', art)
  {
    if lib' != lib {
      GrownStep(m.lib, lib, WantedTiles(m, sec, ox, oy), ADDRESSABLE, art.value);
    }
    NewlyInterned(m.lib, lib, lib', art);
  }

  lemma TileWritten(m: MapValue, lib: seq<Tile>, lib': seq<Tile>, tiles: seq<u16>, v: u16,
                    sec: Section, ox: int, oy: int, sx: int, sy: int, mi: int, art: Option<Tile>)
    requires m.Valid() && sec.Valid() && TilesDone(m, lib, tiles, sec, ox, oy, sx, sy)
    requires 0 <= ox + sx < m.blocksX && 0 <= oy + sy < m.blocksY && 0 <= sx < sec.blocksX && 0 <= sy < sec.blocksY
    requires mi == Index(m.blocksX, ox + sx, oy + sy) && 0 <= mi < |tiles|
    requires 0 <= Index(sec.blocksX, sx, sy) < |sec.tiles| && art == sec.Block(Index(sec.blocksX, sx, sy))
    requires IndexFor(lib', v, art)
    requires lib' == (if art.Some? && art.value !in First(lib, ADDRESSABLE) then lib + [art.value] else lib)
    ensures TilesDone(m, lib', tiles[mi := v], sec, ox, oy, sx + 1, sy)
  {
    BlockLands(m, sec, ox, oy, sx, sy, mi);
    LibraryMoves(m, lib, lib', sec, ox, oy, mi, art);
    assert BlockState(m, lib', v, sec, ox, oy, sx + 1, sy, mi);
    OtherBlocks(m, lib, lib', tiles, sec, ox, oy, sx, sy, mi);
    AllBlocks(m, lib', tiles, v, sec, ox, oy, sx + 1, sy, mi);
  }

  lemma AllBlocks(m: MapValue, lib: seq<Tile>, tiles: seq<u16>, v: u16, sec: Section, ox: int, oy: int, sx: int,
                  sy: int, mi: int)
    requires m.Valid() && sec.Valid() && |tiles| == |m.tiles| && 0 <= mi < |tiles|
    requires Grown(m.lib, lib, WantedTiles(m, sec, ox, oy), ADDRESSABLE)
    requires BlockState(m, lib, v, sec, ox, oy, sx, sy, mi)
    requires forall c :: 0 <= c < |tiles| && c != mi ==> BlockState(m, lib, tiles[c], sec, ox, oy, sx, sy, c)
    ensures TilesDone(m, lib, tiles[mi := v], sec, ox, oy, sx, sy)
  {
    var tiles' := tiles[mi := v];
    forall c | 0 <= c < |tiles'| ensures BlockState(m, lib, tiles'[c], sec, ox, oy, sx, sy, c) {
      if c != mi { assert tiles'[c] == tiles[c]; }
    }
  }

  lemma OtherBlocks(m: MapValue, lib: seq<Tile>, lib': seq<Tile>, tiles: seq<u16>,
                    sec: Section, ox: int, oy: int, sx: int, sy: int, mi: int)
    requires m.Valid() && sec.Valid() && TilesDone(m, lib, tiles, sec, ox, oy, sx, sy) && lib <= lib'
    requires 0 <= ox + sx < m.blocksX && 0 <= oy + sy < m.blocksY && 0 <= sx < sec.blocksX && 0 <= sy < sec.blocksY
    requires mi == Index(m.blocksX, ox + sx, oy + sy)
    ensures forall c :: 0 <= c < |tiles| && c != mi ==> BlockState(m, lib', tiles[c], sec, ox, oy, sx + 1, sy, c)
  {
    PassOne(m.blocksX, m.blocksY, ox, oy, sec.blocksX, sec.blocksY, sx, sy);
    forall c | 0 <= c < |tiles| && c != mi ensures BlockState(m, lib', tiles[c], sec, ox, oy, sx + 1, sy, c) {
      OtherBlock(m, lib, lib', tiles[c], sec, ox, oy, sx, sy, sx + 1, sy, c);
    }
  }

  lemma NewlyInterned(before: seq<Tile>, lib: seq<Tile>, lib': seq<Tile>, art: Option<Tile>)
    requires before <= lib
    requires lib' == (if art.Some? && art.value !in First(lib, ADDRESSABLE) then lib + [art.value] else lib)
    ensures Interned(before, lib', art)
  {
    if art.Some? {
      if art.value in First(lib, ADDRESSABLE) {
        InternedLater(before, lib, lib', art);
      } else {
        assert lib'[|before|..][|lib| - |before|] == art.value;
      }
    }
  }

  lemma BlocksMove(m: MapValue, lib: seq<Tile>, tiles: seq<u16>, sec: Section, ox: int, oy: int,
                   sx: int, sy: int, sx': int, sy': int)
    requires m.Valid() && sec.Valid() && TilesDone(m, lib, tiles, sec, ox, oy, sx, sy)
    requires m.blocksX > 0 ==> forall c :: 0 <= c < |m.tiles| ==>
               (Passed(m.blocksX, c, ox, oy, sec.blocksX, sec.blocksY, sx', sy') <==>
                Passed(m.blocksX, c, ox, oy, sec.blocksX, sec.blocksY, sx, sy))
    ensures TilesDone(m, lib, tiles, sec, ox, oy, sx', sy')
  {
    forall c | 0 <= c < |tiles| ensures BlockState(m, lib, tiles[c], sec, ox, oy, sx', sy', c) {
      assert BlockState(m, lib, tiles[c], sec, ox, oy, sx, sy, c);
    }
  }

  lemma TilesSkip(m: MapValue, lib: seq<Tile>, tiles: seq<u16>, sec: Section, ox: int, oy: int, sx: int, sy: int)
    requires m.Valid() && sec.Valid() && TilesDone(m, lib, tiles, sec, ox, oy, sx, sy)
    ensures !(0 <= ox + sx < m.blocksX && 0 <= oy + sy < m.blocksY) ==>
              TilesDone(m, lib, tiles, sec, ox, oy, sx + 1, sy)
    ensures sx == sec.blocksX || (sx == 0 && !(0 <= oy + sy < m.blocksY)) ==>
              TilesDone(m, lib, tiles, sec, ox, oy, 0, sy + 1)
  {
    if m.blocksX > 0 { PassRow(m.blocksX, m.blocksY, ox, oy, sec.blocksX, sec.blocksY, sy); }
    if !(0 <= ox + sx < m.blocksX && 0 <= oy + sy < m.blocksY) {
      if m.blocksX > 0 { PassNone(m.blocksX, m.blocksY, ox, oy, sec.blocksX, sec.blocksY, sx, sy); }
      BlocksMove(m, lib, tiles, sec, ox, oy, sx, sy, sx + 1, sy);
    }
    if sx == sec.blocksX || (sx == 0 && !(0 <= oy + sy < m.blocksY)) {
      BlocksMove(m, lib, tiles, sec, ox, oy, sx, sy, 0, sy + 1);
    }
  }

  ghost predicate CellsDone(m: MapValue, names: seq<string>, heights: seq<byte>, features: seq<u16>,
                            sec: Section, ox: int, oy: int, sx: int, sy: int)
    requires m.Valid() && sec.Valid()
  {
    && |heights| == |m.heights| && |features| == |m.features|
    && Grown(m.names, names, WantedNames(m, sec, ox, oy), |names|)
    && forall c :: 0 <= c < |features| ==> CellState(m, names, heights[c], features[c], sec, ox, oy, sx, sy, c)
  }

  predicate CellState(m: MapValue, names: seq<string>, height: byte, feature: u16,
                      sec: Section, ox: int, oy: int, sx: int, sy: int, c: int)
    requires m.Valid() && sec.Valid() && 0 <= c < |m.features|
  {
    if m.width > 0 && Passed(m.width, c, ox * 2, oy * 2, sec.width, sec.height, sx, sy)
    then CellDone(m, names, height, feature, sec, ox, oy, c)
    else height == m.heights[c] && feature == m.features[c]
  }

  /** What the stamp leaves at a covered cell. */
  predicate CellDone(m: MapValue, names: seq<string>, height: byte, feature: u16, sec: Section, ox: int, oy: int,
                     c: int)
    requires m.Valid() && sec.Valid() && m.CellCovered(sec, ox, oy, c) && 0 <= c < |m.features|
  {
    && height == (match SectionHeight(m, sec, ox, oy, c) case None => m.heights[c] case Some(v) => v)
    && (match SectionFeature(m, sec, ox, oy, c)
        case None => feature == m.features[c]
        case Some(f) => FeatureFor(names, feature, f))
  }

  lemma FeatureForGrows(names: seq<string>, longer: seq<string>, v: u16, wanted: Feature)
    requires FeatureFor(names, v, wanted) && names <= longer
    ensures FeatureFor(longer, v, wanted)
  {
    if wanted.Named? { FindGrows(names, longer, wanted.name); }
  }

  /** Appending a name that a full search did not find keeps the growth rule. */
  lemma NameAdded(before: seq<string>, after: seq<string>, wanted: iset<string>, name: string)
    requires Grown(before, after, wanted, |after|) && name in wanted && name !in after
    ensures Grown(before, after + [name], wanted, |after| + 1)
  {
    var longer := after + [name];
    forall j | |before| <= j < |longer| ensures longer[j] in wanted && longer[j] !in First(longer[..j], |after| + 1) {
      assert longer[..j] == after[..j];
      if j == |after| { assert after[..j] == after; } else { assert First(after[..j], |after|) == after[..j]; }
    }
  }

  /** The name table after a feature was translated. */
  function WithName(names: seq<string>, f: Feature): seq<string>
  {
    if f.Named? && f.name !in names then names + [f.name] else names
  }

  lemma NamesGrow(m: MapValue, names: seq<string>, sec: Section, ox: int, oy: int, c: int)
    requires m.Valid() && sec.Valid() && 0 <= c < |m.features| && m.CellCovered(sec, ox, oy, c)
    requires Grown(m.names, names, WantedNames(m, sec, ox, oy), |names|)
    requires SectionFeature(m, sec, ox, oy, c).Some?
    ensures var names' := WithName(names, SectionFeature(m, sec, ox, oy, c).value);
            names <= names' && Grown(m.names, names', WantedNames(m, sec, ox, oy), |names'|)
  {
    var f := SectionFeature(m, sec, ox, oy, c).value;
    if f.Named? && f.name !in names {
      assert f.name in WantedNames(m, sec, ox, oy);
      NameAdded(m.names, names, WantedNames(m, sec, ox, oy), f.name);
    }
  }

  lemma OtherCell(m: MapValue, names: seq<string>, longer: seq<string>, height: byte, feature: u16,
                  sec: Section, ox: int, oy: int, sx: int, sy: int, c: int)
    requires m.Valid() && sec.Valid() && 0 <= c < |m.features| && m.width > 0 && names <= longer
    requires CellState(m, names, height, feature, sec, ox, oy, sx, sy, c)
    requires Passed(m.width, c, ox * 2, oy * 2, sec.width, sec.height, sx + 1, sy) <==>
             Passed(m.width, c, ox * 2, oy * 2, sec.width, sec.height, sx, sy)
    ensures CellState(m, longer, height, feature, sec, ox, oy, sx + 1, sy, c)
  {
    if Passed(m.width, c, ox * 2, oy * 2, sec.width, sec.height, sx, sy) {
      var f := SectionFeature(m, sec, ox, oy, c);
      if f.Some? { FeatureForGrows(names, longer, feature, f.value); }
    }
  }

  /** The cell of the section at (sx, sy) lands on cell `mi` of the map. */
  lemma CellLands(m: MapValue, sec: Section, ox: int, oy: int, sx: int, sy: int, mi: int, si: int)
    requires m.Valid() && sec.Valid() && mi == Index(m.width, ox * 2 + sx, oy * 2 + sy)
             && si == Index(sec.width, sx, sy)
    requires 0 <= ox * 2 + sx < m.width && 0 <= oy * 2 + sy < m.height && 0 <= sx < sec.width && 0 <= sy < sec.height
    ensures 0 <= mi < |m.features| && 0 <= si && m.CellCovered(sec, ox, oy, mi)
    ensures Source(m.width, mi, ox * 2, oy * 2, sec.width) == si
    ensures Passed(m.width, mi, ox * 2, oy * 2, sec.width, sec.height, sx + 1, sy)
    ensures !Passed(m.width, mi, ox * 2, oy * 2, sec.width, sec.height, sx, sy)
  {
    PassOne(m.width, m.height, ox * 2, oy * 2, sec.width, sec.height, sx, sy);
  }

  /** What the loop body writes for section cell `si` over the height `h0` and feature `v0`. */
  predicate Writes(sec: Section, si: int, names: seq<string>, names': seq<string>, h0: byte, h: byte, v0: u16, v: u16)
    requires 0 <= si
  {
    && h == (if si < |sec.heights| then sec.heights[si] else h0)
    && (if si < |sec.features|
        then FeatureFor(names', v, Translated(sec, sec.features[si]))
            && names' == WithName(names, Translated(sec, sec.features[si]))
        else v == v0 && names' == names)
  }

  lemma CellWritten(m: MapValue, names: seq<string>, names': seq<string>, heights: seq<byte>, features: seq<u16>,
                    h: byte, v: u16, sec: Section, ox: int, oy: int, sx: int, sy: int, mi: int, si: int)
    requires m.Valid() && sec.Valid() && CellsDone(m, names, heights, features, sec, ox, oy, sx, sy)
    requires 0 <= ox * 2 + sx < m.width && 0 <= oy * 2 + sy < m.height && 0 <= sx < sec.width && 0 <= sy < sec.height
    requires mi == Index(m.width, ox * 2 + sx, oy * 2 + sy) && si == Index(sec.width, sx, sy)
    requires 0 <= mi < |features| && 0 <= si && Writes(sec, si, names, names', heights[mi], h, features[mi], v)
    ensures CellsDone(m, names', heights[mi := h], features[mi := v], sec, ox, oy, sx + 1, sy)
  {
    CellLands(m, sec, ox, oy, sx, sy, mi, si);
    assert CellState(m, names, heights[mi], features[mi], sec, ox, oy, sx, sy, mi);
    ThisCell(m, names, names', h, v, sec, ox, oy, mi, si);
    assert CellState(m, names', h, v, sec, ox, oy, sx + 1, sy, mi);
    OtherCells(m, names, names', heights, features, sec, ox, oy, sx, sy, mi);
  }

  lemma ThisCell(m: MapValue, names: seq<string>, names': seq<string>, h: byte, v: u16,
                 sec: Section, ox: int, oy: int, mi: int, si: int)
    requires m.Valid() && sec.Valid() && 0 <= mi < |m.features| && 0 <= si && m.CellCovered(sec, ox, oy, mi)
    requires Source(m.width, mi, ox * 2, oy * 2, sec.width) == si
    requires Grown(m.names, names, WantedNames(m, sec, ox, oy), |names|)
    requires Writes(sec, si, names, names', m.heights[mi], h, m.features[mi], v)
    ensures CellDone(m, names', h, v, sec, ox, oy, mi)
    ensures names <= names' && Grown(m.names, names', WantedNames(m, sec, ox, oy), |names'|)
  {
    if si < |sec.features| { NamesGrow(m, names, sec, ox, oy, mi); }
  }

  lemma OtherCells(m: MapValue, names: seq<string>, names': seq<string>, heights: seq<byte>, features: seq<u16>,
                   sec: Section, ox: int, oy: int, sx: int, sy: int, mi: int)
    requires m.Valid() && sec.Valid() && CellsDone(m, names, heights, features, sec, ox, oy, sx, sy) && names <= names'
    requires 0 <= ox * 2 + sx < m.width && 0 <= oy * 2 + sy < m.height && 0 <= sx < sec.width && 0 <= sy < sec.height
    requires mi == Index(m.width, ox * 2 + sx, oy * 2 + sy)
    ensures forall c :: 0 <= c < |features| && c != mi ==>
              CellState(m, names', heights[c], features[c], sec, ox, oy, sx + 1, sy, c)
  {
    PassOne(m.width, m.height, ox * 2, oy * 2, sec.width, sec.height, sx, sy);
    forall c | 0 <= c < |features| && c != mi
      ensures CellState(m, names', heights[c], features[c], sec, ox, oy, sx + 1, sy, c)
    {
      OtherCell(m, names, names', heights[c], features[c], sec, ox, oy, sx, sy, c);
    }
  }

  lemma StateMoves(m: MapValue, names: seq<string>, heights: seq<byte>, features: seq<u16>,
                   sec: Section, ox: int, oy: int, sx: int, sy: int, sx': int, sy': int)
    requires m.Valid() && sec.Valid() && CellsDone(m, names, heights, features, sec, ox, oy, sx, sy)
    requires m.width > 0 ==> forall c :: 0 <= c < |m.features| ==>
               (Passed(m.width, c, ox * 2, oy * 2, sec.width, sec.height, sx', sy') <==>
                Passed(m.width, c, ox * 2, oy * 2, sec.width, sec.height, sx, sy))
    ensures CellsDone(m, names, heights, features, sec, ox, oy, sx', sy')
  {
    forall c | 0 <= c < |features| ensures CellState(m, names, heights[c], features[c], sec, ox, oy, sx', sy', c) {
      assert CellState(m, names, heights[c], features[c], sec, ox, oy, sx, sy, c);
    }
  }

  lemma CellsSkip(m: MapValue, names: seq<string>, heights: seq<byte>, features: seq<u16>,
                  sec: Section, ox: int, oy: int, sx: int, sy: int)
    requires m.Valid() && sec.Valid() && CellsDone(m, names, heights, features, sec, ox, oy, sx, sy)
    ensures !(0 <= ox * 2 + sx < m.width && 0 <= oy * 2 + sy < m.height) ==>
              CellsDone(m, names, heights, features, sec, ox, oy, sx + 1, sy)
    ensures sx == sec.width || (sx == 0 && !(0 <= oy * 2 + sy < m.height)) ==>
              CellsDone(m, names, heights, features, sec, ox, oy, 0, sy + 1)
  {
    if m.width > 0 { PassRow(m.width, m.height, ox * 2, oy * 2, sec.width, sec.height, sy); }
    if !(0 <= ox * 2 + sx < m.width && 0 <= oy * 2 + sy < m.height) {
      if m.width > 0 { PassNone(m.width, m.height, ox * 2, oy * 2, sec.width, sec.height, sx, sy); }
      StateMoves(m, names, heights, features, sec, ox, oy, sx, sy, sx + 1, sy);
    }
    if sx == sec.width || (sx == 0 && !(0 <= oy * 2 + sy < m.height)) {
      StateMoves(m, names, heights, features, sec, ox, oy, sx, sy, 0, sy + 1);
    }
  }

  // --- The map and the brush ------------------------------------------------------------------

  /** The content index: hash to positions.  `Complete` is all the search relies on; the
      hash may collide, and the order within a bucket is not fixed. */
  type ContentIndex = map<int, set<u16>>

  ghost predicate Complete(index: ContentIndex, lib: seq<Tile>, hash: Tile -> int)
  {
    forall i :: 0 <= i < |First(lib, ADDRESSABLE)| ==> hash(lib[i]) in index && i in index[hash(lib[i])]
  }

  function Emplace(index: ContentIndex, h: int, i: u16): ContentIndex
  {
    index[h := (if h in index then index[h] else {}) + {i}]
  }

  /** The positions listed under a hash. */
  function Bucket(index: ContentIndex, h: int): set<u16> { if h in index then index[h] else {} }

  /** With a complete index, a content found nowhere in its bucket is not addressable. */
  lemma NotListed(index: ContentIndex, lib: seq<Tile>, hash: Tile -> int, t: Tile)
    requires Complete(index, lib, hash)
    requires forall i :: i in Bucket(index, hash(t)) ==> Lookup(lib, i) != Some(t)
    ensures t !in First(lib, ADDRESSABLE)
  {
    forall i | 0 <= i < |First(lib, ADDRESSABLE)| ensures First(lib, ADDRESSABLE)[i] != t {
      assert First(lib, ADDRESSABLE)[i] == lib[i];
      assert lib[i] == t ==> i in Bucket(index, hash(t)) && Lookup(lib, i) == Some(t);
    }
  }

  /** A content that is listed is found at an addressable position. */
  lemma Listed(lib: seq<Tile>, v: u16, t: Tile)
    requires Lookup(lib, v) == Some(t)
    ensures IndexFor(lib, v, Some(t)) && t in First(lib, ADDRESSABLE)
  {
    assert First(lib, ADDRESSABLE)[v] == t;
  }

  /** Appending a content keeps the index complete. */
  lemma IndexAppended(index: ContentIndex, lib: seq<Tile>, hash: Tile -> int, t: Tile)
    requires Complete(index, lib, hash) && t !in First(lib, ADDRESSABLE)
    ensures Complete(Emplace(index, hash(t), U16(|lib|)), lib + [t], hash)
    ensures IndexFor(lib + [t], U16(|lib|), Some(t))
  {
    var longer, v := lib + [t], U16(|lib|);
    var index' := Emplace(index, hash(t), v);
    forall i | 0 <= i < |First(longer, ADDRESSABLE)| ensures hash(longer[i]) in index' && i in index'[hash(longer[i])] {
      if i < |lib| { assert longer[i] == lib[i] && i < |First(lib, ADDRESSABLE)|; }
    }
    if |lib| < ADDRESSABLE {
      assert First(longer, ADDRESSABLE)[|lib|] == t;
    } else {
      assert First(longer, ADDRESSABLE) == First(lib, ADDRESSABLE);
      assert longer[v] == First(lib, ADDRESSABLE)[v];
    }
  }

  class Map {
    var width: nat
    var height: nat
    var seaLevel: int
    var blocksX: nat
    var blocksY: nat
    var heights: array<byte>
    var features: array<u16>
    var tiles: array<u16>
    var tileGfx: seq<byte>
    var numTiles: nat
    var featureNames: seq<string>

    /** A flat map of width x height cells with an empty library. */
    constructor (width: nat, height: nat, seaLevel: int, landLevel: byte)
      ensures Valid() && fresh(heights) && fresh(features) && fresh(tiles)
      ensures this.width == width && this.height == height && blocksX == width / 2 && blocksY == height / 2
      ensures this.seaLevel == seaLevel && tileGfx == [] && featureNames == []
      ensures forall c :: 0 <= c < width * height ==> heights[c] == landLevel && features[c] == NO_FEATURE
      ensures forall c :: 0 <= c < tiles.Length ==> tiles[c] == 0
    {
      this.width, this.height, this.seaLevel := width, height, seaLevel;
      blocksX, blocksY := width / 2, height / 2;
      heights := new byte[width * height](i => landLevel);
      features := new u16[width * height](i => NO_FEATURE);
      tiles := new u16[(width / 2) * (height / 2)](i => 0);
      tileGfx, numTiles, featureNames := [], 0, [];
    }

    ghost predicate Valid()
      reads this
    {
      && heights.Length == features.Length == width * height && tiles.Length == blocksX * blocksY
      && |tileGfx| == numTiles * TILE_BYTES
      && features != tiles
    }

    ghost function Value(): MapValue
      requires Valid()
      reads this, heights, features, tiles
    {
      MapValue(width, height, blocksX, blocksY, heights[..], features[..], tiles[..], Tiles(tileGfx), featureNames)
    }

    /** The bytes of a tile, if the library holds it. */
    function TileAt(i: int): (t: Option<Tile>)
      requires |tileGfx| == numTiles * TILE_BYTES
      reads this
      ensures t == Lookup(Tiles(tileGfx), i)
    {
      if i < 0 || i >= numTiles then None else Some(tileGfx[i * TILE_BYTES..(i + 1) * TILE_BYTES])
    }

    /** The content index as it is built once per stamp. */
    method BuildIndex(hash: Tile -> int) returns (index: ContentIndex)
      requires Valid()
      ensures Complete(index, Tiles(tileGfx), hash)
    {
      index := map[];
      for i := 0 to numTiles
        invariant forall j :: 0 <= j < i && j < ADDRESSABLE ==>
                    hash(Tiles(tileGfx)[j]) in index && j in index[hash(Tiles(tileGfx)[j])]
      {
        var t := TileAt(i).value;
        index := Emplace(index, hash(t), U16(i));
      }
    }

    /** Find the content in the addressable library or append it.  The returned index names
        the content exactly when it is addressable. */
    method InternTile(sec: Section, si: u16, index: ContentIndex, hash: Tile -> int)
      returns (idx: u16, index': ContentIndex)
      requires sec.Valid() && |tileGfx| == numTiles * TILE_BYTES && Complete(index, Tiles(tileGfx), hash)
      modifies this`tileGfx, this`numTiles
      ensures |tileGfx| == numTiles * TILE_BYTES && Complete(index', Tiles(tileGfx), hash)
      ensures IndexFor(Tiles(tileGfx), idx, Lookup(Tiles(sec.tileGfx), si))
      ensures var art, lib := Lookup(Tiles(sec.tileGfx), si), old(Tiles(tileGfx));
              Tiles(tileGfx) == if art.Some? && art.value !in First(lib, ADDRESSABLE) then lib + [art.value] else lib
    {
      index' := index;
      var src := Lookup(Tiles(sec.tileGfx), si);
      if src == None { return 0, index; }
      var found := SearchBucket(Bucket(index, hash(src.value)), src);
      if found.Some? {
        Listed(Tiles(tileGfx), found.value, src.value);
        return found.value, index;
      }
      NotListed(index, Tiles(tileGfx), hash, src.value);
      IndexAppended(index, Tiles(tileGfx), hash, src.value);
      idx := U16(numTiles);
      index' := Emplace(index, hash(src.value), idx);
      Append(src.value);
    }

    method Append(t: Tile)
      requires |tileGfx| == numTiles * TILE_BYTES && |t| == TILE_BYTES
      modifies this`tileGfx, this`numTiles
      ensures |tileGfx| == numTiles * TILE_BYTES && Tiles(tileGfx) == old(Tiles(tileGfx)) + [t]
    {
      AppendTile(tileGfx, t);
      tileGfx := tileGfx + t;
      numTiles := numTiles + 1;
    }

    /** Compare the tiles of a bucket, in any order, with the wanted content. */
    method SearchBucket(bucket: set<u16>, src: Option<Tile>) returns (found: Option<u16>)
      requires |tileGfx| == numTiles * TILE_BYTES
      ensures found.Some? ==> Lookup(Tiles(tileGfx), found.value) == src
      ensures found == None ==> forall i :: i in bucket ==> Lookup(Tiles(tileGfx), i) != src
    {
      var rest := bucket;
      while rest != {}
        invariant rest <= bucket && forall i :: i in bucket && i !in rest ==> Lookup(Tiles(tileGfx), i) != src
        decreases rest
      {
        var it :| it in rest;
        if TileAt(it) == src { return Some(it); }
        rest := rest - {it};
      }
      return None;
    }

    /** Find the name or append it. */
    method InternFeature(sec: Section, v: u16) returns (r: u16)
      modifies this`featureNames
      ensures FeatureFor(featureNames, r, Translated(sec, v))
      ensures featureNames == WithName(old(featureNames), Translated(sec, v))
    {
      if v >= MARKERS { return v; }
      if v >= |sec.featureNames| { return NO_FEATURE; }
      var name := sec.featureNames[v];
      for i := 0 to |featureNames|
        invariant name !in featureNames[..i]
      {
        if featureNames[i] == name {
          FindIs(featureNames, name, i);
          return U16(i);
        }
      }
      assert featureNames[..|featureNames|] == featureNames;
      FindIs(featureNames + [name], name, |featureNames|);
      featureNames := featureNames + [name];
      r := U16(|featureNames| - 1);
    }

    /** Write one block: section block `si` onto map block `mi`. */
    method PutBlock(sec: Section, mi: int, si: int, index: ContentIndex, hash: Tile -> int)
      returns (index': ContentIndex, ghost v: u16)
      requires Valid() && sec.Valid() && 0 <= mi < tiles.Length && 0 <= si < |sec.tiles|
      requires Complete(index, Tiles(tileGfx), hash)
      modifies this`tileGfx, this`numTiles, tiles
      ensures Valid() && Complete(index', Tiles(tileGfx), hash)
      ensures tiles[..] == old(tiles[..])[mi := v] && IndexFor(Tiles(tileGfx), v, sec.Block(si))
      ensures var art, lib := sec.Block(si), old(Tiles(tileGfx));
              Tiles(tileGfx) == if art.Some? && art.value !in First(lib, ADDRESSABLE) then lib + [art.value] else lib
    {
      var idx;
      idx, index' := InternTile(sec, sec.tiles[si], index, hash);
      tiles[mi] := idx;
      v := idx;
    }

    /** Write one cell: section cell `si` onto map cell `mi`. */
    method PutCell(sec: Section, mi: int, si: int) returns (ghost h: byte, ghost v: u16)
      requires Valid() && 0 <= mi < features.Length && 0 <= si
      modifies this`featureNames, heights, features
      ensures Valid() && heights[..] == old(heights[..])[mi := h] && features[..] == old(features[..])[mi := v]
      ensures Writes(sec, si, old(featureNames), featureNames, old(heights[mi]), h, old(features[mi]), v)
    {
      h, v := heights[mi], features[mi];
      if si < |sec.heights| {
        heights[mi] := sec.heights[si];
        h := sec.heights[si];
      }
      if si < |sec.features| {
        var f := InternFeature(sec, sec.features[si]);
        features[mi] := f;
        v := f;
      }
    }

    /** One block of the section, landing on the map. */
    method StampBlock(sec: Section, ox: int, oy: int, sx: int, sy: int,
                      index: ContentIndex, hash: Tile -> int, ghost m: MapValue) returns (index': ContentIndex)
      requires Valid() && sec.Valid() && m.Valid() && m.blocksX == blocksX && m.blocksY == blocksY
      requires 0 <= ox + sx < blocksX && 0 <= oy + sy < blocksY && 0 <= sx < sec.blocksX && 0 <= sy < sec.blocksY
      requires Complete(index, Tiles(tileGfx), hash) && TilesDone(m, Tiles(tileGfx), tiles[..], sec, ox, oy, sx, sy)
      modifies this`tileGfx, this`numTiles, tiles
      ensures Valid() && Complete(index', Tiles(tileGfx), hash)
      ensures TilesDone(m, Tiles(tileGfx), tiles[..], sec, ox, oy, sx + 1, sy)
    {
      IndexOf(blocksX, blocksY, ox + sx, oy + sy);
      IndexOf(sec.blocksX, sec.blocksY, sx, sy);
      var si, mi := sy * sec.blocksX + sx, (oy + sy) * blocksX + (ox + sx);
      ghost var lib, plane := Tiles(tileGfx), tiles[..];
      ghost var v;
      index', v := PutBlock(sec, mi, si, index, hash);
      TileWritten(m, lib, Tiles(tileGfx), plane, v, sec, ox, oy, sx, sy, mi, sec.Block(si));
    }

    method StampTiles(sec: Section, ox: int, oy: int, hash: Tile -> int, ghost m: MapValue)
      requires Valid() && sec.Valid() && m == Value()
      modifies this`tileGfx, this`numTiles, tiles
      ensures Valid()
      ensures TilesDone(m, Tiles(tileGfx), tiles[..], sec, ox, oy, 0, sec.blocksY)
    {
      var index := BuildIndex(hash);
      for sy := 0 to sec.blocksY
        invariant Valid() && Complete(index, Tiles(tileGfx), hash)
        invariant TilesDone(m, Tiles(tileGfx), tiles[..], sec, ox, oy, 0, sy)
      {
        var my := oy + sy;
        TilesSkip(m, Tiles(tileGfx), tiles[..], sec, ox, oy, 0, sy);
        if my < 0 || my >= blocksY { continue; }
        for sx := 0 to sec.blocksX
          invariant Valid() && Complete(index, Tiles(tileGfx), hash)
          invariant TilesDone(m, Tiles(tileGfx), tiles[..], sec, ox, oy, sx, sy)
        {
          var mx := ox + sx;
          TilesSkip(m, Tiles(tileGfx), tiles[..], sec, ox, oy, sx, sy);
          if mx < 0 || mx >= blocksX { continue; }
          index := StampBlock(sec, ox, oy, sx, sy, index, hash, m);
        }
        TilesSkip(m, Tiles(tileGfx), tiles[..], sec, ox, oy, sec.blocksX, sy);
      }
    }

    /** One cell of the section, landing on the map. */
    method StampCell(sec: Section, ox: int, oy: int, sx: int, sy: int, ghost m: MapValue)
      requires Valid() && sec.Valid() && m.Valid() && m.width == width && m.height == height
      requires 0 <= ox * 2 + sx < width && 0 <= oy * 2 + sy < height && 0 <= sx < sec.width && 0 <= sy < sec.height
      requires CellsDone(m, featureNames, heights[..], features[..], sec, ox, oy, sx, sy)
      modifies this`featureNames, heights, features
      ensures Valid()
      ensures CellsDone(m, featureNames, heights[..], features[..], sec, ox, oy, sx + 1, sy)
    {
      IndexOf(width, height, ox * 2 + sx, oy * 2 + sy);
      IndexOf(sec.width, sec.height, sx, sy);
      var si, mi := sy * sec.width + sx, (oy * 2 + sy) * width + (ox * 2 + sx);
      ghost var names, hs, fs := featureNames, heights[..], features[..];
      ghost var h, v := PutCell(sec, mi, si);
      CellWritten(m, names, featureNames, hs, fs, h, v, sec, ox, oy, sx, sy, mi, si);
    }

    method StampCells(sec: Section, ox: int, oy: int, ghost m: MapValue)
      requires Valid() && sec.Valid() && m.Valid() && m.width == width && m.height == height
      requires m.heights == heights[..] && m.features == features[..] && m.names == featureNames
      modifies this`featureNames, heights, features
      ensures Valid()
      ensures CellsDone(m, featureNames, heights[..], features[..], sec, ox, oy, 0, sec.height)
    {
      var cx0, cy0 := ox * 2, oy * 2;
      for sy := 0 to sec.height
        invariant Valid()
        invariant CellsDone(m, featureNames, heights[..], features[..], sec, ox, oy, 0, sy)
      {
        var my := cy0 + sy;
        CellsSkip(m, featureNames, heights[..], features[..], sec, ox, oy, 0, sy);
        if my < 0 || my >= height { continue; }
        for sx := 0 to sec.width
          invariant Valid()
          invariant CellsDone(m, featureNames, heights[..], features[..], sec, ox, oy, sx, sy)
        {
          var mx := cx0 + sx;
          CellsSkip(m, featureNames, heights[..], features[..], sec, ox, oy, sx, sy);
          if mx < 0 || mx >= width { continue; }
          StampCell(sec, ox, oy, sx, sy, m);
        }
        CellsSkip(m, featureNames, heights[..], features[..], sec, ox, oy, sec.width, sy);
      }
    }

    /** The stamp brush.  It reports false, and changes nothing, when no block of the section
        can fall on the map. */
    method StampSection(sec: Section, ox: int, oy: int, hash: Tile -> int) returns (ok: bool)
      requires Valid() && sec.Valid()
      modifies this`tileGfx, this`numTiles, this`featureNames, heights, features, tiles
      ensures Valid()
      ensures ok <==> ox + sec.blocksX > 0 && oy + sec.blocksY > 0 && ox < blocksX && oy < blocksY
      ensures if ok then Stamped(old(Value()), Value(), sec, ox, oy) else Value() == old(Value())
    {
      if ox + sec.blocksX <= 0 || oy + sec.blocksY <= 0 || ox >= blocksX || oy >= blocksY {
        return false;
      }
      ghost var m := Value();
      StampTiles(sec, ox, oy, hash, m);
      StampCells(sec, ox, oy, m);
      AllDone(m, Value(), sec, ox, oy);
      return true;
    }
  }

  lemma AllDone(m: MapValue, m': MapValue, sec: Section, ox: int, oy: int)
    requires m.Valid() && m'.Valid() && sec.Valid()
    requires m'.width == m.width && m'.height == m.height && m'.blocksX == m.blocksX && m'.blocksY == m.blocksY
    requires TilesDone(m, m'.lib, m'.tiles, sec, ox, oy, 0, sec.blocksY)
    requires CellsDone(m, m'.names, m'.heights, m'.features, sec, ox, oy, 0, sec.height)
    ensures Stamped(m, m', sec, ox, oy)
  {
    forall c | 0 <= c < |m.features| && !m.CellCovered(sec, ox, oy, c)
      ensures m'.heights[c] == m.heights[c] && m'.features[c] == m.features[c]
    {
      assert CellState(m, m'.names, m'.heights[c], m'.features[c], sec, ox, oy, 0, sec.height, c);
    }
    forall c | 0 <= c < |m.features| && m.CellCovered(sec, ox, oy, c)
      ensures CellDone(m, m'.names, m'.heights[c], m'.features[c], sec, ox, oy, c)
    {
      assert CellState(m, m'.names, m'.heights[c], m'.features[c], sec, ox, oy, 0, sec.height, c);
    }
    forall c | 0 <= c < |m.tiles|
      ensures if m.BlockCovered(sec, ox, oy, c) then IndexFor(m'.lib, m'.tiles[c], SectionArt(m, sec, ox, oy, c))
              else m'.tiles[c] == m.tiles[c]
    {
      assert BlockState(m, m'.lib, m'.tiles[c], sec, ox, oy, 0, sec.blocksY, c);
    }
  }
}
