/** A stamp read off the planes, number by number (src/cartographer/sections.cpp,
    src/cartographer/newmap.cpp): which bytes a covered block names, which name a covered cell
    has, and the same for a map that is tiled with one section. */
module StampPlanes {
  import opened Basics
  import opened Counting
  import opened GridIndex
  import opened TileMap
  import opened StampView
  import opened NewMap

  /** Tile `i` of a library is its 1024 bytes from 1024 * i. */
  lemma TileBytes(gfx: seq<byte>, i: int)
    requires |gfx| % 1024 == 0
    ensures 0 <= i < |Tiles(gfx)| <==> 0 <= i && 1024 * i + 1024 <= |gfx|
    ensures 0 <= i < |Tiles(gfx)| ==> Tiles(gfx)[i] == gfx[1024 * i..1024 * i + 1024]
  {
  }

  /** The cell of a plane at column x of row y, under a rectangle placed at (ox, oy). */
  lemma Under(w: nat, h: nat, ox: int, oy: int, sw: nat, sh: nat, x: int, y: int)
    requires 0 <= x < w && 0 <= y < h
    ensures var c := y * w + x;
            && 0 <= c < w * h && (Covered(w, c, ox, oy, sw, sh) <==> 0 <= x - ox < sw && 0 <= y - oy < sh)
            && Source(w, c, ox, oy, sw) == (y - oy) * sw + (x - ox)
  {
    IndexOf(w, h, x, y);
  }

  // --- One stamp ------------------------------------------------------------------------------------

  /** The bytes that the section shows at its block (sx, sy), if its index names a tile. */
  function SectionBytes(sec: Section, i: int): Option<Tile>
    requires 0 <= i < |sec.tiles|
  {
    var s := sec.tiles[i];
    if 1024 * s + 1024 <= |sec.tileGfx| then Some(sec.tileGfx[1024 * s..1024 * s + 1024]) else None
  }

  /** A block under the stamp names a tile with the bytes of the section's block there; where the
      section's index names none, it gets index 0.  A block beside the stamp keeps its index. */
  lemma BlockAfterStamp(m: MapValue, m': MapValue, sec: Section, ox: int, oy: int, x: int, y: int)
    requires m.Valid() && sec.Valid() && Stamped(m, m', sec, ox, oy)
    requires 0 <= x < m.blocksX && 0 <= y < m.blocksY && 1024 * |m.lib| + |sec.tileGfx| <= 1024 * 65536
    ensures var c, i := y * m.blocksX + x, (y - oy) * sec.blocksX + (x - ox);
            && 0 <= c < |m.tiles| == |m'.tiles| && m.lib <= m'.lib
            && if 0 <= x - ox < sec.blocksX && 0 <= y - oy < sec.blocksY then
                 && 0 <= i < |sec.tiles|
                 && match SectionBytes(sec, i)
                    case Some(bytes) => m'.tiles[c] < |m'.lib| && m'.lib[m'.tiles[c]] == bytes
                    case None => m'.tiles[c] == 0
               else m'.tiles[c] == m.tiles[c]
  {
    Under(m.blocksX, m.blocksY, ox, oy, sec.blocksX, sec.blocksY, x, y);
    RoomByBytes(m, sec, ox, oy);
    if m.BlockCovered(sec, ox, oy, y * m.blocksX + x) {
      CoveredBytes(m, m', sec, ox, oy, y * m.blocksX + x, (y - oy) * sec.blocksX + (x - ox));
    }
  }

  lemma RoomByBytes(m: MapValue, sec: Section, ox: int, oy: int)
    requires m.Valid() && sec.Valid() && 1024 * |m.lib| + |sec.tileGfx| <= 1024 * 65536
    ensures Room(m, sec, ox, oy)
  {
    SmallSectionHasRoom(m, sec, ox, oy);
  }

  lemma CoveredBytes(m: MapValue, m': MapValue, sec: Section, ox: int, oy: int, c: int, i: int)
    requires m.Valid() && sec.Valid() && Stamped(m, m', sec, ox, oy) && Room(m, sec, ox, oy)
    requires 0 <= c < |m.tiles| && m.BlockCovered(sec, ox, oy, c) && Source(m.blocksX, c, ox, oy, sec.blocksX) == i
    ensures 0 <= i < |sec.tiles|
    ensures match SectionBytes(sec, i)
            case Some(bytes) => m'.tiles[c] < |m'.lib| && m'.lib[m'.tiles[c]] == bytes
            case None => m'.tiles[c] == 0
  {
    SourceInside(m.blocksX, c, ox, oy, sec.blocksX, sec.blocksY);
    TileBytes(sec.tileGfx, sec.tiles[i]);
    if SectionArt(m, sec, ox, oy, c).Some? { CoveredBlockShows(m, m', sec, ox, oy, c); }
  }

  /** What a feature value of the section stands for on the new map. */
  ghost predicate Carried(sec: Section, v: u16, names: seq<string>, v': u16)
  {
    if v >= 0xFFFA then v' == v
    else if v < |sec.featureNames| then v' < 0xFFFA && v' < |names| && names[v'] == sec.featureNames[v]
    else v' == 0xFFFF
  }

  lemma CarriedIs(sec: Section, v: u16, names: seq<string>, v': u16)
    requires Meaning(names, v') == Translated(sec, v) && (Translated(sec, v).Marker? ==> v' == Translated(sec, v).code)
    ensures Carried(sec, v, names, v')
  {
  }

  /** A cell under the stamp takes the section's height and feature: a marker stays that marker, a
      value that names a feature names the same one on the map, any other becomes the value for
      no feature.  A cell beside the stamp keeps both. */
  lemma CellAfterStamp(m: MapValue, m': MapValue, sec: Section, ox: int, oy: int, x: int, y: int)
    requires m.Valid() && sec.Valid() && Stamped(m, m', sec, ox, oy)
    requires 0 <= x < m.width && 0 <= y < m.height && |m.names| + |sec.featureNames| <= 0xFFFA
    ensures var c, i := y * m.width + x, (y - 2 * oy) * sec.width + (x - 2 * ox);
            && 0 <= c < |m.features| == |m.heights| == |m'.features| == |m'.heights| && m.names <= m'.names
            && if 0 <= x - 2 * ox < sec.width && 0 <= y - 2 * oy < sec.height then
                 && 0 <= i
                 && (if i < |sec.features| then Carried(sec, sec.features[i], m'.names, m'.features[c])
                     else m'.features[c] == m.features[c])
                 && m'.heights[c] == if i < |sec.heights| then sec.heights[i] else m.heights[c]
               else m'.features[c] == m.features[c] && m'.heights[c] == m.heights[c]
  {
    var c := y * m.width + x;
    Under(m.width, m.height, ox * 2, oy * 2, sec.width, sec.height, x, y);
    SmallSectionHasNameRoom(m, sec, ox, oy);
    if m.CellCovered(sec, ox, oy, c) {
      SourceInside(m.width, c, ox * 2, oy * 2, sec.width, sec.height);
      CoveredCellShows(m, m', sec, ox, oy, c);
      var i := (y - 2 * oy) * sec.width + (x - 2 * ox);
      if i < |sec.features| {
        assert FeatureFor(m'.names, m'.features[c], Translated(sec, sec.features[i]));
        CarriedIs(sec, sec.features[i], m'.names, m'.features[c]);
      }
    } else {
      UncoveredCellKeeps(m, m', sec, ox, oy, c);
    }
  }

  // --- A tiled map ------------------------------------------------------------------------------------

  /** Every block of a map tiled with one section names the bytes of the section's block at its
      position modulo the section size. */
  lemma BlockOfTiling(m: MapValue, sec: Section, x: int, y: int)
    requires m.Valid() && sec.Valid() && m.blocksX > 0 && sec.blocksX > 0 && sec.blocksY > 0 && Periodic(m, sec)
    requires 0 <= x < m.blocksX && 0 <= y < m.blocksY
    ensures var c, i := y * m.blocksX + x, (y % sec.blocksY) * sec.blocksX + x % sec.blocksX;
            && 0 <= c < |m.tiles| && 0 <= i < |sec.tiles|
            && match SectionBytes(sec, i)
               case Some(bytes) => m.tiles[c] < |m.lib| && m.lib[m.tiles[c]] == bytes
               case None => m.tiles[c] == 0
  {
    var c := y * m.blocksX + x;
    IndexOf(m.blocksX, m.blocksY, x, y);
    IndexOf(sec.blocksX, sec.blocksY, x % sec.blocksX, y % sec.blocksY);
    assert ShowsHome(m, sec, c);
    TileBytes(sec.tileGfx, sec.tiles[Home(m, sec, c)]);
  }

  /** Every cell has the height and the feature of the section's cell at its position modulo the
      section size. */
  lemma CellOfTiling(m: MapValue, sec: Section, x: int, y: int)
    requires m.Valid() && m.width > 0 && Whole(sec) && PeriodicGround(m, sec)
    requires 0 <= x < m.width && 0 <= y < m.height
    ensures var c, i := y * m.width + x, (y % sec.height) * sec.width + x % sec.width;
            && 0 <= c < |m.features| == |m.heights| && 0 <= i < |sec.features| == |sec.heights|
            && m.heights[c] == sec.heights[i] && Carried(sec, sec.features[i], m.names, m.features[c])
  {
    var c := y * m.width + x;
    IndexOf(m.width, m.height, x, y);
    IndexOf(sec.width, sec.height, x % sec.width, y % sec.height);
    CarriedIs(sec, sec.features[HomeCell(m, sec, c)], m.names, m.features[c]);
  }

  // --- Resizing -----------------------------------------------------------------------------------------

  /** New ground after a resize: 22 above the sea, without a feature, and with the art index of the
      map's first block. */
  lemma NewGround(v: MapValue, seaLevel: int, nw: nat, nh: nat, x: int, y: int)
    requires v.Valid() && !(nw == v.width && nh == v.height)
    ensures 0 <= x < nw && 0 <= y < nh && (x >= v.width || y >= v.height) ==>
              var r, c := ResizedMap(v, seaLevel, nw, nh), y * nw + x;
              && 0 <= c < |r.heights| == |r.features| && r.features[c] == 0xFFFF
              && (r.heights[c] - seaLevel - 22) % 256 == 0
    ensures 0 <= x < nw / 2 && 0 <= y < nh / 2 && (x >= v.blocksX || y >= v.blocksY) ==>
              var r, c := ResizedMap(v, seaLevel, nw, nh), y * (nw / 2) + x;
              0 <= c < |r.tiles| && r.tiles[c] == if v.tiles == [] then 0 else v.tiles[0]
  {
    if 0 <= x < nw && 0 <= y < nh && (x >= v.width || y >= v.height) { IndexOf(nw, nh, x, y); }
    if 0 <= x < nw / 2 && 0 <= y < nh / 2 && (x >= v.blocksX || y >= v.blocksY) { IndexOf(nw / 2, nh / 2, x, y); }
  }
}
