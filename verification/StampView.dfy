/** What a reader of the map sees after a stamp (src/cartographer/sections.cpp): when every
    covered block and cell shows what the section shows there, and when everything else
    stays as it was, in terms of the map before the stamp. */
module StampView {
  import opened Basics
  import opened Counting
  import opened GridIndex
  import opened TileMap

  // --- What a reader of the map sees -----------------------------------------------------

  /** A covered block shows the section's art exactly when that content ends up among the
      tiles a 16-bit index can name. */
  lemma ShownWhenFound(m: MapValue, m': MapValue, sec: Section, ox: int, oy: int, c: int)
    requires m.Valid() && sec.Valid() && Stamped(m, m', sec, ox, oy)
    requires 0 <= c < |m.tiles| && m.BlockCovered(sec, ox, oy, c) && SectionArt(m, sec, ox, oy, c).Some?
    ensures m'.BlockArt(c) == SectionArt(m, sec, ox, oy, c) <==>
            SectionArt(m, sec, ox, oy, c).value in First(m'.lib, ADDRESSABLE)
    ensures |m'.lib| <= ADDRESSABLE ==> m'.BlockArt(c) == SectionArt(m, sec, ox, oy, c)
  {
    var t := SectionArt(m, sec, ox, oy, c).value;
    assert IndexFor(m'.lib, m'.tiles[c], Some(t));
  }

  /** The new entries of a table that grew, as far as they were checked against everything
      before them, are different wanted entries that the old table did not offer. */
  lemma NewEntries<T(!new)>(before: seq<T>, after: seq<T>, wanted: iset<T>, width: nat, k: nat)
    requires Grown(before, after, wanted, width) && |before| <= k <= |after| && k <= width + 1
    ensures Distinct(after[|before|..k])
    ensures forall t :: t in after[|before|..k] ==> t in wanted && t !in First(before, width)
  {
    var q := after[|before|..k];
    forall i, j | 0 <= i < j < |q| ensures q[i] != q[j] {
      var l := |before| + j;
      assert First(after[..l], width) == after[..l];
      assert after[..l][|before| + i] == q[i];
    }
    forall j | 0 <= j < |q| ensures q[j] in wanted && q[j] !in First(before, width) {
      var l := |before| + j;
      assert First(after[..l], width) == after[..l];
      assert before <= after[..l];
      FirstGrows(before, after[..l], width);
    }
  }

  /** `news` are the wanted entries that the old table did not offer, and all of them are in
      the new part of the table. */
  ghost predicate Appended<T(!new)>(before: seq<T>, after: seq<T>, wanted: iset<T>, width: nat, news: set<T>)
  {
    && Grown(before, after, wanted, width)
    && (forall t :: t in news <==> t in wanted && t !in First(before, width))
    && (forall t :: t in news ==> t in after[|before|..])
  }

  /** The new entries up to position `k` are news, each once. */
  lemma NewsUpTo<T(!new)>(before: seq<T>, after: seq<T>, wanted: iset<T>, width: nat, news: set<T>, k: nat)
    requires Appended(before, after, wanted, width, news) && |before| <= k <= |after| && k <= width + 1
    ensures k - |before| <= |news|
    ensures k == |after| ==> |after| == |before| + |news|
  {
    var q := after[|before|..k];
    NewEntries(before, after, wanted, width, k);
    DistinctSize(q);
    SubsetSize(Elements(q), news);
    if k == |after| {
      assert q == after[|before|..];
      SubsetSize(news, Elements(q));
    }
  }

  /** With room for the news, or without news, the table grows by exactly the news. */
  lemma GrowthWithRoom<T(!new)>(before: seq<T>, after: seq<T>, wanted: iset<T>, width: nat, news: set<T>)
    requires Appended(before, after, wanted, width, news) && (news == {} || |before| + |news| <= width)
    ensures |after| == |before| + |news|
  {
    if news == {} {
      NothingNew(before, after, wanted, width);
    } else {
      NewsUpTo(before, after, wanted, width, news, if |after| <= width then |after| else width + 1);
    }
  }

  /** Without room, the table outgrows its index and some of the news cannot be found. */
  lemma OverflowWithoutRoom<T(!new)>(before: seq<T>, after: seq<T>, wanted: iset<T>, width: nat, news: set<T>)
    returns (t: T)
    requires Appended(before, after, wanted, width, news) && news != {} && |before| + |news| > width
    ensures |after| > width && t in news && t !in First(after, width)
  {
    if |before| >= width {
      t :| t in news;
      FirstGrows(before, after, width);
      assert after[|before|..] != [];
    } else {
      if |after| <= width { NewsUpTo(before, after, wanted, width, news, |after|); }
      t := after[width];
      FirstGrows(before, after[..width], width);
      assert t in wanted && t !in First(after[..width], width);
    }
  }

  /** The contents a stamp shows that the library cannot be searched for yet. */
  ghost function Fresh(m: MapValue, sec: Section, ox: int, oy: int): set<Tile>
    requires m.Valid() && sec.Valid()
  {
    set c | 0 <= c < |m.tiles| && m.BlockCovered(sec, ox, oy, c) && FreshAt(m, sec, ox, oy, c) ::
        SectionArt(m, sec, ox, oy, c).value
  }

  predicate FreshAt(m: MapValue, sec: Section, ox: int, oy: int, c: int)
    requires sec.Valid() && m.BlockCovered(sec, ox, oy, c)
  {
    var art := SectionArt(m, sec, ox, oy, c);
    art.Some? && art.value !in First(m.lib, ADDRESSABLE)
  }

  lemma FreshIs(m: MapValue, sec: Section, ox: int, oy: int, t: Tile)
    requires m.Valid() && sec.Valid()
    ensures t in Fresh(m, sec, ox, oy) <==> t in WantedTiles(m, sec, ox, oy) && t !in First(m.lib, ADDRESSABLE)
  {
    if t in WantedTiles(m, sec, ox, oy) && t !in First(m.lib, ADDRESSABLE) {
      var c :| 0 <= c < m.blocksX * m.blocksY && m.BlockCovered(sec, ox, oy, c)
          && SectionArt(m, sec, ox, oy, c) == Some(t);
      assert FreshAt(m, sec, ox, oy, c);
    }
  }

  lemma FreshAppended(m: MapValue, m': MapValue, sec: Section, ox: int, oy: int)
    requires m.Valid() && sec.Valid() && Stamped(m, m', sec, ox, oy)
    ensures Appended(m.lib, m'.lib, WantedTiles(m, sec, ox, oy), ADDRESSABLE, Fresh(m, sec, ox, oy))
  {
    forall t
      ensures t in Fresh(m, sec, ox, oy) <==> t in WantedTiles(m, sec, ox, oy) && t !in First(m.lib, ADDRESSABLE)
    {
      FreshIs(m, sec, ox, oy, t);
    }
    forall t | t in Fresh(m, sec, ox, oy) ensures t in m'.lib[|m.lib|..] {
      var c :| 0 <= c < |m.tiles| && m.BlockCovered(sec, ox, oy, c) && FreshAt(m, sec, ox, oy, c)
          && SectionArt(m, sec, ox, oy, c).value == t;
      assert Interned(m.lib, m'.lib, SectionArt(m, sec, ox, oy, c));
    }
  }

  /** There is room for all that is fresh. */
  ghost predicate Room(m: MapValue, sec: Section, ox: int, oy: int)
    requires m.Valid() && sec.Valid()
  {
    Fresh(m, sec, ox, oy) == {} || |m.lib| + |Fresh(m, sec, ox, oy)| <= 0x1_0000
  }

  /** The size of the library after the stamp, from what is fresh before it. */
  lemma LibraryAfter(m: MapValue, m': MapValue, sec: Section, ox: int, oy: int)
    requires m.Valid() && sec.Valid() && Stamped(m, m', sec, ox, oy)
    ensures if Room(m, sec, ox, oy) then |m'.lib| == |m.lib| + |Fresh(m, sec, ox, oy)|
            else
              && |m'.lib| > ADDRESSABLE
              && exists t :: t in WantedTiles(m, sec, ox, oy) && t !in First(m'.lib, ADDRESSABLE)
  {
    FreshAppended(m, m', sec, ox, oy);
    if Room(m, sec, ox, oy) {
      GrowthWithRoom(m.lib, m'.lib, WantedTiles(m, sec, ox, oy), ADDRESSABLE, Fresh(m, sec, ox, oy));
    } else {
      var t := OverflowWithoutRoom(m.lib, m'.lib, WantedTiles(m, sec, ox, oy), ADDRESSABLE, Fresh(m, sec, ox, oy));
    }
  }

  /** All covered blocks show the section's art. */
  ghost predicate BlocksShown(m: MapValue, m': MapValue, sec: Section, ox: int, oy: int)
    requires m.Valid() && m'.Valid() && sec.Valid() && |m'.tiles| == |m.tiles|
  {
    forall c :: 0 <= c < |m.tiles| && m.BlockCovered(sec, ox, oy, c) && SectionArt(m, sec, ox, oy, c).Some? ==>
      m'.BlockArt(c) == SectionArt(m, sec, ox, oy, c)
  }

  /** Every covered block shows the section's art exactly when, before the stamp, there is
      room in the library for all that is fresh. */
  lemma CoveredBlocksShow(m: MapValue, m': MapValue, sec: Section, ox: int, oy: int)
    requires m.Valid() && sec.Valid() && Stamped(m, m', sec, ox, oy)
    ensures BlocksShown(m, m', sec, ox, oy) <==> Room(m, sec, ox, oy)
  {
    if Room(m, sec, ox, oy) {
      forall c | 0 <= c < |m.tiles| && m.BlockCovered(sec, ox, oy, c) && SectionArt(m, sec, ox, oy, c).Some?
        ensures m'.BlockArt(c) == SectionArt(m, sec, ox, oy, c)
      {
        CoveredBlockShows(m, m', sec, ox, oy, c);
      }
    } else {
      LibraryAfter(m, m', sec, ox, oy);
      var t :| t in WantedTiles(m, sec, ox, oy) && t !in First(m'.lib, ADDRESSABLE);
      var c :| 0 <= c < m.blocksX * m.blocksY && m.BlockCovered(sec, ox, oy, c)
          && SectionArt(m, sec, ox, oy, c) == Some(t);
      ShownWhenFound(m, m', sec, ox, oy, c);
    }
  }

  /** One covered block: with room, or when its content could be found before, it shows the
      section's art. */
  lemma CoveredBlockShows(m: MapValue, m': MapValue, sec: Section, ox: int, oy: int, c: int)
    requires m.Valid() && sec.Valid() && Stamped(m, m', sec, ox, oy)
    requires 0 <= c < |m.tiles| && m.BlockCovered(sec, ox, oy, c) && SectionArt(m, sec, ox, oy, c).Some?
    requires Room(m, sec, ox, oy) || SectionArt(m, sec, ox, oy, c).value in First(m.lib, ADDRESSABLE)
    ensures m'.BlockArt(c) == SectionArt(m, sec, ox, oy, c)
  {
    var t := SectionArt(m, sec, ox, oy, c).value;
    ShownWhenFound(m, m', sec, ox, oy, c);
    FirstGrows(m.lib, m'.lib, ADDRESSABLE);
    if t !in First(m.lib, ADDRESSABLE) {
      LibraryAfter(m, m', sec, ox, oy);
      assert FreshAt(m, sec, ox, oy, c);
      assert t in Fresh(m, sec, ox, oy);
    }
  }

  /** An uncovered block keeps its art exactly when its index named a tile before the stamp
      or still names none after all that is fresh has been appended. */
  lemma UncoveredBlockKeeps(m: MapValue, m': MapValue, sec: Section, ox: int, oy: int, c: int)
    requires m.Valid() && sec.Valid() && Stamped(m, m', sec, ox, oy)
    requires 0 <= c < |m.tiles| && !m.BlockCovered(sec, ox, oy, c)
    ensures m'.BlockArt(c) == m.BlockArt(c) <==>
            m.tiles[c] < |m.lib| || m.tiles[c] >= |m.lib| + |Fresh(m, sec, ox, oy)|
  {
    LibraryAfter(m, m', sec, ox, oy);
  }

  /** A section that fits beside the library leaves room at every offset. */
  lemma SmallSectionHasRoom(m: MapValue, sec: Section, ox: int, oy: int)
    requires m.Valid() && sec.Valid() && |m.lib| + |Tiles(sec.tileGfx)| <= ADDRESSABLE
    ensures Room(m, sec, ox, oy)
  {
    var art := Tiles(sec.tileGfx);
    forall t | t in Fresh(m, sec, ox, oy) ensures t in Elements(art) {
      var c :| 0 <= c < |m.tiles| && m.BlockCovered(sec, ox, oy, c) && FreshAt(m, sec, ox, oy, c)
          && SectionArt(m, sec, ox, oy, c).value == t;
    }
    SubsetSize(Fresh(m, sec, ox, oy), Elements(art));
    ElementsSize(art);
  }

  /** A covered cell takes the section's height, and shows the section's feature exactly
      when its name is found below the marker range. */
  lemma CellShownWhenFound(m: MapValue, m': MapValue, sec: Section, ox: int, oy: int, c: int)
    requires m.Valid() && sec.Valid() && Stamped(m, m', sec, ox, oy)
    requires 0 <= c < |m.features| && m.CellCovered(sec, ox, oy, c)
    ensures SectionHeight(m, sec, ox, oy, c).Some? ==> m'.heights[c] == SectionHeight(m, sec, ox, oy, c).value
    ensures match SectionFeature(m, sec, ox, oy, c)
            case None => m'.features[c] == m.features[c]
            case Some(f) =>
              && (f.Named? ==> f.name in m'.names)
              && (m'.CellFeature(c) == f <==> (f.Named? ==> Find(m'.names, f.name) < MARKERS))
  {
    var f := SectionFeature(m, sec, ox, oy, c);
    if f.Some? && f.value.Named? {
      MeaningOfFirst(m'.names, f.value.name, Find(m'.names, f.value.name));
    }
  }

  /** The names a stamp shows that the map's table does not hold yet. */
  ghost function FreshNames(m: MapValue, sec: Section, ox: int, oy: int): set<string>
    requires m.Valid() && sec.Valid()
  {
    set c | 0 <= c < |m.features| && m.CellCovered(sec, ox, oy, c) && FreshNameAt(m, sec, ox, oy, c) ::
      SectionFeature(m, sec, ox, oy, c).value.name
  }

  predicate FreshNameAt(m: MapValue, sec: Section, ox: int, oy: int, c: int)
    requires sec.Valid() && m.CellCovered(sec, ox, oy, c)
  {
    var f := SectionFeature(m, sec, ox, oy, c);
    f.Some? && f.value.Named? && f.value.name !in m.names
  }

  lemma FreshNameIs(m: MapValue, sec: Section, ox: int, oy: int, n: string)
    requires m.Valid() && sec.Valid()
    ensures n in FreshNames(m, sec, ox, oy) <==> n in WantedNames(m, sec, ox, oy) && n !in m.names
  {
    if n in WantedNames(m, sec, ox, oy) && n !in m.names {
      var c :| 0 <= c < m.width * m.height && m.CellCovered(sec, ox, oy, c)
          && SectionFeature(m, sec, ox, oy, c) == Some(Named(n));
      assert FreshNameAt(m, sec, ox, oy, c);
    }
  }

  /** Every wanted name is in the table afterwards. */
  lemma WantedNameKnown(m: MapValue, m': MapValue, sec: Section, ox: int, oy: int, n: string)
    requires m.Valid() && sec.Valid() && Stamped(m, m', sec, ox, oy) && n in WantedNames(m, sec, ox, oy)
    ensures n in m'.names
  {
    var c :| 0 <= c < m.width * m.height && m.CellCovered(sec, ox, oy, c)
        && SectionFeature(m, sec, ox, oy, c) == Some(Named(n));
    CellShownWhenFound(m, m', sec, ox, oy, c);
  }

  lemma FreshNamesAppended(m: MapValue, m': MapValue, sec: Section, ox: int, oy: int)
    requires m.Valid() && sec.Valid() && Stamped(m, m', sec, ox, oy)
    ensures Appended(m.names, m'.names, WantedNames(m, sec, ox, oy), |m'.names|, FreshNames(m, sec, ox, oy))
  {
    var news, wanted := FreshNames(m, sec, ox, oy), WantedNames(m, sec, ox, oy);
    assert First(m.names, |m'.names|) == m.names;
    forall n ensures n in news <==> n in wanted && n !in m.names { FreshNameIs(m, sec, ox, oy, n); }
    forall n | n in news ensures n in m'.names { WantedNameKnown(m, m', sec, ox, oy, n); }
    InTheRest(m.names, m'.names, news);
  }

  lemma InTheRest<T>(before: seq<T>, after: seq<T>, news: set<T>)
    requires before <= after && forall t :: t in news ==> t in after && t !in before
    ensures forall t :: t in news ==> t in after[|before|..]
  {
    assert after == before + after[|before|..];
  }

  /** The name table grows by exactly the fresh names, each once. */
  lemma NamesAppended(m: MapValue, m': MapValue, sec: Section, ox: int, oy: int)
    requires m.Valid() && sec.Valid() && Stamped(m, m', sec, ox, oy)
    ensures |m'.names| == |m.names| + |FreshNames(m, sec, ox, oy)|
  {
    FreshNamesAppended(m, m', sec, ox, oy);
    NewsUpTo(m.names, m'.names, WantedNames(m, sec, ox, oy), |m'.names|, FreshNames(m, sec, ox, oy), |m'.names|);
  }

  /** A known name keeps its position; a fresh one gets a position behind the old table. */
  lemma PositionAfter(m: MapValue, m': MapValue, sec: Section, ox: int, oy: int, n: string)
    requires m.Valid() && sec.Valid() && Stamped(m, m', sec, ox, oy) && n in m'.names
    ensures n in m.names ==> Find(m'.names, n) == Find(m.names, n)
    ensures n !in m.names ==> |m.names| <= Find(m'.names, n) < |m'.names|
  {
    if n in m.names {
      FindGrows(m.names, m'.names, n);
    } else {
      assert forall k :: 0 <= k < |m.names| ==> m'.names[k] == m.names[k];
    }
  }

  /** The names shown can all be told from markers: those known by their position, the fresh
      ones by the room there is. */
  ghost predicate NameRoom(m: MapValue, sec: Section, ox: int, oy: int)
    requires m.Valid() && sec.Valid()
  {
    && (forall n :: n in WantedNames(m, sec, ox, oy) && n in m.names ==> Find(m.names, n) < 0xFFFA)
    && (FreshNames(m, sec, ox, oy) == {} || |m.names| + |FreshNames(m, sec, ox, oy)| <= 0xFFFA)
  }

  /** All covered cells that the section has a feature for show it. */
  ghost predicate CellsShown(m: MapValue, m': MapValue, sec: Section, ox: int, oy: int)
    requires m.Valid() && m'.Valid() && sec.Valid() && |m'.features| == |m.features|
  {
    forall c :: 0 <= c < |m.features| && m.CellCovered(sec, ox, oy, c) && SectionFeature(m, sec, ox, oy, c).Some? ==>
      m'.CellFeature(c) == SectionFeature(m, sec, ox, oy, c).value
  }

  /** Every covered cell shows the section's feature exactly when, before the stamp, the
      names shown can be told from markers. */
  lemma CoveredCellsShow(m: MapValue, m': MapValue, sec: Section, ox: int, oy: int)
    requires m.Valid() && sec.Valid() && Stamped(m, m', sec, ox, oy)
    ensures CellsShown(m, m', sec, ox, oy) <==> NameRoom(m, sec, ox, oy)
  {
    if NameRoom(m, sec, ox, oy) {
      forall c | 0 <= c < |m.features| && m.CellCovered(sec, ox, oy, c) && SectionFeature(m, sec, ox, oy, c).Some?
        ensures m'.CellFeature(c) == SectionFeature(m, sec, ox, oy, c).value
      {
        CoveredCellShows(m, m', sec, ox, oy, c);
      }
    } else {
      var n := NameBeyondMarkers(m, m', sec, ox, oy);
      var c :| 0 <= c < m.width * m.height && m.CellCovered(sec, ox, oy, c)
          && SectionFeature(m, sec, ox, oy, c) == Some(Named(n));
      CellShownWhenFound(m, m', sec, ox, oy, c);
    }
  }

  /** Without that, some name shown ends up at a position that reads as a marker. */
  lemma NameBeyondMarkers(m: MapValue, m': MapValue, sec: Section, ox: int, oy: int) returns (n: string)
    requires m.Valid() && sec.Valid() && Stamped(m, m', sec, ox, oy) && !NameRoom(m, sec, ox, oy)
    ensures n in WantedNames(m, sec, ox, oy) && n in m'.names && Find(m'.names, n) >= MARKERS
  {
    if n' :| n' in WantedNames(m, sec, ox, oy) && n' in m.names && Find(m.names, n') >= MARKERS {
      n := n';
      FindGrows(m.names, m'.names, n);
    } else {
      n := LastFresh(m, m', sec, ox, oy);
    }
  }

  lemma LastIsNew(before: seq<string>, after: seq<string>, wanted: iset<string>)
    requires Grown(before, after, wanted, |after|) && |before| < |after|
    ensures var n := after[|after| - 1]; n in wanted && Find(after, n) == |after| - 1
  {
    var n, q := after[|after| - 1], after[|before|..];
    NewEntries(before, after, wanted, |after|, |after|);
    assert q == after[|before|..|after|] && n == q[|q| - 1];
    assert First(before, |after|) == before;
    LastPosition(before, after, n);
  }

  /** The last fresh name gets the last position. */
  lemma LastFresh(m: MapValue, m': MapValue, sec: Section, ox: int, oy: int) returns (n: string)
    requires m.Valid() && sec.Valid() && Stamped(m, m', sec, ox, oy) && FreshNames(m, sec, ox, oy) != {}
    ensures n in WantedNames(m, sec, ox, oy) && n in m'.names
    ensures Find(m'.names, n) == |m.names| + |FreshNames(m, sec, ox, oy)| - 1
  {
    NamesAppended(m, m', sec, ox, oy);
    n := m'.names[|m'.names| - 1];
    LastIsNew(m.names, m'.names, WantedNames(m, sec, ox, oy));
  }

  lemma LastPosition(before: seq<string>, after: seq<string>, n: string)
    requires before < after && Distinct(after[|before|..]) && after[|after| - 1] == n && n !in before
    ensures Find(after, n) == |after| - 1
  {
    var q := after[|before|..];
    assert forall k :: 0 <= k < |before| ==> after[k] == before[k];
    assert forall k :: |before| <= k < |after| ==> after[k] == q[k - |before|];
  }

  /** One covered cell: it takes the section's height, and shows the section's feature when
      the names can be told from markers; without a feature in the section it keeps its own. */
  lemma CoveredCellShows(m: MapValue, m': MapValue, sec: Section, ox: int, oy: int, c: int)
    requires m.Valid() && sec.Valid() && Stamped(m, m', sec, ox, oy)
    requires 0 <= c < |m.features| && m.CellCovered(sec, ox, oy, c)
    ensures SectionHeight(m, sec, ox, oy, c).Some? ==> m'.heights[c] == SectionHeight(m, sec, ox, oy, c).value
    ensures SectionFeature(m, sec, ox, oy, c) == None ==> m'.features[c] == m.features[c]
    ensures SectionFeature(m, sec, ox, oy, c).Some? && NameRoom(m, sec, ox, oy) ==>
              m'.CellFeature(c) == SectionFeature(m, sec, ox, oy, c).value
  {
    CellShownWhenFound(m, m', sec, ox, oy, c);
    var f := SectionFeature(m, sec, ox, oy, c);
    if f.Some? && f.value.Named? && NameRoom(m, sec, ox, oy) {
      var n := f.value.name;
      assert n in WantedNames(m, sec, ox, oy);
      PositionAfter(m, m', sec, ox, oy, n);
      NamesAppended(m, m', sec, ox, oy);
      FreshNameIs(m, sec, ox, oy, n);
    }
  }

  /** An uncovered cell keeps its height, and keeps its feature exactly when its value named
      a feature before the stamp, was a marker, or names none after the fresh names. */
  lemma UncoveredCellKeeps(m: MapValue, m': MapValue, sec: Section, ox: int, oy: int, c: int)
    requires m.Valid() && sec.Valid() && Stamped(m, m', sec, ox, oy)
    requires 0 <= c < |m.features| && !m.CellCovered(sec, ox, oy, c)
    ensures m'.heights[c] == m.heights[c]
    ensures m'.CellFeature(c) == m.CellFeature(c) <==>
            m.features[c] >= 0xFFFA || m.features[c] < |m.names|
                || m.features[c] >= |m.names| + |FreshNames(m, sec, ox, oy)|
  {
    NamesAppended(m, m', sec, ox, oy);
  }

  /** Names that fit below the marker range beside the map's own leave room at every offset. */
  lemma SmallSectionHasNameRoom(m: MapValue, sec: Section, ox: int, oy: int)
    requires m.Valid() && sec.Valid() && |m.names| + |sec.featureNames| <= MARKERS
    ensures NameRoom(m, sec, ox, oy)
  {
    forall n | n in FreshNames(m, sec, ox, oy) ensures n in Elements(sec.featureNames) {
      var c :| 0 <= c < |m.features| && m.CellCovered(sec, ox, oy, c) && FreshNameAt(m, sec, ox, oy, c)
          && SectionFeature(m, sec, ox, oy, c).value.name == n;
    }
    SubsetSize(FreshNames(m, sec, ox, oy), Elements(sec.featureNames));
    ElementsSize(sec.featureNames);
  }

  // --- A full library and a full name table ----------------------------------------------

  /** A map of one block. */
  predicate OneBlock(m: MapValue)
  {
    m.Valid() && m.width == 1 && m.height == 1 && m.blocksX == 1 && m.blocksY == 1
  }

  /** A section of one block that shows content `t` and feature `n`. */
  ghost predicate Shows(sec: Section, t: Tile, n: string)
  {
    && sec.Valid() && sec.width == 1 && sec.height == 1 && sec.blocksX == 1 && sec.blocksY == 1
    && sec.heights == [7] && sec.features == [0] && sec.tiles == [0] && Tiles(sec.tileGfx) == [t]
    && sec.featureNames == [n]
  }

  lemma Corner(w: nat, ox: int, oy: int, sw: int, sh: int)
    requires w == 1 && ox == 0 && oy == 0 && sw == 1 && sh == 1
    ensures Covered(w, 0, ox, oy, sw, sh) && Source(w, 0, ox, oy, sw) == 0
  {
    assert Col(w, 0) == 0 && Row(w, 0) == 0;
  }

  lemma CornerContents(m: MapValue, sec: Section, t: Tile, n: string)
    requires OneBlock(m) && Shows(sec, t, n)
    ensures sec.Block(0) == Some(t) && Translated(sec, sec.features[0]) == Named(n)
            && |m.tiles| == |m.features| == |m.heights| == 1
  {
  }

  /** The section's only block lands on the map's only block, and so does its only cell. */
  lemma BlockAtCorner(m: MapValue, sec: Section, t: Tile)
    requires m.blocksX == 1 && sec.Valid() && sec.blocksX == 1 && sec.blocksY == 1 && sec.Block(0) == Some(t)
    ensures m.BlockCovered(sec, 0, 0, 0) && SectionArt(m, sec, 0, 0, 0) == Some(t)
  {
    Corner(m.blocksX, 0, 0, sec.blocksX, sec.blocksY);
  }

  lemma CellAtCorner(m: MapValue, sec: Section, n: string)
    requires m.width == 1 && sec.Valid() && sec.width == 1 && sec.height == 1
    requires sec.heights == [7] && |sec.features| == 1 && Translated(sec, sec.features[0]) == Named(n)
    ensures m.CellCovered(sec, 0, 0, 0) && SectionFeature(m, sec, 0, 0, 0) == Some(Named(n))
    ensures SectionHeight(m, sec, 0, 0, 0) == Some(7)
  {
    var w, sw, sh, o := m.width, sec.width, sec.height, 0;
    Corner(w, o * 2, o * 2, sw, sh);
    FromSource(m, sec, n, o);
  }

  lemma FromSource(m: MapValue, sec: Section, n: string, o: int)
    requires m.width > 0 && sec.Valid() && Covered(m.width, 0, o * 2, o * 2, sec.width, sec.height)
    requires Source(m.width, 0, o * 2, o * 2, sec.width) == 0
    requires sec.heights == [7] && |sec.features| == 1 && Translated(sec, sec.features[0]) == Named(n)
    ensures m.CellCovered(sec, o, o, 0) && SectionFeature(m, sec, o, o, 0) == Some(Named(n))
    ensures SectionHeight(m, sec, o, o, 0) == Some(7)
  {
  }

  lemma WantedAtCorner(m: MapValue, sec: Section, t: Tile, n: string)
    requires m.Valid() && sec.Valid() && |m.tiles| > 0 && |m.features| > 0
    requires m.BlockCovered(sec, 0, 0, 0) && SectionArt(m, sec, 0, 0, 0) == Some(t)
    requires m.CellCovered(sec, 0, 0, 0) && SectionFeature(m, sec, 0, 0, 0) == Some(Named(n))
    ensures t in WantedTiles(m, sec, 0, 0) && n in WantedNames(m, sec, 0, 0)
  {
  }

  /** `m'` is the map `m` with its full tables grown by an absent content and name. */
  ghost predicate Overflown(m: MapValue, m': MapValue, t: Tile, n: string)
  {
    && OneBlock(m) && |m.lib| == ADDRESSABLE && t !in m.lib && |m.names| == MARKERS && n !in m.names
    && m' == m.(heights := [7], features := [MARKERS], tiles := [0], lib := m.lib + [t], names := m.names + [n])
  }

  lemma OverflownTables(m: MapValue, m': MapValue, t: Tile, n: string)
    requires Overflown(m, m', t, n)
    ensures First(m'.lib, ADDRESSABLE) == m.lib && m'.lib[0] == m.lib[0] != t
    ensures Find(m'.names, n) == MARKERS
  {
    assert m'.names[|m.names|..] == [n];
    LastPosition(m.names, m'.names, n);
  }

  lemma OverflownStamped(m: MapValue, m': MapValue, sec: Section, t: Tile, n: string)
    requires Overflown(m, m', t, n) && sec.Valid() && |m.tiles| == |m.features| == |m.heights| == 1
    requires m.BlockCovered(sec, 0, 0, 0) && SectionArt(m, sec, 0, 0, 0) == Some(t)
    requires m.CellCovered(sec, 0, 0, 0) && SectionFeature(m, sec, 0, 0, 0) == Some(Named(n))
             && SectionHeight(m, sec, 0, 0, 0) == Some(7)
    ensures Stamped(m, m', sec, 0, 0)
  {
    WantedAtCorner(m, sec, t, n);
    OverflownTables(m, m', t, n);
    OverflownGrown(m, m', sec, t, n);
    OneCellStamped(m, m', sec, t, n);
  }

  /** On a map of one block a stamp is what it does there. */
  lemma OneCellStamped(m: MapValue, m': MapValue, sec: Section, t: Tile, n: string)
    requires m.Valid() && m'.Valid() && sec.Valid() && |m.tiles| == |m.features| == |m.heights| == 1
    requires m' == m.(heights := m'.heights, features := m'.features, tiles := m'.tiles, lib := m'.lib,
                      names := m'.names)
    requires m.BlockCovered(sec, 0, 0, 0) && SectionArt(m, sec, 0, 0, 0) == Some(t)
    requires m.CellCovered(sec, 0, 0, 0) && SectionFeature(m, sec, 0, 0, 0) == Some(Named(n))
             && SectionHeight(m, sec, 0, 0, 0) == Some(7)
    requires IndexFor(m'.lib, m'.tiles[0], Some(t)) && m'.heights[0] == 7
             && FeatureFor(m'.names, m'.features[0], Named(n))
    requires Grown(m.lib, m'.lib, WantedTiles(m, sec, 0, 0), ADDRESSABLE) && Interned(m.lib, m'.lib, Some(t))
    requires Grown(m.names, m'.names, WantedNames(m, sec, 0, 0), |m'.names|)
    ensures Stamped(m, m', sec, 0, 0)
  {
  }

  lemma OverflownGrown(m: MapValue, m': MapValue, sec: Section, t: Tile, n: string)
    requires Overflown(m, m', t, n) && sec.Valid() && t in WantedTiles(m, sec, 0, 0) && n in WantedNames(m, sec, 0, 0)
    ensures Grown(m.lib, m'.lib, WantedTiles(m, sec, 0, 0), ADDRESSABLE) && Interned(m.lib, m'.lib, Some(t))
    ensures Grown(m.names, m'.names, WantedNames(m, sec, 0, 0), |m'.names|)
  {
    assert First(m.lib, ADDRESSABLE) == m.lib;
    GrownStep(m.lib, m.lib, WantedTiles(m, sec, 0, 0), ADDRESSABLE, t);
    NameAdded(m.names, m.names, WantedNames(m, sec, 0, 0), n);
    NewlyInterned(m.lib, m.lib, m'.lib, Some(t));
  }

  /** With full tables a stamp shows neither the art nor the feature of the section. */
  lemma FullTablesOverflow(m: MapValue, m': MapValue, sec: Section, t: Tile, n: string)
    requires Overflown(m, m', t, n) && Shows(sec, t, n)
    ensures Stamped(m, m', sec, 0, 0) && !BlocksShown(m, m', sec, 0, 0) && !CellsShown(m, m', sec, 0, 0)
  {
    CornerContents(m, sec, t, n);
    BlockAtCorner(m, sec, t);
    CellAtCorner(m, sec, n);
    OverflownTables(m, m', t, n);
    OverflownStamped(m, m', sec, t, n);
    assert m'.BlockArt(0) == Some(m.lib[0]);
    assert m'.CellFeature(0) == Marker(MARKERS);
  }

  function Plain(b: byte): (t: Tile)
    ensures |t| == TILE_BYTES && t[0] == b
  {
    seq(TILE_BYTES, i => b)
  }

  /** A map and a section for which that happens: 65536 tiles and 65530 names. */
  lemma FullMapExists() returns (m: MapValue, m': MapValue, sec: Section)
    ensures m.Valid() && sec.Valid() && Stamped(m, m', sec, 0, 0)
    ensures !BlocksShown(m, m', sec, 0, 0) && !CellsShown(m, m', sec, 0, 0)
  {
    var t, n := Plain(1), "Rock";
    m := MapValue(1, 1, 1, 1, [0], [NO_FEATURE], [0], seq(ADDRESSABLE, i => Plain(0)), seq(MARKERS, i => "Tree"));
    m' := m.(heights := [7], features := [MARKERS], tiles := [0], lib := m.lib + [t], names := m.names + [n]);
    sec := Section(1, 1, 1, 1, [7], [0], [0], t, [n]);
    AppendTile([], t);
    assert [] + t == t && Tiles([]) == [];
    assert "Tree"[0] != "Rock"[0];
    FullTablesOverflow(m, m', sec, t, n);
  }
}
