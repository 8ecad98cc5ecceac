/** The skirmish AI controller (src/ai/ai.cpp, src/ai/ai.h): one brain, driving a player. */
module Controllers {
  import opened Arithmetic
  import opened Basics
  import opened Planner
  import Profile
  import opened Reservoir
  import opened Waves
  import Wants

  datatype Cmd = Build | Train | Move | AttackMove

  datatype Command = Command(kind: Cmd, unitId: int, what: string, x: real, z: real)

  /** A unit as the AI reads it. */
  datatype Unit = Unit(id: int, player: int, alive: bool, utype: Option<UnitType>, x: real, z: real,
                       underConstruction: bool, idleOrders: bool, frontTarget: int, frontAttackMove: bool,
                       buildSite: int, queueEmpty: bool)

  /** What a think is given: the units, the player's economy and the empire's needs.  Site
      probing, path queries and target choice are oracles. */
  datatype Snapshot = Snapshot(units: seq<Unit>, me: PlayerView, needs: Needs,
                               site: (Unit, UnitType) -> Option<(real, real)>,
                               spot: (Unit, UnitType) -> Option<(real, real)>,
                               home: (real, real), objective: seq<int> -> Option<(real, real)>)

  /** A snapshot as a controller reads it.  Site probing, path queries and target choice are oracles:
      `site` where a structure may be placed, `spot` where a mobile unit may be conjured,
      `objective` where a group of idle fighters should march. */
  datatype World = World(units: seq<Unit>, brain: Brain,
                         site: (Unit, UnitType) -> Option<(real, real)>,
                         spot: (Unit, UnitType) -> Option<(real, real)>,
                         home: (real, real), objective: seq<int> -> Option<(real, real)>)

  // --- Picking --------------------------------------------------------------------------

  /** The entries of the menu that compete in the draw. */
  function Rivals(b: Brain, producer: UnitType, exclude: set<BuildCat>, best: int, menu: seq<string>): (r: seq<string>)
  {
    if menu == [] then []
    else
      var front, id := Rivals(b, producer, exclude, best, menu[..|menu| - 1]), menu[|menu| - 1];
      if b.Candidate(producer, exclude, id) && b.Worth(id) == best then front + [id] else front
  }

  function WeightsOf(b: Brain, producer: UnitType, ids: seq<string>): (ws: seq<nat>)
    ensures |ws| == |ids|
  {
    seq(|ids|, i requires 0 <= i < |ids| => b.Usable(producer, ids[i]))
  }

  lemma {:induction false} RivalsAre(b: Brain, producer: UnitType, exclude: set<BuildCat>, best: int, menu: seq<string>)
    ensures forall id :: id in Rivals(b, producer, exclude, best, menu) <==>
              id in menu && b.Candidate(producer, exclude, id) && b.Worth(id) == best
  {
    if menu != [] {
      var front, last := menu[..|menu| - 1], menu[|menu| - 1];
      assert menu == front + [last];
      RivalsAre(b, producer, exclude, best, front);
    }
  }

  /** All rivals are of one category. */
  lemma RivalsShareCategory(b: Brain, producer: UnitType, exclude: set<BuildCat>, best: int, menu: seq<string>,
                            id: string, other: string)
    requires best > 0 && id in Rivals(b, producer, exclude, best, menu)
             && other in Rivals(b, producer, exclude, best, menu)
    ensures b.Cat(id) == b.Cat(other)
  {
    RivalsAre(b, producer, exclude, best, menu);
    DesiresDiffer(b.needs, b.Cat(id), b.Cat(other));
  }

  /** One more menu entry. */
  lemma RivalsNext(b: Brain, producer: UnitType, exclude: set<BuildCat>, best: int, menu: seq<string>, i: nat)
    requires i < |menu|
    ensures Rivals(b, producer, exclude, best, menu[..i + 1]) ==
            Rivals(b, producer, exclude, best, menu[..i]) +
            (if b.Candidate(producer, exclude, menu[i]) && b.Worth(menu[i]) == best then [menu[i]] else [])
  {
    assert menu[..i + 1][..i] == menu[..i] && menu[..i + 1][i] == menu[i];
  }

  lemma WeightsNext(b: Brain, producer: UnitType, ids: seq<string>, id: string)
    ensures WeightsOf(b, producer, ids + [id]) == WeightsOf(b, producer, ids) + [b.Usable(producer, id)]
  {
  }

  /** `best` is the greatest worth among the candidates, or 0. */
  ghost predicate IsBest(b: Brain, producer: UnitType, exclude: set<BuildCat>, menu: seq<string>, best: int)
  {
    && best >= 0
    && (forall id :: id in menu && b.Candidate(producer, exclude, id) ==> b.Worth(id) <= best)
    && (best > 0 ==> exists id :: id in menu && b.Candidate(producer, exclude, id) && b.Worth(id) == best)
  }

  /** Pass 1. */
  method FindBest(b: Brain, producer: UnitType, exclude: set<BuildCat>, menu: seq<string>) returns (best: int)
    ensures IsBest(b, producer, exclude, menu, best)
  {
    best := 0;
    for i := 0 to |menu|
      invariant IsBest(b, producer, exclude, menu[..i], best)
    {
      assert menu[..i + 1] == menu[..i] + [menu[i]];
      if b.Usable(producer, menu[i]) <= 0 { continue; }
      if b.Cat(menu[i]) in exclude { continue; }
      var d := b.Worth(menu[i]);
      if d > best { best := d; }
    }
    assert menu[..|menu|] == menu;
  }

  /** Menu entry `id` may be picked and none that may be picked is wanted more. */
  ghost predicate IsPick(b: Brain, producer: UnitType, exclude: set<BuildCat>, id: string)
  {
    var menu := b.reg.Buildable(producer.id);
    && id in menu && b.Candidate(producer, exclude, id) && b.Worth(id) > 0
    && forall other :: other in menu && b.Candidate(producer, exclude, other) ==> b.Worth(other) <= b.Worth(id)
  }

  /** Nothing that may be picked is wanted. */
  ghost predicate NoPick(b: Brain, producer: UnitType, exclude: set<BuildCat>)
  {
    forall id :: id in b.reg.Buildable(producer.id) && b.Candidate(producer, exclude, id) ==> b.Worth(id) == 0
  }

  /** A pick is the most urgent entry on offer. */
  lemma PickIsMostUrgent(b: Brain, producer: UnitType, exclude: set<BuildCat>, id: string)
    ensures IsPick(b, producer, exclude, id) <==> Wants.MostUrgent(b, producer, exclude, id)
  {
    forall other
      ensures other in b.reg.Buildable(producer.id) && b.Candidate(producer, exclude, other) && b.Worth(other) > 0 <==>
              Wants.OnOffer(b, producer, exclude, other)
    {
      Wants.OfferIs(b, producer, exclude, other);
    }
    if Wants.OnOffer(b, producer, exclude, id) {
      forall other | Wants.OnOffer(b, producer, exclude, other)
        ensures b.Worth(other) <= b.Worth(id) <==> Wants.AsUrgent(b, b.reg.types[id], b.reg.types[other])
      {
        Wants.WorthCompares(b, id, other);
      }
    }
  }

  lemma NoPickIsNoOffer(b: Brain, producer: UnitType, exclude: set<BuildCat>)
    ensures NoPick(b, producer, exclude) <==> Wants.NothingOnOffer(b, producer, exclude)
  {
    forall id
      ensures id in b.reg.Buildable(producer.id) && b.Candidate(producer, exclude, id) && b.Worth(id) > 0 <==>
              Wants.OnOffer(b, producer, exclude, id)
    {
      Wants.OfferIs(b, producer, exclude, id);
    }
  }

  // --- Acting ------------------------------------------------------------------------------

  /** Turn a pick into a command, if the world allows it. */
  function Produce(w: World, p: Unit, t: UnitType): Option<Command>
    requires p.utype.Some?
  {
    var pt := p.utype.value;
    if t.IsStructure() then
      if !pt.IsStructure() && pt.isBuilder then
        match w.site(p, t) case None => None case Some(at) => Some(Command(Build, p.id, t.id, at.0, at.1))
      else None
    else if pt.IsStructure() then Some(Command(Train, p.id, t.id, 0.0, 0.0))
    else if pt.isBuilder then
      match w.spot(p, t) case None => None case Some(at) => Some(Command(Build, p.id, t.id, at.0, at.1))
    else None
  }

  /** An order is for this producer and the picked type; a factory trains every mobile type
      and never builds a structure, and only builders build. */
  lemma OrdersFit(w: World, p: Unit, t: UnitType)
    requires p.utype.Some?
    ensures var r, factory := Produce(w, p, t), p.utype.value.IsStructure();
            && (r.Some? ==>
                  r.value.unitId == p.id && r.value.what == t.id && r.value.kind == if factory then Train else Build)
            && (factory ==> (r.Some? <==> !t.IsStructure()))
            && (!factory && r.Some? ==> p.utype.value.isBuilder)
  {
  }

  /** Category `c` was tried: a usable, wanted entry of it was refused by `Produce`. */
  ghost predicate Refused(w: World, p: Unit, menu: seq<string>, c: BuildCat)
    requires p.utype.Some?
  {
    exists id :: id in menu && w.brain.Usable(p.utype.value, id) > 0 && w.brain.Cat(id) == c && w.brain.Worth(id) > 0
                 && Produce(w, p, w.brain.reg.Find(id).value) == None
  }

  /** `c` is an order worth giving: a usable, wanted menu entry stands behind it, and each
      entry wanted more belongs to a category that had a pick refused. */
  ghost predicate Sensible(w: World, p: Unit, c: Command)
    requires p.utype.Some?
  {
    exists id :: BestLeft(w, p, id) && Produce(w, p, w.brain.reg.Find(id).value) == Some(c)
  }

  ghost predicate BestLeft(w: World, p: Unit, id: string)
    requires p.utype.Some?
  {
    var b, t := w.brain, p.utype.value;
    var menu := b.reg.Buildable(t.id);
    && id in menu && b.Usable(t, id) > 0 && b.Worth(id) > 0
    && forall other :: other in menu && b.Usable(t, other) > 0 && b.Worth(other) > b.Worth(id) ==>
         Refused(w, p, menu, b.Cat(other))
  }

  /** Every category with a usable, wanted entry on the menu had a pick refused. */
  ghost predicate Stuck(w: World, p: Unit)
    requires p.utype.Some?
  {
    var b, t := w.brain, p.utype.value;
    var menu := b.reg.Buildable(t.id);
    forall id :: id in menu && b.Usable(t, id) > 0 && b.Worth(id) > 0 ==> Refused(w, p, menu, b.Cat(id))
  }

  const ALL_WANTED: set<BuildCat> := {Economy, Power, Factory, Builder, Army}

  lemma SubsetOfWanted(exclude: set<BuildCat>)
    requires Defense !in exclude
    ensures |exclude| <= 5 && (|exclude| == 5 ==> exclude == ALL_WANTED)
  {
    forall c | c in exclude ensures c in ALL_WANTED {
      assert c == Economy || c == Power || c == Factory || c == Builder || c == Army;
    }
    var rest := ALL_WANTED - exclude;
    assert ALL_WANTED == exclude + rest && |ALL_WANTED| == |exclude| + |rest|;
    assert |ALL_WANTED| == 5;
  }

  /** The categories struck out so far: each had a pick refused, and Defense is not one. */
  ghost predicate StruckOut(w: World, p: Unit, exclude: set<BuildCat>)
    requires p.utype.Some?
  {
    Defense !in exclude && forall c :: c in exclude ==> Refused(w, p, w.brain.reg.Buildable(p.utype.value.id), c)
  }

  ghost predicate PickedFor(w: World, p: Unit, exclude: set<BuildCat>, pick: UnitType)
    requires p.utype.Some?
  {
    exists id :: IsPick(w.brain, p.utype.value, exclude, id) && w.brain.reg.Find(id) == Some(pick)
  }

  /** A refused pick strikes out a new category. */
  lemma Tried(w: World, p: Unit, exclude: set<BuildCat>, pick: UnitType)
    requires p.utype.Some? && StruckOut(w, p, exclude) && PickedFor(w, p, exclude, pick) && Produce(w, p, pick) == None
    ensures var c := w.brain.reg.CategoryOf(pick); c !in exclude && StruckOut(w, p, exclude + {c})
  {
    var b, t := w.brain, p.utype.value;
    var id :| IsPick(b, t, exclude, id) && b.reg.Find(id) == Some(pick);
    b.CandidateKnown(t, id);
    assert b.Cat(id) != Defense;
    assert Refused(w, p, b.reg.Buildable(t.id), b.Cat(id));
  }

  /** A pick that can be acted on is the best that is left. */
  lemma BestOfTheRest(w: World, p: Unit, exclude: set<BuildCat>, pick: UnitType)
    requires p.utype.Some? && StruckOut(w, p, exclude) && PickedFor(w, p, exclude, pick) && Produce(w, p, pick).Some?
    ensures Sensible(w, p, Produce(w, p, pick).value)
  {
    var b, t := w.brain, p.utype.value;
    var id :| IsPick(b, t, exclude, id) && b.reg.Find(id) == Some(pick);
    forall other | other in b.reg.Buildable(t.id) && b.Usable(t, other) > 0 && b.Worth(other) > b.Worth(id)
      ensures b.Cat(other) in exclude
    {
      assert !b.Candidate(t, exclude, other);
    }
    assert BestLeft(w, p, id);
  }

  /** When every wanted category was struck out, or nothing outside of those is wanted, the
      producer is stuck. */
  lemma NothingLeftToTry(w: World, p: Unit, exclude: set<BuildCat>)
    requires p.utype.Some? && StruckOut(w, p, exclude)
    requires |exclude| == 5 || NoPick(w.brain, p.utype.value, exclude)
    ensures Stuck(w, p)
  {
    var b, t := w.brain, p.utype.value;
    SubsetOfWanted(exclude);
    forall id | id in b.reg.Buildable(t.id) && b.Usable(t, id) > 0 && b.Worth(id) > 0 ensures b.Cat(id) in exclude {
      var c := b.Cat(id);
      assert c == Economy || c == Power || c == Factory || c == Builder || c == Army || c == Defense;
      if c !in exclude { assert b.Candidate(t, exclude, id); }
    }
  }

  /** What a pick comes to: an order for this unit, a category struck out, or the end. */
  lemma Verdict(w: World, p: Unit, exclude: set<BuildCat>, pick: Option<UnitType>)
    requires p.utype.Some? && StruckOut(w, p, exclude)
    requires if pick.Some? then PickedFor(w, p, exclude, pick.value) else NoPick(w.brain, p.utype.value, exclude)
    ensures match pick
            case None => Stuck(w, p)
            case Some(t) =>
              match Produce(w, p, t)
              case Some(c) => c.unitId == p.id && Sensible(w, p, c)
              case None =>
                w.brain.reg.CategoryOf(t) !in exclude && StruckOut(w, p, exclude + {w.brain.reg.CategoryOf(t)})
  {
    if pick == None {
      NothingLeftToTry(w, p, exclude);
    } else if Produce(w, p, pick.value).Some? {
      BestOfTheRest(w, p, exclude, pick.value);
    } else {
      Tried(w, p, exclude, pick.value);
    }
  }

  // --- Rotation ----------------------------------------------------------------------------

  function Rotated<T>(s: seq<T>, k: nat): seq<T> requires k <= |s| { s[k..] + s[..k] }

  /** The order in which idle producers get their turns at a think. */
  function Turn<T>(dp: DiffParams, ids: seq<T>, tick: nat): seq<T>
  {
    if ids != [] && dp.producersPerThink < |ids|
    then Rotated(ids, tick / (if dp.thinkPeriod < 1 then 1 else dp.thinkPeriod) % |ids|)
    else ids
  }

  /** With fewer slots than producers, consecutive thinks put every producer first in turn. */
  lemma EveryProducerGetsATurn<T>(dp: DiffParams, ids: seq<T>, tick: nat, i: nat) returns (j: nat)
    requires i < |ids| && dp.producersPerThink < |ids| && dp.thinkPeriod > 0
    ensures j < |ids| && Turn(dp, ids, tick + j * dp.thinkPeriod)[0] == ids[i]
  {
    var think := tick / dp.thinkPeriod;
    var r := think % |ids|;
    j := if i >= r then i - r else i - r + |ids|;
    LaterThink(tick, j, dp.thinkPeriod);
    TurnAt(think, |ids|, i, j);
  }

  /** At think number t the i-th turn is that of producer t + i, counted round. */
  lemma TurnOrder<T>(dp: DiffParams, ids: seq<T>, tick: nat, i: nat)
    requires i < |ids| && dp.producersPerThink < |ids| && dp.thinkPeriod > 0
    ensures |Turn(dp, ids, tick)| == |ids| && Turn(dp, ids, tick)[i] == ids[(tick / dp.thinkPeriod + i) % |ids|]
  {
    var think, n := tick / dp.thinkPeriod, |ids|;
    var k := think % n;
    var r := if k + i < n then k + i else k + i - n;
    var q := think / n + if k + i < n then 0 else 1;
    assert think == (think / n) * n + k;
    assert (think / n + 1) * n == (think / n) * n + n;
    assert think + i == q * n + r;
    Divided(q, n, r);
  }

  lemma LaterThink(tick: nat, j: nat, period: nat)
    requires period > 0
    ensures (tick + j * period) / period == tick / period + j
  {
    var q, m := tick / period, tick % period;
    assert tick + j * period == (q + j) * period + m;
    Divided(q + j, period, m);
  }

  lemma TurnAt(think: nat, n: nat, i: nat, j: nat)
    requires i < n && j == if i >= think % n then i - think % n else i - think % n + n
    ensures (think + j) % n == i
  {
    var q := (if i >= think % n then 0 else 1) + think / n;
    assert think == (think / n) * n + think % n;
    assert (think / n + 1) * n == (think / n) * n + n;
    assert think + j == q * n + i;
    Divided(q, n, i);
  }

  // --- Reading the world ----------------------------------------------------------------------

  predicate Mine(u: Unit, player: int) { u.alive && u.player == player && u.utype.Some? }

  /** An idle mobile builder or an idle factory. */
  predicate IdleProducer(b: Brain, player: int, u: Unit)
  {
    Mine(u, player) && !u.underConstruction &&
    var t := u.utype.value;
    if t.IsStructure() then u.queueEmpty && b.reg.Buildable(t.id) != []
    else t.isBuilder && u.idleOrders && u.buildSite == 0
  }

  predicate WaveFree(u: Unit) { u.idleOrders || (u.frontTarget == 0 && !u.frontAttackMove) }

  predicate IdleFighter(player: int, u: Unit)
  {
    Mine(u, player) && !u.utype.value.IsStructure() && !u.utype.value.isBuilder && WaveFree(u)
  }

  predicate IsCommander(player: int, u: Unit) { Mine(u, player) && u.utype.value.commander }

  /** The ids of the units that pass a test, in order. */
  function Ids(units: seq<Unit>, f: Unit -> bool): seq<int>
  {
    if units == [] then []
    else
      var u := units[|units| - 1];
      Ids(units[..|units| - 1], f) + if f(u) then [u.id] else []
  }

  predicate UniqueIds(units: seq<Unit>) { forall i, j :: 0 <= i < j < |units| ==> units[i].id != units[j].id }

  lemma {:induction false} IdsAre(units: seq<Unit>, f: Unit -> bool)
    ensures forall id :: id in Ids(units, f) <==> exists k :: 0 <= k < |units| && units[k].id == id && f(units[k])
    ensures UniqueIds(units) ==> Distinct(Ids(units, f))
  {
    if units != [] {
      var front, u := units[..|units| - 1], units[|units| - 1];
      assert units == front + [u];
      IdsAre(front, f);
      forall id ensures id in Ids(units, f) <==> exists k :: 0 <= k < |units| && units[k].id == id && f(units[k]) {
        if f(u) && id == u.id { assert units[|units| - 1].id == id; }
        if id in Ids(front, f) {
          var k :| 0 <= k < |front| && front[k].id == id && f(front[k]);
          assert units[k] == front[k];
        }
      }
      if UniqueIds(units) {
        forall k | 0 <= k < |front| ensures front[k].id != u.id { assert units[k] == front[k]; }
        assert UniqueIds(front) && u.id !in Ids(front, f);
      }
    }
  }

  /** `world.unit(id)`: the first unit with that id. */
  function UnitById(units: seq<Unit>, id: int): Option<Unit>
  {
    if units == [] then None else if units[0].id == id then Some(units[0]) else UnitById(units[1..], id)
  }

  lemma {:induction false} UnitByIdIs(units: seq<Unit>, id: int)
    ensures match UnitById(units, id)
            case None => forall k :: 0 <= k < |units| ==> units[k].id != id
            case Some(u) => u.id == id && exists k :: 0 <= k < |units| && units[k] == u
  {
    if units != [] && units[0].id != id {
      UnitByIdIs(units[1..], id);
      if UnitById(units, id).Some? {
        var k :| 0 <= k < |units[1..]| && units[1..][k] == UnitById(units, id).value;
        assert units[k + 1] == UnitById(units, id).value;
      }
    }
  }

  lemma UnitByIdUnique(units: seq<Unit>, k: nat)
    requires UniqueIds(units) && k < |units|
    ensures UnitById(units, units[k].id) == Some(units[k])
  {
    UnitByIdIs(units, units[k].id);
  }

  // --- The controller --------------------------------------------------------------------------

  /** How large an army is mustered before the big push. */
  function BigPush(dp: DiffParams, income: real): int
  {
    var n := dp.waveSize + Truncate(income * 0.25);
    if n < dp.waveSize then dp.waveSize else if n > 60 then 60 else n
  }

  function Tapped(me: PlayerView): bool { me.metalCur < 200.0 && me.metalIncome < 40.0 }

  function UnitIds(cs: seq<Command>): (ids: seq<int>)
    ensures |ids| == |cs| && forall i :: 0 <= i < |cs| ==> ids[i] == cs[i].unitId
  {
    seq(|cs|, i requires 0 <= i < |cs| => cs[i].unitId)
  }

  ghost predicate NoRepeat(cs: seq<Command>) { Distinct(UnitIds(cs)) }

  /** Some unit that got a command is a commander. */
  ghost predicate DrivesCommander(w: World, cs: seq<Command>)
  {
    exists i :: 0 <= i < |cs| && var u := UnitById(w.units, cs[i].unitId);
      u.Some? && u.value.utype.Some? && u.value.utype.value.commander
  }

  lemma NoRepeatMore(cs: seq<Command>, c: Command)
    requires NoRepeat(cs) && forall i :: 0 <= i < |cs| ==> cs[i].unitId != c.unitId
    ensures NoRepeat(cs + [c])
  {
    var ids := UnitIds(cs + [c]);
    forall i, j | 0 <= i < j < |ids| ensures ids[i] != ids[j] {
      if j < |cs| { assert UnitIds(cs)[i] == ids[i] && UnitIds(cs)[j] == ids[j]; }
    }
  }

  lemma NoRepeatTogether(a: seq<Command>, b: seq<Command>)
    requires NoRepeat(a) && NoRepeat(b)
    requires forall i, j :: 0 <= i < |a| && 0 <= j < |b| ==> a[i].unitId != b[j].unitId
    ensures NoRepeat(a + b)
  {
    var ids := UnitIds(a + b);
    forall i, j | 0 <= i < j < |ids| ensures ids[i] != ids[j] {
      if j < |a| {
        assert UnitIds(a)[i] == ids[i] && UnitIds(a)[j] == ids[j];
      } else if i >= |a| {
        assert UnitIds(b)[i - |a|] == ids[i] && UnitIds(b)[j - |a|] == ids[j];
      } else {
        assert a[i].unitId != b[j - |a|].unitId;
      }
    }
  }

  /** The unit behind an id, if it can act. */
  function ActorOf(w: World, id: int): Option<Unit>
  {
    var p := UnitById(w.units, id);
    if p.Some? && p.value.alive && p.value.utype.Some? then p else None
  }

  /** The producer had its turn: it is stuck, or it was given a sensible order. */
  ghost predicate Served(w: World, orders: seq<Command>, id: int)
  {
    var p := ActorOf(w, id);
    p.Some? ==> Stuck(w, p.value) || exists k :: 0 <= k < |orders| && orders[k].unitId == id
  }

  /** The first `n` in the queue had their turns; the orders are theirs and sensible. */
  ghost predicate ServedTo(w: World, queue: seq<int>, n: int, orders: seq<Command>)
    requires 0 <= n <= |queue|
  {
    && (forall i :: 0 <= i < n ==> Served(w, orders, queue[i]))
    && (forall k :: 0 <= k < |orders| ==> orders[k].unitId in queue[..n] && Ordered(w, orders[k]))
  }

  ghost predicate Ordered(w: World, c: Command)
  {
    var p := ActorOf(w, c.unitId);
    p.Some? && Sensible(w, p.value, c)
  }

  /** The queue was served from the front until it ended or the slots were used up. */
  ghost predicate Driven(w: World, queue: seq<int>, slots: int, orders: seq<Command>)
  {
    exists n :: 0 <= n <= |queue| && ServedTo(w, queue, n, orders) && (n == |queue| || |orders| >= slots)
  }

  lemma ServedNext(w: World, queue: seq<int>, n: int, orders: seq<Command>, orders': seq<Command>)
    requires 0 <= n < |queue| && ServedTo(w, queue, n, orders)
    requires orders' == orders ||
             (|orders'| == |orders| + 1 && orders <= orders' && orders'[|orders|].unitId == queue[n]
              && Ordered(w, orders'[|orders|]))
    requires Served(w, orders', queue[n])
    ensures ServedTo(w, queue, n + 1, orders')
  {
    assert queue[..n + 1] == queue[..n] + [queue[n]];
    forall i | 0 <= i < n + 1 ensures Served(w, orders', queue[i]) {
      if i < n {
        assert Served(w, orders, queue[i]);
        if k :| 0 <= k < |orders| && orders[k].unitId == queue[i] { assert orders'[k].unitId == queue[i]; }
      }
    }
    forall k | 0 <= k < |orders'| ensures orders'[k].unitId in queue[..n + 1] && Ordered(w, orders'[k]) {
      if k < |orders| { assert orders'[k] == orders[k]; }
    }
  }

  /** The next in the queue was given an order. */
  lemma OrderGiven(w: World, queue: seq<int>, n: int, orders: seq<Command>, p: Unit, c: Command)
    requires 0 <= n < |queue| && ServedTo(w, queue, n, orders)
    requires ActorOf(w, queue[n]) == Some(p) && c.unitId == queue[n] && Sensible(w, p, c)
    ensures ServedTo(w, queue, n + 1, orders + [c])
    ensures Distinct(queue) && NoRepeat(orders) ==> NoRepeat(orders + [c])
    ensures DrivesCommander(w, orders + [c]) <==> DrivesCommander(w, orders) || p.utype.value.commander
  {
    assert Ordered(w, c);
    assert (orders + [c])[|orders|] == c;
    ServedNext(w, queue, n, orders, orders + [c]);
    DrivesMore(w, orders, c);
    if Distinct(queue) && NoRepeat(orders) {
      assert queue[n] !in queue[..n];
      NoRepeatMore(orders, c);
    }
  }

  lemma ActorIs(w: World, id: int)
    ensures var p := ActorOf(w, id); p.Some? ==> p.value.id == id && p.value.utype.Some?
  {
    UnitByIdIs(w.units, id);
  }

  /** The first commander of the player, if any. */
  function FirstCommander(player: int, units: seq<Unit>): (r: Option<Unit>)
    ensures r.Some? ==> IsCommander(player, r.value) && r.value in units
  {
    if units == [] then None
    else if IsCommander(player, units[0]) then Some(units[0]) else FirstCommander(player, units[1..])
  }

  /** A commander is a structure or a builder, never a plain fighter. */
  predicate CommandersBuild(units: seq<Unit>)
  {
    forall k :: 0 <= k < |units| && units[k].utype.Some? && units[k].utype.value.commander ==>
      units[k].utype.value.IsStructure() || units[k].utype.value.isBuilder
  }

  const HOME_LEASH := 520.0

  /** The walk home: an idle commander that strayed too far, unless a commander was just
      given a build order. */
  function WalkHome(w: World, player: int, commanderActed: bool): seq<Command>
  {
    match FirstCommander(player, w.units)
    case None => []
    case Some(u) =>
      if commanderActed || !u.idleOrders || u.buildSite != 0 || u.underConstruction then []
      else
        var dx, dz := u.x - w.home.0, u.z - w.home.1;
        if dx * dx + dz * dz > HOME_LEASH * HOME_LEASH then [Command(Move, u.id, "", w.home.0, w.home.1)] else []
  }

  /** The march orders for the first `n` idle fighters. */
  function Marches(idle: seq<int>, n: nat, at: (real, real)): (cs: seq<Command>)
    requires n <= |idle|
    ensures |cs| == n && forall i :: 0 <= i < n ==> cs[i] == Command(AttackMove, idle[i], "", at.0, at.1)
  {
    seq(n, i requires 0 <= i < n => Command(AttackMove, idle[i], "", at.0, at.1))
  }

  function Fighters(w: World, player: int): seq<int> { Ids(w.units, u => IdleFighter(player, u)) }

  function InputAt(w: World, player: int, dp: DiffParams, tick: u32): (i: WaveInput)
    requires 0 < dp.waveSize <= 60
  {
    var idle := Fighters(w, player);
    WaveInput(tick, |idle|, w.objective(idle).Some?, BigPush(dp, w.brain.me.BaseIncome()), Tapped(w.brain.me))
  }

  /** The commands a wave decision stands for. */
  function WaveCommands(w: World, player: int, choice: WaveChoice): seq<Command>
    requires choice.March? ==> choice.party <= |Fighters(w, player)| && w.objective(Fighters(w, player)).Some?
  {
    if choice.Hold? then []
    else Marches(Fighters(w, player), choice.party, w.objective(Fighters(w, player)).value)
  }

  function Producers(w: World, player: int): seq<int> { Ids(w.units, u => IdleProducer(w.brain, player, u)) }

  /** The build half of a think: nothing while money is short and something is under
      construction, else the idle producers are served in their turn. */
  ghost predicate BuildOrders(w: World, player: int, dp: DiffParams, tick: u32, orders: seq<Command>)
  {
    if w.brain.me.metalCur < 50.0 && Building(player, w.units) then orders == []
    else Driven(w, Turn(dp, Producers(w, player), tick), dp.producersPerThink, orders)
  }

  /** All that one think sends: the builders' orders, the walk home, the wave. */
  ghost function ThinkLog(w: World, player: int, orders: seq<Command>, choice: WaveChoice): seq<Command>
    requires choice.March? ==> choice.party <= |Fighters(w, player)| && w.objective(Fighters(w, player)).Some?
  {
    orders + WalkHome(w, player, DrivesCommander(w, orders)) + WaveCommands(w, player, choice)
  }

  /** `sent` is what a think with this wave decision may send. */
  ghost predicate Sends(w: World, player: int, dp: DiffParams, tick: u32, choice: WaveChoice, sent: seq<Command>)
  {
    && (choice.March? ==> choice.party <= |Fighters(w, player)| && w.objective(Fighters(w, player)).Some?)
    && exists orders :: BuildOrders(w, player, dp, tick, orders) && sent == ThinkLog(w, player, orders, choice)
  }

  /** What the parts of a think come to. */
  lemma ThinkSends(w: World, player: int, dp: DiffParams, tick: u32, choice: WaveChoice, orders: seq<Command>,
                   acted: bool, before: seq<Command>, after: seq<Command>, sent: seq<Command>)
    requires BuildOrders(w, player, dp, tick, orders) && (acted <==> DrivesCommander(w, orders))
    requires UniqueIds(w.units) ==> ProducerOrders(w, player, orders)
    requires choice.March? ==> choice.party <= |Fighters(w, player)| && w.objective(Fighters(w, player)).Some?
    requires choice.March? ==> choice.party <= MAX_WAVE_CMDS
    requires sent == ThinkLog(w, player, orders, choice)
    requires after == before + orders + WalkHome(w, player, acted) + WaveCommands(w, player, choice)
    ensures after == before + sent && Sends(w, player, dp, tick, choice, sent)
    ensures |sent| <= |orders| + 1 + MAX_WAVE_CMDS
    ensures UniqueIds(w.units) && CommandersBuild(w.units) ==> NoRepeat(sent)
  {
    ThreeParts(before, orders, WalkHome(w, player, acted), WaveCommands(w, player, choice));
    if UniqueIds(w.units) && CommandersBuild(w.units) {
      NobodyCommandedTwice(w, player, orders, acted, choice);
    }
  }

  lemma ThreeParts<T>(a: seq<T>, b: seq<T>, c: seq<T>, d: seq<T>)
    ensures a + b + c + d == a + (b + c + d)
  {
  }

  /** The builders' commands go to different producers, each of them an idle producer. */
  ghost predicate ProducerOrders(w: World, player: int, cs: seq<Command>)
  {
    NoRepeat(cs) && forall i :: 0 <= i < |cs| ==> cs[i].unitId in Producers(w, player)
  }

  /** No unit is commanded twice in one think, given unique ids and commanders that build. */
  lemma NobodyCommandedTwice(w: World, player: int, orders: seq<Command>, acted: bool, choice: WaveChoice)
    requires UniqueIds(w.units) && CommandersBuild(w.units)
    requires ProducerOrders(w, player, orders) && (acted <==> DrivesCommander(w, orders))
    requires choice.March? ==> choice.party <= |Fighters(w, player)| && w.objective(Fighters(w, player)).Some?
    ensures NoRepeat(orders + WalkHome(w, player, acted) + WaveCommands(w, player, choice))
  {
    var walk, wave := WalkHome(w, player, acted), WaveCommands(w, player, choice);
    var producers, fighters := Producers(w, player), Fighters(w, player);
    IdsAre(w.units, u => IdleProducer(w.brain, player, u));
    IdsAre(w.units, u => IdleFighter(player, u));
    if walk != [] {
      var u := FirstCommander(player, w.units).value;
      var k :| 0 <= k < |w.units| && w.units[k] == u;
      UnitByIdUnique(w.units, k);
      forall i | 0 <= i < |orders| ensures orders[i].unitId != walk[0].unitId {
        var commanded := UnitById(w.units, orders[i].unitId);   // not a commander, unlike u
      }
    }
    NoRepeatTogether(orders, walk);
    forall i, j | 0 <= i < |orders + walk| && 0 <= j < |wave| ensures (orders + walk)[i].unitId != wave[j].unitId {
      assert wave[j].unitId in fighters;
      var f :| 0 <= f < |w.units| && w.units[f].id == wave[j].unitId && IdleFighter(player, w.units[f]);
      if i < |orders| {
        assert (orders + walk)[i].unitId in producers;
        var g :| 0 <= g < |w.units| && w.units[g].id == (orders + walk)[i].unitId
            && IdleProducer(w.brain, player, w.units[g]);
        assert f != g;
      } else {
        var g :| 0 <= g < |w.units| && w.units[g] == FirstCommander(player, w.units).value;
        assert f != g;
      }
    }
    NoRepeatTogether(orders + walk, wave);
  }

  /** The loops that collect unit ids. */
  method CollectIds(units: seq<Unit>, f: Unit -> bool) returns (ids: seq<int>)
    ensures ids == Ids(units, f)
  {
    ids := [];
    for i := 0 to |units|
      invariant ids == Ids(units[..i], f)
    {
      assert units[..i + 1][..i] == units[..i];
      if f(units[i]) { ids := ids + [units[i].id]; }
    }
    assert units[..|units|] == units;
  }

  /** The loop that looks for the commander. */
  method FindCommander(player: int, units: seq<Unit>) returns (r: Option<Unit>)
    ensures r == FirstCommander(player, units)
  {
    for i := 0 to |units|
      invariant FirstCommander(player, units) == FirstCommander(player, units[i..])
    {
      assert units[i..][0] == units[i] && units[i..][1..] == units[i + 1..];
      if IsCommander(player, units[i]) { return Some(units[i]); }
    }
    return None;
  }

  /** Construction is under way. */
  predicate Building(player: int, units: seq<Unit>)
  {
    exists k :: 0 <= k < |units| && units[k].player == player && units[k].alive && units[k].underConstruction
  }

  lemma RotatedDistinct(ids: seq<int>, k: nat)
    requires Distinct(ids) && k <= |ids|
    ensures Distinct(Rotated(ids, k)) && forall id :: id in Rotated(ids, k) <==> id in ids
  {
    var r := Rotated(ids, k);
    assert ids == ids[..k] + ids[k..];
    forall i, j | 0 <= i < j < |r| ensures r[i] != r[j] {
      var n := |ids| - k;
      var i', j' := if i < n then i + k else i - n, if j < n then j + k else j - n;
      assert r[i] == ids[i'] && r[j] == ids[j'] && i' != j';
      if i' < j' { assert ids[i'] != ids[j']; } else { assert ids[j'] != ids[i']; }
    }
  }

  // --- Whole runs -------------------------------------------------------------------------------

  /** One think: what it saw, when, and what it sent. */
  datatype Thought = Thought(view: World, tick: u32, sent: seq<Command>)

  /** All that a run of thinks sent, in order. */
  function Sent(history: seq<Thought>): seq<Command>
  {
    if history == [] then [] else Sent(history[..|history| - 1]) + history[|history| - 1].sent
  }

  /** A test of one think: what the wave logic saw, what it decided, and the think itself. */
  type Check = (WaveInput, WaveChoice, Thought) -> bool

  ghost function Answers(player: int, dp: DiffParams): Check
  {
    (input: WaveInput, choice: WaveChoice, t: Thought) =>
      && 0 < dp.waveSize <= 60 && input == InputAt(t.view, player, dp, t.tick)
      && Sends(t.view, player, dp, t.tick, choice, t.sent)
  }

  /** Every think of a run passes the test, with the decision of its turn. */
  ghost predicate AllPass(ok: Check, dp: DiffParams, seen: seq<WaveInput>, history: seq<Thought>)
    requires |history| == |seen|
    decreases |history|
  {
    history == [] ||
    var n := |history| - 1;
    AllPass(ok, dp, seen[..n], history[..n]) && ok(seen[n], ChoiceAt(dp, seen, n), history[n])
  }

  /** The thinks of a run with what the wave logic saw, and the log they make together. */
  ghost predicate IsRecord(player: int, dp: DiffParams, seen: seq<WaveInput>, history: seq<Thought>, log: seq<Command>)
  {
    |history| == |seen| && log == Sent(history) && AllPass(Answers(player, dp), dp, seen, history)
  }

  lemma OneMorePasses(ok: Check, dp: DiffParams, seen: seq<WaveInput>, history: seq<Thought>, input: WaveInput,
                      t: Thought)
    requires |history| == |seen| && AllPass(ok, dp, seen, history) && ok(input, ChoiceAt(dp, seen + [input], |seen|), t)
    ensures AllPass(ok, dp, seen + [input], history + [t]) && Sent(history + [t]) == Sent(history) + t.sent
  {
    var seen', history', n := seen + [input], history + [t], |history|;
    assert history'[..n] == history && seen'[..n] == seen;
  }

  lemma {:induction false} Passes(ok: Check, dp: DiffParams, seen: seq<WaveInput>, history: seq<Thought>, i: nat)
    requires |history| == |seen| && AllPass(ok, dp, seen, history) && i < |history|
    ensures ok(seen[i], ChoiceAt(dp, seen, i), history[i])
    decreases |history|
  {
    var n := |history| - 1;
    if i < n {
      Passes(ok, dp, seen[..n], history[..n], i);
      ChoiceOfPrefix(dp, seen, n, i);
    }
  }

  /** One more think is entered in the record. */
  lemma RecordMore(player: int, dp: DiffParams, seen: seq<WaveInput>, history: seq<Thought>, log: seq<Command>,
                   t: Thought)
    requires IsRecord(player, dp, seen, history, log) && 0 < dp.waveSize <= 60
    requires var input := InputAt(t.view, player, dp, t.tick);
             Sends(t.view, player, dp, t.tick, ChoiceAt(dp, seen + [input], |seen|), t.sent)
    ensures IsRecord(player, dp, seen + [InputAt(t.view, player, dp, t.tick)], history + [t], log + t.sent)
  {
    OneMorePasses(Answers(player, dp), dp, seen, history, InputAt(t.view, player, dp, t.tick), t);
  }

  /** What a think of a recorded run saw and sent. */
  lemma ThoughtAt(player: int, dp: DiffParams, seen: seq<WaveInput>, history: seq<Thought>, log: seq<Command>, i: nat)
    requires IsRecord(player, dp, seen, history, log) && i < |history|
    ensures var t, choice := history[i], ChoiceAt(dp, seen, i);
            && 0 < dp.waveSize <= 60 && seen[i] == InputAt(t.view, player, dp, t.tick)
            && Sends(t.view, player, dp, t.tick, choice, t.sent)
            && Attacks(t.sent) == if choice.Hold? then [] else Fighters(t.view, player)[..choice.party]
  {
    Passes(Answers(player, dp), dp, seen, history, i);
    AttacksSent(history[i].view, player, dp, history[i].tick, ChoiceAt(dp, seen, i), history[i].sent);
  }

  /** The units that are sent out to attack. */
  function Attacks(cs: seq<Command>): seq<int>
  {
    if cs == [] then []
    else
      var last := cs[|cs| - 1];
      Attacks(cs[..|cs| - 1]) + if last.kind == AttackMove then [last.unitId] else []
  }

  lemma {:induction false} AttacksOfBoth(a: seq<Command>, b: seq<Command>)
    ensures Attacks(a + b) == Attacks(a) + Attacks(b)
    decreases |b|
  {
    if b == [] {
      assert a + b == a;
    } else {
      var front := b[..|b| - 1];
      assert (a + b)[..|a + b| - 1] == a + front;
      AttacksOfBoth(a, front);
    }
  }

  lemma {:induction false} NoAttacks(cs: seq<Command>)
    requires forall k :: 0 <= k < |cs| ==> cs[k].kind != AttackMove
    ensures Attacks(cs) == []
  {
    if cs != [] { NoAttacks(cs[..|cs| - 1]); }
  }

  lemma {:induction false} AllAttack(idle: seq<int>, n: nat, at: (real, real))
    requires n <= |idle|
    ensures Attacks(Marches(idle, n, at)) == idle[..n]
  {
    if n > 0 {
      assert Marches(idle, n, at)[..n - 1] == Marches(idle, n - 1, at);
      AllAttack(idle, n - 1, at);
      assert idle[..n] == idle[..n - 1] + [idle[n - 1]];
    }
  }

  /** Builders' orders never are attacks. */
  lemma OrdersDoNotAttack(w: World, player: int, dp: DiffParams, tick: u32, orders: seq<Command>)
    requires BuildOrders(w, player, dp, tick, orders)
    ensures Attacks(orders) == []
  {
    forall k | 0 <= k < |orders| ensures orders[k].kind != AttackMove {
      assert Ordered(w, orders[k]);
      var p := ActorOf(w, orders[k].unitId).value;
      var id :| BestLeft(w, p, id) && Produce(w, p, w.brain.reg.Find(id).value) == Some(orders[k]);
      OrdersFit(w, p, w.brain.reg.Find(id).value);
    }
    NoAttacks(orders);
  }

  /** A think sends out exactly the fighters that its wave decision names. */
  lemma AttacksSent(w: World, player: int, dp: DiffParams, tick: u32, choice: WaveChoice, sent: seq<Command>)
    requires Sends(w, player, dp, tick, choice, sent)
    ensures Attacks(sent) == if choice.Hold? then [] else Fighters(w, player)[..choice.party]
  {
    var orders :| BuildOrders(w, player, dp, tick, orders) && sent == ThinkLog(w, player, orders, choice);
    var walk, wave := WalkHome(w, player, DrivesCommander(w, orders)), WaveCommands(w, player, choice);
    OrdersDoNotAttack(w, player, dp, tick, orders);
    NoAttacks(walk);
    AttacksOfBoth(orders, walk);
    AttacksOfBoth(orders + walk, wave);
    if choice.March? { AllAttack(Fighters(w, player), choice.party, w.objective(Fighters(w, player)).value); }
  }

  predicate IsRaid(dp: DiffParams, seen: seq<WaveInput>, j: nat)
    requires j < |seen|
  {
    HasMarched(dp, seen, j) && ChoiceAt(dp, seen, j).event == Raid
  }

  /** A raid in the log of a run: it sends exactly the first raiders among the idle fighters,
      leaves the home core behind, and no earlier think within 750 ticks sent anyone out. */
  lemma RaidsInLog(player: int, dp: DiffParams, seen: seq<WaveInput>, history: seq<Thought>, log: seq<Command>, j: nat)
    requires IsRecord(player, dp, seen, history, log) && Ticking(seen) && j < |history| && IsRaid(dp, seen, j)
    ensures var idle := Fighters(history[j].view, player);
            && 0 < dp.raidSize <= |idle| && Attacks(history[j].sent) == idle[..dp.raidSize]
            && |idle| - dp.raidSize >= dp.waveSize
            && |idle| - dp.raidSize >= BigPush(dp, history[j].view.brain.me.BaseIncome()) / 3
    ensures history[j].tick >= 750
    ensures forall i :: 0 <= i < j && Attacks(history[i].sent) != [] ==> history[j].tick >= history[i].tick + 750
  {
    ThoughtAt(player, dp, seen, history, log, j);
    RaidLeavesCore(dp, seen, j);
    RaidsAreSpaced(dp, seen, j);
    forall i | 0 <= i < j && Attacks(history[i].sent) != [] ensures history[j].tick >= history[i].tick + RAID_COOLDOWN {
      ThoughtAt(player, dp, seen, history, log, i);
      assert HasMarched(dp, seen, i);
    }
  }

  /** A passive controller never sends anyone out, over its whole life. */
  lemma PassiveNeverAttacks(player: int, dp: DiffParams, seen: seq<WaveInput>, history: seq<Thought>, log: seq<Command>)
    requires IsRecord(player, dp, seen, history, log) && !dp.attack
    ensures Attacks(log) == []
  {
    forall i | 0 <= i < |history| ensures Attacks(history[i].sent) == [] {
      ThoughtAt(player, dp, seen, history, log, i);
    }
    NoneAttack(history);
  }

  lemma {:induction false} NoneAttack(history: seq<Thought>)
    requires forall i :: 0 <= i < |history| ==> Attacks(history[i].sent) == []
    ensures Attacks(Sent(history)) == []
  {
    if history != [] {
      var n := |history| - 1;
      NoneAttack(history[..n]);
      AttacksOfBoth(Sent(history[..n]), history[n].sent);
    }
  }

  class Controller {
    const player: nat
    const reg: Registry
    const profile: Profile.Profile
    const difficulty: Difficulty
    const dp: DiffParams
    var rng: u32
    var scouted: bool
    var lastRaidTick: u32
    /** Everything handed to the command sink, what the wave logic has seen, and the thinks. */
    ghost var log: seq<Command>
    ghost var seen: seq<WaveInput>
    ghost var history: seq<Thought>

    constructor (player: nat, reg: Registry, profile: Profile.Profile, seed: u32, d: Difficulty)
      ensures Valid() && Recorded() && log == [] && history == []
      ensures this.player == player && this.reg == reg && this.profile == profile && difficulty == d
    {
      this.player, this.reg, this.profile, difficulty, dp := player, reg, profile, d, ParamsFor(d);
      rng, scouted, lastRaidTick := seed, false, 0;
      log, seen, history := [], [], [];
    }

    /** The two fields the wave logic keeps are those of the run so far. */
    ghost predicate Valid()
      reads this
    {
      dp == ParamsFor(difficulty) && WaveState(scouted, lastRaidTick) == StateAt(dp, seen, |seen|)
    }

    /** The log is what the recorded thinks sent, one after the other. */
    ghost predicate Recorded()
      reads this
    {
      IsRecord(player, dp, seen, history, log)
    }

    /** The world as this controller reads it: with its own registry, plan and parameters. */
    function View(snap: Snapshot): World
      reads this
    {
      World(snap.units, Brain(reg, ForDifficulty(profile, difficulty), dp, snap.me, snap.needs),
            snap.site, snap.spot, snap.home, snap.objective)
    }

    /** Two difficulties share the easy plan and two the hard one; the units and the economy are read
        as they are. */
    lemma ViewIs(snap: Snapshot)
      ensures View(snap).units == snap.units && View(snap).brain.me == snap.me && View(snap).brain.needs == snap.needs
      ensures difficulty == Passive || difficulty == Easier ==> View(snap).brain.plan == profile.easy
      ensures difficulty == Normal ==> View(snap).brain.plan == profile.medium
      ensures difficulty == Harder || difficulty == Absurd ==> View(snap).brain.plan == profile.hard
    {
    }

    /** A number below `n`. */
    method Rand(n: int) returns (r: nat)
      modifies this`rng
      ensures (n > 0 ==> r < n)
      ensures rng == Advance(old(rng)) && r == Drawn(rng, n)
    {
      rng := Advance(rng);
      if n > 0 { DrawnBelow(rng, n); }
      r := Drawn(rng, n);
    }

    /** Pass 2: the reservoir draw among the rivals. */
    method Draw(b: Brain, producer: UnitType, exclude: set<BuildCat>, best: int, menu: seq<string>)
      returns (chosen: Option<UnitType>, ghost rs: seq<nat>)
      requires best > 0
      modifies this`rng
      ensures var rivals := Rivals(b, producer, exclude, best, menu);
              var ws := WeightsOf(b, producer, rivals);
              && IsDraw(ws, rs) && (rs, rng) == Sampled(old(rng), ws)
              && chosen == if Chosen(ws, rs) < 0 then None else b.reg.Find(rivals[Chosen(ws, rs)])
    {
      chosen, rs := None, [];
      var total := 0;
      ghost var rivals := [];
      ghost var ws: seq<nat> := [];
      for i := 0 to |menu|
        invariant rivals == Rivals(b, producer, exclude, best, menu[..i]) && ws == WeightsOf(b, producer, rivals)
        invariant IsDraw(ws, rs) && total == Total(ws) && (rs, rng) == Sampled(old(rng), ws)
        invariant chosen == if Chosen(ws, rs) < 0 then None else b.reg.Find(rivals[Chosen(ws, rs)])
      {
        RivalsNext(b, producer, exclude, best, menu, i);
        var w := b.Usable(producer, menu[i]);
        if w <= 0 || b.Worth(menu[i]) != best { continue; }
        if b.Cat(menu[i]) in exclude { continue; }
        total := total + w;
        var r := Rand(total);
        ChosenNext(ws, rs, w, r);
        SampledNext(old(rng), ws, w);
        WeightsNext(b, producer, rivals, menu[i]);
        if r < w { chosen := b.reg.Find(menu[i]); }
        rivals, ws, rs := rivals + [menu[i]], ws + [w], rs + [r];
      }
      assert menu[..|menu|] == menu;
    }

    /** Pick what a producer should build: the most wanted thing its menu offers now, or
        nothing exactly when nothing on offer is wanted, whatever the generator's state. */
    method WeightedPick(b: Brain, producer: UnitType, exclude: set<BuildCat>) returns (pick: Option<UnitType>)
      modifies this`rng
      ensures pick == None <==> NoPick(b, producer, exclude)
      ensures pick.Some? ==> exists id :: IsPick(b, producer, exclude, id) && b.reg.Find(id) == pick
      ensures pick == None <==> Wants.NothingOnOffer(b, producer, exclude)
      ensures pick.Some? ==> Wants.IsMostUrgent(b, producer, exclude, pick.value)
    {
      NoPickIsNoOffer(b, producer, exclude);
      var menu := b.reg.Buildable(producer.id);
      var best := FindBest(b, producer, exclude, menu);
      if best <= 0 { return None; }
      ghost var rs;
      pick, rs := Draw(b, producer, exclude, best, menu);
      ghost var rivals := Rivals(b, producer, exclude, best, menu);
      ghost var ws := WeightsOf(b, producer, rivals);
      RivalsAre(b, producer, exclude, best, menu);
      ghost var top :| top in menu && b.Candidate(producer, exclude, top) && b.Worth(top) == best;
      assert top in rivals;
      AlwaysChosen(ws, rs);
      ghost var id := rivals[Chosen(ws, rs)];
      assert id in rivals;
      b.CandidateKnown(producer, id);
      assert IsPick(b, producer, exclude, id);
      PickIsMostUrgent(b, producer, exclude, id);
    }

    /** A pick for one unit. */
    method PickFor(w: World, p: Unit, exclude: set<BuildCat>) returns (pick: Option<UnitType>)
      requires p.utype.Some?
      modifies this`rng
      ensures if pick.Some? then PickedFor(w, p, exclude, pick.value) else NoPick(w.brain, p.utype.value, exclude)
    {
      pick := WeightedPick(w.brain, p.utype.value, exclude);
    }

    /** One producer's turn, with its retries.  Either one sensible command for this unit
        went out, or none did and every wanted category on its menu had a pick refused. */
    method Act(w: World, p: Unit) returns (acted: bool)
      requires p.utype.Some?
      modifies this`rng, this`log
      ensures acted ==> exists c: Command :: log == old(log) + [c] && c.unitId == p.id && Sensible(w, p, c)
      ensures !acted ==> log == old(log) && Stuck(w, p)
    {
      var exclude: set<BuildCat> := {};
      for attempt := 0 to 5
        invariant log == old(log) && |exclude| == attempt && StruckOut(w, p, exclude)
      {
        var pick := PickFor(w, p, exclude);
        Verdict(w, p, exclude, pick);
        if pick == None { return false; }
        var c := Produce(w, p, pick.value);
        if c.Some? {
          log := log + [c.value];
          return true;
        }
        exclude := exclude + {w.brain.reg.CategoryOf(pick.value)};
      }
      NothingLeftToTry(w, p, exclude);
      return false;
    }

    /** The producers' turns, in the given order, up to the per-think cap. */
    method DriveProducers(w: World, producers: seq<int>) returns (commanderActed: bool, ghost orders: seq<Command>)
      modifies this`rng, this`log
      ensures log == old(log) + orders
      ensures |orders| <= (if dp.producersPerThink > 0 then dp.producersPerThink else 0)
      ensures Driven(w, producers, dp.producersPerThink, orders)
      ensures Distinct(producers) ==> NoRepeat(orders)
      ensures commanderActed <==> DrivesCommander(w, orders)
    {
      var acted := 0;
      commanderActed, orders := false, [];
      for i := 0 to |producers|
        invariant log == old(log) + orders && |orders| == acted && (acted > 0 ==> acted <= dp.producersPerThink)
        invariant Distinct(producers) ==> NoRepeat(orders)
        invariant ServedTo(w, producers, i, orders)
        invariant commanderActed <==> DrivesCommander(w, orders)
      {
        if acted >= dp.producersPerThink { break; }
        var p := ActorOf(w, producers[i]);
        if p == None {
          ServedNext(w, producers, i, orders, orders);
          continue;
        }
        ActorIs(w, producers[i]);
        var done := Act(w, p.value);
        if done {
          ghost var c := log[|log| - 1];
          assert log == old(log) + (orders + [c]);
          OrderGiven(w, producers, i, orders, p.value, c);
          if p.value.utype.value.commander { commanderActed := true; }
          orders := orders + [c];
          acted := acted + 1;
        } else {
          ServedNext(w, producers, i, orders, orders);
        }
      }
    }

    /** Waves, raids and the early probe. */
    method SendWaves(w: World, simTick: u32) returns (ghost choice: WaveChoice)
      requires Valid()
      modifies this`scouted, this`lastRaidTick, this`log, this`seen
      ensures Valid() && seen == old(seen) + [InputAt(w, player, dp, simTick)]
      ensures choice == ChoiceAt(dp, seen, |old(seen)|)
      ensures choice.March? ==>
                choice.party <= |Fighters(w, player)| && choice.party <= MAX_WAVE_CMDS
                    && w.objective(Fighters(w, player)).Some?
      ensures log == old(log) + WaveCommands(w, player, choice)
    {
      ghost var input := InputAt(w, player, dp, simTick);
      choice := Decide(dp, WaveState(scouted, lastRaidTick), input);
      SeenMore(dp, seen, input);
      seen := seen + [input];
      if !dp.attack { return; }
      var idle := CollectIds(w.units, u => IdleFighter(player, u));
      if idle == [] { return; }
      var at := w.objective(idle);
      if at == None { return; }
      var bigPush := BigPush(dp, w.brain.me.BaseIncome());
      if |idle| >= bigPush || Tapped(w.brain.me) {
        var n := if |idle| < MAX_WAVE_CMDS then |idle| else MAX_WAVE_CMDS;
        log := log + Marches(idle, n, at.value);
        lastRaidTick, scouted := simTick, true;
        return;
      }
      var homeCore := if dp.waveSize < bigPush / 3 then bigPush / 3 else dp.waveSize;
      var firstProbe := dp.scout && !scouted && |idle| >= 1;
      var canRaid := dp.raidSize > 0 && |idle| >= homeCore + dp.raidSize
          && U32Sub(simTick, lastRaidTick) >= RAID_COOLDOWN;
      if firstProbe || canRaid {
        var party := if firstProbe && !canRaid then 1 else dp.raidSize;
        log := log + Marches(idle, if party < |idle| then party else |idle|, at.value);
        scouted, lastRaidTick := true, simTick;
      }
    }

    /** One evaluation of the AI.  Off its cadence, or defeated, it does nothing.  A think
        sends the builders' orders, the walk home and the wave, at most one command per
        producer slot, one more and 256, and never commands a unit twice. */
    method Tick(snap: Snapshot, simTick: u32) returns (ghost sent: seq<Command>)
      requires Valid() && Recorded()
      modifies this
      ensures Valid() && Recorded() && log == old(log) + sent
      ensures simTick % dp.thinkPeriod != player % dp.thinkPeriod || snap.me.defeated ==>
                sent == [] && seen == old(seen) && history == old(history) && rng == old(rng)
      ensures simTick % dp.thinkPeriod == player % dp.thinkPeriod && !snap.me.defeated ==>
                && seen == old(seen) + [InputAt(View(snap), player, dp, simTick)]
                && history == old(history) + [Thought(View(snap), simTick, sent)]
                && Sends(View(snap), player, dp, simTick, ChoiceAt(dp, seen, |old(seen)|), sent)
      ensures |sent| <= dp.producersPerThink + 257
      ensures UniqueIds(snap.units) && CommandersBuild(snap.units) ==> NoRepeat(sent)
    {
      sent := [];
      if simTick % dp.thinkPeriod != player % dp.thinkPeriod { return; }
      if snap.me.defeated { return; }
      sent := ThinkOnRecord(View(snap), simTick);
    }

    /** One think, entered in the record. */
    method ThinkOnRecord(w: World, simTick: u32) returns (ghost sent: seq<Command>)
      requires Valid() && Recorded()
      modifies this`rng, this`scouted, this`lastRaidTick, this`log, this`seen, this`history
      ensures Valid() && Recorded() && log == old(log) + sent
      ensures seen == old(seen) + [InputAt(w, player, dp, simTick)]
              && history == old(history) + [Thought(w, simTick, sent)]
      ensures Sends(w, player, dp, simTick, ChoiceAt(dp, seen, |old(seen)|), sent)
      ensures |sent| <= dp.producersPerThink + 1 + MAX_WAVE_CMDS
      ensures UniqueIds(w.units) && CommandersBuild(w.units) ==> NoRepeat(sent)
    {
      ghost var choice;
      sent, choice := Think(w, simTick);
      ghost var t := Thought(w, simTick, sent);
      history := history + [t];
      RecordMore(player, dp, old(seen), old(history), old(log), t);
    }

    method Think(w: World, simTick: u32) returns (ghost sent: seq<Command>, ghost choice: WaveChoice)
      requires Valid()
      modifies this`rng, this`scouted, this`lastRaidTick, this`log, this`seen
      ensures Valid() && log == old(log) + sent && seen == old(seen) + [InputAt(w, player, dp, simTick)]
      ensures choice == ChoiceAt(dp, seen, |old(seen)|) && Sends(w, player, dp, simTick, choice, sent)
      ensures |sent| <= dp.producersPerThink + 1 + MAX_WAVE_CMDS
      ensures UniqueIds(w.units) && CommandersBuild(w.units) ==> NoRepeat(sent)
    {
      ghost var orders, acted := BuildAndReturn(w, simTick);
      choice := SendWaves(w, simTick);
      sent := ThinkLog(w, player, orders, choice);
      ThinkSends(w, player, dp, simTick, choice, orders, acted, old(log), log, sent);
    }

    /** The first half of a think: the builders' orders and the walk home. */
    method BuildAndReturn(w: World, simTick: u32) returns (ghost orders: seq<Command>, ghost acted: bool)
      modifies this`rng, this`log
      ensures log == old(log) + orders + WalkHome(w, player, acted)
      ensures BuildOrders(w, player, dp, simTick, orders) && (acted <==> DrivesCommander(w, orders))
      ensures |orders| <= (if dp.producersPerThink > 0 then dp.producersPerThink else 0)
      ensures UniqueIds(w.units) ==> ProducerOrders(w, player, orders)
    {
      var commanderActed;
      commanderActed, orders := Produces(w, simTick);
      acted := commanderActed;
      CallHome(w, commanderActed);
    }

    /** Keep the commander near home. */
    method CallHome(w: World, commanderActed: bool)
      modifies this`log
      ensures log == old(log) + WalkHome(w, player, commanderActed)
    {
      var u := FindCommander(player, w.units);
      if u == None { return; }
      if commanderActed || !u.value.idleOrders || u.value.buildSite != 0 || u.value.underConstruction { return; }
      var dx, dz := u.value.x - w.home.0, u.value.z - w.home.1;
      if dx * dx + dz * dz > HOME_LEASH * HOME_LEASH {
        log := log + [Command(Move, u.value.id, "", w.home.0, w.home.1)];
      }
    }

    /** The build half of a think: collect the idle producers, rotate them, and let them act
        unless money is short while something is already being built. */
    method Produces(w: World, simTick: u32) returns (commanderActed: bool, ghost orders: seq<Command>)
      modifies this`rng, this`log
      ensures log == old(log) + orders
      ensures |orders| <= (if dp.producersPerThink > 0 then dp.producersPerThink else 0)
      ensures commanderActed <==> DrivesCommander(w, orders)
      ensures UniqueIds(w.units) ==> ProducerOrders(w, player, orders)
      ensures BuildOrders(w, player, dp, simTick, orders)
    {
      var producers := CollectIds(w.units, u => IdleProducer(w.brain, player, u));
      IdsAre(w.units, u => IdleProducer(w.brain, player, u));
      if producers != [] && dp.producersPerThink < |producers| {
        var rr := simTick / (if dp.thinkPeriod < 1 then 1 else dp.thinkPeriod);
        ghost var before := producers;
        producers := Rotated(producers, rr % |producers|);
        if Distinct(before) { RotatedDistinct(before, rr % |before|); }
      }
      commanderActed, orders := false, [];
      var throttle := w.brain.me.metalCur < 50.0 && Building(player, w.units);
      if !throttle {
        commanderActed, orders := DriveProducers(w, producers);
      }
    }
  }

  lemma DrivesMore(w: World, cs: seq<Command>, c: Command)
    ensures DrivesCommander(w, cs + [c]) <==>
              || DrivesCommander(w, cs)
              || (var u := UnitById(w.units, c.unitId);
                  u.Some? && u.value.utype.Some? && u.value.utype.value.commander)
  {
    var all := cs + [c];
    assert all[|cs|] == c && forall i :: 0 <= i < |cs| ==> all[i] == cs[i];
    if DrivesCommander(w, cs) {
      var i :| 0 <= i < |cs| && var u := UnitById(w.units, cs[i].unitId);
                               u.Some? && u.value.utype.Some? && u.value.utype.value.commander;
      assert all[i] == cs[i];
    }
  }
}
