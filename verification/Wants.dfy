/** What the build planner wants, read off the stats of the units and the figures of the economy
    (src/ai/ai.cpp): the kinds of units, the ladder of needs, and what may be built at all. */
module Wants {
  import opened Basics
  import opened Planner
  import Profile

  // --- Kinds of units -------------------------------------------------------------------------------

  /** A building that produces nothing. */
  predicate Plain(reg: Registry, t: UnitType) { t.maxVel <= 0.0 && reg.Buildable(t.id) == [] }

  predicate MetalPlant(reg: Registry, t: UnitType)
  {
    Plain(reg, t) && (t.extractsMetal > 0.0 || t.makesMetal > 0.0 || t.metalMake > 0.0 || t.metalStorage > 0.0)
  }

  /** It has to do with energy and not with metal. */
  predicate EnergyPlant(reg: Registry, t: UnitType)
  {
    && Plain(reg, t)
    && t.extractsMetal <= 0.0 && t.makesMetal <= 0.0 && t.metalMake <= 0.0 && t.metalStorage <= 0.0
    && (t.energyMake > 0.0 || t.windGenerator > 0.0 || t.tidalGenerator > 0.0 || t.energyStorage > 0.0)
  }

  /** The places on a menu whose entry passes a test. */
  function Places(menu: seq<string>, f: string -> bool): set<int> { set i | 0 <= i < |menu| && f(menu[i]) }

  /** Those that offer buildings, and those that offer mobile fighters. */
  function Buildings(reg: Registry, menu: seq<string>): set<int>
  {
    Places(menu, id => id in reg.types && reg.types[id].maxVel <= 0.0)
  }

  function Fighting(reg: Registry, menu: seq<string>): set<int>
  {
    Places(menu, id => id in reg.types && reg.types[id].maxVel > 0.0 && !reg.types[id].isBuilder)
  }

  /** A mobile builder other than a commander that offers more fighters than buildings. */
  predicate MobileFactory(reg: Registry, t: UnitType)
  {
    && t.maxVel > 0.0 && t.isBuilder && !t.commander
    && |Fighting(reg, reg.Buildable(t.id))| > |Buildings(reg, reg.Buildable(t.id))|
  }

  predicate FactoryLike(reg: Registry, t: UnitType)
  {
    (t.maxVel <= 0.0 && reg.Buildable(t.id) != []) || MobileFactory(reg, t)
  }

  predicate BuilderLike(reg: Registry, t: UnitType) { t.maxVel > 0.0 && t.isBuilder && !MobileFactory(reg, t) }

  predicate Fighter(t: UnitType) { t.maxVel > 0.0 && !t.isBuilder }

  lemma {:induction false} CountsAre(reg: Registry, menu: seq<string>)
    ensures reg.Count(menu, true) == |Buildings(reg, menu)| && reg.Count(menu, false) == |Fighting(reg, menu)|
  {
    if menu != [] {
      var front := menu[..|menu| - 1];
      CountsAre(reg, front);
      OneMoreEntry(reg, front, menu[|menu| - 1]);
      assert menu == front + [menu[|menu| - 1]];
    }
  }

  lemma OneMoreEntry(reg: Registry, front: seq<string>, id: string)
    ensures |Buildings(reg, front + [id])| ==
            |Buildings(reg, front)| + if id in reg.types && reg.types[id].maxVel <= 0.0 then 1 else 0
    ensures |Fighting(reg, front + [id])| ==
            |Fighting(reg, front)| + if id in reg.types && reg.types[id].maxVel > 0.0 && !reg.types[id].isBuilder
                then 1 else 0
  {
    OneMorePlace(front, id, id => id in reg.types && reg.types[id].maxVel <= 0.0);
    OneMorePlace(front, id, id => id in reg.types && reg.types[id].maxVel > 0.0 && !reg.types[id].isBuilder);
  }

  lemma OneMorePlace(front: seq<string>, id: string, f: string -> bool)
    ensures |Places(front + [id], f)| == |Places(front, f)| + if f(id) then 1 else 0
  {
    var menu, n := front + [id], |front|;
    assert menu[n] == id && n !in Places(front, f);
    forall i ensures i in Places(menu, f) <==> i in Places(front, f) || (f(id) && i == n) {
      if 0 <= i < n { assert menu[i] == front[i]; }
    }
    if f(id) {
      assert Places(menu, f) == Places(front, f) + {n};
    } else {
      assert Places(menu, f) == Places(front, f);
    }
  }

  /** Every unit is of one kind, and its category is that of its kind. */
  lemma KindIs(reg: Registry, t: UnitType)
    ensures reg.CategoryOf(t) == Economy <==> MetalPlant(reg, t)
    ensures reg.CategoryOf(t) == Power <==> EnergyPlant(reg, t)
    ensures reg.CategoryOf(t) == Factory <==> FactoryLike(reg, t)
    ensures reg.CategoryOf(t) == Builder <==> BuilderLike(reg, t)
    ensures reg.CategoryOf(t) == Army <==> Fighter(t)
  {
    CountsAre(reg, reg.Buildable(t.id));
  }

  // --- The ladder of needs --------------------------------------------------------------------------

  /** Rung `k` of the ladder, 1 the most urgent: what is needed there, and when. */
  predicate OnRung(b: Brain, t: UnitType, k: int)
  {
    var n := b.needs;
    match k
    case 1 => EnergyPlant(b.reg, t) && n.energyIncome < n.energyDrain
    case 2 => MetalPlant(b.reg, t) && n.income < n.factoryDraw
    case 3 => FactoryLike(b.reg, t) && n.factories == 0
    case 4 => FactoryLike(b.reg, t) && n.factories < n.desiredFactories
    case 5 => BuilderLike(b.reg, t) && n.builders < n.builderCap
    case 6 => MetalPlant(b.reg, t) && n.income < n.factoryDraw * (n.factories + 1) as real
    case 7 => EnergyPlant(b.reg, t) && n.energyIncome < n.energyDrain * 1.5 + 20.0
    case 8 => Fighter(t)
    case _ => false
  }

  ghost predicate Needed(b: Brain, t: UnitType) { exists k :: OnRung(b, t, k) }

  /** `t` is at least as urgent as `o`. */
  ghost predicate AsUrgent(b: Brain, t: UnitType, o: UnitType)
  {
    forall k :: OnRung(b, o, k) ==> exists j :: j <= k && OnRung(b, t, j)
  }

  /** The highest rung a unit stands on, 9 for none. */
  function Rung(b: Brain, t: UnitType): (k: int)
    ensures 1 <= k <= 9 && (k < 9 ==> OnRung(b, t, k)) && forall j :: j < k ==> !OnRung(b, t, j)
  {
    if OnRung(b, t, 1) then 1 else if OnRung(b, t, 2) then 2 else if OnRung(b, t, 3) then 3
    else if OnRung(b, t, 4) then 4 else if OnRung(b, t, 5) then 5 else if OnRung(b, t, 6) then 6
    else if OnRung(b, t, 7) then 7 else if OnRung(b, t, 8) then 8 else 9
  }

  /** The scores of the planner follow the ladder. */
  lemma ScoreIs(b: Brain, t: UnitType)
    ensures var d := Desire(b.reg.CategoryOf(t), b.needs);
            match Rung(b, t)
            case 1 => d == 96 case 2 => d == 95 case 3 => d == 90 case 4 => d == 70 case 5 => d == 65
            case 6 => d == 60 case 7 => d == 55 case 8 => d == 50 case _ => d == 0
  {
    KindIs(b.reg, t);
  }

  lemma ScoresCompare(b: Brain, t: UnitType, o: UnitType)
    ensures Desire(b.reg.CategoryOf(t), b.needs) > 0 <==> Needed(b, t)
    ensures Desire(b.reg.CategoryOf(o), b.needs) <= Desire(b.reg.CategoryOf(t), b.needs) ==> AsUrgent(b, t, o)
    ensures AsUrgent(b, t, o) ==> Desire(b.reg.CategoryOf(o), b.needs) <= Desire(b.reg.CategoryOf(t), b.needs)
  {
    ScoreIs(b, t);
    ScoreIs(b, o);
    var i, j := Rung(b, t), Rung(b, o);
    if i < 9 { assert OnRung(b, t, i); }
    if j < 9 { assert OnRung(b, o, j); }
    assert forall k :: OnRung(b, t, k) ==> i <= k;
    assert forall k :: OnRung(b, o, k) ==> j <= k;
  }

  // --- What may be built ------------------------------------------------------------------------------

  function Larger(a: real, b: real): real { if a < b then b else a }

  /** Nothing but a store for metal, or for energy. */
  predicate MetalStore(t: UnitType)
  {
    t.metalStorage > 0.0 && t.extractsMetal <= 0.0 && t.makesMetal <= 0.0 && t.metalMake <= 0.0
  }

  predicate EnergyStore(t: UnitType)
  {
    t.energyStorage > 0.0 && t.energyMake <= 0.0 && t.windGenerator <= 0.0 && t.tidalGenerator <= 0.0
  }

  /** One more stays within the limit, scaled by the difficulty; the first one is never too many,
      but for a limit of zero. */
  predicate WithinLimit(b: Brain, t: UnitType)
  {
    var lim, have := Planner.ProfileLimit(b.plan, t), if t.id in b.needs.counts then b.needs.counts[t.id] else 0;
    lim < 0 || (lim > 0 && (have == 0 || 100 * (have + 1) <= lim * b.dp.limitScale))
  }

  /** Savings and base income pay for it by the time it is finished. */
  predicate PaidInTime(b: Brain, producer: UnitType, t: UnitType)
  {
    t.buildTime > 0.0 ==>
      (t.buildCostMetal - b.me.metalCur) * Larger(producer.workerTime, 1.0) * Larger(b.me.incomeMult, 1.0)
      <= b.me.metalIncome * t.buildTime
  }

  /** Nothing speaks against building one more. */
  predicate MayBuild(b: Brain, producer: UnitType, t: UnitType)
  {
    && ProfileWeight(b.plan, t) > 0 && WithinLimit(b, t) && PaidInTime(b, producer, t)
    && (Plain(b.reg, t) && MetalStore(t) ==> 10.0 * b.needs.metalStock >= 8.0 * b.needs.metalCap)
    && (Plain(b.reg, t) && EnergyStore(t) ==> 10.0 * b.needs.energyStock >= 8.0 * b.needs.energyCap)
    && (t.makesMetal > 0.0 && t.energyUse > 0.0 ==> b.needs.energyDrain + t.energyUse <= b.needs.energyIncome)
  }

  lemma Scaled(have: nat, x: int)
    ensures have >= (if TruncDiv(x, 100) < 1 then 1 else TruncDiv(x, 100)) <==> have > 0 && 100 * (have + 1) > x
  {
  }

  /** cost <= cur + (inc / m) * (time / s), without the divisions. */
  lemma Multiplied(cost: real, cur: real, inc: real, m: real, time: real, s: real)
    requires m >= 1.0 && s >= 1.0
    ensures cur + (inc / m) * (time / s) < cost <==> inc * time < (cost - cur) * s * m
  {
    var p := (inc / m) * (time / s);
    assert p * s == (inc / m) * time by { assert (time / s) * s == time; Regroup(inc / m, time / s, s); }
    assert p * s * m == inc * time by { assert (inc / m) * m == inc; Regroup(time, inc / m, m); }
    Compare(p, cost - cur, s);
    Compare(p * s, (cost - cur) * s, m);
  }

  lemma Regroup(a: real, b: real, c: real)
    ensures a * b * c == a * (b * c) && b * a * c == a * (b * c)
  {
  }

  lemma Compare(a: real, b: real, c: real)
    requires c > 0.0
    ensures a < b <==> a * c < b * c
  {
    assert (b - a) * c == b * c - a * c;
    if a < b { assert (b - a) * c > 0.0; } else { assert (a - b) * c >= 0.0; }
  }

  /** An entry is usable exactly when the registry knows it and nothing speaks against it; its draw
      weight is then the one the profile gives. */
  lemma UsableIs(b: Brain, producer: UnitType, id: string)
    ensures b.Usable(producer, id) > 0 <==> id in b.reg.types && MayBuild(b, producer, b.reg.types[id])
    ensures b.Usable(producer, id) > 0 ==> b.Usable(producer, id) == ProfileWeight(b.plan, b.reg.types[id])
  {
    if id in b.reg.types {
      var t := b.reg.types[id];
      var have := if t.id in b.needs.counts then b.needs.counts[t.id] else 0;
      Scaled(have, Planner.ProfileLimit(b.plan, t) * b.dp.limitScale);
      PaidIs(b, producer, t);
      StoresAre(b, t);
    }
  }

  lemma PaidIs(b: Brain, producer: UnitType, t: UnitType)
    ensures b.Unaffordable(producer, t) <==> !PaidInTime(b, producer, t)
  {
    Multiplied(t.buildCostMetal, b.me.metalCur, b.me.metalIncome, Larger(b.me.incomeMult, 1.0), t.buildTime,
               Larger(producer.workerTime, 1.0));
  }

  lemma StoresAre(b: Brain, t: UnitType)
    ensures b.IdleStore(t) <==>
              Plain(b.reg, t) && ((MetalStore(t) && 10.0 * b.needs.metalStock < 8.0 * b.needs.metalCap)
                                  || (EnergyStore(t) && 10.0 * b.needs.energyStock < 8.0 * b.needs.energyCap))
  {
    KindIs(b.reg, t);
  }

  // --- Picks ------------------------------------------------------------------------------------------

  /** Units of this kind have not been struck out. */
  predicate Allowed(exclude: set<BuildCat>, reg: Registry, t: UnitType)
  {
    && (MetalPlant(reg, t) ==> Economy !in exclude) && (EnergyPlant(reg, t) ==> Power !in exclude)
    && (FactoryLike(reg, t) ==> Factory !in exclude) && (BuilderLike(reg, t) ==> Builder !in exclude)
    && (Fighter(t) ==> Army !in exclude)
  }

  /** A known menu entry that may be built and is of some use. */
  ghost predicate OnOffer(b: Brain, producer: UnitType, exclude: set<BuildCat>, id: string)
  {
    && id in b.reg.Buildable(producer.id) && id in b.reg.types
    && MayBuild(b, producer, b.reg.types[id]) && Needed(b, b.reg.types[id]) && Allowed(exclude, b.reg, b.reg.types[id])
  }

  /** Of all on offer, none is more urgent. */
  ghost predicate MostUrgent(b: Brain, producer: UnitType, exclude: set<BuildCat>, id: string)
  {
    && OnOffer(b, producer, exclude, id)
    && forall other :: OnOffer(b, producer, exclude, other) ==> AsUrgent(b, b.reg.types[id], b.reg.types[other])
  }

  ghost predicate NothingOnOffer(b: Brain, producer: UnitType, exclude: set<BuildCat>)
  {
    forall id :: !OnOffer(b, producer, exclude, id)
  }

  /** A most urgent entry is of type `t`. */
  ghost predicate IsMostUrgent(b: Brain, producer: UnitType, exclude: set<BuildCat>, t: UnitType)
  {
    exists id :: MostUrgent(b, producer, exclude, id) && b.reg.types[id] == t
  }

  /** A candidate of some worth is an entry on offer. */
  lemma OfferIs(b: Brain, producer: UnitType, exclude: set<BuildCat>, id: string)
    ensures id in b.reg.Buildable(producer.id) && b.Candidate(producer, exclude, id) && b.Worth(id) > 0 <==>
            OnOffer(b, producer, exclude, id)
  {
    UsableIs(b, producer, id);
    if id in b.reg.types {
      WorthIs(b, id);
      AllowedIs(b.reg, b.reg.types[id], exclude);
    }
  }

  lemma WorthIs(b: Brain, id: string)
    requires id in b.reg.types
    ensures b.Worth(id) > 0 <==> Needed(b, b.reg.types[id])
    ensures b.Worth(id) > 0 ==> b.reg.CategoryOf(b.reg.types[id]) != Defense
  {
    var c := b.reg.CategoryOf(b.reg.types[id]);
    assert b.Worth(id) == Desire(c, b.needs) && (c == Defense ==> Desire(c, b.needs) == 0);
    ScoresCompare(b, b.reg.types[id], b.reg.types[id]);
  }

  lemma AllowedIs(reg: Registry, t: UnitType, exclude: set<BuildCat>)
    ensures reg.CategoryOf(t) != Defense ==> (reg.CategoryOf(t) !in exclude <==> Allowed(exclude, reg, t))
  {
    KindIs(reg, t);
  }

  lemma WorthCompares(b: Brain, id: string, other: string)
    requires id in b.reg.types && other in b.reg.types
    ensures b.Worth(other) <= b.Worth(id) <==> AsUrgent(b, b.reg.types[id], b.reg.types[other])
  {
    ScoresCompare(b, b.reg.types[id], b.reg.types[other]);
  }

  // --- The profile's word ----------------------------------------------------------------------------

  /** The profile speaks of category tag `i` of a unit. */
  predicate Weighted(plan: Profile.Plan, cats: seq<string>, i: int) { 0 <= i < |cats| && cats[i] in plan.weight }

  /** Tags it does not speak of do not matter. */
  lemma {:induction false} SilentTag(plan: Profile.Plan, cats: seq<string>, more: seq<string>)
    requires forall c :: c in more ==> c !in plan.weight
    ensures Compound(plan, cats + more) == Compound(plan, cats)
    decreases |more|
  {
    if more == [] {
      assert cats + more == cats;
    } else {
      var front := more[..|more| - 1];
      assert (cats + more)[..|cats + more| - 1] == cats + front;
      SilentTag(plan, cats, front);
    }
  }

  /** One tag it speaks of gives its weight. */
  lemma OneTag(plan: Profile.Plan, cats: seq<string>, i: nat)
    requires Weighted(plan, cats, i) && plan.weight[cats[i]] >= 0 && forall k :: Weighted(plan, cats, k) ==> k == i
    ensures Compound(plan, cats) == plan.weight[cats[i]]
  {
    var a, rest := cats[..i], cats[i + 1..];
    assert cats == cats[..i + 1] + rest && cats[..i + 1][..i] == a && [] + a == a;
    forall c | c in a ensures c !in plan.weight {
      var k :| 0 <= k < i && cats[k] == c;
      assert !Weighted(plan, cats, k);
    }
    forall c | c in rest ensures c !in plan.weight {
      var k :| i < k < |cats| && cats[k] == c;
      assert !Weighted(plan, cats, k);
    }
    SilentTag(plan, cats[..i + 1], rest);
    SilentTag(plan, [], a);
  }

  /** Two of them give the product, in hundredths and rounded down. */
  lemma TwoTags(plan: Profile.Plan, cats: seq<string>, i: nat, j: nat)
    requires i < j && Weighted(plan, cats, i) && Weighted(plan, cats, j)
    requires plan.weight[cats[i]] >= 0 && plan.weight[cats[j]] >= 0
    requires forall k :: Weighted(plan, cats, k) ==> k == i || k == j
    ensures var w, product := Compound(plan, cats), plan.weight[cats[i]] * plan.weight[cats[j]];
            100 * w <= product < 100 * (w + 1)
  {
    var front, rest := cats[..j], cats[j + 1..];
    assert cats == cats[..j + 1] + rest && cats[..j + 1][..j] == front;
    forall c | c in rest ensures c !in plan.weight {
      var k :| j < k < |cats| && cats[k] == c;
      assert !Weighted(plan, cats, k);
    }
    SilentTag(plan, cats[..j + 1], rest);
    forall k | Weighted(plan, front, k) ensures k == i { assert Weighted(plan, cats, k); }
    OneTag(plan, front, i);
    RoundedDown(plan.weight[cats[i]], plan.weight[cats[j]]);
  }

  lemma RoundedDown(a: nat, b: nat)
    ensures var w := TruncDiv(a * b, WEIGHT_ONE); 100 * w <= a * b < 100 * (w + 1)
  {
    assert a * b >= 0;
  }

  /** An entry under the unit's own id decides alone; otherwise the compound of its tags does, kept
      between nothing and ten thousand. */
  lemma OwnEntryWins(plan: Profile.Plan, t: UnitType)
    ensures t.id in plan.weight ==> ProfileWeight(plan, t) == plan.weight[t.id]
    ensures t.id in plan.limit ==> Planner.ProfileLimit(plan, t) == plan.limit[t.id]
    ensures t.id !in plan.weight && 0 <= Compound(plan, t.categories) <= 1_000_000 ==>
              ProfileWeight(plan, t) == Compound(plan, t.categories)
    ensures t.id !in plan.weight ==> 0 <= ProfileWeight(plan, t) <= 1_000_000
  {
  }

  /** What sets the difficulties apart: Passive is Easier that never attacks, Absurd is Harder, and
      from Easier to Harder a player thinks more often, builds more at a time, and musters more. */
  lemma DifficultiesDiffer()
    ensures ParamsFor(Passive) == ParamsFor(Easier).(attack := false) && ParamsFor(Absurd) == ParamsFor(Harder)
    ensures ParamsFor(Easier).thinkPeriod == 60 && ParamsFor(Normal).thinkPeriod == 30
    ensures ParamsFor(Harder).thinkPeriod == 20
    ensures ParamsFor(Easier).producersPerThink == 1 && ParamsFor(Normal).producersPerThink == 3
    ensures ParamsFor(Harder).producersPerThink == 8
    ensures ParamsFor(Easier).waveSize == 4 && ParamsFor(Normal).waveSize == 5 && ParamsFor(Harder).waveSize == 6
    ensures ParamsFor(Easier).limitScale == 70 && ParamsFor(Normal).limitScale == 100
    ensures ParamsFor(Harder).limitScale == 150
    ensures ParamsFor(Easier).raidSize == 0 && ParamsFor(Normal).raidSize == 3 && ParamsFor(Harder).raidSize == 4
    ensures !ParamsFor(Easier).scout && ParamsFor(Normal).scout && ParamsFor(Harder).scout
    ensures ParamsFor(Easier).attack && ParamsFor(Normal).attack && ParamsFor(Harder).attack
  {
  }
}
