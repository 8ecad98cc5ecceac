/** What the skirmish AI would like to build (src/ai/ai.cpp, src/ai/ai.h): the case
    analyses that its decisions rest on. */
module Planner {
  import opened Basics
  import opened Profile

  datatype Difficulty = Passive | Easier | Normal | Harder | Absurd

  function ForDifficulty(prof: Profile, d: Difficulty): Plan
  {
    match d
    case Passive => prof.easy
    case Easier => prof.easy
    case Normal => prof.medium
    case Harder => prof.hard
    case Absurd => prof.hard
  }

  datatype DiffParams = DiffParams(thinkPeriod: int, waveSize: int, producersPerThink: int, limitScale: int,
                                   scout: bool, attack: bool, raidSize: int)

  function ParamsFor(d: Difficulty): DiffParams
  {
    match d
    case Passive => DiffParams(60, 4, 1, 70, false, false, 0)
    case Easier => DiffParams(60, 4, 1, 70, false, true, 0)
    case Normal => DiffParams(30, 5, 3, 100, true, true, 3)
    case Harder => DiffParams(20, 6, 8, 150, true, true, 4)
    case Absurd => DiffParams(20, 6, 8, 150, true, true, 4)
  }

  datatype BuildCat = Economy | Power | Factory | Builder | Army | Defense

  /** The stats of a unit type that the planner reads. */
  datatype UnitType = UnitType(
    id: string, maxVel: real, isBuilder: bool, commander: bool, canFly: bool,
    buildTime: real, workerTime: real, buildCostMetal: real, energyUse: real,
    extractsMetal: real, makesMetal: real, metalMake: real, metalStorage: real,
    energyMake: real, windGenerator: real, tidalGenerator: real, energyStorage: real,
    categories: seq<string>)
  {
    predicate IsStructure() { maxVel <= 0.0 }
  }

  datatype Registry = Registry(types: map<string, UnitType>, menus: map<string, seq<string>>)
  {
    function Find(id: string): Option<UnitType> { if id in types then Some(types[id]) else None }

    function Buildable(id: string): seq<string> { if id in menus then menus[id] else [] }

    /** Menu entries that are structures (or mobile fighters) among the first `n`. */
    function Count(menu: seq<string>, structures: bool): nat
    {
      if menu == [] then 0
      else
        var b := Find(menu[|menu| - 1]);
        Count(menu[..|menu| - 1], structures) +
        if b.Some? && (if structures then b.value.IsStructure() else !b.value.IsStructure() && !b.value.isBuilder)
            then 1 else 0
    }

    /** What a unit is for, derived from its stats. */
    function CategoryOf(t: UnitType): BuildCat
    {
      if t.IsStructure() then
        if Buildable(t.id) != [] then Factory
        else if t.extractsMetal > 0.0 || t.makesMetal > 0.0 || t.metalMake > 0.0 || t.metalStorage > 0.0 then Economy
        else if t.energyMake > 0.0 || t.windGenerator > 0.0 || t.tidalGenerator > 0.0 || t.energyStorage > 0.0
            then Power
        else Defense
      else if t.isBuilder then
        var combat, structs := Count(Buildable(t.id), false), Count(Buildable(t.id), true);
        if !t.commander && combat > structs && combat > 0 then Factory else Builder
      else Army
    }
  }

  datatype Needs = Needs(income: real, counts: map<string, nat>, factories: int, builders: int, builderCap: int,
                         desiredFactories: int, factoryDraw: real, energyIncome: real, energyDrain: real,
                         energyStock: real, metalStock: real, metalCap: real, energyCap: real)

  /** How urgent one more of a category is. */
  function Desire(c: BuildCat, n: Needs): (d: int)
    ensures 0 <= d <= 96
    ensures c == Defense ==> d == 0
  {
    match c
    case Economy =>
      if n.income < n.factoryDraw then 95
      else if n.income < n.factoryDraw * (n.factories + 1) as real then 60 else 0
    case Power =>
      if n.energyIncome < n.energyDrain then 96
      else if n.energyIncome < n.energyDrain * 1.5 + 20.0 then 55 else 0
    case Factory => if n.factories == 0 then 90 else if n.factories < n.desiredFactories then 70 else 0
    case Builder => if n.builders < n.builderCap then 65 else 0
    case Army => 50
    case Defense => 0
  }

  /** No two categories are ever wanted equally, so the draw among the most wanted entries
      never mixes categories. */
  lemma DesiresDiffer(n: Needs, c: BuildCat, d: BuildCat)
    requires Desire(c, n) == Desire(d, n) > 0
    ensures c == d
  {
  }

  /** The ladder: an energy stall comes before everything, income before the first factory,
      the first factory before what remains, and the army takes what nothing else wants. */
  lemma Ladder(n: Needs, c: BuildCat)
    ensures n.energyIncome < n.energyDrain ==> Desire(c, n) <= Desire(Power, n)
    ensures n.income < n.factoryDraw && c != Power ==> Desire(c, n) <= Desire(Economy, n)
    ensures n.factories == 0 && Desire(c, n) > Desire(Factory, n) ==>
              (c == Power && n.energyIncome < n.energyDrain) || (c == Economy && n.income < n.factoryDraw)
    ensures c != Army ==> Desire(c, n) == 0 || Desire(c, n) > Desire(Army, n)
  {
  }

  // --- Resolving a profile for one unit type ------------------------------------------------

  const WEIGHT_ONE := 100

  /** Category weights compound in hundredths, rounding towards zero each time. */
  function Compound(plan: Plan, cats: seq<string>): int
  {
    if cats == [] then WEIGHT_ONE
    else
      var w := Compound(plan, cats[..|cats| - 1]);
      var c := cats[|cats| - 1];
      if c in plan.weight then TruncDiv(w * plan.weight[c], WEIGHT_ONE) else w
  }

  function ProfileWeight(plan: Plan, t: UnitType): int
  {
    if t.id in plan.weight then plan.weight[t.id]
    else
      var w := Compound(plan, t.categories);
      if w < 0 then 0 else if w > 1000000 then 1000000 else w
  }

  /** The limit over the categories seen so far, -1 when none matched. */
  function CategoryLimit(plan: Plan, cats: seq<string>): int
  {
    if cats == [] then -1
    else
      var lim := CategoryLimit(plan, cats[..|cats| - 1]);
      var c := cats[|cats| - 1];
      if c !in plan.limit then lim
      else if lim < 0 then plan.limit[c]
      else if plan.limit[c] < lim then plan.limit[c] else lim
  }

  function ProfileLimit(plan: Plan, t: UnitType): int
  {
    if t.id in plan.limit then plan.limit[t.id] else CategoryLimit(plan, t.categories)
  }

  /** A unit the profile does not mention keeps weight one and no limit. */
  lemma {:induction false} SilenceMeansDefault(plan: Plan, cats: seq<string>)
    requires forall c :: c in cats ==> c !in plan.weight && c !in plan.limit
    ensures Compound(plan, cats) == WEIGHT_ONE && CategoryLimit(plan, cats) == -1
  {
    if cats != [] { SilenceMeansDefault(plan, cats[..|cats| - 1]); }
  }

  predicate Limited(plan: Plan, cats: seq<string>, i: int) { 0 <= i < |cats| && cats[i] in plan.limit }

  /** `lim` is the tightest of the matching limits, -1 when there is none. */
  ghost predicate IsTightest(plan: Plan, cats: seq<string>, lim: int)
  {
    && (forall i :: Limited(plan, cats, i) ==> lim <= plan.limit[cats[i]])
    && ((exists i :: Limited(plan, cats, i) && plan.limit[cats[i]] == lim)
        || (lim == -1 && forall i :: !Limited(plan, cats, i)))
  }

  /** The last match is the tightest. */
  ghost predicate LastIsTightest(plan: Plan, cats: seq<string>)
  {
    exists k :: Limited(plan, cats, k)
      && (forall i :: Limited(plan, cats, i) ==> i <= k)
      && (forall i :: Limited(plan, cats, i) ==> plan.limit[cats[k]] <= plan.limit[cats[i]])
  }

  ghost predicate NoneNegative(plan: Plan, cats: seq<string>)
  {
    forall i :: Limited(plan, cats, i) ==> plan.limit[cats[i]] >= 0
  }

  /** `k` is the last match, and the loop ends with its limit when that is negative, with
      something not negative when it is not. */
  ghost predicate IsLastMatch(plan: Plan, cats: seq<string>, k: int)
  {
    && Limited(plan, cats, k) && (forall i :: Limited(plan, cats, i) ==> i <= k)
    && var lim := CategoryLimit(plan, cats);
       if plan.limit[cats[k]] < 0 then lim == plan.limit[cats[k]] else 0 <= lim
  }

  /** What the loop over the categories ends with. */
  lemma {:induction false} LimitSoFar(plan: Plan, cats: seq<string>) returns (k: int)
    ensures k == -1 || IsLastMatch(plan, cats, k)
    ensures k == -1 ==> CategoryLimit(plan, cats) == -1 && forall i :: !Limited(plan, cats, i)
    ensures NoneNegative(plan, cats) ==> IsTightest(plan, cats, CategoryLimit(plan, cats))
  {
    if cats == [] {
      k := -1;
    } else {
      var n := |cats| - 1;
      var front := cats[..n];
      assert cats == front + [cats[n]];
      k := LimitSoFar(plan, front);
      forall i | 0 <= i < n ensures Limited(plan, cats, i) <==> Limited(plan, front, i) { assert front[i] == cats[i]; }
      assert NoneNegative(plan, cats) ==> NoneNegative(plan, front);
      if Limited(plan, cats, n) { k := n; }
    }
  }

  /** Limits take the tightest match exactly when none of the matches is negative, or the
      last match happens to be the tightest. */
  lemma LimitIsTightest(plan: Plan, cats: seq<string>)
    ensures IsTightest(plan, cats, CategoryLimit(plan, cats)) <==>
            NoneNegative(plan, cats) || LastIsTightest(plan, cats)
  {
    var k := LimitSoFar(plan, cats);
    if !NoneNegative(plan, cats) {
      var i :| Limited(plan, cats, i) && plan.limit[cats[i]] < 0;
      TightestIsLast(plan, cats, i, k);
      LastIsTight(plan, cats, i, k);
    }
  }

  lemma TightestIsLast(plan: Plan, cats: seq<string>, i: int, k: int)
    requires Limited(plan, cats, i) && plan.limit[cats[i]] < 0 && IsLastMatch(plan, cats, k)
    ensures IsTightest(plan, cats, CategoryLimit(plan, cats)) ==> LastIsTightest(plan, cats)
  {
  }

  lemma LastIsTight(plan: Plan, cats: seq<string>, i: int, k: int)
    requires Limited(plan, cats, i) && plan.limit[cats[i]] < 0 && IsLastMatch(plan, cats, k)
    ensures LastIsTightest(plan, cats) ==> IsTightest(plan, cats, CategoryLimit(plan, cats))
  {
    if LastIsTightest(plan, cats) {
      var l :| Limited(plan, cats, l) && (forall j :: Limited(plan, cats, j) ==> j <= l)
        && (forall j :: Limited(plan, cats, j) ==> plan.limit[cats[l]] <= plan.limit[cats[j]]);
      assert l == k;
    }
  }

  /** A negative limit is forgotten by the next match. */
  lemma NegativeLimitForgotten() returns (plan: Plan, cats: seq<string>)
    ensures CategoryLimit(plan, cats) == 7 && Limited(plan, cats, 0) && plan.limit[cats[0]] == -5
    ensures !IsTightest(plan, cats, CategoryLimit(plan, cats))
  {
    plan, cats := Plan(map[], map["a" := -5, "b" := 7]), ["a", "b"];
    assert cats[..1] == ["a"] && ["a"][..0] == [];
    assert CategoryLimit(plan, ["a"]) == -5;
  }

  // --- Menu entries ------------------------------------------------------------------------------

  /** The economy of the AI's own player. */
  datatype PlayerView = PlayerView(defeated: bool, metalCur: real, metalIncome: real, incomeMult: real)
  {
    function BaseIncome(): real { metalIncome / (if incomeMult < 1.0 then 1.0 else incomeMult) }
  }

  datatype Brain = Brain(reg: Registry, plan: Plan, dp: DiffParams, me: PlayerView, needs: Needs)
  {
    /** A pure store pays only when its resource is close to overflowing. */
    predicate IdleStore(t: UnitType)
    {
      var cat := reg.CategoryOf(t);
      (cat == Economy || cat == Power) &&
      (   (t.metalStorage > 0.0 && t.extractsMetal <= 0.0 && t.makesMetal <= 0.0 && t.metalMake <= 0.0
           && needs.metalStock < needs.metalCap * 0.8)
       || (t.energyStorage > 0.0 && t.energyMake <= 0.0 && t.windGenerator <= 0.0 && t.tidalGenerator <= 0.0
           && needs.energyStock < needs.energyCap * 0.8))
    }

    predicate Starved(t: UnitType)
    {
      t.makesMetal > 0.0 && t.energyUse > 0.0 && needs.energyIncome - needs.energyDrain < t.energyUse
    }

    predicate AtLimit(t: UnitType)
    {
      var lim := ProfileLimit(plan, t);
      var have := if t.id in needs.counts then needs.counts[t.id] else 0;
      var cap := TruncDiv(lim * dp.limitScale, 100);
      lim == 0 || (lim > 0 && have >= (if cap < 1 then 1 else cap))
    }

    predicate Unaffordable(producer: UnitType, t: UnitType)
    {
      t.buildTime > 0.0 &&
      var secs := t.buildTime / (if producer.workerTime < 1.0 then 1.0 else producer.workerTime);
      me.metalCur + me.BaseIncome() * secs < t.buildCostMetal
    }

    /** The draw weight of a menu entry, 0 when it may not be built now. */
    function Usable(producer: UnitType, id: string): (w: nat)
    {
      match reg.Find(id)
      case None => 0
      case Some(t) =>
        var w := ProfileWeight(plan, t);
        if w <= 0 || IdleStore(t) || Starved(t) || AtLimit(t) || Unaffordable(producer, t) then 0 else w
    }

    /** The category of a known menu entry. */
    function Cat(id: string): BuildCat { match reg.Find(id) case None => Defense case Some(t) => reg.CategoryOf(t) }

    /** An entry that may be picked: usable and not in an excluded category. */
    predicate Candidate(producer: UnitType, exclude: set<BuildCat>, id: string)
    {
      Usable(producer, id) > 0 && Cat(id) !in exclude
    }

    function Worth(id: string): int { Desire(Cat(id), needs) }

    lemma CandidateKnown(producer: UnitType, id: string)
      requires Usable(producer, id) > 0
      ensures reg.Find(id).Some? && Cat(id) == reg.CategoryOf(reg.Find(id).value)
    {
    }
  }
}
