/** What a think sends, read off the units it sees (src/ai/ai.cpp). */
module ControllerLaws {
  import opened Basics
  import opened Controllers
  import opened Planner
  import opened Wants
  import opened Waves

  // --- Producers ------------------------------------------------------------------------------------

  /** Units of one kind. */
  predicate SameKind(reg: Registry, t: UnitType, o: UnitType)
  {
    || (MetalPlant(reg, t) && MetalPlant(reg, o)) || (EnergyPlant(reg, t) && EnergyPlant(reg, o))
    || (FactoryLike(reg, t) && FactoryLike(reg, o)) || (BuilderLike(reg, t) && BuilderLike(reg, o))
    || (Fighter(t) && Fighter(o))
  }

  /** What this unit can do about type `t`, and where: a building trains mobile types at itself; a
      mobile builder builds, on a site or, a mobile type, on a free spot. */
  ghost predicate Orders(w: World, p: Unit, t: UnitType, c: Command)
    requires p.utype.Some?
  {
    && c.unitId == p.id && c.what == t.id
    && if p.utype.value.maxVel <= 0.0 then t.maxVel > 0.0 && c.kind == Train && c.x == 0.0 && c.z == 0.0
       else p.utype.value.isBuilder && c.kind == Build
            && (if t.maxVel <= 0.0 then w.site(p, t) else w.spot(p, t)) == Some((c.x, c.z))
  }

  lemma OrderIs(w: World, p: Unit, t: UnitType, c: Command)
    requires p.utype.Some?
    ensures Produce(w, p, t) == Some(c) <==> Orders(w, p, t, c)
  {
  }

  /** No order can be given for type `t`. */
  ghost predicate CannotOrder(w: World, p: Unit, t: UnitType)
    requires p.utype.Some?
  {
    forall c :: !Orders(w, p, t, c)
  }

  lemma RefusalIs(w: World, p: Unit, t: UnitType)
    requires p.utype.Some?
    ensures Produce(w, p, t) == None <==> CannotOrder(w, p, t)
  {
    if Produce(w, p, t).Some? { OrderIs(w, p, t, Produce(w, p, t).value); }
    forall c ensures Produce(w, p, t) == Some(c) <==> Orders(w, p, t, c) { OrderIs(w, p, t, c); }
  }

  /** An order that went out is for an entry on offer; a more urgent one on offer is of a kind of
      which an entry on offer could not be ordered. */
  lemma OrderFollowsLadder(w: World, p: Unit, c: Command)
    requires p.utype.Some? && Sensible(w, p, c)
    ensures exists id ::
              && OnOffer(w.brain, p.utype.value, {}, id) && Orders(w, p, w.brain.reg.types[id], c)
              && forall other :: OnOffer(w.brain, p.utype.value, {}, other) ==>
                   || AsUrgent(w.brain, w.brain.reg.types[id], w.brain.reg.types[other])
                   || KindFailed(w, p, w.brain.reg.types[other])
  {
    var b, t := w.brain, p.utype.value;
    var id :| BestLeft(w, p, id) && Produce(w, p, b.reg.Find(id).value) == Some(c);
    OfferIs(b, t, {}, id);
    OrderIs(w, p, b.reg.types[id], c);
    forall other | OnOffer(b, t, {}, other) && !AsUrgent(b, b.reg.types[id], b.reg.types[other])
      ensures KindFailed(w, p, b.reg.types[other])
    {
      OfferIs(b, t, {}, other);
      WorthCompares(b, id, other);
      FailedKind(w, p, other);
    }
  }

  /** An entry of the same kind is on offer and cannot be ordered. */
  ghost predicate KindFailed(w: World, p: Unit, o: UnitType)
    requires p.utype.Some?
  {
    exists x :: OnOffer(w.brain, p.utype.value, {}, x) && SameKind(w.brain.reg, w.brain.reg.types[x], o)
                && CannotOrder(w, p, w.brain.reg.types[x])
  }

  lemma FailedKind(w: World, p: Unit, other: string)
    requires p.utype.Some? && OnOffer(w.brain, p.utype.value, {}, other)
    requires Refused(w, p, w.brain.reg.Buildable(p.utype.value.id), w.brain.Cat(other))
    ensures KindFailed(w, p, w.brain.reg.types[other])
  {
    var b, t := w.brain, p.utype.value;
    OfferIs(b, t, {}, other);
    var x :| x in b.reg.Buildable(t.id) && b.Usable(t, x) > 0 && b.Cat(x) == b.Cat(other) && b.Worth(x) > 0
             && Produce(w, p, b.reg.Find(x).value) == None;
    OfferIs(b, t, {}, x);
    WorthIs(b, x);
    KindIs(b.reg, b.reg.types[x]);
    KindIs(b.reg, b.reg.types[other]);
    RefusalIs(w, p, b.reg.types[x]);
    assert SameKind(b.reg, b.reg.types[x], b.reg.types[other]);
  }

  /** While money is short and something of one's own is under construction, nothing new is started. */
  lemma NothingStarted(w: World, player: int, dp: DiffParams, tick: u32, choice: WaveChoice, sent: seq<Command>, k: nat)
    requires Sends(w, player, dp, tick, choice, sent) && w.brain.me.metalCur < 50.0
    requires k < |w.units| && w.units[k].player == player && w.units[k].alive && w.units[k].underConstruction
    ensures forall i :: 0 <= i < |sent| ==> sent[i].kind == Move || sent[i].kind == AttackMove
  {
    var orders :| BuildOrders(w, player, dp, tick, orders) && sent == ThinkLog(w, player, orders, choice);
    assert Building(player, w.units);
  }

  /** Who counts as an idle producer: a living unit of the player that is finished, and either a
      building with a menu and nothing queued, or a mobile builder without orders or a site. */
  lemma ProducersAre(w: World, player: int, id: int)
    ensures id in Producers(w, player) <==>
              exists k :: 0 <= k < |w.units| && w.units[k].id == id &&
                var u := w.units[k];
                && u.alive && u.player == player && !u.underConstruction && u.utype.Some?
                && if u.utype.value.maxVel > 0.0 then u.utype.value.isBuilder && u.idleOrders && u.buildSite == 0
                   else u.queueEmpty && w.brain.reg.Buildable(u.utype.value.id) != []
  {
    IdsAre(w.units, u => IdleProducer(w.brain, player, u));
  }

  // --- Fighters ---------------------------------------------------------------------------------------

  /** Who counts as a fighter for the waves: a living mobile unit of the player that does not build
      and is idle, or only on a plain move. */
  lemma FightersAre(w: World, player: int, id: int)
    ensures id in Fighters(w, player) <==>
              exists k :: 0 <= k < |w.units| && w.units[k].id == id &&
                var u := w.units[k];
                && u.alive && u.player == player && u.utype.Some? && u.utype.value.maxVel > 0.0
                && !u.utype.value.isBuilder
                && (u.idleOrders || (u.frontTarget == 0 && !u.frontAttackMove))
  {
    IdsAre(w.units, u => IdleFighter(player, u));
  }

  /** The big push: the wave size and one more for every four of base income, up to 60. */
  lemma BigPushIs(dp: DiffParams, income: real)
    requires 0 < dp.waveSize <= 60
    ensures dp.waveSize <= BigPush(dp, income) <= 60
    ensures income >= 0.0 && BigPush(dp, income) < 60 ==>
              4.0 * (BigPush(dp, income) - dp.waveSize) as real <= income
              < 4.0 * (BigPush(dp, income) - dp.waveSize) as real + 4.0
    ensures income >= 4.0 * (60 - dp.waveSize) as real ==> BigPush(dp, income) == 60
    ensures income < 4.0 ==> BigPush(dp, income) == dp.waveSize
  {
  }

  /** In any recorded run of a player that attacks, sixty idle fighters with somewhere to go march,
      all of them or the first 256; so do any fighters at all when the economy is tapped out. */
  lemma GreatArmyMarches(player: int, dp: DiffParams, seen: seq<WaveInput>, history: seq<Thought>, log: seq<Command>,
                         j: nat)
    requires IsRecord(player, dp, seen, history, log) && j < |history| && dp.attack
    requires var w := history[j].view;
             var idle := Fighters(w, player);
             && w.objective(idle).Some?
             && (|idle| >= 60 || (idle != [] && w.brain.me.metalCur < 200.0 && w.brain.me.metalIncome < 40.0))
    ensures var idle := Fighters(history[j].view, player);
            Attacks(history[j].sent) == if |idle| <= 256 then idle else idle[..256]
  {
    var t := history[j];
    var choice := DecisionAt(player, dp, seen, history, log, j);
    Committed(t.view, player, dp, t.tick, choice);
    FirstOnes(Fighters(t.view, player), 256);
  }

  /** What a think of a recorded run decided and did about its fighters. */
  lemma DecisionAt(player: int, dp: DiffParams, seen: seq<WaveInput>, history: seq<Thought>, log: seq<Command>, j: nat)
    returns (choice: WaveChoice)
    requires IsRecord(player, dp, seen, history, log) && j < |history|
    ensures 0 < dp.waveSize <= 60
    ensures Answer(dp, InputAt(history[j].view, player, dp, history[j].tick), choice)
    ensures choice.March? ==> choice.party <= |Fighters(history[j].view, player)|
    ensures Attacks(history[j].sent) == if choice.Hold? then [] else Fighters(history[j].view, player)[..choice.party]
  {
    ThoughtAt(player, dp, seen, history, log, j);
    choice := ChoiceAt(dp, seen, j);
    assert choice == Decide(dp, StateAt(dp, seen, j), seen[j]);
  }

  /** `choice` is the decision on some state. */
  ghost predicate Answer(dp: DiffParams, i: WaveInput, choice: WaveChoice)
  {
    exists s :: choice == Decide(dp, s, i)
  }

  lemma Committed(w: World, player: int, dp: DiffParams, tick: u32, choice: WaveChoice)
    requires 0 < dp.waveSize <= 60 && Answer(dp, InputAt(w, player, dp, tick), choice) && dp.attack
    requires var idle := Fighters(w, player);
             && w.objective(idle).Some?
             && (|idle| >= 60 || (idle != [] && w.brain.me.metalCur < 200.0 && w.brain.me.metalIncome < 40.0))
    ensures choice == March(Commit, if |Fighters(w, player)| <= 256 then |Fighters(w, player)| else 256)
  {
    var s :| choice == Decide(dp, s, InputAt(w, player, dp, tick));
    InputIs(w, player, dp, tick);
    GreatArmyCommits(dp, s, InputAt(w, player, dp, tick));
  }

  lemma FirstOnes<T>(q: seq<T>, n: nat)
    ensures q[..if |q| <= n then |q| else n] == if |q| <= n then q else q[..n]
  {
  }

  lemma InputIs(w: World, player: int, dp: DiffParams, tick: u32)
    requires 0 < dp.waveSize <= 60
    ensures var i, idle := InputAt(w, player, dp, tick), Fighters(w, player);
            && i.idle == |idle| && (i.target <==> w.objective(idle).Some?) && i.bigPush <= 60
            && (i.tapped <==> w.brain.me.metalCur < 200.0 && w.brain.me.metalIncome < 40.0)
  {
    BigPushIs(dp, w.brain.me.BaseIncome());
  }

  lemma GreatArmyCommits(dp: DiffParams, s: WaveState, i: WaveInput)
    requires dp.attack && i.target && i.bigPush <= 60 && (i.idle >= 60 || (i.idle > 0 && i.tapped))
    ensures Decide(dp, s, i) == March(Commit, if i.idle <= 256 then i.idle else 256)
  {
    CommitIff(dp, s, i, if i.idle <= 256 then i.idle else 256);
  }

  lemma OrdersBuild(w: World, player: int, dp: DiffParams, tick: u32, orders: seq<Command>, k: nat)
    requires BuildOrders(w, player, dp, tick, orders) && k < |orders|
    ensures orders[k].kind == Build || orders[k].kind == Train
  {
    assert Ordered(w, orders[k]);
    var p := ActorOf(w, orders[k].unitId).value;
    var id :| BestLeft(w, p, id) && Produce(w, p, w.brain.reg.Find(id).value) == Some(orders[k]);
    OrderIs(w, p, w.brain.reg.Find(id).value, orders[k]);
  }

  /** If this is an attack, it is one on the objective. */
  predicate OnObjective(w: World, player: int, c: Command)
  {
    c.kind == AttackMove ==> w.objective(Fighters(w, player)) == Some((c.x, c.z)) && c.what == ""
  }

  lemma WaveOnObjective(w: World, player: int, choice: WaveChoice)
    requires choice.March? ==> choice.party <= |Fighters(w, player)| && w.objective(Fighters(w, player)).Some?
    ensures forall c :: c in WaveCommands(w, player, choice) ==> OnObjective(w, player, c)
  {
  }

  lemma WalkIsMove(w: World, player: int, acted: bool)
    ensures forall c :: c in WalkHome(w, player, acted) ==> OnObjective(w, player, c)
  {
  }

  /** All that a think sends out goes to the one objective. */
  lemma OneObjective(w: World, player: int, dp: DiffParams, tick: u32, choice: WaveChoice, sent: seq<Command>)
    requires Sends(w, player, dp, tick, choice, sent)
    ensures forall c :: c in sent && c.kind == AttackMove ==>
              w.objective(Fighters(w, player)) == Some((c.x, c.z)) && c.what == ""
  {
    var orders :| BuildOrders(w, player, dp, tick, orders) && sent == ThinkLog(w, player, orders, choice);
    forall c | c in orders ensures OnObjective(w, player, c) {
      var k :| 0 <= k < |orders| && orders[k] == c;
      OrdersBuild(w, player, dp, tick, orders, k);
    }
    WalkIsMove(w, player, DrivesCommander(w, orders));
    WaveOnObjective(w, player, choice);
    forall c | c in sent ensures OnObjective(w, player, c) {
      InOneOfThree(orders, WalkHome(w, player, DrivesCommander(w, orders)), WaveCommands(w, player, choice), c);
    }
  }

  lemma InOneOfThree<T>(a: seq<T>, b: seq<T>, c: seq<T>, x: T)
    ensures x in a + b + c <==> x in a || x in b || x in c
  {
  }

  /** Nobody is sent out without somewhere to go. */
  lemma NoAimlessMarch(player: int, dp: DiffParams, seen: seq<WaveInput>, history: seq<Thought>, log: seq<Command>,
                       j: nat)
    requires IsRecord(player, dp, seen, history, log) && j < |history|
    ensures Attacks(history[j].sent) != [] ==>
              dp.attack && history[j].view.objective(Fighters(history[j].view, player)).Some?
  {
    ThoughtAt(player, dp, seen, history, log, j);
  }

  // --- The commander -----------------------------------------------------------------------------------

  /** A single commander walks home exactly when it is idle and finished, got no order in this think,
      and is more than 520 away. */
  lemma WalksHome(w: World, player: int, acted: bool, k: nat)
    requires k < |w.units| && Leads(player, w.units[k])
    requires forall i :: 0 <= i < |w.units| && i != k ==> !Leads(player, w.units[i])
    ensures var u := w.units[k];
            var dx, dz := u.x - w.home.0, u.z - w.home.1;
            WalkHome(w, player, acted) ==
            if !acted && u.idleOrders && u.buildSite == 0 && !u.underConstruction && dx * dx + dz * dz > 270400.0
            then [Command(Move, u.id, "", w.home.0, w.home.1)] else []
  {
    OnlyCommander(w.units, player, k);
  }

  /** A living commander of the player. */
  predicate Leads(player: int, u: Unit)
  {
    u.alive && u.player == player && u.utype.Some? && u.utype.value.commander
  }

  lemma {:induction false} OnlyCommander(units: seq<Unit>, player: int, k: nat)
    requires k < |units| && Leads(player, units[k])
    requires forall i :: 0 <= i < |units| && i != k ==> !Leads(player, units[i])
    ensures FirstCommander(player, units) == Some(units[k])
  {
    if k > 0 {
      forall i | 0 <= i < |units[1..]| && i != k - 1 ensures !Leads(player, units[1..][i]) {
        assert units[1..][i] == units[i + 1];
      }
      OnlyCommander(units[1..], player, k - 1);
    }
  }
}
