/** When the skirmish AI sends its fighters out (`sendWaves` in src/ai/ai.cpp): the decision
    of one think, and what it guarantees over whole runs of thinks. */
module Waves {
  import opened Basics
  import opened Planner

  const MAX_WAVE_CMDS := 256
  const RAID_COOLDOWN := 750

  function U32Sub(a: int, b: int): int { (a - b) % 0x1_0000_0000 }

  datatype Event = Commit | Probe | Raid

  /** What the wave logic sees at one think. */
  datatype WaveInput = WaveInput(tick: u32, idle: nat, target: bool, bigPush: nat, tapped: bool)

  datatype WaveState = WaveState(scouted: bool, lastRaidTick: u32)

  datatype WaveChoice = Hold | March(event: Event, party: nat)

  function HomeCore(dp: DiffParams, i: WaveInput): int
  {
    if dp.waveSize < i.bigPush / 3 then i.bigPush / 3 else dp.waveSize
  }

  /** The decision of one think. */
  function Decide(dp: DiffParams, s: WaveState, i: WaveInput): WaveChoice
  {
    if !dp.attack || i.idle == 0 || !i.target then Hold
    else if i.idle >= i.bigPush || i.tapped then March(Commit, if i.idle < MAX_WAVE_CMDS then i.idle else MAX_WAVE_CMDS)
    else
      var firstProbe := dp.scout && !s.scouted && i.idle >= 1;
      var canRaid := dp.raidSize > 0 && i.idle >= HomeCore(dp, i) + dp.raidSize
          && U32Sub(i.tick, s.lastRaidTick) >= RAID_COOLDOWN;
      if canRaid then March(Raid, dp.raidSize) else if firstProbe then March(Probe, 1) else Hold
  }

  /** The fighters commit, as many as one think may send, exactly when there are enough for the big
      push or the economy is tapped out. */
  lemma CommitIff(dp: DiffParams, s: WaveState, i: WaveInput, n: nat)
    ensures Decide(dp, s, i) == March(Commit, n) <==>
              && dp.attack && i.target && i.idle > 0 && (i.idle >= i.bigPush || i.tapped)
              && (n == i.idle <= 256 || n == 256 < i.idle)
  {
  }

  /** A raid goes out, in full strength, exactly while the army is mustered, when it leaves the wave
      size and a third of the big push at home, 750 ticks after the last march. */
  lemma RaidIff(dp: DiffParams, s: WaveState, i: WaveInput, n: nat)
    requires s.lastRaidTick <= i.tick
    ensures Decide(dp, s, i) == March(Raid, n) <==>
              && dp.attack && i.target && 0 < i.idle < i.bigPush && !i.tapped
              && n == dp.raidSize > 0 && i.idle - n >= dp.waveSize && 3 * (i.idle - n) > i.bigPush - 3
              && i.tick - s.lastRaidTick >= 750
  {
  }

  /** The lone probe goes out exactly when nothing else does, and none has gone before. */
  lemma ProbeIff(dp: DiffParams, s: WaveState, i: WaveInput, n: nat)
    ensures Decide(dp, s, i) == March(Probe, n) <==>
              && dp.attack && i.target && i.idle > 0 && dp.scout && !s.scouted && n == 1
              && !(Decide(dp, s, i).March? && Decide(dp, s, i).event != Probe)
  {
  }

  function AfterWave(dp: DiffParams, s: WaveState, i: WaveInput): WaveState
  {
    if Decide(dp, s, i) == Hold then s else WaveState(true, i.tick)
  }

  /** The state before think `n` of a run. */
  function StateAt(dp: DiffParams, run: seq<WaveInput>, n: nat): WaveState
    requires n <= |run|
  {
    if n == 0 then WaveState(false, 0) else AfterWave(dp, StateAt(dp, run, n - 1), run[n - 1])
  }

  function ChoiceAt(dp: DiffParams, run: seq<WaveInput>, n: nat): WaveChoice
    requires n < |run|
  {
    Decide(dp, StateAt(dp, run, n), run[n])
  }

  /** Thinks happen at non-decreasing ticks. */
  predicate Ticking(run: seq<WaveInput>)
  {
    forall i, j :: 0 <= i < j < |run| ==> run[i].tick <= run[j].tick
  }

  predicate HasMarched(dp: DiffParams, run: seq<WaveInput>, m: nat)
    requires m < |run|
  {
    ChoiceAt(dp, run, m).March?
  }

  /** One think of the run. */
  lemma StateStep(dp: DiffParams, run: seq<WaveInput>, n: nat)
    requires n < |run|
    ensures StateAt(dp, run, n + 1) == if HasMarched(dp, run, n) then WaveState(true, run[n].tick)
            else StateAt(dp, run, n)
  {
  }

  /** The state knows whether there was a march, and the tick of the last one. */
  lemma {:induction false} StateRemembers(dp: DiffParams, run: seq<WaveInput>, n: nat) returns (last: int)
    requires n <= |run|
    ensures -1 <= last < n && (last < 0 <==> !StateAt(dp, run, n).scouted)
    ensures last >= 0 ==> HasMarched(dp, run, last) && StateAt(dp, run, n).lastRaidTick == run[last].tick
    ensures last < 0 ==> StateAt(dp, run, n).lastRaidTick == 0
    ensures forall m :: last < m < n ==> !HasMarched(dp, run, m)
  {
    if n == 0 {
      last := -1;
    } else {
      last := StateRemembers(dp, run, n - 1);
      StateStep(dp, run, n - 1);
      if HasMarched(dp, run, n - 1) { last := n - 1; }
    }
  }

  lemma RaidWaits(dp: DiffParams, s: WaveState, i: WaveInput)
    requires Decide(dp, s, i).March? && Decide(dp, s, i).event == Raid
    ensures U32Sub(i.tick, s.lastRaidTick) >= RAID_COOLDOWN
  {
  }

  /** Every raid comes at least 750 ticks after any earlier march, and after the start. */
  lemma RaidsAreSpaced(dp: DiffParams, run: seq<WaveInput>, n: nat)
    requires Ticking(run) && n < |run| && HasMarched(dp, run, n) && ChoiceAt(dp, run, n).event == Raid
    ensures run[n].tick >= 750
    ensures forall m :: 0 <= m < n && HasMarched(dp, run, m) ==> run[n].tick >= run[m].tick + 750
  {
    var last := StateRemembers(dp, run, n);
    var s := StateAt(dp, run, n);
    RaidWaits(dp, s, run[n]);
    NoWrap(run[n].tick, s.lastRaidTick);
    forall m | 0 <= m < n && HasMarched(dp, run, m) ensures run[m].tick <= s.lastRaidTick {
      assert m <= last;
    }
  }

  lemma NoWrap(a: int, b: int)
    requires 0 <= b <= a < 0x1_0000_0000
    ensures U32Sub(a, b) == a - b
  {
  }

  /** The lone probe is sent at most once, and only as the first march of all. */
  lemma ProbeOnlyFirst(dp: DiffParams, run: seq<WaveInput>, m: nat, n: nat)
    requires m < n < |run| && HasMarched(dp, run, m)
    ensures HasMarched(dp, run, n) ==> ChoiceAt(dp, run, n).event != Probe
  {
    var last := StateRemembers(dp, run, n);
    assert m <= last;
  }

  /** A raid leaves a home core behind. */
  lemma RaidLeavesCore(dp: DiffParams, run: seq<WaveInput>, n: nat)
    requires n < |run| && HasMarched(dp, run, n) && ChoiceAt(dp, run, n).event == Raid
    ensures var left := run[n].idle - ChoiceAt(dp, run, n).party;
            left >= dp.waveSize && left >= run[n].bigPush / 3
  {
  }

  lemma SeenMore(dp: DiffParams, seen: seq<WaveInput>, input: WaveInput)
    ensures StateAt(dp, seen + [input], |seen|) == StateAt(dp, seen, |seen|)
    ensures StateAt(dp, seen + [input], |seen| + 1) == AfterWave(dp, StateAt(dp, seen, |seen|), input)
    ensures ChoiceAt(dp, seen + [input], |seen|) == Decide(dp, StateAt(dp, seen, |seen|), input)
  {
    StatePrefix(dp, seen, input, |seen|);
  }

  lemma ChoicePrefix(dp: DiffParams, seen: seq<WaveInput>, input: WaveInput, i: nat)
    requires i < |seen|
    ensures ChoiceAt(dp, seen + [input], i) == ChoiceAt(dp, seen, i)
  {
    StatePrefix(dp, seen, input, i);
  }

  lemma ChoiceOfPrefix(dp: DiffParams, seen: seq<WaveInput>, n: nat, i: nat)
    requires i < n == |seen| - 1
    ensures ChoiceAt(dp, seen[..n], i) == ChoiceAt(dp, seen, i)
  {
    assert seen == seen[..n] + [seen[n]];
    ChoicePrefix(dp, seen[..n], seen[n], i);
  }

  lemma {:induction false} StatePrefix(dp: DiffParams, seen: seq<WaveInput>, input: WaveInput, n: nat)
    requires n <= |seen|
    ensures StateAt(dp, seen + [input], n) == StateAt(dp, seen, n)
  {
    if n > 0 { StatePrefix(dp, seen, input, n - 1); }
  }
}
