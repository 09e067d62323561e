/** What the battle loop guarantees about its log, its queues and its
    verdict, proved about the functional model in module BattleEngine. */
module BattleEngineProperties {
  import opened Wrappers
  import opened Pokemons
  import opened BattleEngine
  import PokemonUpdate

  /** The faint entries a damage entry entails: A's front first, then B's,
      each exactly when that side's remaining life is at most zero. */
  function FaintsAfter(h1: Hit, h2: Hit): seq<LogEntry>
  {
    (if h1.remaining <= 0.0 then [Fainted("A", h1.id, h1.name)] else [])
    + (if h2.remaining <= 0.0 then [Fainted("B", h2.id, h2.name)] else [])
  }

  /** `b` is the log of one complete round numbered `r`: a round-start entry
      naming the two fronts, a damage entry with the same round number, then
      the faint entries that damage entails. */
  predicate IsRoundBlock(b: seq<LogEntry>, r: nat)
  {
    && |b| >= 2
    && b[1].DamageDealt?
    && b[0] == RoundStarted(r, b[1].p1.name, b[1].p2.name)
    && b[1].round == r
    && b[2..] == FaintsAfter(b[1].p1, b[1].p2)
  }

  /** `logs` is a sequence of complete rounds numbered `first`, `first + 1`,
      ..., `next - 1`, one block per round and nothing else. */
  predicate RoundBlocks(logs: seq<LogEntry>, first: nat, next: nat)
    decreases |logs|
  {
    if |logs| == 0 then first == next
    else
      && |logs| >= 2
      && logs[1].DamageDealt?
      && var n := 2 + |FaintsAfter(logs[1].p1, logs[1].p2)|;
      && |logs| >= n
      && IsRoundBlock(logs[..n], first)
      && RoundBlocks(logs[n..], first + 1, next)
  }

  /** Number of faint entries for side `team`. */
  function CountFaints(logs: seq<LogEntry>, team: string): nat
  {
    if |logs| == 0 then 0
    else (if logs[0].Fainted? && logs[0].team == team then 1 else 0) + CountFaints(logs[1..], team)
  }

  /** `queue` is what is left of `roster` after shifting elements off its
      front: the same elements in the same order, except that the first of
      them may have lost life. */
  predicate ShiftedFrom(queue: seq<Pokemon>, roster: seq<Pokemon>)
  {
    && |queue| <= |roster|
    && (|queue| > 0 ==> SameExceptLife(queue[0], roster[|roster| - |queue|]))
    && forall j :: 0 < j < |queue| ==> queue[j] == roster[|roster| - |queue| + j]
  }

  // ---------------------------------------------------------------------
  // One round

  /** Damage is simultaneous: both amounts come from the two fronts as they
      were before the round, each is the attacker's power times the factor
      for (attacker type, defender type), and the logged remaining life is the
      raw difference, not clamped at zero. A front that survives stays at the
      head of its queue with that reduced life; a front that faints is
      shifted off, and the rest of its queue moves up untouched. */
  lemma StepDamage(s: EngineState, table: seq<Weakness>)
    requires |s.queueA| > 0 && |s.queueB| > 0
    ensures var a, b := s.queueA[0], s.queueB[0];
            var toA := b.power * GetFactor(table, b.typeId, a.typeId);
            var toB := a.power * GetFactor(table, a.typeId, b.typeId);
            var t := Step(s, table);
            && |t.logs| >= |s.logs| + 2
            && t.logs[|s.logs| + 1] == DamageDealt(s.round, Hit(a.id, a.name, toA, a.life - toA),
                                                             Hit(b.id, b.name, toB, b.life - toB))
            && (a.life - toA > 0.0 ==> |t.queueA| > 0 && t.queueA[0] == a.(life := a.life - toA))
            && (b.life - toB > 0.0 ==> |t.queueB| > 0 && t.queueB[0] == b.(life := b.life - toB))
            && (a.life - toA <= 0.0 ==> t.queueA == s.queueA[1..])
            && (b.life - toB <= 0.0 ==> t.queueB == s.queueB[1..])
  {
  }

  /** A hit is the attacker's full power when no row of the table matches
      the two types, and otherwise its power times the factor of the first
      matching row. */
  lemma AttackFactor(attacker: Pokemon, defender: Pokemon, table: seq<Weakness>)
    ensures FirstMatch(table, attacker.typeId, defender.typeId).None? ==>
              Attack(attacker, defender, table) == attacker.power
    ensures var m := FirstMatch(table, attacker.typeId, defender.typeId);
            m.Some? ==> Attack(attacker, defender, table) == attacker.power * table[m.value].factor
  {
    match FirstMatch(table, attacker.typeId, defender.typeId)
    case None =>
    case Some(i) =>
      assert GetFactor(table, attacker.typeId, defender.typeId) == table[i].factor;
  }

  /** One iteration appends exactly one round block numbered with the current
      round, raises the counter by exactly one whether zero, one or two fronts
      faint, and shifts a queue exactly when its front faints. */
  lemma StepShape(s: EngineState, table: seq<Weakness>)
    requires |s.queueA| > 0 && |s.queueB| > 0
    ensures var t := Step(s, table);
            && t.round == s.round + 1
            && |t.logs| >= |s.logs|
            && t.logs[..|s.logs|] == s.logs
            && IsRoundBlock(t.logs[|s.logs|..], s.round)
            && ShiftedFrom(t.queueA, s.queueA) && ShiftedFrom(t.queueB, s.queueB)
            && |t.queueA| == |s.queueA| - CountFaints(t.logs[|s.logs|..], "A")
            && |t.queueB| == |s.queueB| - CountFaints(t.logs[|s.logs|..], "B")
  {
    var t := Step(s, table);
    var a, b := s.queueA[0], s.queueB[0];
    var d1, d2 := Attack(b, a, table), Attack(a, b, table);
    var h1 := Hit(a.id, a.name, d1, a.life - d1);
    var h2 := Hit(b.id, b.name, d2, b.life - d2);
    var dmg := DamageDealt(s.round, h1, h2);
    var fa: seq<LogEntry> := if h1.remaining <= 0.0 then [Fainted("A", a.id, a.name)] else [];
    var fb: seq<LogEntry> := if h2.remaining <= 0.0 then [Fainted("B", b.id, b.name)] else [];
    var block := [RoundStarted(s.round, a.name, b.name)] + [dmg] + fa + fb;
    assert t.logs == s.logs + block;
    assert t.logs[..|s.logs|] == s.logs;
    assert t.logs[|s.logs|..] == block;
    BlockFacts(s.round, dmg, fa, fb);
    var qa := s.queueA[0 := a.(life := h1.remaining)];
    var qb := s.queueB[0 := b.(life := h2.remaining)];
    assert t.queueA == if h1.remaining <= 0.0 then qa[1..] else qa;
    assert t.queueB == if h2.remaining <= 0.0 then qb[1..] else qb;
  }

  /** The shape of one round's entries, and the faints it records. */
  lemma BlockFacts(r: nat, dmg: LogEntry, fa: seq<LogEntry>, fb: seq<LogEntry>)
    requires dmg.DamageDealt? && dmg.round == r
    requires fa == if dmg.p1.remaining <= 0.0 then [Fainted("A", dmg.p1.id, dmg.p1.name)] else []
    requires fb == if dmg.p2.remaining <= 0.0 then [Fainted("B", dmg.p2.id, dmg.p2.name)] else []
    ensures var block := [RoundStarted(r, dmg.p1.name, dmg.p2.name)] + [dmg] + fa + fb;
            && IsRoundBlock(block, r)
            && CountFaints(block, "A") == |fa|
            && CountFaints(block, "B") == |fb|
  {
    var head := [RoundStarted(r, dmg.p1.name, dmg.p2.name)] + [dmg];
    var block := head + fa + fb;
    assert block[2..] == fa + fb;
    CountFaintsAppend(head + fa, fb, "A");
    CountFaintsAppend(head + fa, fb, "B");
    CountFaintsAppend(head, fa, "A");
    CountFaintsAppend(head, fa, "B");
  }

  lemma {:induction false} CountFaintsAppend(x: seq<LogEntry>, y: seq<LogEntry>, team: string)
    ensures CountFaints(x + y, team) == CountFaints(x, team) + CountFaints(y, team)
  {
    if |x| > 0 {
      assert (x + y)[1..] == x[1..] + y;
      CountFaintsAppend(x[1..], y, team);
    } else {
      assert x + y == y;
    }
  }

  lemma RoundBlocksCons(b: seq<LogEntry>, rest: seq<LogEntry>, first: nat, next: nat)
    requires IsRoundBlock(b, first)
    requires RoundBlocks(rest, first + 1, next)
    ensures RoundBlocks(b + rest, first, next)
  {
    var logs := b + rest;
    assert logs[1] == b[1];
    var n := 2 + |FaintsAfter(b[1].p1, b[1].p2)|;
    assert |b| == n;
    assert logs[..n] == b;
    assert logs[n..] == rest;
  }

  lemma ShiftedFromTrans(a: seq<Pokemon>, b: seq<Pokemon>, c: seq<Pokemon>)
    requires ShiftedFrom(a, b) && ShiftedFrom(b, c)
    ensures ShiftedFrom(a, c)
  {
    if |a| > 0 {
      var k := |b| - |a|;
      if k > 0 {
        assert b[k] == c[|c| - |b| + k];
      } else {
        assert SameExceptLife(b[0], c[|c| - |b|]);
      }
    }
  }

  // ---------------------------------------------------------------------
  // The whole loop

  /** Everything the loop appends to the log, from any state, is whole
      rounds numbered consecutively from the current counter up to the final
      one; what was logged before is kept. */
  lemma {:induction false} RunLog(s: EngineState, table: seq<Weakness>, maxRounds: nat)
    ensures LogExtends(s, Run(s, table, maxRounds))
    decreases maxRounds + 1 - s.round
  {
    if |s.queueA| == 0 || |s.queueB| == 0 || s.round > maxRounds {
      assert Run(s, table, maxRounds).logs[|s.logs|..] == [];
    } else {
      var u := Step(s, table);
      StepShape(s, table);
      RunLog(u, table, maxRounds);
      LogExtendsCons(s, u, Run(u, table, maxRounds));
    }
  }

  /** `t.logs` is `s.logs` followed by whole rounds numbered from `s.round`
      up to `t.round`. */
  predicate LogExtends(s: EngineState, t: EngineState)
  {
    && |t.logs| >= |s.logs|
    && t.logs[..|s.logs|] == s.logs
    && RoundBlocks(t.logs[|s.logs|..], s.round, t.round)
  }

  lemma LogExtendsCons(s: EngineState, u: EngineState, t: EngineState)
    requires u.round == s.round + 1
    requires |u.logs| >= |s.logs| && u.logs[..|s.logs|] == s.logs
    requires IsRoundBlock(u.logs[|s.logs|..], s.round)
    requires LogExtends(u, t)
    ensures LogExtends(s, t)
  {
    var block := u.logs[|s.logs|..];
    var rest := t.logs[|u.logs|..];
    assert t.logs[..|u.logs|] == u.logs;
    assert t.logs[..|s.logs|] == t.logs[..|u.logs|][..|s.logs|];
    assert t.logs[|s.logs|..] == block + rest;
    RoundBlocksCons(block, rest, s.round, t.round);
  }

  /** Each queue in `t` is what is left of the one in `s` after shifting,
      and each side's faint entries logged in between number exactly the
      combatants that side lost. */
  predicate QueuesShrink(s: EngineState, t: EngineState)
  {
    && |t.logs| >= |s.logs|
    && ShiftedFrom(t.queueA, s.queueA) && ShiftedFrom(t.queueB, s.queueB)
    && |t.queueA| == |s.queueA| - CountFaints(t.logs[|s.logs|..], "A")
    && |t.queueB| == |s.queueB| - CountFaints(t.logs[|s.logs|..], "B")
  }

  lemma QueuesShrinkTrans(s: EngineState, u: EngineState, t: EngineState)
    requires |u.logs| >= |s.logs| && QueuesShrink(s, u)
    requires LogExtends(u, t) && QueuesShrink(u, t)
    ensures QueuesShrink(s, t)
  {
    var block := u.logs[|s.logs|..];
    var rest := t.logs[|u.logs|..];
    assert t.logs[..|u.logs|] == u.logs;
    assert t.logs[|s.logs|..] == block + rest;
    ShiftedFromTrans(t.queueA, u.queueA, s.queueA);
    ShiftedFromTrans(t.queueB, u.queueB, s.queueB);
    CountFaintsAppend(block, rest, "A");
    CountFaintsAppend(block, rest, "B");
  }

  /** The queues the loop leaves behind, from any state: each is what is
      left of the one it started from after shifting, and each side's faint
      entries number exactly the combatants that side lost. */
  lemma {:induction false} RunQueues(s: EngineState, table: seq<Weakness>, maxRounds: nat)
    ensures QueuesShrink(s, Run(s, table, maxRounds))
    decreases maxRounds + 1 - s.round
  {
    if |s.queueA| == 0 || |s.queueB| == 0 || s.round > maxRounds {
      assert Run(s, table, maxRounds).logs[|s.logs|..] == [];
    } else {
      var u := Step(s, table);
      StepShape(s, table);
      RunLog(u, table, maxRounds);
      RunQueues(u, table, maxRounds);
      QueuesShrinkTrans(s, u, Run(u, table, maxRounds));
    }
  }

  // ---------------------------------------------------------------------
  // The simulation

  /** The log of a finished battle is a sequence of complete rounds numbered
      1, 2, 3, ... in order, each as `IsRoundBlock` describes. */
  lemma LogIsRoundBlocks(teamA: seq<Pokemon>, teamB: seq<Pokemon>, table: seq<Weakness>, maxRounds: nat)
    requires Simulation(teamA, teamB, table, maxRounds).Finished?
    ensures var r := Simulation(teamA, teamB, table, maxRounds).result;
            exists next :: RoundBlocks(r.logs, 1, next)
  {
    var s := EngineState(teamA, teamB, 1, []);
    RunLog(s, table, maxRounds);
    assert Run(s, table, maxRounds).logs[|s.logs|..] == Run(s, table, maxRounds).logs;
  }

  /** The survivors of each side are its roster with the fallen shifted off
      the front, in the original order; only the first survivor may carry
      reduced life. The faint entries of each side number exactly the
      combatants it lost. The initial state reports the input rosters. */
  lemma SurvivorsAndFaints(teamA: seq<Pokemon>, teamB: seq<Pokemon>, table: seq<Weakness>, maxRounds: nat)
    requires Simulation(teamA, teamB, table, maxRounds).Finished?
    ensures var r := Simulation(teamA, teamB, table, maxRounds).result;
            && r.initialA == teamA && r.initialB == teamB
            && ShiftedFrom(r.survivorsA, teamA) && ShiftedFrom(r.survivorsB, teamB)
            && CountFaints(r.logs, "A") == |teamA| - |r.survivorsA|
            && CountFaints(r.logs, "B") == |teamB| - |r.survivorsB|
  {
    var s := EngineState(teamA, teamB, 1, []);
    RunQueues(s, table, maxRounds);
    assert Run(s, table, maxRounds).logs[|s.logs|..] == Run(s, table, maxRounds).logs;
  }

  /** With an empty roster on either side nothing is logged and the other
      side, if any, wins untouched. */
  lemma EmptyRosterLogsNothing(teamA: seq<Pokemon>, teamB: seq<Pokemon>, table: seq<Weakness>, maxRounds: nat)
    requires |teamA| == 0 || |teamB| == 0
    ensures Simulation(teamA, teamB, table, maxRounds)
         == Finished(BattleResult(Winner(teamA, teamB), [], teamA, teamB, teamA, teamB))
  {
  }

  /** A run that stopped on an empty queue, rather than on the cap, ends in
      the same state under any larger cap. */
  lemma {:induction false} RunCapIrrelevant(s: EngineState, table: seq<Weakness>, m: nat, m': nat)
    requires m <= m'
    requires |Run(s, table, m).queueA| == 0 || |Run(s, table, m).queueB| == 0
    ensures Run(s, table, m') == Run(s, table, m)
    decreases m + 1 - s.round
  {
    if |s.queueA| == 0 || |s.queueB| == 0 {
    } else if s.round > m {
      // the cap would have stopped the run with both queues non-empty
      assert false;
    } else {
      RunCapIrrelevant(Step(s, table), table, m, m');
    }
  }

  /** Raising the round cap does not change a battle that already finished
      under a smaller one. */
  lemma CapIrrelevant(teamA: seq<Pokemon>, teamB: seq<Pokemon>, table: seq<Weakness>, m: nat, m': nat)
    requires m <= m'
    requires Simulation(teamA, teamB, table, m).Finished?
    ensures Simulation(teamA, teamB, table, m') == Simulation(teamA, teamB, table, m)
  {
    RunCapIrrelevant(EngineState(teamA, teamB, 1, []), table, m, m');
  }

  // ---------------------------------------------------------------------
  // Termination

  /** The type factor depends only on the two type ids, so a hit does not
      depend on either side's life. */
  lemma AttackIgnoresLife(a: Pokemon, a': Pokemon, b: Pokemon, b': Pokemon, table: seq<Weakness>)
    requires SameExceptLife(a, a') && SameExceptLife(b, b')
    ensures Attack(a, b, table) == Attack(a', b', table)
  {
    assert a.power == a'.power && a.typeId == a'.typeId && b.typeId == b'.typeId;
  }

  /** The sum over a queue of one more than the integer part of each life:
      a bound on the rounds it can still last when every hit takes at least
      one point of life. */
  function Endurance(q: seq<Pokemon>): int
  {
    if |q| == 0 then 0 else q[0].life.Floor + 1 + Endurance(q[1..])
  }

  predicate AllAlive(q: seq<Pokemon>)
  {
    forall i :: 0 <= i < |q| ==> q[i].life > 0.0
  }

  /** Every combatant of `qb` takes at least one point of life from every
      combatant of `qa` it could face. */
  predicate HitsAtLeastOne(qa: seq<Pokemon>, qb: seq<Pokemon>, table: seq<Weakness>)
  {
    forall i, j :: 0 <= i < |qa| && 0 <= j < |qb| ==> Attack(qb[j], qa[i], table) >= 1.0
  }

  lemma {:induction false} EnduranceAtLeastLength(q: seq<Pokemon>)
    requires AllAlive(q)
    ensures Endurance(q) >= |q|
  {
    if |q| > 0 {
      EnduranceAtLeastLength(q[1..]);
    }
  }

  lemma {:induction false} EnduranceAtMost(q: seq<Pokemon>)
    requires forall i :: 0 <= i < |q| ==> q[i].life <= 100.0
    ensures Endurance(q) <= 101 * |q|
  {
    if |q| > 0 {
      EnduranceAtMost(q[1..]);
    }
  }

  lemma ShiftedElement(queue: seq<Pokemon>, roster: seq<Pokemon>, i: nat)
    requires ShiftedFrom(queue, roster) && i < |queue|
    ensures SameExceptLife(queue[i], roster[|roster| - |queue| + i])
  {
  }

  lemma ShiftedKeepsHits(qa: seq<Pokemon>, qb: seq<Pokemon>, qa': seq<Pokemon>, qb': seq<Pokemon>,
                         table: seq<Weakness>)
    requires HitsAtLeastOne(qa, qb, table)
    requires ShiftedFrom(qa', qa) && ShiftedFrom(qb', qb)
    ensures HitsAtLeastOne(qa', qb', table)
  {
    forall i, j | 0 <= i < |qa'| && 0 <= j < |qb'|
      ensures Attack(qb'[j], qa'[i], table) >= 1.0
    {
      var k, l := |qa| - |qa'| + i, |qb| - |qb'| + j;
      ShiftedElement(qa', qa, i);
      ShiftedElement(qb', qb, j);
      HitAt(qa, qb, table, k, l);
      AttackIgnoresLife(qb'[j], qb[l], qa'[i], qa[k], table);
    }
  }

  lemma HitAt(qa: seq<Pokemon>, qb: seq<Pokemon>, table: seq<Weakness>, i: nat, j: nat)
    requires HitsAtLeastOne(qa, qb, table) && i < |qa| && j < |qb|
    ensures Attack(qb[j], qa[i], table) >= 1.0
  {
  }

  /** A round in which A's front takes at least one point of life lowers
      A's endurance by at least one and keeps A's queue alive. */
  lemma StepWearsDownA(s: EngineState, table: seq<Weakness>)
    requires |s.queueA| > 0 && |s.queueB| > 0
    requires AllAlive(s.queueA) && HitsAtLeastOne(s.queueA, s.queueB, table)
    ensures var t := Step(s, table);
            && AllAlive(t.queueA)
            && HitsAtLeastOne(t.queueA, t.queueB, table)
            && Endurance(t.queueA) <= Endurance(s.queueA) - 1
  {
    var t := Step(s, table);
    StepShape(s, table);
    ShiftedKeepsHits(s.queueA, s.queueB, t.queueA, t.queueB, table);
    var a := s.queueA[0];
    var d := Attack(s.queueB[0], a, table);
    assert d >= 1.0;
    var hit := a.(life := a.life - d);
    var qa := s.queueA[0 := hit];
    assert qa[1..] == s.queueA[1..];
    if hit.life > 0.0 {
      assert t.queueA == qa;
      assert hit.life.Floor <= a.life.Floor - 1;
    } else {
      assert t.queueA == s.queueA[1..];
    }
  }

  /** From a state where A's endurance fits in the rounds left, the loop
      empties a queue before the cap. */
  lemma {:induction false} RunEndsBeforeCap(s: EngineState, table: seq<Weakness>, maxRounds: nat)
    requires AllAlive(s.queueA) && HitsAtLeastOne(s.queueA, s.queueB, table)
    requires s.round + Endurance(s.queueA) <= maxRounds + 1
    ensures var t := Run(s, table, maxRounds);
            |t.queueA| == 0 || |t.queueB| == 0
    decreases maxRounds + 1 - s.round
  {
    EnduranceAtLeastLength(s.queueA);
    if |s.queueA| > 0 && |s.queueB| > 0 && s.round <= maxRounds {
      StepWearsDownA(s, table);
      RunEndsBeforeCap(Step(s, table), table, maxRounds);
    }
  }

  lemma GetFactorAtLeast(table: seq<Weakness>, attacker: string, defender: string, lo: real)
    requires lo <= 1.0
    requires forall k :: 0 <= k < |table| ==> table[k].factor >= lo
    ensures GetFactor(table, attacker, defender) >= lo
  {
  }

  lemma ProductAtLeastOne(power: real, factor: real)
    requires power >= 10.0 && factor >= 0.1
    ensures power * factor >= 1.0
  {
    assert (power - 10.0) * factor >= 0.0;
  }

  /** Every combatant of a roster the update route accepts enters alive,
      with at most 100 life. */
  predicate Accepted(team: seq<Pokemon>)
  {
    forall i :: 0 <= i < |team| ==> PokemonUpdate.StatsAccepted(team[i].power, team[i].life)
  }

  lemma AcceptedBounds(team: seq<Pokemon>)
    requires Accepted(team)
    ensures forall i :: 0 <= i < |team| ==> 10.0 <= team[i].power && 50.0 <= team[i].life <= 100.0
  {
    forall i | 0 <= i < |team| ensures 10.0 <= team[i].power && 50.0 <= team[i].life <= 100.0 {
      PokemonUpdate.StatsAcceptedRange(team[i].power, team[i].life);
    }
  }

  lemma AcceptedHitsHard(teamA: seq<Pokemon>, teamB: seq<Pokemon>, table: seq<Weakness>)
    requires forall j :: 0 <= j < |teamB| ==> 10.0 <= teamB[j].power
    requires forall k :: 0 <= k < |table| ==> table[k].factor >= 0.1
    ensures HitsAtLeastOne(teamA, teamB, table)
  {
    forall i, j | 0 <= i < |teamA| && 0 <= j < |teamB|
      ensures Attack(teamB[j], teamA[i], table) >= 1.0
    {
      AttackAtLeastOne(teamB[j], teamA[i], table);
    }
  }

  lemma AttackAtLeastOne(attacker: Pokemon, defender: Pokemon, table: seq<Weakness>)
    requires 10.0 <= attacker.power
    requires forall k :: 0 <= k < |table| ==> table[k].factor >= 0.1
    ensures Attack(attacker, defender, table) >= 1.0
  {
    GetFactorAtLeast(table, attacker.typeId, defender.typeId, 0.1);
    ProductAtLeastOne(attacker.power, GetFactor(table, attacker.typeId, defender.typeId));
  }

  /** Rosters whose stats the update route accepts, fighting under a table
      whose factors are all at least 1/10, always finish within
      101 rounds per combatant of team A: every hit then takes at least one
      point of life. */
  lemma ValidatedBattleFinishes(teamA: seq<Pokemon>, teamB: seq<Pokemon>, table: seq<Weakness>, maxRounds: nat)
    requires Accepted(teamA) && Accepted(teamB)
    requires forall k :: 0 <= k < |table| ==> table[k].factor >= 0.1
    requires maxRounds >= 101 * |teamA|
    ensures Simulation(teamA, teamB, table, maxRounds).Finished?
  {
    AcceptedBounds(teamA);
    AcceptedBounds(teamB);
    AcceptedHitsHard(teamA, teamB, table);
    EnduranceAtMost(teamA);
    RunEndsBeforeCap(EngineState(teamA, teamB, 1, []), table, maxRounds);
  }

  // ---------------------------------------------------------------------
  // Unbounded loop

  /** When neither front can hurt the other, a round changes nothing but the
      counter and the log, so the loop never empties a queue: the unbounded
      loop of the handler would never end. */
  lemma {:induction false} ZeroDamageNeverEnds(s: EngineState, table: seq<Weakness>, maxRounds: nat)
    requires |s.queueA| > 0 && |s.queueB| > 0
    requires s.queueA[0].life > 0.0 && s.queueB[0].life > 0.0
    requires Attack(s.queueB[0], s.queueA[0], table) == 0.0
    requires Attack(s.queueA[0], s.queueB[0], table) == 0.0
    ensures var t := Run(s, table, maxRounds);
            t.queueA == s.queueA && t.queueB == s.queueB
    decreases maxRounds + 1 - s.round
  {
    if s.round <= maxRounds {
      var t := Step(s, table);
      assert t.queueA == s.queueA;
      assert t.queueB == s.queueB;
      ZeroDamageNeverEnds(t, table, maxRounds);
    }
  }

  /** Two combatants immune to each other's type: whatever the cap, the
      simulation reaches it with both still standing. */
  lemma MutualImmunityStalls(maxRounds: nat)
    ensures var gastly := Pokemon("1", "Gastly", "ghost", "", 35.0, 60.0);
            var normal := Pokemon("2", "Rattata", "normal", "", 56.0, 60.0);
            var table := [Weakness("normal", "ghost", 0.0), Weakness("ghost", "normal", 0.0)];
            Simulation([gastly], [normal], table, maxRounds) == Stalemate(maxRounds)
  {
    var gastly := Pokemon("1", "Gastly", "ghost", "", 35.0, 60.0);
    var normal := Pokemon("2", "Rattata", "normal", "", 56.0, 60.0);
    var table := [Weakness("normal", "ghost", 0.0), Weakness("ghost", "normal", 0.0)];
    assert Matches(table[0], "normal", "ghost");
    assert Matches(table[1], "ghost", "normal") && !Matches(table[0], "ghost", "normal");
    ZeroDamageNeverEnds(EngineState([gastly], [normal], 1, []), table, maxRounds);
  }
}
