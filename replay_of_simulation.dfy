/** The viewer replaying the simulator's own output: the replay never shows
    a pointer outside a roster, and its last frame agrees with the
    survivors the simulator reports. */
module ReplayOfSimulation {
  import opened Wrappers
  import opened Pokemons
  import opened BattleArena
  import BattleEngine
  import BattleEngineProperties
  import BattleArenaProperties

  /** One side of the replay mirrors one side of the simulation: the
      pointer has passed exactly the combatants the queue has lost, those
      are shown fainted, and the rest are shown active with the life the
      queue holds for them. */
  predicate SideMirrors(current: seq<BattlePokemon>, idx: nat, queue: seq<Pokemon>, roster: seq<Pokemon>)
  {
    && |current| == |roster|
    && BattleEngineProperties.ShiftedFrom(queue, roster)
    && idx == |roster| - |queue|
    && (forall i :: 0 <= i < idx ==> current[i].status == Fainted)
    && (forall i :: idx <= i < |current| ==> current[i].status == Active && current[i].currentHp == queue[i - idx].life)
  }

  /** Every frame's two pointers lie inside the rosters. */
  predicate FramesInRange(history: seq<BattleState>, lenA: nat, lenB: nat)
  {
    forall k :: 0 <= k < |history| ==>
      0 <= history[k].activeAIndex < lenA && 0 <= history[k].activeBIndex < lenB
  }

  /** The replay state mirrors the two queues of the simulation, its frames
      all point inside the rosters, and its last frame shows both rosters as
      they stand. */
  predicate Mirrors(w: Replaying, queueA: seq<Pokemon>, queueB: seq<Pokemon>, teamA: seq<Pokemon>, teamB: seq<Pokemon>)
  {
    && |w.history| > 0
    && SideMirrors(w.currentA, w.activeAIdx, queueA, teamA)
    && SideMirrors(w.currentB, w.activeBIdx, queueB, teamB)
    && FramesInRange(w.history, |teamA|, |teamB|)
    && w.history[|w.history| - 1].teamA == w.currentA
    && w.history[|w.history| - 1].teamB == w.currentB
  }

  lemma MirrorsStart(teamA: seq<Pokemon>, teamB: seq<Pokemon>)
    requires |teamA| > 0 && |teamB| > 0
    ensures Mirrors(Start(teamA, teamB), teamA, teamB, teamA, teamB)
  {
  }

  lemma SideAfterDamage(current: seq<BattlePokemon>, idx: nat, queue: seq<Pokemon>, roster: seq<Pokemon>, hp: real)
    requires SideMirrors(current, idx, queue, roster) && |queue| > 0
    ensures idx < |current|
    ensures SideMirrors(SetHp(current, idx, hp), idx, queue[0 := queue[0].(life := hp)], roster)
  {
    var q := queue[0 := queue[0].(life := hp)];
    var c := SetHp(current, idx, hp);
    assert SameExceptLife(q[0], roster[|roster| - |q|]);
    forall i | idx <= i < |c| ensures c[i].status == Active && c[i].currentHp == q[i - idx].life {
    }
  }

  lemma ShiftedTail(queue: seq<Pokemon>, roster: seq<Pokemon>)
    requires BattleEngineProperties.ShiftedFrom(queue, roster) && |queue| > 0
    ensures BattleEngineProperties.ShiftedFrom(queue[1..], roster)
  {
    if |queue| > 1 {
      assert queue[1..][0] == roster[|roster| - |queue| + 1];
    }
  }

  lemma SideAfterFaint(current: seq<BattlePokemon>, idx: nat, queue: seq<Pokemon>, roster: seq<Pokemon>)
    requires SideMirrors(current, idx, queue, roster) && |queue| > 0
    ensures idx < |current|
    ensures SideMirrors(MarkFainted(current, idx), idx + 1, queue[1..], roster)
  {
    var q := queue[1..];
    var c := MarkFainted(current, idx);
    ShiftedTail(queue, roster);
    forall i | idx + 1 <= i < |c| ensures c[i].status == Active && c[i].currentHp == q[i - (idx + 1)].life {
      assert c[i] == current[i];
      assert q[i - (idx + 1)] == queue[i - idx];
    }
  }

  /** A damage entry for the two fronts keeps the mirror, with both fronts'
      life replaced by the logged remaining life. */
  lemma MirrorDamage(w: Replaying, queueA: seq<Pokemon>, queueB: seq<Pokemon>, teamA: seq<Pokemon>, teamB: seq<Pokemon>,
                     round: nat, h1: BattleEngine.Hit, h2: BattleEngine.Hit)
    requires Mirrors(w, queueA, queueB, teamA, teamB) && |queueA| > 0 && |queueB| > 0
    ensures Mirrors(Apply(w, BattleEngine.DamageDealt(round, h1, h2)),
                    queueA[0 := queueA[0].(life := h1.remaining)], queueB[0 := queueB[0].(life := h2.remaining)],
                    teamA, teamB)
  {
    SideAfterDamage(w.currentA, w.activeAIdx, queueA, teamA, h1.remaining);
    SideAfterDamage(w.currentB, w.activeBIdx, queueB, teamB, h2.remaining);
  }

  /** A faint entry for side A, whose queue is not empty, keeps the mirror
      with A's front shifted off. */
  lemma MirrorFaintA(w: Replaying, queueA: seq<Pokemon>, queueB: seq<Pokemon>, teamA: seq<Pokemon>, teamB: seq<Pokemon>,
                     id: string, name: string)
    requires Mirrors(w, queueA, queueB, teamA, teamB) && |queueA| > 0 && |teamB| > 0
    ensures Mirrors(Apply(w, BattleEngine.Fainted("A", id, name)), queueA[1..], queueB, teamA, teamB)
  {
    SideAfterFaint(w.currentA, w.activeAIdx, queueA, teamA);
  }

  /** A faint entry for side B, whose queue is not empty, keeps the mirror
      with B's front shifted off. */
  lemma MirrorFaintB(w: Replaying, queueA: seq<Pokemon>, queueB: seq<Pokemon>, teamA: seq<Pokemon>, teamB: seq<Pokemon>,
                     id: string, name: string)
    requires Mirrors(w, queueA, queueB, teamA, teamB) && |queueB| > 0 && |teamA| > 0
    ensures Mirrors(Apply(w, BattleEngine.Fainted("B", id, name)), queueA, queueB[1..], teamA, teamB)
  {
    SideAfterFaint(w.currentB, w.activeBIdx, queueB, teamB);
  }

  lemma ReplayOne(w: Replaying, e: BattleEngine.LogEntry)
    requires |w.history| > 0
    ensures Replay(w, [e]) == Apply(w, e)
  {
    assert [e][..0] == [];
  }

  /** Replaying the entries of one round keeps the mirror, from the queues
      before the round to the queues after it. */
  lemma MirrorStep(w: Replaying, s: BattleEngine.EngineState, table: seq<BattleEngine.Weakness>,
                   teamA: seq<Pokemon>, teamB: seq<Pokemon>)
    requires |s.queueA| > 0 && |s.queueB| > 0 && |teamA| > 0 && |teamB| > 0
    requires Mirrors(w, s.queueA, s.queueB, teamA, teamB)
    ensures var t := BattleEngine.Step(s, table);
            && |t.logs| >= |s.logs|
            && Mirrors(Replay(w, t.logs[|s.logs|..]), t.queueA, t.queueB, teamA, teamB)
  {
    var t := BattleEngine.Step(s, table);
    var a, b := s.queueA[0], s.queueB[0];
    var d1, d2 := BattleEngine.Attack(b, a, table), BattleEngine.Attack(a, b, table);
    var h1 := BattleEngine.Hit(a.id, a.name, d1, a.life - d1);
    var h2 := BattleEngine.Hit(b.id, b.name, d2, b.life - d2);
    var rs := BattleEngine.RoundStarted(s.round, a.name, b.name);
    var dmg := BattleEngine.DamageDealt(s.round, h1, h2);
    var fa: seq<BattleEngine.LogEntry> := if h1.remaining <= 0.0 then [BattleEngine.Fainted("A", a.id, a.name)] else [];
    var fb: seq<BattleEngine.LogEntry> := if h2.remaining <= 0.0 then [BattleEngine.Fainted("B", b.id, b.name)] else [];
    var block := t.logs[|s.logs|..];
    assert block == [rs] + [dmg] + fa + fb;

    var qa1 := s.queueA[0 := a.(life := h1.remaining)];
    var qb1 := s.queueB[0 := b.(life := h2.remaining)];
    var qa2 := if h1.remaining <= 0.0 then qa1[1..] else qa1;
    var qb2 := if h2.remaining <= 0.0 then qb1[1..] else qb1;
    assert t.queueA == qa2 && t.queueB == qb2;

    ReplayOne(w, rs);
    var w2 := Apply(w, dmg);
    ReplayOne(w, dmg);
    MirrorDamage(w, s.queueA, s.queueB, teamA, teamB, s.round, h1, h2);
    assert Mirrors(w2, qa1, qb1, teamA, teamB);

    var w3 := Replay(w2, fa);
    if h1.remaining <= 0.0 {
      ReplayOne(w2, fa[0]);
      MirrorFaintA(w2, qa1, qb1, teamA, teamB, a.id, a.name);
    }
    assert Mirrors(w3, qa2, qb1, teamA, teamB);

    var w4 := Replay(w3, fb);
    if h2.remaining <= 0.0 {
      ReplayOne(w3, fb[0]);
      MirrorFaintB(w3, qa2, qb1, teamA, teamB, b.id, b.name);
    }
    assert Mirrors(w4, qa2, qb2, teamA, teamB);

    BattleArenaProperties.ReplayAppend(w, [rs], [dmg]);
    BattleArenaProperties.ReplayAppend(w, [rs] + [dmg], fa);
    BattleArenaProperties.ReplayAppend(w, [rs] + [dmg] + fa, fb);
  }

  lemma ReplayThrough(w: Replaying, sLogs: seq<BattleEngine.LogEntry>, uLogs: seq<BattleEngine.LogEntry>,
                      tLogs: seq<BattleEngine.LogEntry>)
    requires |w.history| > 0
    requires |sLogs| <= |uLogs| <= |tLogs|
    requires uLogs[..|sLogs|] == sLogs && tLogs[..|uLogs|] == uLogs
    ensures Replay(w, tLogs[|sLogs|..]) == Replay(Replay(w, uLogs[|sLogs|..]), tLogs[|uLogs|..])
  {
    assert tLogs[|sLogs|..] == uLogs[|sLogs|..] + tLogs[|uLogs|..];
    BattleArenaProperties.ReplayAppend(w, uLogs[|sLogs|..], tLogs[|uLogs|..]);
  }

  /** The mirror survives the whole loop. */
  lemma {:induction false} MirrorRun(w: Replaying, s: BattleEngine.EngineState, table: seq<BattleEngine.Weakness>,
                                     maxRounds: nat, teamA: seq<Pokemon>, teamB: seq<Pokemon>)
    requires |teamA| > 0 && |teamB| > 0
    requires Mirrors(w, s.queueA, s.queueB, teamA, teamB)
    ensures var t := BattleEngine.Run(s, table, maxRounds);
            && |t.logs| >= |s.logs|
            && Mirrors(Replay(w, t.logs[|s.logs|..]), t.queueA, t.queueB, teamA, teamB)
    decreases maxRounds + 1 - s.round
  {
    BattleEngineProperties.RunLog(s, table, maxRounds);
    if |s.queueA| == 0 || |s.queueB| == 0 || s.round > maxRounds {
      assert BattleEngine.Run(s, table, maxRounds).logs[|s.logs|..] == [];
    } else {
      var u := BattleEngine.Step(s, table);
      var t := BattleEngine.Run(u, table, maxRounds);
      BattleEngineProperties.StepShape(s, table);
      BattleEngineProperties.RunLog(u, table, maxRounds);
      MirrorStep(w, s, table, teamA, teamB);
      MirrorRun(Replay(w, u.logs[|s.logs|..]), u, table, maxRounds, teamA, teamB);
      ReplayThrough(w, s.logs, u.logs, t.logs);
    }
  }

  /** How a side's roster in the last frame reflects the simulator's
      survivors: the fallen, a prefix of the roster, are fainted; every
      survivor is active with the life the simulator reports for it. */
  predicate SideShows(team: seq<BattlePokemon>, roster: seq<Pokemon>, survivors: seq<Pokemon>)
  {
    && |team| == |roster|
    && |survivors| <= |roster|
    && (forall i :: 0 <= i < |team| ==> (team[i].status == Fainted <==> i < |roster| - |survivors|))
    && (forall i :: |roster| - |survivors| <= i < |team| ==>
          team[i].status == Active && team[i].currentHp == survivors[i - (|roster| - |survivors|)].life)
  }

  lemma FinalFrame(w: Replaying, queueA: seq<Pokemon>, queueB: seq<Pokemon>, teamA: seq<Pokemon>, teamB: seq<Pokemon>,
                   winner: Option<string>)
    requires Mirrors(w, queueA, queueB, teamA, teamB)
    ensures var h := MarkWinner(w.history, winner);
            && |h| > 0
            && FramesInRange(h, |teamA|, |teamB|)
            && h[|h| - 1].winner == winner
            && SideShows(h[|h| - 1].teamA, teamA, queueA)
            && SideShows(h[|h| - 1].teamB, teamB, queueB)
  {
  }

  /** Replaying a finished simulation's response: every frame points at a
      combatant of each roster; the last frame carries the simulator's
      winner, shows exactly the fallen of each side as fainted (the front
      of the roster) and every survivor active with the life the simulator
      reports for it. */
  lemma ReplayAgreesWithSimulation(teamA: seq<Pokemon>, teamB: seq<Pokemon>, table: seq<BattleEngine.Weakness>,
                                   maxRounds: nat)
    requires BattleEngine.Simulation(teamA, teamB, table, maxRounds).Finished?
    requires |teamA| > 0 && |teamB| > 0
    ensures var r := BattleEngine.Simulation(teamA, teamB, table, maxRounds).result;
            var h := BuildHistory(r.initialA, r.initialB, r.logs, Some(r.winner));
            && |h| > 0
            && FramesInRange(h, |teamA|, |teamB|)
            && h[|h| - 1].winner == Some(r.winner)
            && SideShows(h[|h| - 1].teamA, teamA, r.survivorsA)
            && SideShows(h[|h| - 1].teamB, teamB, r.survivorsB)
  {
    var s := BattleEngine.EngineState(teamA, teamB, 1, []);
    var t := BattleEngine.Run(s, table, maxRounds);
    MirrorsStart(teamA, teamB);
    MirrorRun(Start(teamA, teamB), s, table, maxRounds, teamA, teamB);
    assert t.logs[|s.logs|..] == t.logs;
    var r := BattleEngine.Simulation(teamA, teamB, table, maxRounds).result;
    assert r.logs == t.logs && r.survivorsA == t.queueA && r.survivorsB == t.queueB;
    FinalFrame(Replay(Start(teamA, teamB), t.logs), t.queueA, t.queueB, teamA, teamB, Some(r.winner));
  }
}
