/** The round-by-round battle simulation of the `/simulate` handler in
    backend/routes/battle.routes.js: two ordered queues of combatants fight
    front against front until one queue is empty. */
module BattleEngine {
  import opened Wrappers
  import opened Pokemons

  /** One row of the type-effectiveness table: an attacker of type `type1Id`
      hitting a defender of type `type2Id` deals `factor` times its power. */
  datatype Weakness = Weakness(type1Id: string, type2Id: string, factor: real)

  /** One side's half of a damage entry. `remaining` is the raw life after
      the hit and may be negative. */
  datatype Hit = Hit(id: string, name: string, taken: real, remaining: real)

  /** The entries of the battle log, in the three shapes the handler pushes.
      The message text of an entry is rendered from its fields by `Message`. */
  datatype LogEntry =
    | RoundStarted(round: nat, nameA: string, nameB: string)
    | DamageDealt(round: nat, p1: Hit, p2: Hit)
    | Fainted(team: string, pokemonId: string, name: string)

  /** The response body of a finished simulation. */
  datatype BattleResult = BattleResult(
    winner: string,
    logs: seq<LogEntry>,
    initialA: seq<Pokemon>,
    initialB: seq<Pokemon>,
    survivorsA: seq<Pokemon>,
    survivorsB: seq<Pokemon>)

  /** The source's loop has no bound; the model stops after `maxRounds`
      rounds with both queues still non-empty and reports a stalemate. */
  datatype Outcome = Finished(result: BattleResult) | Stalemate(roundsPlayed: nat)

  /** The loop state: both queues, the round counter and the log so far. */
  datatype EngineState = EngineState(
    queueA: seq<Pokemon>,
    queueB: seq<Pokemon>,
    round: nat,
    logs: seq<LogEntry>)

  predicate Matches(row: Weakness, attacker: string, defender: string)
  {
    row.type1Id == attacker && row.type2Id == defender
  }

  /** The index of the first table row for (attacker, defender), as
      `Array.prototype.find` would pick it. */
  function FirstMatch(table: seq<Weakness>, attacker: string, defender: string): (r: Option<nat>)
    ensures r.Some? ==> r.value < |table| && Matches(table[r.value], attacker, defender)
    ensures r.Some? ==> forall j :: 0 <= j < r.value ==> !Matches(table[j], attacker, defender)
    ensures r.None? ==> forall j :: 0 <= j < |table| ==> !Matches(table[j], attacker, defender)
  {
    if |table| == 0 then None
    else if Matches(table[0], attacker, defender) then Some(0)
    else match FirstMatch(table[1..], attacker, defender)
      case None => None
      case Some(i) => Some(i + 1)
  }

  /** `getFactor`: the factor of the first matching row, or 1 when no row matches. */
  function GetFactor(table: seq<Weakness>, attacker: string, defender: string): (f: real)
    ensures (forall j :: 0 <= j < |table| ==> !Matches(table[j], attacker, defender)) ==> f == 1.0
    ensures forall i :: 0 <= i < |table| && Matches(table[i], attacker, defender) &&
                        (forall j :: 0 <= j < i ==> !Matches(table[j], attacker, defender))
                        ==> f == table[i].factor
  {
    match FirstMatch(table, attacker, defender)
    case Some(i) => table[i].factor
    case None => 1.0
  }

  /** The damage `attacker` deals to `defender`: power times the type factor. */
  function Attack(attacker: Pokemon, defender: Pokemon, table: seq<Weakness>): real
  {
    attacker.power * GetFactor(table, attacker.typeId, defender.typeId)
  }

  /** Decimal rendering of a round number inside a template string. */
  function NatToString(n: nat): string
  {
    if n < 10 then ["0123456789"[n]] else NatToString(n / 10) + ["0123456789"[n % 10]]
  }

  /** The `message` property of an entry; damage entries carry none. */
  function Message(e: LogEntry): (m: Option<string>)
    ensures m.None? <==> e.DamageDealt?
    ensures e.Fainted? ==> m == Some(e.name + " fainted!")
    ensures e.RoundStarted? ==> |m.value| > 6 && m.value[..6] == "Round "
  {
    match e
    case RoundStarted(round, nameA, nameB) =>
      Some("Round " + NatToString(round) + " starts: " + nameA + " (Team A) vs " + nameB + " (Team B)")
    case DamageDealt(_, _, _) => None
    case Fainted(_, _, name) => Some(name + " fainted!")
  }

  /** One iteration of the battle loop: both fronts hit each other at once,
      each front's life drops by the damage it takes, fronts at or below zero
      life faint and leave their queue, and the round counter moves on by one.
      The entries are appended in the order the handler pushes them. */
  function Step(s: EngineState, table: seq<Weakness>): (t: EngineState)
    requires |s.queueA| > 0 && |s.queueB| > 0
    ensures t.round == s.round + 1
    ensures |s.logs| + 2 <= |t.logs| <= |s.logs| + 4
  {
    var p1, p2 := s.queueA[0], s.queueB[0];
    var started := s.logs + [RoundStarted(s.round, p1.name, p2.name)];
    var dmgTo1 := Attack(p2, p1, table);
    var dmgTo2 := Attack(p1, p2, table);
    var hit1, hit2 := p1.(life := p1.life - dmgTo1), p2.(life := p2.life - dmgTo2);
    var queueA, queueB := s.queueA[0 := hit1], s.queueB[0 := hit2];
    var damaged := started + [DamageDealt(s.round, Hit(hit1.id, hit1.name, dmgTo1, hit1.life),
                                                   Hit(hit2.id, hit2.name, dmgTo2, hit2.life))];
    var afterA := if hit1.life <= 0.0 then damaged + [Fainted("A", hit1.id, hit1.name)] else damaged;
    var afterB := if hit2.life <= 0.0 then afterA + [Fainted("B", hit2.id, hit2.name)] else afterA;
    EngineState(
      if hit1.life <= 0.0 then queueA[1..] else queueA,
      if hit2.life <= 0.0 then queueB[1..] else queueB,
      s.round + 1,
      afterB)
  }

  /** The battle loop from state `s`, run while both queues are non-empty
      and the round counter has not passed `maxRounds`. */
  function Run(s: EngineState, table: seq<Weakness>, maxRounds: nat): (t: EngineState)
    ensures t.round >= s.round
    ensures s.round <= maxRounds + 1 ==> t.round <= maxRounds + 1
    ensures |t.queueA| > 0 && |t.queueB| > 0 ==> t.round > maxRounds
    decreases maxRounds + 1 - s.round
  {
    if |s.queueA| == 0 || |s.queueB| == 0 || s.round > maxRounds then s
    else Run(Step(s, table), table, maxRounds)
  }

  /** The winner label: whichever queue still holds a combatant, A first. */
  function Winner(queueA: seq<Pokemon>, queueB: seq<Pokemon>): (w: string)
    ensures w == "Team A" <==> |queueA| > 0
    ensures w == "Team B" <==> |queueA| == 0 && |queueB| > 0
    ensures w == "Draw" <==> |queueA| == 0 && |queueB| == 0
  {
    if |queueA| > 0 then "Team A" else if |queueB| > 0 then "Team B" else "Draw"
  }

  /** The whole simulation as a function of the two rosters and the table. */
  function Simulation(teamA: seq<Pokemon>, teamB: seq<Pokemon>, table: seq<Weakness>, maxRounds: nat): (o: Outcome)
    ensures o.Finished? ==> o.result.initialA == teamA && o.result.initialB == teamB
    ensures o.Finished? ==> |o.result.survivorsA| == 0 || |o.result.survivorsB| == 0
    ensures o.Finished? ==> o.result.winner == Winner(o.result.survivorsA, o.result.survivorsB)
    ensures o.Stalemate? ==> o.roundsPlayed == maxRounds && |teamA| > 0 && |teamB| > 0
  {
    var t := Run(EngineState(teamA, teamB, 1, []), table, maxRounds);
    if |t.queueA| > 0 && |t.queueB| > 0 then Stalemate(t.round - 1)
    else Finished(BattleResult(Winner(t.queueA, t.queueB), t.logs, teamA, teamB, t.queueA, t.queueB))
  }

  /** One pass of the handler's loop body: the two fronts trade hits, the
      log grows and fainted fronts are shifted off their queues. */
  method PlayRound(queueA: seq<Pokemon>, queueB: seq<Pokemon>, roundCount: nat, logs: seq<LogEntry>,
                   table: seq<Weakness>)
    returns (nextA: seq<Pokemon>, nextB: seq<Pokemon>, nextLogs: seq<LogEntry>)
    requires |queueA| > 0 && |queueB| > 0
    ensures EngineState(nextA, nextB, roundCount + 1, nextLogs)
         == Step(EngineState(queueA, queueB, roundCount, logs), table)
  {
    nextA, nextB, nextLogs := queueA, queueB, logs;
    var p1, p2 := nextA[0], nextB[0];
    nextLogs := nextLogs + [RoundStarted(roundCount, p1.name, p2.name)];

    var dmgTo1 := Attack(p2, p1, table);
    var dmgTo2 := Attack(p1, p2, table);

    p1 := p1.(life := p1.life - dmgTo1);
    p2 := p2.(life := p2.life - dmgTo2);
    nextA := nextA[0 := p1];
    nextB := nextB[0 := p2];

    nextLogs := nextLogs + [DamageDealt(roundCount, Hit(p1.id, p1.name, dmgTo1, p1.life),
                                                    Hit(p2.id, p2.name, dmgTo2, p2.life))];

    if p1.life <= 0.0 {
      nextLogs := nextLogs + [Fainted("A", p1.id, p1.name)];
      nextA := nextA[1..];
    }
    if p2.life <= 0.0 {
      nextLogs := nextLogs + [Fainted("B", p2.id, p2.name)];
      nextB := nextB[1..];
    }
    ghost var step := Step(EngineState(queueA, queueB, roundCount, logs), table);
    assert nextA == step.queueA;
    assert nextB == step.queueB;
    assert nextLogs == step.logs by {
      var damaged := logs + [RoundStarted(roundCount, queueA[0].name, queueB[0].name)]
                          + [DamageDealt(roundCount, Hit(p1.id, p1.name, dmgTo1, p1.life),
                                                     Hit(p2.id, p2.name, dmgTo2, p2.life))];
      var afterA := if p1.life <= 0.0 then damaged + [Fainted("A", p1.id, p1.name)] else damaged;
      assert step.logs == if p2.life <= 0.0 then afterA + [Fainted("B", p2.id, p2.name)] else afterA;
    }
  }

  /** The handler's battle loop, on local copies of the two rosters. */
  method Simulate(teamA: seq<Pokemon>, teamB: seq<Pokemon>, table: seq<Weakness>, maxRounds: nat)
    returns (outcome: Outcome)
    ensures outcome == Simulation(teamA, teamB, table, maxRounds)
  {
    var logs: seq<LogEntry> := [];
    var roundCount: nat := 1;
    var queueA, queueB := teamA, teamB;
    while |queueA| > 0 && |queueB| > 0 && roundCount <= maxRounds
      invariant Run(EngineState(queueA, queueB, roundCount, logs), table, maxRounds)
             == Run(EngineState(teamA, teamB, 1, []), table, maxRounds)
      decreases maxRounds + 1 - roundCount
    {
      queueA, queueB, logs := PlayRound(queueA, queueB, roundCount, logs, table);
      roundCount := roundCount + 1;
    }
    if |queueA| > 0 && |queueB| > 0 {
      outcome := Stalemate(roundCount - 1);
    } else {
      outcome := Finished(BattleResult(Winner(queueA, queueB), logs, teamA, teamB, queueA, queueB));
    }
  }
}
