/** The replay logic of the battle viewer
    (frontend/src/app/components/battle-arena/battle-arena.component.ts):
    the server's log is turned into a list of snapshot frames that the user
    steps through. */
module BattleArena {
  import opened Wrappers
  import opened Pokemons
  import BattleEngine

  datatype Status = Active | Fainted | Waiting

  /** A combatant as the viewer shows it: the stored record plus its
      displayed life, its status and the life it started with. */
  datatype BattlePokemon = BattlePokemon(base: Pokemon, currentHp: real, status: Status, maxHp: real)

  /** One frame of the replay. Frames are snapshots: later steps of the
      replay never change a frame once pushed. */
  datatype BattleState = BattleState(
    round: nat,
    teamA: seq<BattlePokemon>,
    teamB: seq<BattlePokemon>,
    activeAIndex: int,
    activeBIndex: int,
    logMessage: Option<string>,
    winner: Option<string>)

  datatype InitialState = InitialState(teamA: seq<Pokemon>, teamB: seq<Pokemon>)

  /** The parts of the simulation response the viewer reads; `None` is an
      absent property. */
  datatype BattleResponse = BattleResponse(
    winner: Option<string>,
    logs: Option<seq<BattleEngine.LogEntry>>,
    initialState: Option<InitialState>)

  /** The replay's working variables: both rosters as they stand, the two
      pointers to the active combatants, and the frames pushed so far. */
  datatype Replaying = Replaying(
    currentA: seq<BattlePokemon>,
    currentB: seq<BattlePokemon>,
    activeAIdx: nat,
    activeBIdx: nat,
    history: seq<BattleState>)

  const ReadyMessage := "Battle Ready!"
  const InvalidResponse := "Invalid response from server."

  /** Every combatant starts active, at full life. */
  function InitTeam(t: seq<Pokemon>): (r: seq<BattlePokemon>)
    ensures |r| == |t|
    ensures forall i :: 0 <= i < |t| ==> r[i] == BattlePokemon(t[i], t[i].life, Active, t[i].life)
  {
    seq(|t|, i requires 0 <= i < |t| => BattlePokemon(t[i], t[i].life, Active, t[i].life))
  }

  /** The replay before any entry: frame 0 shows both full rosters. */
  function Start(teamA: seq<Pokemon>, teamB: seq<Pokemon>): (w: Replaying)
    ensures w.currentA == InitTeam(teamA) && w.currentB == InitTeam(teamB)
    ensures w.activeAIdx == 0 && w.activeBIdx == 0
    ensures |w.history| == 1
    ensures w.history[0].teamA == w.currentA && w.history[0].teamB == w.currentB
    ensures w.history[0].round == 0 && w.history[0].activeAIndex == 0 && w.history[0].activeBIndex == 0
    ensures w.history[0].logMessage == Some(ReadyMessage) && w.history[0].winner.None?
  {
    var a, b := InitTeam(teamA), InitTeam(teamB);
    Replaying(a, b, 0, 0, [BattleState(0, a, b, 0, 0, Some(ReadyMessage), None)])
  }

  /** The pointer a faint frame shows: the last slot once the pointer has
      run past the end of its roster. */
  function DisplayIndex(idx: nat, len: nat): (d: int)
    ensures idx < len ==> d == idx
    ensures len <= idx ==> d == idx - 1
    ensures 0 < len && idx <= len ==> 0 <= d < len
    ensures idx - 1 <= d <= idx
  {
    if idx < len then idx else idx - 1
  }

  function SetHp(team: seq<BattlePokemon>, idx: nat, hp: real): seq<BattlePokemon>
  {
    if idx < |team| then team[idx := team[idx].(currentHp := hp)] else team
  }

  function MarkFainted(team: seq<BattlePokemon>, idx: nat): seq<BattlePokemon>
  {
    if idx < |team| then team[idx := team[idx].(status := Fainted)] else team
  }

  /** One entry of the log. A damage entry sets the displayed life of both
      active combatants and pushes a frame with the entry's round and no
      message; a faint entry marks side A's active combatant fainted when
      its team is "A" and side B's otherwise, advances that side's pointer
      and pushes a frame with the previous frame's round; a round-start
      entry pushes nothing. */
  function Apply(w: Replaying, e: BattleEngine.LogEntry): (r: Replaying)
    requires |w.history| > 0
    ensures |r.history| >= |w.history|
  {
    match e
    case RoundStarted(_, _, _) => w
    case DamageDealt(round, p1, p2) =>
      var a := SetHp(w.currentA, w.activeAIdx, p1.remaining);
      var b := SetHp(w.currentB, w.activeBIdx, p2.remaining);
      w.(currentA := a, currentB := b,
         history := w.history + [BattleState(round, a, b, w.activeAIdx, w.activeBIdx,
                                             BattleEngine.Message(e), None)])
    case Fainted(team, _, _) =>
      var v := if team == "A"
               then w.(currentA := MarkFainted(w.currentA, w.activeAIdx), activeAIdx := w.activeAIdx + 1)
               else w.(currentB := MarkFainted(w.currentB, w.activeBIdx), activeBIdx := w.activeBIdx + 1);
      v.(history := w.history + [BattleState(w.history[|w.history| - 1].round, v.currentA, v.currentB,
                                             DisplayIndex(v.activeAIdx, |v.currentA|),
                                             DisplayIndex(v.activeBIdx, |v.currentB|),
                                             BattleEngine.Message(e), None)])
  }

  /** The entries applied in order, the last one last. */
  function Replay(w: Replaying, logs: seq<BattleEngine.LogEntry>): (r: Replaying)
    requires |w.history| > 0
    ensures |r.history| >= |w.history|
    decreases |logs|
  {
    if |logs| == 0 then w else Apply(Replay(w, logs[..|logs| - 1]), logs[|logs| - 1])
  }

  /** The winner is written onto the last frame only. */
  function MarkWinner(history: seq<BattleState>, winner: Option<string>): (r: seq<BattleState>)
    requires |history| > 0
    ensures |r| == |history|
    ensures forall k :: 0 <= k < |history| - 1 ==> r[k] == history[k]
    ensures r[|r| - 1].winner == winner
    ensures r[|r| - 1].(winner := history[|history| - 1].winner) == history[|history| - 1]
  {
    history[|history| - 1 := history[|history| - 1].(winner := winner)]
  }

  /** The whole list of frames built from a valid response. */
  function BuildHistory(teamA: seq<Pokemon>, teamB: seq<Pokemon>, logs: seq<BattleEngine.LogEntry>,
                        winner: Option<string>): (r: seq<BattleState>)
    ensures |r| == |Replay(Start(teamA, teamB), logs).history| > 0
    ensures r[|r| - 1].winner == winner
  {
    MarkWinner(Replay(Start(teamA, teamB), logs).history, winner)
  }

  /** The body of the `forEach` over the log, on the replay's variables. */
  method ApplyLog(currentA: seq<BattlePokemon>, currentB: seq<BattlePokemon>, activeAIdx: nat, activeBIdx: nat,
                  history: seq<BattleState>, log: BattleEngine.LogEntry)
    returns (nextA: seq<BattlePokemon>, nextB: seq<BattlePokemon>, nextAIdx: nat, nextBIdx: nat,
             nextHistory: seq<BattleState>)
    requires |history| > 0
    ensures Replaying(nextA, nextB, nextAIdx, nextBIdx, nextHistory)
         == Apply(Replaying(currentA, currentB, activeAIdx, activeBIdx, history), log)
  {
    nextA, nextB, nextAIdx, nextBIdx, nextHistory := currentA, currentB, activeAIdx, activeBIdx, history;
    var message := BattleEngine.Message(log);
    if log.DamageDealt? {
      if nextAIdx < |nextA| {
        nextA := nextA[nextAIdx := nextA[nextAIdx].(currentHp := log.p1.remaining)];
      }
      if nextBIdx < |nextB| {
        nextB := nextB[nextBIdx := nextB[nextBIdx].(currentHp := log.p2.remaining)];
      }
      nextHistory := nextHistory + [BattleState(log.round, nextA, nextB, nextAIdx, nextBIdx, message, None)];
    } else if log.Fainted? {
      if log.team == "A" {
        if nextAIdx < |nextA| {
          nextA := nextA[nextAIdx := nextA[nextAIdx].(status := Fainted)];
        }
        nextAIdx := nextAIdx + 1;
      } else {
        if nextBIdx < |nextB| {
          nextB := nextB[nextBIdx := nextB[nextBIdx].(status := Fainted)];
        }
        nextBIdx := nextBIdx + 1;
      }
      nextHistory := nextHistory + [BattleState(history[|history| - 1].round, nextA, nextB,
                                                if nextAIdx < |nextA| then nextAIdx else nextAIdx - 1,
                                                if nextBIdx < |nextB| then nextBIdx else nextBIdx - 1,
                                                message, None)];
    }
  }

  /** The frame-building part of `processBattleResult` on a valid response. */
  method ReconstructHistory(teamA: seq<Pokemon>, teamB: seq<Pokemon>, logs: seq<BattleEngine.LogEntry>,
                            winner: Option<string>)
    returns (history: seq<BattleState>)
    ensures history == BuildHistory(teamA, teamB, logs, winner)
  {
    var currentA := InitTeam(teamA);
    var currentB := InitTeam(teamB);
    var activeAIdx: nat := 0;
    var activeBIdx: nat := 0;
    history := [BattleState(0, currentA, currentB, activeAIdx, activeBIdx, Some(ReadyMessage), None)];
    for i := 0 to |logs|
      invariant Replaying(currentA, currentB, activeAIdx, activeBIdx, history) == Replay(Start(teamA, teamB), logs[..i])
    {
      assert logs[..i + 1][..i] == logs[..i];
      currentA, currentB, activeAIdx, activeBIdx, history :=
        ApplyLog(currentA, currentB, activeAIdx, activeBIdx, history, logs[i]);
    }
    assert logs[..|logs|] == logs;
    var lastFrame := history[|history| - 1];
    history := history[|history| - 1 := lastFrame.(winner := winner)];
  }

  /** The viewer's replay state. */
  class BattleArenaComponent {
    var battleHistory: seq<BattleState>
    var currentRoundIndex: int
    var battleError: Option<string>

    /** The selected frame is one of the frames, or 0 when there are none. */
    ghost predicate Valid()
      reads this
    {
      0 <= currentRoundIndex && (currentRoundIndex < |battleHistory| || currentRoundIndex == 0)
    }

    constructor()
      ensures Valid()
      ensures battleHistory == [] && currentRoundIndex == 0 && battleError == None
    {
      battleHistory := [];
      currentRoundIndex := 0;
      battleError := None;
    }

    /** The selected frame; absent when there are no frames. */
    function CurrentFrame(): (f: Option<BattleState>)
      reads this
      requires Valid()
      ensures f.Some? <==> |battleHistory| > 0
      ensures f.Some? ==> f.value == battleHistory[currentRoundIndex]
    {
      if currentRoundIndex < |battleHistory| then Some(battleHistory[currentRoundIndex]) else None
    }

    /** Side A's active combatant in the selected frame; absent when the
        frame's pointer is outside its roster. */
    function ActiveA(): (p: Option<BattlePokemon>)
      reads this
      requires Valid() && |battleHistory| > 0
      ensures var f := battleHistory[currentRoundIndex];
              (p.Some? <==> 0 <= f.activeAIndex < |f.teamA|)
              && (p.Some? ==> p.value == f.teamA[f.activeAIndex])
    {
      var f := CurrentFrame().value;
      if 0 <= f.activeAIndex < |f.teamA| then Some(f.teamA[f.activeAIndex]) else None
    }

    /** Side B's active combatant in the selected frame. */
    function ActiveB(): (p: Option<BattlePokemon>)
      reads this
      requires Valid() && |battleHistory| > 0
      ensures var f := battleHistory[currentRoundIndex];
              (p.Some? <==> 0 <= f.activeBIndex < |f.teamB|)
              && (p.Some? ==> p.value == f.teamB[f.activeBIndex])
    {
      var f := CurrentFrame().value;
      if 0 <= f.activeBIndex < |f.teamB| then Some(f.teamB[f.activeBIndex]) else None
    }

    /** Clears the replay. */
    method ResetBattle()
      modifies this
      ensures Valid()
      ensures battleHistory == [] && currentRoundIndex == 0
      ensures battleError == old(battleError)
    {
      battleHistory := [];
      currentRoundIndex := 0;
    }

    /** Selects a frame; an index outside the frames is ignored. */
    method GoToRound(index: int)
      requires Valid()
      modifies this
      ensures Valid()
      ensures currentRoundIndex == if 0 <= index < |battleHistory| then index else old(currentRoundIndex)
      ensures battleHistory == old(battleHistory) && battleError == old(battleError)
    {
      if index >= 0 && index < |battleHistory| {
        currentRoundIndex := index;
      }
    }

    /** Turns a simulation response into frames. A response without its
        initial state or its log only sets the error; otherwise the frames
        are rebuilt and the first one is selected. */
    method ProcessBattleResult(result: BattleResponse)
      requires Valid()
      modifies this
      ensures Valid()
      ensures result.initialState.None? || result.logs.None? ==>
                battleError == Some(InvalidResponse)
                && battleHistory == old(battleHistory) && currentRoundIndex == old(currentRoundIndex)
      ensures result.initialState.Some? && result.logs.Some? ==>
                battleHistory == BuildHistory(result.initialState.value.teamA, result.initialState.value.teamB,
                                              result.logs.value, result.winner)
                && currentRoundIndex == 0 && battleError == old(battleError)
    {
      if result.initialState.None? || result.logs.None? {
        battleError := Some(InvalidResponse);
        return;
      }
      var history := ReconstructHistory(result.initialState.value.teamA, result.initialState.value.teamB,
                                        result.logs.value, result.winner);
      battleHistory := history;
      currentRoundIndex := 0;
    }
  }
}
