/** What the replay guarantees about the frames it builds, for any log. */
module BattleArenaProperties {
  import opened Wrappers
  import opened Pokemons
  import BattleEngine
  import opened BattleArena

  /** The number of entries that push a frame: every entry but a round start. */
  function FrameEntries(logs: seq<BattleEngine.LogEntry>): nat
  {
    if |logs| == 0 then 0
    else (if logs[0].RoundStarted? then 0 else 1) + FrameEntries(logs[1..])
  }

  lemma {:induction false} FrameEntriesAppend(a: seq<BattleEngine.LogEntry>, b: seq<BattleEngine.LogEntry>)
    ensures FrameEntries(a + b) == FrameEntries(a) + FrameEntries(b)
  {
    if |a| == 0 {
      assert a + b == b;
    } else {
      assert (a + b)[1..] == a[1..] + b;
      FrameEntriesAppend(a[1..], b);
    }
  }

  /** Replaying two pieces of a log one after the other is replaying the
      whole log. */
  lemma {:induction false} ReplayAppend(w: Replaying, a: seq<BattleEngine.LogEntry>, b: seq<BattleEngine.LogEntry>)
    requires |w.history| > 0
    ensures Replay(w, a + b) == Replay(Replay(w, a), b)
    decreases |b|
  {
    if |b| == 0 {
      assert a + b == a;
    } else {
      var ab := a + b;
      assert ab[..|ab| - 1] == a + b[..|b| - 1];
      assert ab[|ab| - 1] == b[|b| - 1];
      ReplayAppend(w, a, b[..|b| - 1]);
    }
  }

  /** Frames are snapshots: later entries never change a frame already
      pushed, and each entry pushes one frame exactly when it is not a round
      start. */
  lemma {:induction false} ReplayKeepsFrames(w: Replaying, logs: seq<BattleEngine.LogEntry>)
    requires |w.history| > 0
    ensures var r := Replay(w, logs);
            && |r.history| == |w.history| + FrameEntries(logs)
            && r.history[..|w.history|] == w.history
    decreases |logs|
  {
    if |logs| > 0 {
      var init := logs[..|logs| - 1];
      ReplayKeepsFrames(w, init);
      assert logs == init + [logs[|logs| - 1]];
      FrameEntriesAppend(init, [logs[|logs| - 1]]);
      var v := Replay(w, init);
      assert v.history[..|w.history|] == w.history;
      var r := Apply(v, logs[|logs| - 1]);
      assert r.history[..|v.history|] == v.history;
      assert r.history[..|w.history|] == v.history[..|w.history|];
    }
  }

  /** A valid response yields one frame more than it has entries other than
      round starts. */
  lemma FrameCount(teamA: seq<Pokemon>, teamB: seq<Pokemon>, logs: seq<BattleEngine.LogEntry>, winner: Option<string>)
    ensures |BuildHistory(teamA, teamB, logs, winner)| == 1 + FrameEntries(logs)
  {
    ReplayKeepsFrames(Start(teamA, teamB), logs);
  }

  /** Frame 0 is round 0, both full rosters all active at full life,
      both pointers at 0 and the ready message; it carries the winner only
      when it is also the last frame. */
  lemma FrameZero(teamA: seq<Pokemon>, teamB: seq<Pokemon>, logs: seq<BattleEngine.LogEntry>, winner: Option<string>)
    ensures var h := BuildHistory(teamA, teamB, logs, winner);
            && |h| > 0
            && h[0] == BattleState(0, InitTeam(teamA), InitTeam(teamB), 0, 0, Some("Battle Ready!"),
                                   if FrameEntries(logs) == 0 then winner else None)
            && (forall i :: 0 <= i < |teamA| ==>
                  h[0].teamA[i].status == Active && h[0].teamA[i].currentHp == h[0].teamA[i].maxHp == teamA[i].life)
            && (forall i :: 0 <= i < |teamB| ==>
                  h[0].teamB[i].status == Active && h[0].teamB[i].currentHp == h[0].teamB[i].maxHp == teamB[i].life)
  {
    var s := Start(teamA, teamB);
    ReplayKeepsFrames(s, logs);
    assert Replay(s, logs).history[0] == s.history[0];
  }

  predicate NoWinnerYet(history: seq<BattleState>)
  {
    forall k :: 0 <= k < |history| ==> history[k].winner.None?
  }

  lemma {:induction false} ReplayPushesNoWinner(w: Replaying, logs: seq<BattleEngine.LogEntry>)
    requires |w.history| > 0 && NoWinnerYet(w.history)
    ensures NoWinnerYet(Replay(w, logs).history)
    decreases |logs|
  {
    if |logs| > 0 {
      ReplayPushesNoWinner(w, logs[..|logs| - 1]);
    }
  }

  /** Only the last frame carries the winner, and it carries the response's
      winner as given. */
  lemma WinnerOnLastFrame(teamA: seq<Pokemon>, teamB: seq<Pokemon>, logs: seq<BattleEngine.LogEntry>, winner: Option<string>)
    ensures var h := BuildHistory(teamA, teamB, logs, winner);
            && |h| > 0
            && h[|h| - 1].winner == winner
            && forall k :: 0 <= k < |h| - 1 ==> h[k].winner.None?
  {
    ReplayPushesNoWinner(Start(teamA, teamB), logs);
  }

  /** A damage entry changes the displayed life of the two active
      combatants, when their pointers are inside the rosters, to the logged
      remaining life (unclamped), changes nothing else, keeps both pointers,
      and pushes a frame of the entry's round with no message. */
  lemma DamageFrame(w: Replaying, e: BattleEngine.LogEntry)
    requires |w.history| > 0 && e.DamageDealt?
    ensures var r := Apply(w, e);
            && r.activeAIdx == w.activeAIdx && r.activeBIdx == w.activeBIdx
            && |r.currentA| == |w.currentA| && |r.currentB| == |w.currentB|
            && (forall i :: 0 <= i < |w.currentA| ==>
                  r.currentA[i] == if i == w.activeAIdx then w.currentA[i].(currentHp := e.p1.remaining) else w.currentA[i])
            && (forall i :: 0 <= i < |w.currentB| ==>
                  r.currentB[i] == if i == w.activeBIdx then w.currentB[i].(currentHp := e.p2.remaining) else w.currentB[i])
            && r.history == w.history + [BattleState(e.round, r.currentA, r.currentB, w.activeAIdx, w.activeBIdx, None, None)]
  {
  }

  /** A faint entry for team "A" marks side A's active combatant fainted
      (when the pointer is inside the roster), moves side A's pointer on by
      one and touches nothing of side B; any other team name does the same
      to side B. The frame keeps the previous frame's round, shows the
      faint message, and shows each pointer clamped to the last slot once
      it has passed the end of its roster. */
  lemma FaintFrame(w: Replaying, e: BattleEngine.LogEntry)
    requires |w.history| > 0 && e.Fainted?
    ensures var r := Apply(w, e);
            && |r.currentA| == |w.currentA| && |r.currentB| == |w.currentB|
            && (e.team == "A" ==>
                  && r.activeAIdx == w.activeAIdx + 1 && r.activeBIdx == w.activeBIdx && r.currentB == w.currentB
                  && forall i :: 0 <= i < |w.currentA| ==>
                       r.currentA[i] == if i == w.activeAIdx then w.currentA[i].(status := Fainted) else w.currentA[i])
            && (e.team != "A" ==>
                  && r.activeBIdx == w.activeBIdx + 1 && r.activeAIdx == w.activeAIdx && r.currentA == w.currentA
                  && forall i :: 0 <= i < |w.currentB| ==>
                       r.currentB[i] == if i == w.activeBIdx then w.currentB[i].(status := Fainted) else w.currentB[i])
            && |r.history| == |w.history| + 1
            && r.history[..|w.history|] == w.history
            && var f := r.history[|w.history|];
               && f.round == w.history[|w.history| - 1].round
               && f.logMessage == Some(e.name + " fainted!")
               && f.teamA == r.currentA && f.teamB == r.currentB
               && f.activeAIndex == (if r.activeAIdx < |r.currentA| then r.activeAIdx else r.activeAIdx - 1)
               && f.activeBIndex == (if r.activeBIdx < |r.currentB| then r.activeBIdx else r.activeBIdx - 1)
               && f.winner.None?
  {
    var r := Apply(w, e);
    assert r.history[..|w.history|] == w.history;
  }

  /** A round-start entry changes nothing. */
  lemma RoundStartNoFrame(w: Replaying, e: BattleEngine.LogEntry)
    requires |w.history| > 0 && e.RoundStarted?
    ensures Apply(w, e) == w
  {
  }
}
