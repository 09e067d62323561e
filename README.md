# Pokémon battle simulator and replay viewer, in Dafny

This project models the algorithmic core of a small Pokémon team-battle
application and proves properties of it.

- **Battle simulation** (`POST /simulate`, backend/routes/battle.routes.js).
  Two ordered queues of combatants fight front against front, one round
  per loop iteration. Both fronts hit each other at the same moment. A hit
  deals the attacker's power times a type factor: the factor of the first
  weakness-table row for (attacker type, defender type), or 1 when no row
  matches. Life is reduced by the damage without clamping. A front at or below zero life
  is logged as fainted and shifted off its queue. The winner is
  "Team A", "Team B" or "Draw", decided by which queue still holds
  combatants. The loop is `BattleEngine.Simulate`, a `while` loop over
  local queues. It is proved equal to the functional model
  `Step`/`Run`/`Simulation`, and the properties are proved about that model
  in `BattleEngineProperties`.
- **Replay viewer** (`processBattleResult` and navigation in
  battle-arena.component.ts). The log is folded over working copies of the
  two rosters, and every damage or faint entry pushes a snapshot frame. The
  `forEach` is `BattleArena.ReconstructHistory`, proved equal to the fold
  `Replay`. The component's fields live in the class
  `BattleArena.BattleArenaComponent`. Properties of the frames are in
  `BattleArenaProperties`. `ReplayOfSimulation` proves that, for two
  non-empty rosters, replaying the simulator's own output keeps every
  frame's shown index inside its roster, and that the last frame agrees with the
  survivors the simulator reports.
- **Team builder** (team-builder.component.ts). The selection is a list of
  at most six distinct ids, toggled by clicks and frozen while a create
  request is in flight. It is the class `TeamBuilder.TeamBuilderComponent`.
- **Validators**: the team-creation check of `POST /api/teams`
  (`TeamRoutes`) and the stat range check of `PUT /api/pokemons/:id`
  (`PokemonUpdate`). The team builder's enabled condition is proved to
  match the server's check. The stat ranges are what the termination
  theorem for the simulation assumes.

Power, life and factors are exact reals. An absent JSON property
(`undefined`) is `None`.

Three details of the code are easy to misread, and the model keeps them
as written:

- Every combatant enters the replay with status `Active`. `Waiting` is
  declared but never produced.
- The replay's pointers are never clamped. Only the index shown in a faint
  frame is lowered by one once the pointer has passed the end of its
  roster.
- The stalemate cap: the source's loop has no bound, and the model adds
  one. `Simulate` takes `maxRounds` and reports `Stalemate` when it is
  reached. `ValidatedBattleFinishes` proves that the cap is never reached
  for rosters the update route accepts, under a table whose factors are
  all at least 1/10, when `maxRounds` is at least 101 times the size of
  team A.

## Model

| member | source | states |
|---|---|---|
| BattleEngine.FirstMatch | backend/routes/battle.routes.js:26 | the index found is in range and its row matches (attacker, defender); no earlier row matches; `None` means no row matches |
| BattleEngine.GetFactor | backend/routes/battle.routes.js:25-28 | the factor is that of the first matching row, and 1 when no row matches |
| BattleEngineProperties.AttackFactor | backend/routes/battle.routes.js:42-47 | a hit deals the attacker's full power when no table row matches the two types, and otherwise its power times the factor of the first matching row |
| BattleEngine.Message | backend/routes/battle.routes.js:35-68 | a damage entry carries no message, every other entry does; a faint message is the name followed by " fainted!", a round-start message begins with "Round " |
| BattleEngine.Step | backend/routes/battle.routes.js:32-71 | one round raises the counter by exactly 1 and logs between 2 and 4 entries (its full effect is stated by `StepDamage` and `StepShape`) |
| BattleEngine.Winner | backend/routes/battle.routes.js:74 | "Team A" iff A has survivors, "Team B" iff only B has, "Draw" iff neither has |
| BattleEngine.Simulation | backend/routes/battle.routes.js:17-85 | a finished battle reports the input rosters as its initial state, leaves at least one queue empty and names the winner by the winner rule; a stalemate happens only with two non-empty rosters, after exactly `maxRounds` rounds |
| BattleEngine.Run | backend/routes/battle.routes.js:31-72 | the round counter never decreases and does not pass the cap plus one; the loop stops with both queues non-empty only when the cap is passed |
| BattleEngine.PlayRound | backend/routes/battle.routes.js:32-71 | one pass of the loop body yields exactly the state of the model's round `Step` |
| BattleEngine.Simulate | backend/routes/battle.routes.js:17-85 | the handler's loop, with the round cap, returns exactly the model's `Simulation` outcome |
| BattleEngineProperties.StepDamage | backend/routes/battle.routes.js:40-69 | damage is simultaneous: both amounts are computed from the pre-round fronts as power times the first-match factor; the logged remaining life is the raw difference; a front that survives stays at the head of its queue with exactly that reduced life; a front that faints is shifted off and the rest of its queue moves up untouched |
| BattleEngineProperties.StepShape | backend/routes/battle.routes.js:35-71 | one round appends exactly one block: round start, damage with the same round number, then faint A if A's life is at most 0, then faint B likewise; the counter rises by exactly 1; a queue loses its front exactly when that front faints |
| BattleEngineProperties.RunLog | backend/routes/battle.routes.js:18-72 | the loop keeps earlier entries and appends whole round blocks numbered consecutively from the current counter |
| BattleEngineProperties.RunQueues | backend/routes/battle.routes.js:62-69 | each final queue is its start queue with fronts shifted off, order kept; each side's faint entries number exactly the combatants it lost |
| BattleEngineProperties.LogIsRoundBlocks | backend/routes/battle.routes.js:18-72 | the log of a finished battle is a sequence of complete rounds numbered 1, 2, 3, … |
| BattleEngineProperties.SurvivorsAndFaints | backend/routes/battle.routes.js:62-84 | survivors are a suffix of each roster, with only the first survivor's life changed; faint entries per side = roster size − survivors; the initial state reports the input rosters unchanged |
| BattleEngineProperties.EmptyRosterLogsNothing | backend/routes/battle.routes.js:31-85 | with an empty roster on either side, nothing is logged and the result is decided by the winner rule alone |
| BattleEngineProperties.RunCapIrrelevant | backend/routes/battle.routes.js:31-72 | a loop that stopped on an empty queue, not on the cap, ends in the same state under any larger cap |
| BattleEngineProperties.CapIrrelevant | backend/routes/battle.routes.js:17-85 | raising the round cap does not change a battle that finished under a smaller one, so the cap only decides battles the source would never finish |
| BattleEngineProperties.StepWearsDownA | backend/routes/battle.routes.js:42-64 | when every hit on A takes at least one point of life, a round lowers A's endurance by at least one and keeps A's queue alive |
| BattleEngineProperties.RunEndsBeforeCap | backend/routes/battle.routes.js:31-72 | if A's endurance fits in the rounds left, the loop empties a queue before the cap |
| BattleEngineProperties.AcceptedBounds | backend/server.js:46-47 | every combatant of a roster the update route accepts has power at least 10 and life in [50, 100] |
| BattleEngineProperties.ValidatedBattleFinishes | backend/routes/battle.routes.js:31-72 | rosters with accepted stats, under factors of at least 1/10, always finish within 101 rounds per combatant of team A |
| BattleEngineProperties.ZeroDamageNeverEnds | backend/routes/battle.routes.js:31-72 | when neither front can hurt the other, rounds leave both queues unchanged, so the unbounded loop never ends |
| BattleEngineProperties.MutualImmunityStalls | backend/routes/battle.routes.js:31-72 | two combatants whose types are immune to each other (factor 0 both ways) reach any cap with both standing |
| PokemonUpdate.ValidateUpdate | backend/server.js:45-50 | rejected iff a given power is outside [10, 100] or a given life outside [50, 100]; power is checked first; an accepted update holds exactly the given life and power, plus `type_id` iff it is a non-empty string |
| PokemonUpdate.StatsAcceptedRange | backend/server.js:46-47 | with both stats given, accepted iff 10 ≤ power ≤ 100 and 50 ≤ life ≤ 100 |
| TeamRoutes.ValidateCreate | backend/routes/team.routes.js:20-34 | accepted iff exactly 6 ids and a non-empty name; the size error wins over the name error; accepted input is passed on unchanged |
| TeamBuilder.Without | frontend/src/app/components/team-builder/team-builder.component.ts:109 | keeps exactly the ids other than the given one; keeps a duplicate-free list duplicate-free and shortens it by one when the id was in it |
| TeamBuilder.WithoutKeepsOrder | frontend/src/app/components/team-builder/team-builder.component.ts:109 | in a duplicate-free list, removing the id at position k leaves the ids before k and the ids after k, each in their order |
| TeamBuilder.Toggled | frontend/src/app/components/team-builder/team-builder.component.ts:108-111 | after a click, the id is selected iff it was not and there was room; every other id keeps its membership; an unselected id is appended at the end when fewer than 6 are selected, and a full selection comes back unchanged |
| TeamBuilder.ToggledKeepsValid | frontend/src/app/components/team-builder/team-builder.component.ts:106-113 | a click keeps the selection duplicate-free and at most 6 long |
| TeamBuilder.ToggleTwiceRestores | frontend/src/app/components/team-builder/team-builder.component.ts:108-111 | clicking an unselected id twice, with room, restores the selection |
| TeamBuilder.ReselectMovesToEnd | frontend/src/app/components/team-builder/team-builder.component.ts:108-111 | clicking a selected id twice removes it from its position k, keeps the ids before and after k in order, and appends it at the end |
| TeamBuilder.CreateEnabled | frontend/src/app/components/team-builder/team-builder.component.ts:47 | the create button is enabled iff exactly 6 ids are selected, the name is non-empty and no create is in flight |
| TeamBuilder.EnabledMatchesServer | frontend/src/app/components/team-builder/team-builder.component.ts:47 | the create button is enabled iff no create is in flight and the server's team check accepts the name and selection, which it then passes on unchanged |
| TeamBuilder.TeamBuilderComponent.constructor | frontend/src/app/components/team-builder/team-builder.component.ts:77-80 | the view starts with an empty selection, an empty name, no create in flight |
| TeamBuilder.TeamBuilderComponent.ToggleSelection | frontend/src/app/components/team-builder/team-builder.component.ts:106-113 | while a create is in flight nothing changes; otherwise the selection becomes the toggled selection, keeping the invariant |
| TeamBuilder.TeamBuilderComponent.SetTeamName | frontend/src/app/components/team-builder/team-builder.component.ts:31 | the name input is ignored while a create is in flight |
| TeamBuilder.TeamBuilderComponent.BeginCreate | frontend/src/app/components/team-builder/team-builder.component.ts:115-117 | the request carries the current name and selection and the create flag is set |
| TeamBuilder.TeamBuilderComponent.CreateSucceeded | frontend/src/app/components/team-builder/team-builder.component.ts:119-121 | a successful create clears the name and the selection |
| TeamBuilder.TeamBuilderComponent.CreateSettled | frontend/src/app/components/team-builder/team-builder.component.ts:118 | the create flag is cleared and nothing else changes |
| BattleArena.InitTeam | frontend/src/app/components/battle-arena/battle-arena.component.ts:391-396 | each combatant enters active with current and maximum life equal to its life |
| BattleArena.Start | frontend/src/app/components/battle-arena/battle-arena.component.ts:398-414 | the replay starts from the initialised rosters with both pointers at 0 and a single frame: round 0, those rosters, pointers 0, "Battle Ready!", no winner |
| BattleArena.DisplayIndex | frontend/src/app/components/battle-arena/battle-arena.component.ts:462-463 | the shown pointer is the pointer itself while inside the roster and exactly one less otherwise, so a pointer at most one past a non-empty roster is shown inside it |
| BattleArena.MarkWinner | frontend/src/app/components/battle-arena/battle-arena.component.ts:470-471 | the frame list keeps its length and every frame but the last; the last frame changes only in its winner, which becomes the response's winner |
| BattleArena.BuildHistory | frontend/src/app/components/battle-arena/battle-arena.component.ts:388-471 | the frame list is as long as the replay's, hence non-empty, and its last frame carries the response's winner |
| BattleArena.Apply | frontend/src/app/components/battle-arena/battle-arena.component.ts:416-466 | one log entry never removes a frame |
| BattleArena.Replay | frontend/src/app/components/battle-arena/battle-arena.component.ts:416-467 | folding the log never removes a frame |
| BattleArena.ApplyLog | frontend/src/app/components/battle-arena/battle-arena.component.ts:416-466 | the `forEach` body on the working variables yields exactly the model's `Apply` |
| BattleArena.ReconstructHistory | frontend/src/app/components/battle-arena/battle-arena.component.ts:388-471 | the frame list built by the loop is exactly `BuildHistory`: the replay of the log with the winner written on the last frame |
| BattleArena.BattleArenaComponent.constructor | frontend/src/app/components/battle-arena/battle-arena.component.ts:311-315 | no frames, index 0, no error |
| BattleArena.BattleArenaComponent.CurrentFrame | frontend/src/app/components/battle-arena/battle-arena.component.ts:321-323 | the selected frame exists iff there are frames, and it is the frame at the current index |
| BattleArena.BattleArenaComponent.ActiveA | frontend/src/app/components/battle-arena/battle-arena.component.ts:325-328 | A's active combatant of the selected frame, absent iff the frame's pointer is outside the roster |
| BattleArena.BattleArenaComponent.ActiveB | frontend/src/app/components/battle-arena/battle-arena.component.ts:330-333 | B's active combatant of the selected frame, absent iff the frame's pointer is outside the roster |
| BattleArena.BattleArenaComponent.ResetBattle | frontend/src/app/components/battle-arena/battle-arena.component.ts:370-373 | the history is emptied and the index set to 0 |
| BattleArena.BattleArenaComponent.GoToRound | frontend/src/app/components/battle-arena/battle-arena.component.ts:375-379 | the index changes iff the requested index is inside the history; the selected frame stays valid |
| BattleArena.BattleArenaComponent.ProcessBattleResult | frontend/src/app/components/battle-arena/battle-arena.component.ts:381-475 | a response without initial state or log sets the error and leaves history and index unchanged; otherwise the history is rebuilt and the index reset to 0 |
| BattleArenaProperties.ReplayAppend | frontend/src/app/components/battle-arena/battle-arena.component.ts:416-467 | replaying two pieces of a log in turn is replaying the whole log |
| BattleArenaProperties.ReplayKeepsFrames | frontend/src/app/components/battle-arena/battle-arena.component.ts:407-466 | frames are snapshots: later entries never change a pushed frame, and each entry other than a round start pushes exactly one frame |
| BattleArenaProperties.FrameCount | frontend/src/app/components/battle-arena/battle-arena.component.ts:407-466 | frame count = 1 + number of damage and faint entries |
| BattleArenaProperties.FrameZero | frontend/src/app/components/battle-arena/battle-arena.component.ts:391-414 | frame 0 is round 0, both full rosters active at full life, pointers 0, message "Battle Ready!", and carries the winner only when it is the last frame |
| BattleArenaProperties.WinnerOnLastFrame | frontend/src/app/components/battle-arena/battle-arena.component.ts:470-471 | only the last frame carries a winner, and it is the response's winner |
| BattleArenaProperties.DamageFrame | frontend/src/app/components/battle-arena/battle-arena.component.ts:424-443 | a damage entry sets the life shown for both active combatants (when in range) to the logged remaining life, changes nothing else, keeps the pointers, and pushes a frame of the entry's round with no message |
| BattleArenaProperties.FaintFrame | frontend/src/app/components/battle-arena/battle-arena.component.ts:445-465 | a faint entry marks that side's active combatant fainted (when in range), advances only that side's pointer ("A" or else B), keeps the previous frame's round, shows the faint message and the pointer lowered by one once past the roster |
| BattleArenaProperties.RoundStartNoFrame | frontend/src/app/components/battle-arena/battle-arena.component.ts:416-466 | a round-start entry changes nothing |
| ReplayOfSimulation.MirrorStep | frontend/src/app/components/battle-arena/battle-arena.component.ts:424-465 | replaying one simulated round keeps the replay's rosters and pointers in step with the simulator's queues, and every frame's shown index inside its roster |
| ReplayOfSimulation.MirrorRun | frontend/src/app/components/battle-arena/battle-arena.component.ts:416-467 | the same holds across the whole simulated loop |
| ReplayOfSimulation.ReplayAgreesWithSimulation | frontend/src/app/components/battle-arena/battle-arena.component.ts:381-475 | replaying a finished simulation of two non-empty rosters: every frame's shown index lies inside its roster; the last frame carries the simulator's winner, shows exactly each side's fallen as fainted and every survivor active with the simulator's life |

## Left out

- Supabase reads and writes (the roster and weakness fetches, the team RPCs, the stat update) are I/O. Rosters and the weakness table are inputs.
- Express routing and responses, and the 404 branch of the simulate handler. That branch cannot fire, because the roster fetch always yields an array.
- Angular lifecycle, rxjs subscriptions, `fight`, `refresh`, templates and the life-bar ratio are UI plumbing. Two template bindings are kept: the name input's `[disabled]` (`SetTeamName`) and the create button's `[disabled]` (`CreateEnabled`).
- Floating-point rounding: all arithmetic is exact over the reals.
- JavaScript coercion beyond presence: a `null` or non-numeric stat, a non-string name or `type_id`, and a non-array `pokemonIds` with a `length` of 6 are not modelled. `Option` stands for present or `undefined`.
- Deep copies are modelled by value semantics. Aliasing between frames cannot arise in the model, and `ReplayKeepsFrames` states what the copies guarantee.
- BattleEngine.Simulate: adds a round cap `maxRounds` and a `Stalemate` outcome that the source does not have, because the source's loop can run forever (see Findings).
- BattleEngine.Step: its own contract states only the counter and the number of entries. The entries, the reduced life of a surviving front, and the queue left after a faint are stated by `StepDamage` and `StepShape`.
- BattleArena.BuildHistory: its own contract states only the length and the winner on the last frame. The frames are stated by `FrameCount`, `FrameZero`, `WinnerOnLastFrame` and `ReplayOfSimulation`.
- An empty roster in the viewer: frame 0 then shows pointer 0 outside that roster, and `ActiveA`/`ActiveB` report no combatant. `ReplayAgreesWithSimulation` assumes both rosters are non-empty.
- BattleArena.Apply: its own contract states only that no frame is removed. Its effects are stated by `DamageFrame`, `FaintFrame` and `RoundStartNoFrame`.
- BattleArena.Replay: its own contract states only that no frame is removed. Frame count and stability are stated by `ReplayKeepsFrames`.
- BattleArena.BattleArenaComponent.ActiveA: requires at least one frame, because the source's getter throws when there is no current frame. ActiveB likewise.
- The response's `teamASurvivors`/`teamBSurvivors` fields are not read by the viewer. The model's response type omits them.
- Refreshing the team list after a successful create, and the create error path apart from clearing the flag, are I/O.

## Findings

| source | as written | input that shows it | evidently intended | confidence | as-written member | corrected member |
|---|---|---|---|---|---|---|
| backend/routes/battle.routes.js:31-72 | the battle loop runs while both queues are non-empty, with no bound on rounds | a weakness table with rows (normal → ghost, 0) and (ghost → normal, 0); team A one ghost-type combatant, team B one normal-type combatant, both alive: every round deals 0 damage both ways, so the request never completes | every simulation ends with a result, or with a reported stalemate | not executed; depends on the table holding a factor 0 | BattleEngineProperties.MutualImmunityStalls | BattleEngine.Simulate |
