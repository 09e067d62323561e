/** The validation step of `POST /api/teams` in backend/routes/team.routes.js:
    a team needs exactly six ids, then a name, before it is stored. */
module TeamRoutes {
  import opened Wrappers
  import opened Http

  /** The arguments of the `create_team` database call. */
  datatype CreateTeam = CreateTeam(teamName: string, pokemonIds: seq<string>)

  const SizeError := HttpError(400, "A team must consist of exactly 6 Pokemons.")
  const NameError := HttpError(400, "Team name is required.")

  /** A missing or empty name is falsy in JavaScript. */
  predicate Truthy(s: Option<string>)
  {
    s.Some? && s.value != ""
  }

  /** The handler's checks, size before name. Duplicate ids are not
      rejected here. */
  function ValidateCreate(name: Option<string>, pokemonIds: Option<seq<string>>)
    : (r: Result<CreateTeam, HttpError>)
    ensures r.Ok? <==> pokemonIds.Some? && |pokemonIds.value| == 6 && Truthy(name)
    ensures (pokemonIds.None? || |pokemonIds.value| != 6) ==> r == Err(SizeError)
    ensures pokemonIds.Some? && |pokemonIds.value| == 6 && !Truthy(name) ==> r == Err(NameError)
    ensures r.Ok? ==> r.value == CreateTeam(name.value, pokemonIds.value)
  {
    if pokemonIds.None? || |pokemonIds.value| != 6 then Err(SizeError)
    else if name.None? || name.value == "" then Err(NameError)
    else Ok(CreateTeam(name.value, pokemonIds.value))
  }
}
