/** The validation step of `PUT /api/pokemons/:id` in backend/server.js: the
    request body's stats are range-checked, power first, before the update
    record is built. */
module PokemonUpdate {
  import opened Wrappers
  import opened Http

  /** The record handed to the database update. `typeId` is present only
      when the request carried a truthy `type_id`. */
  datatype Updates = Updates(life: Option<real>, power: Option<real>, typeId: Option<string>)

  /** A JavaScript comparison against `undefined` is false, so an absent
      stat is never out of range; a present one is out of range when it lies
      outside `[lo, hi]`. */
  predicate OutOfRange(x: Option<real>, lo: real, hi: real)
  {
    x.Some? && (x.value < lo || x.value > hi)
  }

  const PowerError := HttpError(400, "Power must be between 10 and 100")
  const LifeError := HttpError(400, "Life must be between 50 and 100")

  /** The handler's checks and the update record it builds. */
  function ValidateUpdate(power: Option<real>, life: Option<real>, typeId: Option<string>)
    : (r: Result<Updates, HttpError>)
    ensures r.Ok? <==> !OutOfRange(power, 10.0, 100.0) && !OutOfRange(life, 50.0, 100.0)
    ensures OutOfRange(power, 10.0, 100.0) ==> r == Err(PowerError)
    ensures !OutOfRange(power, 10.0, 100.0) && OutOfRange(life, 50.0, 100.0) ==> r == Err(LifeError)
    ensures r.Ok? ==> r.value.life == life && r.value.power == power
    ensures r.Ok? ==> (r.value.typeId.Some? <==> typeId.Some? && typeId.value != "")
    ensures r.Ok? && r.value.typeId.Some? ==> r.value.typeId == typeId
  {
    if power.Some? && (power.value < 10.0 || power.value > 100.0) then Err(PowerError)
    else if life.Some? && (life.value < 50.0 || life.value > 100.0) then Err(LifeError)
    else
      var updates := Updates(life, power, None);
      if typeId.Some? && typeId.value != "" then Ok(updates.(typeId := typeId)) else Ok(updates)
  }

  /** Stats that the update route accepts when both are given. */
  predicate StatsAccepted(power: real, life: real)
  {
    ValidateUpdate(Some(power), Some(life), None).Ok?
  }

  /** Both stats given: accepted exactly when power lies in [10, 100] and
      life in [50, 100], bounds included. */
  lemma StatsAcceptedRange(power: real, life: real)
    ensures StatsAccepted(power, life) <==> 10.0 <= power <= 100.0 && 50.0 <= life <= 100.0
  {
  }
}
