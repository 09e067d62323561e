/** The stored combatant record that both the server and the viewer pass around. */
module Pokemons {

  /** One combatant as the database returns it. Power and life are exact reals:
      the model does not follow floating-point rounding. */
  datatype Pokemon = Pokemon(
    id: string,
    name: string,
    typeId: string,
    image: string,
    power: real,
    life: real)

  /** Two records describe the same combatant when they differ at most in life. */
  predicate SameExceptLife(p: Pokemon, q: Pokemon)
  {
    p.(life := q.life) == q
  }
}
