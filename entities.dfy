/** The three input tables of the logistics network (affected areas,
    distribution centers, routes) and the small value types they share. */
module Entities {

  datatype Option<T> = None | Some(value: T)

  /** Criticality label given to an area by the external classifier:
      "baixa", "média" or "alta". A missing label is `None`. */
  datatype Level = Low | Medium | High

  /** The three kinds of relief supplies. */
  datatype Resource = Water | Food | Medicine

  /** An amount of each kind of supply: an area's need or a center's stock. */
  datatype Supplies = Supplies(water: int, food: int, medicine: int)

  function Amount(s: Supplies, r: Resource): int
  {
    match r
    case Water => s.water
    case Food => s.food
    case Medicine => s.medicine
  }

  /** One row of the affected-areas table (after classification). */
  datatype Area = Area(id: int, population: int, need: Supplies, level: Option<Level>)

  /** One row of the distribution-centers table. */
  datatype Center = Center(id: int, stock: Supplies, vehicles: int)

  /** One row of the routes table: a road between two areas, its base travel
      time in minutes and its status token. */
  datatype Route = Route(origin: int, dest: int, baseTime: int, status: string)

  /** Route status tokens as they appear in the tables and on the serial line. */
  const Livre: string := "livre"
  const Parcial: string := "parcial"
  const Bloqueada: string := "bloqueada"

  function Min(a: int, b: int): int
  {
    if a <= b then a else b
  }
}
