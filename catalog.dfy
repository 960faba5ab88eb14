/** The records the remote catalog returns. Only the fields the front-end reads
    are kept; every reference to another record is an opaque absolute URL. */
module Catalog {
  import opened Wrappers

  datatype Character = Character(
    id: int,
    name: string,
    status: string,
    species: string,
    episode: seq<string>)

  datatype Episode = Episode(
    id: int,
    name: string,
    code: string,
    airDate: string,
    characters: seq<string>)

  datatype Location = Location(
    id: int,
    name: string,
    locationType: string,
    dimension: string,
    residents: seq<string>)

  /** The paging metadata of a list response. */
  datatype Info = Info(count: int, pages: int, next: Option<string>, prev: Option<string>)

  /** A list response: one page of results and its metadata. */
  datatype Envelope<T> = Envelope(info: Info, results: seq<T>)

  /** The three badge colours a character status can be shown in. */
  datatype StatusBadge = Green | Red | Gray

  /** The emoji a location is shown with: ringed planet, milky way, rocket,
      star and globe. */
  datatype Icon = Planet | Galaxy | Rocket | Star | Globe
}
