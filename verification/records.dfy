/** The records the catalog client hands to the collection pass, after XML
    parsing. An optional text field the parser may leave out is the empty
    string: every read of such a field in the modelled code treats `None`
    and `""` alike. */
module Records {
  import opened Outcome

  /** A `{"id", "name", "inbound"}` link of a catalog record: compilation
      ("contained"), implementation, integration, designer, artist or
      publisher. `ownFlag` is the `"flag": "own"` entry publisher_filter adds. */
  datatype Link = Link(id: int, name: string, inbound: bool, ownFlag: bool)

  /** A `{"id", "inbound"}` expansion or accessory link. An inbound link on an
      expansion or accessory points at the item it belongs to. */
  datatype IdLink = IdLink(id: int, inbound: bool)

  datatype Family = Family(id: int, name: string)

  /** The values other than numbers that `Decimal` accepts from text:
      "Infinity"/"Inf" with an optional sign, and "NaN" or the signalling
      "sNaN", also signed. */
  datatype NonFinite = Infinity(negative: bool) | NaN(negative: bool, signaling: bool)

  /** A statistic as text, already classified: blank, a finite number that
      `Decimal` accepts (exactly, as a rational), one of the special values
      it accepts, or any other text. */
  datatype NumText = Blank | Number(value: real) | Special(special: NonFinite) | Text(text: string)

  /** A `Decimal` value: a finite number, exactly, or a special value. */
  datatype Decimal = Finite(value: real) | NotFinite(special: NonFinite)

  /** The recommendation attached to a player count: the three poll results
      and the "expansion" tag calc_num_players adds. */
  datatype Recommendation = Best | Recommended | NotRecommended | FromExpansion {
    function Label(): string {
      match this
      case Best => "best"
      case Recommended => "recommended"
      case NotRecommended => "not_recommended"
      case FromExpansion => "expansion"
    }
  }

  /** A `(numplayers, result)` tuple, e.g. `("4+", Best)`. */
  datatype PlayerCount = PlayerCount(numplayers: string, result: Recommendation)

  datatype AgeVote = AgeVote(age: int, numvotes: int)

  /** One catalog record (a "thing"): board game, expansion or accessory. */
  datatype Detail = Detail(
    id: int,
    kind: string,
    image: string,
    name: string,
    alternateNames: seq<string>,
    description: string,
    categories: seq<string>,
    families: seq<Family>,
    mechanics: seq<string>,
    expansions: seq<IdLink>,
    contained: seq<Link>,
    reimplements: seq<Link>,
    integrates: seq<Link>,
    designers: seq<Link>,
    artists: seq<Link>,
    publishers: seq<Link>,
    accessories: seq<IdLink>,
    suggestedNumPlayers: seq<PlayerCount>,
    weight: NumText,
    rank: NumText,
    usersrated: NumText,
    average: NumText,
    numowned: NumText,
    rating: NumText,
    playingTime: string,
    year: int,
    minAge: Option<int>,
    minPlayers: Option<int>,
    maxPlayers: Option<int>,
    suggestedPlayerAges: seq<AgeVote>)

  /** One owned edition from the collection fetch. `players` is the list the
      collection pass adds and fills from the logged plays. */
  datatype CollectionItem = CollectionItem(
    id: int,
    collectionId: int,
    name: string,
    image: Option<string>,
    imageVersion: Option<string>,
    versionName: string,
    publisherId: Option<int>,
    comment: string,
    wishlistComment: string,
    tags: seq<string>,
    numplays: int,
    players: seq<string>)

  /** One logged play. */
  datatype Play = Play(playId: int, gameName: string, gameId: int, players: seq<string>)
}
