/** The last stage of the collection pass before cleanup: one game entity per
    owned edition of a held game, carrying an entity per owned edition of
    each expansion and accessory gathered under its record. */
module Building {
  import opened Outcome
  import opened Lists
  import opened Sorting
  import opened Records
  import opened Ordered
  import opened Filters
  import opened Models
  import opened Editions
  import opened Resolution

  function Identity(x: int): int { x }

  function DetailId(d: Detail): int { d.id }

  function GameId(g: BoardGame): int { g.id }

  /** The entity constructor, `BoardGame(record, edition, expansions,
      accessories)`. The stages below take it as a parameter and rely only
      on what `Constructs` says of it; `Resolve` passes `NewBoardGame`. */
  type Constructor = (Detail, CollectionItem, seq<BoardGame>, seq<BoardGame>) -> Result<BoardGame>

  /** A built entity has the record's id, the given edition,
      expansions and accessories; whether it can be built does not depend on
      the edition. */
  ghost predicate Constructs(make: Constructor) {
    && (forall d, image, es, acs | make(d, image, es, acs).Success? ::
          && make(d, image, es, acs).value.id == d.id
          && make(d, image, es, acs).value.image == image
          && make(d, image, es, acs).value.expansions == es
          && make(d, image, es, acs).value.accessories == acs)
    && (forall d, image, es, acs ::
          make(d, image, es, acs).Success? == make(d, AnyEdition, es, acs).Success?)
  }

  /** A fixed owned edition, to compare others against. */
  const AnyEdition := BlankCollection(0, "")

  /** The entity constructor of the repository is one. */
  lemma NewBoardGameConstructs()
    ensures Constructs(NewBoardGame)
  {
    forall d, image, es, acs
      ensures NewBoardGame(d, image, es, acs).Success? == NewBoardGame(d, AnyEdition, es, acs).Success?
    {
    }
  }

  /** `[BoardGame(d, collection) for collection in editions]`: one entity per
      owned edition of the record, in edition order, with no expansions or
      accessories of its own. Whether the constructor succeeds does not
      depend on the edition, so either all succeed or the first fails. */
  function EditionEntities(d: Detail, editions: seq<CollectionItem>, make: Constructor): (r: Result<seq<BoardGame>>)
    requires Constructs(make)
    ensures r.Success? <==> editions == [] || make(d, editions[0], [], []).Success?
    ensures r.Success? ==> |r.value| == |editions|
    ensures r.Success? ==> forall j | 0 <= j < |editions| ::
              && r.value[j].id == d.id && r.value[j].image == editions[j]
              && r.value[j].expansions == [] && r.value[j].accessories == []
    decreases |editions|
  {
    if editions == [] then Success([])
    else
      var g :- make(d, editions[0], [], []);
      match EditionEntities(d, editions[1..], make)
      case Success(rest) => Success([g] + rest)
      case Failure(e) => Failure(e)
  }

  /** Lines 136-137 for one record: its owned editions (KeyError when it has
      none) and an entity for each. */
  function RecordEntities(d: Detail, owned: MultiDict<CollectionItem>, make: Constructor): (r: Result<seq<BoardGame>>)
    requires Constructs(make)
    ensures r.Success? <==> owned.Contains(d.id) && make(d, AnyEdition, [], []).Success?
    ensures r.Success? ==> |r.value| > 0 && forall j | 0 <= j < |r.value| ::
              && r.value[j].id == d.id && r.value[j].image in owned.GetAll(d.id).value
              && r.value[j].expansions == [] && r.value[j].accessories == []
  {
    var editions :- owned.GetAll(d.id);
    EditionEntities(d, editions, make)
  }

  /** Lines 135-145 for one list: the entities of each record in turn, the
      first failure aborting the list. */
  function Entities(records: seq<Detail>, owned: MultiDict<CollectionItem>, make: Constructor): (r: Result<seq<BoardGame>>)
    requires Constructs(make)
    ensures r.Success? <==> forall j | 0 <= j < |records| :: RecordEntities(records[j], owned, make).Success?
  {
    var each :- Collect(EachRecord(records, owned, make));
    Success(Flatten(each))
  }

  function EachRecord(records: seq<Detail>, owned: MultiDict<CollectionItem>, make: Constructor)
    : (rs: seq<Result<seq<BoardGame>>>)
    requires Constructs(make)
    ensures |rs| == |records| && forall j | 0 <= j < |records| :: rs[j] == RecordEntities(records[j], owned, make)
  {
    seq(|records|, j requires 0 <= j < |records| => RecordEntities(records[j], owned, make))
  }

  /** Each entity is an owned edition of one of the records (the `j`-th),
      without expansions or accessories of its own ... */
  lemma EntityIsOwnedEdition(records: seq<Detail>, owned: MultiDict<CollectionItem>,
                             make: Constructor, i: nat) returns (j: nat)
    requires Constructs(make)
    requires Entities(records, owned, make).Success? && i < |Entities(records, owned, make).value|
    ensures var g := Entities(records, owned, make).value[i];
            && j < |records| && g.id == records[j].id
            && owned.GetAll(g.id).Success? && g.image in owned.GetAll(g.id).value
            && g.expansions == [] && g.accessories == []
  {
    var rs := EachRecord(records, owned, make);
    var each := Collect(rs).value;
    var m;
    j, m := FlattenIndex(each, i);
    assert rs[j] == Success(each[j]);
  }

  /** ... and every record is owned and has at least one entity. */
  lemma EntitiesCoverRecord(records: seq<Detail>, owned: MultiDict<CollectionItem>, make: Constructor, j: nat)
    requires Constructs(make)
    requires Entities(records, owned, make).Success? && j < |records|
    ensures owned.Contains(records[j].id)
    ensures records[j].id in Map(Entities(records, owned, make).value, GameId)
  {
    var rs := EachRecord(records, owned, make);
    var each := Collect(rs).value;
    assert rs[j] == Success(each[j]);
    FlattenHas(each, j, 0);
    var all := Entities(records, owned, make).value;
    var i :| 0 <= i < |all| && all[i] == each[j][0];
    assert Map(all, GameId)[i] == records[j].id;
  }

  /** The expansion records of `ids`, as the entities see them. */
  function ExpansionRecords(c: Catalog, p: Pass, ids: seq<int>): (r: seq<Detail>)
    requires forall j | 0 <= j < |ids| :: ids[j] in c.exps.m
    ensures |r| == |ids| && forall j | 0 <= j < |ids| :: r[j] == ExpansionRecordOf(c, p, ids[j])
  {
    seq(|ids|, j requires 0 <= j < |ids| => ExpansionRecordOf(c, p, ids[j]))
  }

  /** The accessory records at positions `idxs`. */
  function AccessoryRecords(c: Catalog, idxs: seq<nat>): (r: seq<Detail>)
    requires forall j | 0 <= j < |idxs| :: idxs[j] < |c.accessories|
    ensures |r| == |idxs| && forall j | 0 <= j < |idxs| :: r[j] == c.accessories[idxs[j]]
  {
    seq(|idxs|, j requires 0 <= j < |idxs| => c.accessories[idxs[j]])
  }

  /** `_uniq` keeps only elements of its list ... */
  lemma UniqFrom<T>(s: seq<T>, id: T -> int)
    ensures forall x | x in Uniq(s, id) :: x in s
  {
    var u := Uniq(s, id);
    forall x | x in u ensures x in s {
      var j :| 0 <= j < |u| && u[j] == x;
      assert FirstWithItsId(s, id, u[j]);
      FilterIdFrom(s, id, id(x));
    }
  }

  /** ... and keeps an element of every id on it. */
  lemma UniqCovers<T>(s: seq<T>, id: T -> int)
    ensures forall j | 0 <= j < |s| :: id(s[j]) in Map(Uniq(s, id), id)
  {
    var u := Uniq(s, id);
    forall j | 0 <= j < |s| ensures id(s[j]) in Map(u, id) {
      assert id(s[j]) in KeySet(s, id);
      var x :| x in u && id(x) == id(s[j]);
      var i :| 0 <= i < |u| && u[i] == x;
      assert Map(u, id)[i] == id(x);
    }
  }

  /** The distinct expansions gathered under `h`, in ascending id order. */
  function ExpansionsOf(c: Catalog, p: Pass, h: Holder): (r: seq<Detail>)
    requires Closed(c, p)
    ensures forall j | 0 <= j < |r| :: r[j].id in p.ExpsOf(h)
    ensures forall x | x in p.ExpsOf(h) :: x in Map(r, DetailId)
    ensures forall i, j | 0 <= i < j < |r| :: r[i].id < r[j].id
    ensures forall j | 0 <= j < |r| :: r[j] == ExpansionRecordOf(c, p, r[j].id)
  {
    var ids := Uniq(p.ExpsOf(h), Identity);
    ExpansionIdsKnown(c, p, h);
    var r := ExpansionRecords(c, p, ids);
    assert Map(r, DetailId) == ids;
    r
  }

  /** The distinct expansion ids gathered under `h` are those filed under it,
      each with a fetched record. */
  lemma ExpansionIdsKnown(c: Catalog, p: Pass, h: Holder)
    requires Closed(c, p)
    ensures var ids := Uniq(p.ExpsOf(h), Identity);
            && (forall j | 0 <= j < |ids| :: ids[j] in p.ExpsOf(h) && ids[j] in c.exps.m)
            && (forall x | x in p.ExpsOf(h) :: x in ids)
  {
    var ids := Uniq(p.ExpsOf(h), Identity);
    UniqFrom(p.ExpsOf(h), Identity);
    UniqCovers(p.ExpsOf(h), Identity);
    ClosedLists(c, p, h);
    assert Map(ids, Identity) == ids;
  }

  /** The distinct accessories gathered under `h`, in ascending id order. */
  function AccessoriesOf(c: Catalog, p: Pass, h: Holder): (r: seq<Detail>)
    requires Closed(c, p)
    ensures forall x | x in r :: x in AccessoryRecords(c, p.AccsOf(h))
    ensures forall j | 0 <= j < |p.AccsOf(h)| :: c.accessories[p.AccsOf(h)[j]].id in Map(r, DetailId)
    ensures forall i, j | 0 <= i < j < |r| :: r[i].id < r[j].id
    ensures forall i | 0 <= i < |r| :: FirstWithItsId(AccessoryRecords(c, p.AccsOf(h)), DetailId, r[i])
  {
    ClosedLists(c, p, h);
    var all := AccessoryRecords(c, p.AccsOf(h));
    UniqFrom(all, DetailId);
    UniqCovers(all, DetailId);
    Uniq(all, DetailId)
  }

  /** What the entity of a held record is built from: the record and the
      distinct expansion and accessory records gathered under it. */
  datatype Gathered = Gathered(record: Detail, expansions: seq<Detail>, accessories: seq<Detail>)

  /** The gathering of every held game, by id (the record and the two
      `_uniq` calls of lines 133, 138 and 143, which depend only on the game
      and not on its edition). */
  function Gatherings(c: Catalog, p: Pass): (r: map<int, Gathered>)
    requires Closed(c, p)
    ensures r.Keys == p.games.Keys
  {
    map k | k in p.games :: Gathered(RecordOf(c, p, p.games[k]), ExpansionsOf(c, p, p.games[k]),
                                     AccessoriesOf(c, p, p.games[k]))
  }

  /** A gathering holds the record of its game, with the game's id ... */
  lemma GatheredRecord(c: Catalog, p: Pass, k: int)
    requires Closed(c, p) && k in p.games
    ensures Gatherings(c, p)[k].record == RecordOf(c, p, p.games[k])
    ensures Gatherings(c, p)[k].record.id == k
  {
  }

  /** ... every expansion filed under the game and only those ... */
  lemma GatheredExpansions(c: Catalog, p: Pass, k: int)
    requires Closed(c, p) && k in p.games
    ensures var g := Gatherings(c, p)[k];
            && (forall j | 0 <= j < |g.expansions| :: g.expansions[j].id in p.ExpsOf(p.games[k]))
            && (forall x | x in p.ExpsOf(p.games[k]) :: x in Map(g.expansions, DetailId))
  {
  }

  /** ... and every accessory filed under it and only those. */
  lemma GatheredAccessories(c: Catalog, p: Pass, k: int)
    requires Closed(c, p) && k in p.games
    ensures var g := Gatherings(c, p)[k];
            && (forall x | x in g.accessories :: x in AccessoryRecords(c, p.AccsOf(p.games[k])))
            && (forall j | 0 <= j < |p.AccsOf(p.games[k])| ::
                  c.accessories[p.AccsOf(p.games[k])[j]].id in Map(g.accessories, DetailId))
  {
  }

  /** Lines 133-146 for one owned edition of a held game: the entity of its
      record, carrying entities for the owned editions of every gathered
      expansion and accessory. Expansions come first, then accessories, then
      the game itself. */
  function BuildGame(g: Gathered, item: CollectionItem, owned: MultiDict<CollectionItem>,
                     accOwned: MultiDict<CollectionItem>, make: Constructor): (r: Result<BoardGame>)
    requires Constructs(make)
    ensures r.Success? ==> r.value.id == g.record.id && r.value.image == item
  {
    var expansions :- Entities(g.expansions, owned, make);
    var accessories :- Entities(g.accessories, accOwned, make);
    make(g.record, item, expansions, accessories)
  }

  /** Each expansion a built game carries is an owned edition of a gathered
      expansion record ... */
  lemma BuildGameExpansion(g: Gathered, item: CollectionItem, owned: MultiDict<CollectionItem>,
                           accOwned: MultiDict<CollectionItem>, make: Constructor, game: BoardGame, i: nat)
      returns (j: nat)
    requires Constructs(make) && BuildGame(g, item, owned, accOwned, make) == Success(game)
    requires i < |game.expansions|
    ensures j < |g.expansions| && game.expansions[i].id == g.expansions[j].id
    ensures (game.expansions[i].id, game.expansions[i].image) in owned.items
  {
    j := EntityIsOwnedEdition(g.expansions, owned, make, i);
    var e := game.expansions[i];
    assert e.image in owned.GetAll(e.id).value;
  }

  /** ... and every gathered expansion record is owned and has one. */
  lemma BuildGameCoversExpansions(g: Gathered, item: CollectionItem, owned: MultiDict<CollectionItem>,
                                  accOwned: MultiDict<CollectionItem>, make: Constructor, game: BoardGame)
    requires Constructs(make) && BuildGame(g, item, owned, accOwned, make) == Success(game)
    ensures forall j | 0 <= j < |g.expansions| ::
              owned.Contains(g.expansions[j].id) && g.expansions[j].id in Map(game.expansions, GameId)
  {
    forall j | 0 <= j < |g.expansions|
      ensures owned.Contains(g.expansions[j].id) && g.expansions[j].id in Map(game.expansions, GameId)
    {
      EntitiesCoverRecord(g.expansions, owned, make, j);
    }
  }

  /** Likewise, each accessory is an owned edition of a gathered accessory
      record ... */
  lemma BuildGameAccessory(g: Gathered, item: CollectionItem, owned: MultiDict<CollectionItem>,
                           accOwned: MultiDict<CollectionItem>, make: Constructor, game: BoardGame, i: nat)
      returns (j: nat)
    requires Constructs(make) && BuildGame(g, item, owned, accOwned, make) == Success(game)
    requires i < |game.accessories|
    ensures j < |g.accessories| && game.accessories[i].id == g.accessories[j].id
    ensures (game.accessories[i].id, game.accessories[i].image) in accOwned.items
  {
    j := EntityIsOwnedEdition(g.accessories, accOwned, make, i);
    var e := game.accessories[i];
    assert e.image in accOwned.GetAll(e.id).value;
  }

  /** ... and every gathered accessory record is owned and has one. */
  lemma BuildGameCoversAccessories(g: Gathered, item: CollectionItem, owned: MultiDict<CollectionItem>,
                                   accOwned: MultiDict<CollectionItem>, make: Constructor, game: BoardGame)
    requires Constructs(make) && BuildGame(g, item, owned, accOwned, make) == Success(game)
    ensures forall j | 0 <= j < |g.accessories| ::
              accOwned.Contains(g.accessories[j].id) && g.accessories[j].id in Map(game.accessories, GameId)
  {
    forall j | 0 <= j < |g.accessories|
      ensures accOwned.Contains(g.accessories[j].id) && g.accessories[j].id in Map(game.accessories, GameId)
    {
      EntitiesCoverRecord(g.accessories, accOwned, make, j);
    }
  }

  /** The owned editions whose game is held in the game dict (its ids are
      `held`), in owned order (line 131). */
  function HeldEditions(owned: MultiDict<CollectionItem>, held: set<int>): (r: seq<CollectionItem>)
    ensures forall i | 0 <= i < |r| :: r[i].id in held && r[i] in owned.AllValues()
    ensures forall e | e in owned.AllValues() && e.id in held :: e in r
  {
    Keep(owned.AllValues(), (e: CollectionItem) => e.id in held)
  }

  /** The held editions keep the owned order: the filter distributes over
      the editions added first and those added later ... */
  lemma HeldEditionsConcat(a: seq<(int, CollectionItem)>, b: seq<(int, CollectionItem)>, held: set<int>)
    ensures HeldEditions(MultiDict(a + b), held) == HeldEditions(MultiDict(a), held) + HeldEditions(MultiDict(b), held)
  {
    assert MultiDict(a + b).AllValues() == MultiDict(a).AllValues() + MultiDict(b).AllValues();
    KeepConcat(MultiDict(a).AllValues(), MultiDict(b).AllValues(), (e: CollectionItem) => e.id in held);
  }

  /** ... and one edition is kept exactly when its game is held. */
  lemma HeldEditionsOfOne(k: int, e: CollectionItem, held: set<int>)
    ensures HeldEditions(MultiDict([(k, e)]), held) == if e.id in held then [e] else []
  {
    assert MultiDict([(k, e)]).AllValues() == [e];
  }

  /** The game entities before cleanup, each with the held edition and the
      gathering it was built from, and the owned editions. */
  datatype Resolved = Resolved(games: seq<BoardGame>, editions: seq<CollectionItem>, gathered: seq<Gathered>,
                               owned: MultiDict<CollectionItem>)

  /** Lines 131-147: the entity of every owned edition whose game has a
      gathering, in owned order, the first failure aborting the pass. */
  function Assemble(plans: map<int, Gathered>, owned: MultiDict<CollectionItem>, accOwned: MultiDict<CollectionItem>,
                    make: Constructor): (r: Result<Resolved>)
    requires Constructs(make)
    ensures r.Success? ==> r.value.owned == owned
    ensures r.Success? ==> r.value.editions == HeldEditions(owned, plans.Keys)
    ensures var held := HeldEditions(owned, plans.Keys);
            r.Success? <==> forall i | 0 <= i < |held| ::
                              BuildGame(plans[held[i].id], held[i], owned, accOwned, make).Success?
    ensures r.Success? ==> |r.value.games| == |r.value.editions| == |r.value.gathered|
    ensures r.Success? ==> forall i | 0 <= i < |r.value.games| ::
              && r.value.editions[i] in owned.AllValues() && r.value.editions[i].id in plans
              && r.value.gathered[i] == plans[r.value.editions[i].id]
              && BuildGame(r.value.gathered[i], r.value.editions[i], owned, accOwned, make) == Success(r.value.games[i])
  {
    var items := HeldEditions(owned, plans.Keys);
    var gathered := PlansOf(plans, items);
    match Collect(BuildEach(gathered, items, owned, accOwned, make))
    case Failure(e) => Failure(e)
    case Success(games) => Success(Resolved(games, items, gathered, owned))
  }

  /** The gathering of each edition's game. */
  function PlansOf(plans: map<int, Gathered>, items: seq<CollectionItem>): (r: seq<Gathered>)
    requires forall i | 0 <= i < |items| :: items[i].id in plans
    ensures |r| == |items| && forall i | 0 <= i < |items| :: r[i] == plans[items[i].id]
  {
    seq(|items|, i requires 0 <= i < |items| => plans[items[i].id])
  }

  /** The entity of each edition, built from its game's gathering. */
  function BuildEach(gathered: seq<Gathered>, items: seq<CollectionItem>, owned: MultiDict<CollectionItem>,
                     accOwned: MultiDict<CollectionItem>, make: Constructor): (r: seq<Result<BoardGame>>)
    requires Constructs(make) && |gathered| == |items|
    ensures |r| == |items| && forall i | 0 <= i < |items| :: r[i] == BuildGame(gathered[i], items[i], owned, accOwned, make)
  {
    seq(|items|, i requires 0 <= i < |items| => BuildGame(gathered[i], items[i], owned, accOwned, make))
  }

  /** The entity the pass builds for one owned edition of a game from that
      game's gathering, with the entity constructor of `Models`. */
  function BuildNew(g: Gathered, item: CollectionItem, owned: MultiDict<CollectionItem>,
                    accOwned: MultiDict<CollectionItem>): Result<BoardGame>
  {
    NewBoardGameConstructs();
    BuildGame(g, item, owned, accOwned, NewBoardGame)
  }

  /** `r` holds one entity per held owned edition, in owned order, each built
      by `BuildNew` from the gathering of its own game. */
  ghost predicate BuiltOver(r: Resolved, plans: map<int, Gathered>, owned: MultiDict<CollectionItem>,
                            accOwned: MultiDict<CollectionItem>)
  {
    && r.owned == owned
    && r.editions == HeldEditions(owned, plans.Keys)
    && |r.games| == |r.editions| == |r.gathered|
    && forall i | 0 <= i < |r.games| ::
         && r.editions[i].id in plans
         && r.gathered[i] == plans[r.editions[i].id]
         && BuildNew(r.gathered[i], r.editions[i], owned, accOwned) == Success(r.games[i])
  }

  /** Every held owned edition's entity can be built from its game's
      gathering: the comprehension of lines 131-147 raises nowhere. */
  predicate BuildsAll(plans: map<int, Gathered>, owned: MultiDict<CollectionItem>, accOwned: MultiDict<CollectionItem>) {
    var held := HeldEditions(owned, plans.Keys);
    forall i | 0 <= i < |held| :: BuildNew(plans[held[i].id], held[i], owned, accOwned).Success?
  }

  /** Lines 44-147: the owned editions (with the catch-all's blank one) and
      their plays, the catalog of fetched records with the custom links added
      where their expansions were fetched, the linking pass and the entities
      of every held edition. */
  function Resolve(collection: seq<CollectionItem>, details: seq<Detail>, accessoryCollection: seq<CollectionItem>,
                   accessoryDetails: seq<Detail>, plays: seq<Play>): (r: Result<Resolved>)
    ensures LinkPass(NewCatalog(details, accessoryDetails)).Failure? ==> r.Failure?
    ensures r.Success? ==> r.value.owned == OwnedEditions(collection, plays)
    ensures r.Success? ==>
              r.value.editions == HeldEditions(OwnedEditions(collection, plays),
                                               LinkPass(NewCatalog(details, accessoryDetails)).value.games.Keys)
    ensures r.Success? ==> |r.value.games| == |r.value.editions| == |r.value.gathered|
    ensures r.Success? ==> forall i | 0 <= i < |r.value.games| ::
              && r.value.games[i].id == r.value.editions[i].id == r.value.gathered[i].record.id
              && r.value.games[i].image == r.value.editions[i]
    ensures r.Success? ==>
              var c := NewCatalog(details, accessoryDetails);
              && LinkPass(c).Success? && Closed(c, LinkPass(c).value)
              && BuiltOver(r.value, Gatherings(c, LinkPass(c).value), OwnedEditions(collection, plays),
                           AccessoriesById(accessoryCollection))
    ensures var c := NewCatalog(details, accessoryDetails);
            r.Success? <==>
              && LinkPass(c).Success? && Closed(c, LinkPass(c).value)
              && BuildHeld(c, LinkPass(c).value, OwnedEditions(collection, plays),
                           AccessoriesById(accessoryCollection)).Success?
  {
    var c := NewCatalog(details, accessoryDetails);
    var p :- LinkPass(c);
    LinkClosed(c);
    BuildHeld(c, p, OwnedEditions(collection, plays), AccessoriesById(accessoryCollection))
  }

  /** Lines 131-147 after linking: the entity of every held owned edition,
      built from the gathering of its game. */
  function BuildHeld(c: Catalog, p: Pass, owned: MultiDict<CollectionItem>, accOwned: MultiDict<CollectionItem>)
    : (r: Result<Resolved>)
    requires Closed(c, p)
    ensures r.Success? ==> r.value.owned == owned
    ensures r.Success? ==> r.value.editions == HeldEditions(owned, p.games.Keys)
    ensures r.Success? ==> |r.value.games| == |r.value.editions| == |r.value.gathered|
    ensures r.Success? ==> forall i | 0 <= i < |r.value.games| ::
              && r.value.games[i].id == r.value.editions[i].id == r.value.gathered[i].record.id
              && r.value.games[i].image == r.value.editions[i]
    ensures r.Success? ==> BuiltOver(r.value, Gatherings(c, p), owned, accOwned)
    ensures r.Success? <==> BuildsAll(Gatherings(c, p), owned, accOwned)
  {
    var plans := Gatherings(c, p);
    GatheringsKeyed(c, p);
    NewBoardGameConstructs();
    var r := Assemble(plans, owned, accOwned, NewBoardGame);
    AssembledOver(plans, owned, accOwned, r);
    AssembledSucceeds(plans, owned, accOwned, r);
    r
  }

  /** Every gathering holds the record of the game it is filed under. */
  lemma GatheringsKeyed(c: Catalog, p: Pass)
    requires Closed(c, p)
    ensures forall k | k in Gatherings(c, p) :: Gatherings(c, p)[k].record.id == k
  {
    forall k | k in Gatherings(c, p) ensures Gatherings(c, p)[k].record.id == k {
      GatheredRecord(c, p, k);
    }
  }

  /** What `Assemble` with the record constructor delivers over gatherings
      keyed by their own records' ids. */
  lemma AssembledOver(plans: map<int, Gathered>, owned: MultiDict<CollectionItem>,
                      accOwned: MultiDict<CollectionItem>, r: Result<Resolved>)
    requires forall k | k in plans :: plans[k].record.id == k
    requires Constructs(NewBoardGame) && r == Assemble(plans, owned, accOwned, NewBoardGame)
    ensures r.Success? ==> forall i | 0 <= i < |r.value.games| ::
              && r.value.games[i].id == r.value.editions[i].id == r.value.gathered[i].record.id
              && r.value.games[i].image == r.value.editions[i]
    ensures r.Success? ==> BuiltOver(r.value, plans, owned, accOwned)
  {
  }

  /** `Assemble` with the record constructor succeeds exactly when every
      held edition's entity can be built. */
  lemma AssembledSucceeds(plans: map<int, Gathered>, owned: MultiDict<CollectionItem>,
                          accOwned: MultiDict<CollectionItem>, r: Result<Resolved>)
    requires Constructs(NewBoardGame) && r == Assemble(plans, owned, accOwned, NewBoardGame)
    ensures r.Success? <==> BuildsAll(plans, owned, accOwned)
  {
  }

  /** The corrected pass up to the entities succeeds exactly when linking
      succeeds and every held owned edition's entity can be built. */
  lemma ResolveSucceeds(collection: seq<CollectionItem>, details: seq<Detail>,
                        accessoryCollection: seq<CollectionItem>, accessoryDetails: seq<Detail>, plays: seq<Play>)
    ensures var c := NewCatalog(details, accessoryDetails);
            Resolve(collection, details, accessoryCollection, accessoryDetails, plays).Success? <==>
              && LinkPass(c).Success? && Closed(c, LinkPass(c).value)
              && BuildsAll(Gatherings(c, LinkPass(c).value), OwnedEditions(collection, plays),
                           AccessoriesById(accessoryCollection))
  {
  }

  /** The collection pass up to the entities as written: line 86 raises
      KeyError unless both custom-mapped expansions were fetched; otherwise
      it is the pass above. */
  function ResolveAsWritten(collection: seq<CollectionItem>, details: seq<Detail>,
                            accessoryCollection: seq<CollectionItem>, accessoryDetails: seq<Detail>,
                            plays: seq<Play>): (r: Result<Resolved>)
    ensures var exps := ById(details, ExpansionKind).m;
            TuscanyId !in exps || PoisonId !in exps ==> r.Failure?
    ensures TuscanyId !in ById(details, ExpansionKind).m ==> r == Failure(MissingKey(KeyText(TuscanyId)))
    ensures var exps := ById(details, ExpansionKind).m;
            TuscanyId in exps && PoisonId in exps ==>
              r == Resolve(collection, details, accessoryCollection, accessoryDetails, plays)
  {
    var _ :- NewCatalogAsWritten(details, accessoryDetails);
    Resolve(collection, details, accessoryCollection, accessoryDetails, plays)
  }
}
