/** The clean-up pass over the built game entities (the loop that ends the
    collection pass): expansion, accessory and compilation names lose the
    owning game's title, integrated games are limited to owned ones, links get
    their leading article moved to the end, "Admin" families go, the owned
    edition's publisher is flagged, and every list is sorted by name. */
module Cleanup {
  import opened Outcome
  import opened Text
  import opened Lists
  import opened Sorting
  import opened Records
  import opened Ordered
  import opened Filters
  import opened Models
  import opened Titles
  import opened Editions
  import opened Building
  import opened Resolution

  /** The four lists the pass reads from a game but the entity does not
      carry: the game's alternate names (the owner titles `remove_prefix`
      cuts), its integrated games, and the games it reimplements and that
      reimplement it. */
  datatype GameLinks = GameLinks(alternateNames: seq<string>, integrates: seq<Link>,
                                 reimplements: seq<Link>, reimplementedby: seq<Link>)

  /** A cleaned game: the entity and its four extra lists after the pass. */
  datatype Cleaned = Cleaned(game: BoardGame, links: GameLinks)

  function GameNameKey(g: BoardGame): SortKey { StrKey(g.name) }

  function LinkNameKey(l: Link): SortKey { StrKey(l.name) }

  function FamilyNameKey(f: Family): SortKey { StrKey(f.name) }

  /** A stable sort keeps the length and the elements. */
  lemma SortByKeeps<T>(s: seq<T>, key: T -> SortKey)
    ensures |SortBy(s, key)| == |s|
    ensures forall x :: x in SortBy(s, key) <==> x in s
  {
    var r := SortBy(s, key);
    assert |multiset(r)| == |multiset(s)|;
    forall x ensures x in r <==> x in s {
      assert x in r <==> x in multiset(r);
      assert x in s <==> x in multiset(s);
    }
  }

  /** `remove_prefix(name, game)`, which never fails and yields an empty name
      only for an empty name. */
  function PrefixRemoved(name: string, titles: seq<string>): (r: string)
    ensures r == "" <==> name == ""
  {
    RemovePrefixNeverFails(name, titles);
    RemovePrefix(name, titles).value
  }

  /** The renaming the pass applies to expansion, accessory and compilation
      names of one game. */
  function Renaming(titles: seq<string>): string -> string {
    (name: string) => PrefixRemoved(name, titles)
  }

  function RenamedEntity(e: BoardGame, rename: string -> string): BoardGame {
    e.(name := rename(e.name))
  }

  function RenamedLink(l: Link, rename: string -> string): Link {
    l.(name := rename(l.name))
  }

  /** Lines 153-156: every expansion (or accessory) renamed, in order. */
  function RenamedEntities(items: seq<BoardGame>, rename: string -> string): (r: seq<BoardGame>)
    ensures |r| == |items| && forall i | 0 <= i < |items| :: r[i] == RenamedEntity(items[i], rename)
  {
    Map(items, (e: BoardGame) => RenamedEntity(e, rename))
  }

  /** Lines 153-156 with 185-186: every expansion (or accessory) renamed,
      then all of them sorted by name; entities of one name keep their
      order. */
  function CleanEntities(items: seq<BoardGame>, rename: string -> string): (r: seq<BoardGame>)
    ensures SortedBy(r, GameNameKey)
    ensures |r| == |items|
    ensures forall x | x in r :: exists i | 0 <= i < |items| :: x == RenamedEntity(items[i], rename)
    ensures forall i | 0 <= i < |items| :: RenamedEntity(items[i], rename) in r
    ensures multiset(r) == multiset(RenamedEntities(items, rename))
    ensures forall k :: FilterKey(r, GameNameKey, k) == FilterKey(RenamedEntities(items, rename), GameNameKey, k)
  {
    var renamed := RenamedEntities(items, rename);
    SortByKeeps(renamed, GameNameKey);
    SortBy(renamed, GameNameKey)
  }

  predicate IsInbound(l: Link) {
    l.inbound
  }

  /** Lines 157-161: the inbound compilations, renamed, in their order. */
  function RenamedInbound(contained: seq<Link>, rename: string -> string): (r: seq<Link>)
    ensures |r| == |Keep(contained, IsInbound)|
    ensures forall i | 0 <= i < |r| :: r[i] == RenamedLink(Keep(contained, IsInbound)[i], rename)
    ensures forall x | x in r :: x.inbound && exists i | 0 <= i < |contained| :: x == RenamedLink(contained[i], rename)
    ensures forall i | 0 <= i < |contained| && contained[i].inbound :: RenamedLink(contained[i], rename) in r
  {
    var inbound := Keep(contained, IsInbound);
    var renamed := Map(inbound, (l: Link) => RenamedLink(l, rename));
    forall x | x in renamed ensures x.inbound && exists i | 0 <= i < |contained| :: x == RenamedLink(contained[i], rename) {
      var j :| 0 <= j < |renamed| && renamed[j] == x;
      assert inbound[j] in contained;
    }
    forall i | 0 <= i < |contained| && contained[i].inbound ensures RenamedLink(contained[i], rename) in renamed {
      var j :| 0 <= j < |inbound| && inbound[j] == contained[i];
      assert renamed[j] == RenamedLink(contained[i], rename);
    }
    renamed
  }

  /** `sorted(links, key=lambda x: x["name"])` */
  function SortLinks(links: seq<Link>): (r: seq<Link>)
    ensures SortedBy(r, LinkNameKey)
    ensures |r| == |links| && forall x :: x in r <==> x in links
    ensures multiset(r) == multiset(links)
    ensures forall k :: FilterKey(r, LinkNameKey, k) == FilterKey(links, LinkNameKey, k)
  {
    SortByKeeps(links, LinkNameKey);
    SortBy(links, LinkNameKey)
  }

  /** Lines 157-162 with 187: the inbound compilations, renamed, sorted by
      name (the pass sorts them twice). */
  function CleanContained(contained: seq<Link>, rename: string -> string): (r: seq<Link>)
    ensures SortedBy(r, LinkNameKey)
    ensures |r| == |Keep(contained, IsInbound)|
    ensures forall x | x in r :: x.inbound && exists i | 0 <= i < |contained| :: x == RenamedLink(contained[i], rename)
    ensures forall i | 0 <= i < |contained| && contained[i].inbound :: RenamedLink(contained[i], rename) in r
    ensures multiset(r) == multiset(RenamedInbound(contained, rename))
    ensures forall k :: FilterKey(r, LinkNameKey, k) == FilterKey(RenamedInbound(contained, rename), LinkNameKey, k)
  {
    SortLinks(SortLinks(RenamedInbound(contained, rename)))
  }

  /** `move_article_to_end` on a link's name: it fails on a name of spaces. */
  function ArticleMovedLink(l: Link): (r: Result<Link>)
    ensures r.Failure? <==> l.name != "" && AllSpace(l.name)
    ensures r.Success? ==> r.value.(name := l.name) == l
  {
    var name :- MoveArticleToEnd(l.name);
    Success(l.(name := name))
  }

  /** The links whose names the article move accepts. */
  predicate Movable(l: Link) {
    !(l.name != "" && AllSpace(l.name))
  }

  /** The moved links, each from the link at the same place. */
  lemma CollectMoved(links: seq<Link>)
    ensures Collect(Map(links, ArticleMovedLink)).Success? <==> forall i | 0 <= i < |links| :: Movable(links[i])
    ensures Collect(Map(links, ArticleMovedLink)).Success? ==>
              var moved := Collect(Map(links, ArticleMovedLink)).value;
              |moved| == |links| && forall i | 0 <= i < |links| :: ArticleMovedLink(links[i]) == Success(moved[i])
  {
    var rs := Map(links, ArticleMovedLink);
    assert forall i | 0 <= i < |links| :: rs[i] == ArticleMovedLink(links[i]);
  }

  /** Every link with its article moved to the end, in order; the first
      name of spaces fails. */
  function MovedLinks(links: seq<Link>): (r: Result<seq<Link>>)
    ensures r.Success? <==> forall i | 0 <= i < |links| :: Movable(links[i])
    ensures r.Success? ==> |r.value| == |links| && forall i | 0 <= i < |links| :: ArticleMovedLink(links[i]) == Success(r.value[i])
  {
    CollectMoved(links);
    Collect(Map(links, ArticleMovedLink))
  }

  /** Lines 172-175 with 191-192: every link with its article moved to the
      end, sorted by name; links of one name keep their order. */
  function CleanLinks(links: seq<Link>): (r: Result<seq<Link>>)
    ensures r.Success? <==> forall i | 0 <= i < |links| :: Movable(links[i])
    ensures r.Success? ==> SortedBy(r.value, LinkNameKey) && |r.value| == |links|
    ensures r.Success? ==> forall x | x in r.value :: exists i | 0 <= i < |links| :: ArticleMovedLink(links[i]) == Success(x)
    ensures r.Success? ==> forall i | 0 <= i < |links| :: ArticleMovedLink(links[i]).value in r.value
    ensures r.Success? ==> multiset(r.value) == multiset(MovedLinks(links).value)
    ensures r.Success? ==> forall k :: FilterKey(r.value, LinkNameKey, k) == FilterKey(MovedLinks(links).value, LinkNameKey, k)
  {
    var moved :- MovedLinks(links);
    forall x | x in moved ensures exists i | 0 <= i < |links| :: ArticleMovedLink(links[i]) == Success(x) {
      var i :| 0 <= i < |moved| && moved[i] == x;
    }
    Success(SortLinks(moved))
  }

  /** Lines 164-170: the integrated games that are owned, with their article
      moved to the end, sorted by name. */
  function CleanIntegrates(integrates: seq<Link>, owned: MultiDict<CollectionItem>): (r: Result<seq<Link>>)
    ensures r.Success? <==> forall i | 0 <= i < |integrates| && owned.Contains(integrates[i].id) :: Movable(integrates[i])
    ensures r.Success? ==> MovedLinks(OwnedLinks(integrates, owned)).Success?
    ensures r.Success? ==> multiset(r.value) == multiset(MovedLinks(OwnedLinks(integrates, owned)).value)
    ensures r.Success? ==> forall k :: FilterKey(r.value, LinkNameKey, k)
                                       == FilterKey(MovedLinks(OwnedLinks(integrates, owned)).value, LinkNameKey, k)
    ensures r.Success? ==> SortedBy(r.value, LinkNameKey)
    ensures r.Success? ==> forall x | x in r.value ::
              owned.Contains(x.id) && exists i | 0 <= i < |integrates| :: ArticleMovedLink(integrates[i]) == Success(x)
    ensures r.Success? ==> forall i | 0 <= i < |integrates| && owned.Contains(integrates[i].id) ::
              ArticleMovedLink(integrates[i]).value in r.value
  {
    var kept := OwnedLinks(integrates, owned);
    assert forall i | 0 <= i < |integrates| && owned.Contains(integrates[i].id) :: integrates[i] in kept;
    var r := CleanLinks(kept);
    assert r.Success? ==> forall x | x in r.value ::
             owned.Contains(x.id) && exists i | 0 <= i < |integrates| :: ArticleMovedLink(integrates[i]) == Success(x) by {
      if r.Success? {
        forall x | x in r.value
          ensures owned.Contains(x.id) && exists i | 0 <= i < |integrates| :: ArticleMovedLink(integrates[i]) == Success(x)
        {
          var j :| 0 <= j < |kept| && ArticleMovedLink(kept[j]) == Success(x);
          assert kept[j] in integrates;
        }
      }
    }
    r
  }

  /** Line 165: the integrated games that are owned, in their order. */
  function OwnedLinks(integrates: seq<Link>, owned: MultiDict<CollectionItem>): (r: seq<Link>)
    ensures forall i | 0 <= i < |r| :: r[i] in integrates && owned.Contains(r[i].id)
    ensures forall i | 0 <= i < |integrates| && owned.Contains(integrates[i].id) :: integrates[i] in r
  {
    Keep(integrates, (l: Link) => owned.Contains(l.id))
  }

  predicate NotAdmin(f: Family) {
    FamilyFilter(f).Some?
  }

  /** Lines 177-182 with 188: the families without the "Admin" ones, sorted
      by name. */
  function CleanFamilies(families: seq<Family>): (r: seq<Family>)
    ensures SortedBy(r, FamilyNameKey)
    ensures forall x | x in r :: x in families && !(x.name == "Admin" || HasPrefix(x.name, "Admin:"))
    ensures forall f | f in families && !(f.name == "Admin" || HasPrefix(f.name, "Admin:")) :: f in r
    ensures multiset(r) == multiset(Keep(families, NotAdmin))
    ensures forall k :: FilterKey(r, FamilyNameKey, k) == FilterKey(Keep(families, NotAdmin), FamilyNameKey, k)
  {
    var kept := Keep(families, NotAdmin);
    SortByKeeps(kept, FamilyNameKey);
    forall f | f in families && !(f.name == "Admin" || HasPrefix(f.name, "Admin:")) ensures f in kept {
      var i :| 0 <= i < |families| && families[i] == f;
    }
    SortBy(kept, FamilyNameKey)
  }

  /** Lines 152-192 for one game, with the four lists it reads supplied: the
      renamed and sorted expansions, accessories and compilations, the owned
      integrated games, the moved reimplementation links, the families
      without "Admin" ones and the publishers filtered against the game's
      first owned edition (KeyError when it has none). A name of spaces among
      the moved links raises, the integrated games first. */
  function CleanupGame(g: BoardGame, links: GameLinks, owned: MultiDict<CollectionItem>): (r: Result<Cleaned>)
    ensures r.Success? <==>
              && (forall i | 0 <= i < |links.integrates| && owned.Contains(links.integrates[i].id) ::
                    Movable(links.integrates[i]))
              && (forall i | 0 <= i < |links.reimplements| :: Movable(links.reimplements[i]))
              && (forall i | 0 <= i < |links.reimplementedby| :: Movable(links.reimplementedby[i]))
              && owned.Contains(g.id)
    ensures r.Success? ==>
              r.value.game.(expansions := g.expansions, accessories := g.accessories, contained := g.contained,
                            families := g.families, publishers := g.publishers) == g
    ensures r.Success? ==> r.value.links.alternateNames == links.alternateNames
    ensures r.Success? ==> forall x | x in r.value.game.contained :: x.inbound
    ensures r.Success? ==> forall x | x in r.value.links.integrates :: owned.Contains(x.id)
    ensures r.Success? ==> forall x | x in r.value.game.families ::
                             x in g.families && !(x.name == "Admin" || HasPrefix(x.name, "Admin:"))
    ensures r.Success? ==> forall i | 0 <= i < |g.expansions| ::
                             RenamedEntity(g.expansions[i], Renaming(links.alternateNames)) in r.value.game.expansions
    ensures r.Success? ==> |r.value.game.expansions| == |g.expansions|
                           && |r.value.game.accessories| == |g.accessories|
                           && |r.value.links.reimplements| == |links.reimplements|
                           && |r.value.links.reimplementedby| == |links.reimplementedby|
    ensures r.Success? ==>
              var rename := Renaming(links.alternateNames);
              && r.value.game.expansions == CleanEntities(g.expansions, rename)
              && r.value.game.accessories == CleanEntities(g.accessories, rename)
              && r.value.game.contained == CleanContained(g.contained, rename)
              && r.value.game.families == CleanFamilies(g.families)
              && r.value.game.publishers == PublisherFilter(g.publishers, owned.First(g.id))
    ensures r.Success? ==>
              && Success(r.value.links.integrates) == CleanIntegrates(links.integrates, owned)
              && Success(r.value.links.reimplements) == CleanLinks(links.reimplements)
              && Success(r.value.links.reimplementedby) == CleanLinks(links.reimplementedby)
  {
    var titles := links.alternateNames;
    var expansions := CleanEntities(g.expansions, Renaming(titles));
    var accessories := CleanEntities(g.accessories, Renaming(titles));
    var contained := CleanContained(g.contained, Renaming(titles));
    var integrates :- CleanIntegrates(links.integrates, owned);
    var reimplements :- CleanLinks(links.reimplements);
    var reimplementedby :- CleanLinks(links.reimplementedby);
    var families := CleanFamilies(g.families);
    if !owned.Contains(g.id) then Failure(MissingKey(KeyText(g.id)))
    else
      var publishers := PublisherFilter(g.publishers, owned.First(g.id));
      Success(Cleaned(
        g.(expansions := expansions, accessories := accessories, contained := contained,
           families := families, publishers := publishers),
        GameLinks(titles, integrates, reimplements, reimplementedby)))
  }

  /** The corrected clean-up sorts every list it writes by name. */
  lemma CleanupGameSorted(g: BoardGame, links: GameLinks, owned: MultiDict<CollectionItem>)
    requires CleanupGame(g, links, owned).Success?
    ensures var c := CleanupGame(g, links, owned).value;
            && SortedBy(c.game.expansions, GameNameKey) && SortedBy(c.game.accessories, GameNameKey)
            && SortedBy(c.game.contained, LinkNameKey) && SortedBy(c.game.families, FamilyNameKey)
            && SortedBy(c.links.integrates, LinkNameKey) && SortedBy(c.links.reimplements, LinkNameKey)
            && SortedBy(c.links.reimplementedby, LinkNameKey)
  {
    var c := CleanupGame(g, links, owned).value;
    var rename := Renaming(links.alternateNames);
    assert c.game.expansions == CleanEntities(g.expansions, rename);
    assert c.game.accessories == CleanEntities(g.accessories, rename);
    assert c.game.contained == CleanContained(g.contained, rename);
    assert c.game.families == CleanFamilies(g.families);
    assert Success(c.links.integrates) == CleanIntegrates(links.integrates, owned);
    assert Success(c.links.reimplements) == CleanLinks(links.reimplements);
    assert Success(c.links.reimplementedby) == CleanLinks(links.reimplementedby);
  }

  /** The corrected clean-up renames every accessory (and nothing else lands
      among them) and keeps every inbound compilation and every family that
      is not an "Admin" one. */
  lemma CleanupGameKeeps(g: BoardGame, links: GameLinks, owned: MultiDict<CollectionItem>)
    requires CleanupGame(g, links, owned).Success?
    ensures var c := CleanupGame(g, links, owned).value;
            var rename := Renaming(links.alternateNames);
            && (forall i | 0 <= i < |g.accessories| :: RenamedEntity(g.accessories[i], rename) in c.game.accessories)
            && (forall x | x in c.game.accessories ::
                  exists i | 0 <= i < |g.accessories| :: x == RenamedEntity(g.accessories[i], rename))
            && (forall i | 0 <= i < |g.contained| && g.contained[i].inbound ::
                  RenamedLink(g.contained[i], rename) in c.game.contained)
            && (forall f | f in g.families && !(f.name == "Admin" || HasPrefix(f.name, "Admin:")) ::
                  f in c.game.families)
  {
    var c := CleanupGame(g, links, owned).value;
    var rename := Renaming(links.alternateNames);
    assert c.game.accessories == CleanEntities(g.accessories, rename);
    assert c.game.contained == CleanContained(g.contained, rename);
    assert c.game.families == CleanFamilies(g.families);
  }

  /** The corrected clean-up moves the article of every owned integrated game
      and of every reimplementation link, and keeps them all. */
  lemma CleanupGameMoves(g: BoardGame, links: GameLinks, owned: MultiDict<CollectionItem>)
    requires CleanupGame(g, links, owned).Success?
    ensures var c := CleanupGame(g, links, owned).value;
            && (forall i | 0 <= i < |links.integrates| && owned.Contains(links.integrates[i].id) ::
                  ArticleMovedLink(links.integrates[i]).Success? && ArticleMovedLink(links.integrates[i]).value in c.links.integrates)
            && (forall i | 0 <= i < |links.reimplements| ::
                  ArticleMovedLink(links.reimplements[i]).Success? && ArticleMovedLink(links.reimplements[i]).value in c.links.reimplements)
            && (forall i | 0 <= i < |links.reimplementedby| ::
                  ArticleMovedLink(links.reimplementedby[i]).Success? && ArticleMovedLink(links.reimplementedby[i]).value in c.links.reimplementedby)
  {
    var c := CleanupGame(g, links, owned).value;
    MovedAllKept(links.integrates, owned, c.links.integrates, true);
    MovedAllKept(links.reimplements, owned, c.links.reimplements, false);
    MovedAllKept(links.reimplementedby, owned, c.links.reimplementedby, false);
  }

  /** Every link the clean-up keeps (the owned ones when `onlyOwned`) has
      its moved form among the cleaned links. */
  lemma MovedAllKept(links: seq<Link>, owned: MultiDict<CollectionItem>, r: seq<Link>, onlyOwned: bool)
    requires onlyOwned ==> CleanIntegrates(links, owned) == Success(r)
    requires !onlyOwned ==> CleanLinks(links) == Success(r)
    ensures forall i | 0 <= i < |links| && (!onlyOwned || owned.Contains(links[i].id)) ::
              ArticleMovedLink(links[i]).Success? && ArticleMovedLink(links[i]).value in r
  {
  }

  /** The lists a catalog record supplies. It has no "reimplemented by"
      list, so that one is empty. */
  function LinksOf(d: Detail): (l: GameLinks)
    ensures l.alternateNames == d.alternateNames && l.integrates == d.integrates && l.reimplements == d.reimplements
    ensures l.reimplementedby == []
  {
    GameLinks(d.alternateNames, d.integrates, d.reimplements, [])
  }

  /** Lines 151-192 as written: the entity has none of `alternate_names`,
      `integrates`, `reimplements` or `reimplementedby`, so the pass raises
      AttributeError on its first game: in `remove_prefix` when the game has
      an expansion, an accessory or an inbound compilation, at
      `game.integrates` otherwise. */
  function CleanupAsWritten(games: seq<BoardGame>): (r: Result<seq<BoardGame>>)
    ensures r.Success? <==> games == []
  {
    if games == [] then Success([])
    else
      var g := games[0];
      if g.expansions != [] || g.accessories != [] || exists i | 0 <= i < |g.contained| :: g.contained[i].inbound
      then Failure(MissingAttribute("alternate_names"))
      else Failure(MissingAttribute("integrates"))
  }

  /** A game with no expansion, accessory or compilation shows it: the pass
      as written fails at `game.integrates`, while the corrected pass cleans
      it once it has an owned edition. */
  lemma CleanupAsWrittenFailsOnPlainGame(g: BoardGame, owned: MultiDict<CollectionItem>)
    requires g.expansions == [] && g.accessories == [] && g.contained == []
    requires owned.Contains(g.id)
    ensures CleanupAsWritten([g]) == Failure(MissingAttribute("integrates"))
    ensures CleanupGame(g, GameLinks([], [], [], []), owned).Success?
  {
  }

  /** The corrected clean-up of every built entity, each with the lists of
      the record it was built from; the pass fails exactly when one of them
      fails. */
  function CleanupAll(built: Resolved): (r: Result<seq<Cleaned>>)
    requires |built.games| == |built.gathered|
    ensures r.Success? ==> |r.value| == |built.games|
    ensures r.Success? ==> forall i | 0 <= i < |built.games| ::
              CleanupGame(built.games[i], LinksOf(built.gathered[i].record), built.owned) == Success(r.value[i])
    ensures r.Failure? <==> exists i | 0 <= i < |built.games| ::
                              CleanupGame(built.games[i], LinksOf(built.gathered[i].record), built.owned).Failure?
  {
    Collect(CleanEach(built))
  }

  /** The clean-up of each built entity with its record's lists. */
  function CleanEach(built: Resolved): (r: seq<Result<Cleaned>>)
    requires |built.games| == |built.gathered|
    ensures |r| == |built.games| && forall i | 0 <= i < |built.games| ::
              r[i] == CleanupGame(built.games[i], LinksOf(built.gathered[i].record), built.owned)
  {
    seq(|built.games|, i requires 0 <= i < |built.games| =>
          CleanupGame(built.games[i], LinksOf(built.gathered[i].record), built.owned))
  }

  /** Lines 44-192 with the clean-up corrected: the built entities, each
      cleaned with the lists of the record it was built from. */
  function CollectionPass(collection: seq<CollectionItem>, details: seq<Detail>,
                          accessoryCollection: seq<CollectionItem>, accessoryDetails: seq<Detail>,
                          plays: seq<Play>): (r: Result<seq<Cleaned>>)
    ensures Resolve(collection, details, accessoryCollection, accessoryDetails, plays).Failure? ==> r.Failure?
    ensures r.Success? ==>
              var built := Resolve(collection, details, accessoryCollection, accessoryDetails, plays).value;
              && |r.value| == |built.games|
              && forall i | 0 <= i < |r.value| ::
                   && r.value[i].game.id == built.games[i].id
                   && r.value[i].game.image == built.games[i].image
                   && r.value[i].links.alternateNames == built.gathered[i].record.alternateNames
  {
    var built :- Resolve(collection, details, accessoryCollection, accessoryDetails, plays);
    CleanupAll(built)
  }

  /** Every game of the corrected pass is the clean-up of its built entity
      with the lists of the record it was built from, and once the entities
      are built the pass fails exactly when one of those clean-ups fails. */
  lemma CollectionPassCleans(collection: seq<CollectionItem>, details: seq<Detail>,
                             accessoryCollection: seq<CollectionItem>, accessoryDetails: seq<Detail>,
                             plays: seq<Play>)
    requires Resolve(collection, details, accessoryCollection, accessoryDetails, plays).Success?
    ensures var built := Resolve(collection, details, accessoryCollection, accessoryDetails, plays).value;
            var r := CollectionPass(collection, details, accessoryCollection, accessoryDetails, plays);
            && (r.Success? ==> |r.value| == |built.games| && forall i | 0 <= i < |r.value| ::
                  CleanupGame(built.games[i], LinksOf(built.gathered[i].record), built.owned) == Success(r.value[i]))
            && (r.Failure? <==> exists i | 0 <= i < |built.games| ::
                  CleanupGame(built.games[i], LinksOf(built.gathered[i].record), built.owned).Failure?)
  {
    var built := Resolve(collection, details, accessoryCollection, accessoryDetails, plays).value;
    assert CollectionPass(collection, details, accessoryCollection, accessoryDetails, plays) == CleanupAll(built);
  }

  /** Lines 44-192 as written: the custom mappings raise KeyError unless
      both of their expansions were fetched, and otherwise any collection
      pass that builds a game fails in the clean-up. */
  function CollectionPassAsWritten(collection: seq<CollectionItem>, details: seq<Detail>,
                                   accessoryCollection: seq<CollectionItem>, accessoryDetails: seq<Detail>,
                                   plays: seq<Play>): (r: Result<seq<BoardGame>>)
    ensures r.Success? <==>
              && ResolveAsWritten(collection, details, accessoryCollection, accessoryDetails, plays).Success?
              && ResolveAsWritten(collection, details, accessoryCollection, accessoryDetails, plays).value.games == []
    ensures var exps := ById(details, ExpansionKind).m;
            TuscanyId !in exps || PoisonId !in exps ==> r.Failure?
    ensures TuscanyId !in ById(details, ExpansionKind).m ==> r == Failure(MissingKey(KeyText(TuscanyId)))
  {
    var built :- ResolveAsWritten(collection, details, accessoryCollection, accessoryDetails, plays);
    CleanupAsWritten(built.games)
  }

  /** With nothing fetched at all, the pass as written already fails at the
      custom mappings, while the corrected pass yields no games. */
  lemma EmptyCollectionAsWritten()
    ensures CollectionPassAsWritten([], [], [], [], []) == Failure(MissingKey(KeyText(TuscanyId)))
  {
  }
}
