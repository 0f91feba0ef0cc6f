/** The linking part of the collection pass: the game and expansion dicts,
    the lists of expansions and accessories gathered under each record, and
    where promos, orphan expansions and orphan accessories end up. */
module Resolution {
  import opened Outcome
  import opened Records
  import opened Ordered
  import opened Filters

  const GameKind := "boardgame"
  const ExpansionKind := "boardgameexpansion"

  /** The fetched records the pass reads: board game records by id, expansion
      records by id (in first-fetch order, with the two custom links added)
      and the accessory records as fetched. The pass changes no record except
      by clearing an orphan expansion's player-count poll, which `Pass.cleared`
      records. */
  datatype Catalog = Catalog(gameRecs: map<int, Detail>, exps: OMap<Detail>, accessories: seq<Detail>) {
    ghost predicate Valid() {
      && exps.Valid()
      && (forall i | i in gameRecs :: gameRecs[i].id == i)
      && (forall k | k in exps.m :: exps.m[k].id == k)
    }
  }

  /** The owner of one pair of gathered lists: the game record or the
      expansion record under an id. A promo box is one record held in both
      dicts, so the game dict then holds its ExpansionRecord and the two
      dicts share its lists. */
  datatype Holder = GameRecord(id: int) | ExpansionRecord(id: int)

  /** The state of the pass: the game dict, the expansion list
      (`expansions_collection`, by expansion id) and the accessory list
      (`accessories_collection`, by position in the fetched accessory
      records) of each holder, and the expansions whose poll was cleared. */
  datatype Pass = Pass(games: map<int, Holder>, expLists: map<Holder, seq<int>>,
                       accLists: map<Holder, seq<nat>>, cleared: set<int>)
  {
    /** The expansion list of `h`; every record starts with an empty one. */
    function ExpsOf(h: Holder): seq<int> {
      if h in expLists then expLists[h] else []
    }

    /** The accessory list of `h`; every record starts with an empty one. */
    function AccsOf(h: Holder): seq<nat> {
      if h in accLists then accLists[h] else []
    }
  }

  /** `h` names a record of the catalog; only promo boxes are held as
      expansion records in the game dict. */
  predicate Names(c: Catalog, h: Holder) {
    if h.GameRecord? then h.id in c.gameRecs else h.id in c.exps.m
  }

  /** Every id the pass refers to names a record of the catalog: what
      building the entities needs of the pass, kept by every step. */
  ghost predicate Closed(c: Catalog, p: Pass) {
    && c.Valid()
    && (forall i | i in p.games :: p.games[i].id == i && Names(c, p.games[i]))
    && (forall i | i in p.games && p.games[i].ExpansionRecord? :: IsPromoBox(c.exps.m[i]))
    && (forall h, j | h in p.expLists && 0 <= j < |p.expLists[h]| :: p.expLists[h][j] in c.exps.m)
    && (forall h, j | h in p.accLists && 0 <= j < |p.accLists[h]| :: p.accLists[h][j] < |c.accessories|)
  }

  /** What the lists of a closed pass hold, holder by holder. */
  lemma ClosedLists(c: Catalog, p: Pass, h: Holder)
    requires Closed(c, p)
    ensures forall x | x in p.ExpsOf(h) :: x in c.exps.m
    ensures forall x | x in p.AccsOf(h) :: x < |c.accessories|
  {
    forall x | x in p.ExpsOf(h) ensures x in c.exps.m {
      var j :| 0 <= j < |p.ExpsOf(h)| && p.ExpsOf(h)[j] == x;
    }
    forall x | x in p.AccsOf(h) ensures x < |c.accessories| {
      var j :| 0 <= j < |p.AccsOf(h)| && p.AccsOf(h)[j] == x;
    }
  }

  /** Everything on `p`'s lists is still on `r`'s: the pass only appends. */
  ghost predicate Grows(p: Pass, r: Pass) {
    && (forall h, x | x in p.ExpsOf(h) :: x in r.ExpsOf(h))
    && (forall h, x | x in p.AccsOf(h) :: x in r.AccsOf(h))
  }

  /** The expansion record `k` as the built entities see it: with an empty
      poll once the pass has cleared it. */
  function ExpansionRecordOf(c: Catalog, p: Pass, k: int): (d: Detail)
    requires k in c.exps.m
    ensures d.id == c.exps.m[k].id
    ensures d.(suggestedNumPlayers := c.exps.m[k].suggestedNumPlayers) == c.exps.m[k]
    ensures d.suggestedNumPlayers == if k in p.cleared then [] else c.exps.m[k].suggestedNumPlayers
  {
    if k in p.cleared then c.exps.m[k].(suggestedNumPlayers := []) else c.exps.m[k]
  }

  /** The record a holder stands for. */
  function RecordOf(c: Catalog, p: Pass, h: Holder): Detail
    requires Names(c, h)
  {
    match h
    case GameRecord(id) => c.gameRecs[id]
    case ExpansionRecord(id) => ExpansionRecordOf(c, p, id)
  }

  /** `h`'s expansion list with `ids` appended. */
  function AddExps(p: Pass, h: Holder, ids: seq<int>): (r: Pass)
    ensures r.games == p.games && r.accLists == p.accLists && r.cleared == p.cleared
    ensures r.ExpsOf(h) == p.ExpsOf(h) + ids
    ensures forall g | g != h :: r.ExpsOf(g) == p.ExpsOf(g)
  {
    p.(expLists := p.expLists[h := p.ExpsOf(h) + ids])
  }

  /** `h`'s accessory list with `idxs` appended. */
  function AddAccs(p: Pass, h: Holder, idxs: seq<nat>): (r: Pass)
    ensures r.games == p.games && r.expLists == p.expLists && r.cleared == p.cleared
    ensures r.AccsOf(h) == p.AccsOf(h) + idxs
    ensures forall g | g != h :: r.AccsOf(g) == p.AccsOf(g)
  {
    p.(accLists := p.accLists[h := p.AccsOf(h) + idxs])
  }

  lemma AddExpsClosed(c: Catalog, p: Pass, h: Holder, ids: seq<int>)
    requires Closed(c, p) && forall j | 0 <= j < |ids| :: ids[j] in c.exps.m
    ensures Closed(c, AddExps(p, h, ids))
  {
  }

  lemma AddAccsClosed(c: Catalog, p: Pass, h: Holder, idxs: seq<nat>)
    requires Closed(c, p) && forall j | 0 <= j < |idxs| :: idxs[j] < |c.accessories|
    ensures Closed(c, AddAccs(p, h, idxs))
  {
  }

  /** Some inbound link of `links` points at `k`. */
  predicate HasInbound(links: seq<IdLink>, k: int) {
    exists i | 0 <= i < |links| :: links[i].inbound && links[i].id == k
  }

  /** Some inbound link of `links` points at a record held in either dict:
      the `own_game` and `own_base_game` flags. */
  predicate LinksToHeld(c: Catalog, games: map<int, Holder>, links: seq<IdLink>) {
    exists i | 0 <= i < |links| :: links[i].inbound && (links[i].id in games || links[i].id in c.exps.m)
  }

  // ---------------------------------------------------------------------
  // Lines 89-90: promo boxes join the game dict

  /** Every promo box among the expansions `keys` is held in the game dict
      under its own id, as its expansion record; nothing else changes. */
  function Promote(c: Catalog, games: map<int, Holder>, keys: seq<int>): (r: map<int, Holder>)
    requires forall j | 0 <= j < |keys| :: keys[j] in c.exps.m
    ensures forall i :: i in r <==> i in games || (i in keys && IsPromoBox(c.exps.m[i]))
    ensures forall i | i in keys && IsPromoBox(c.exps.m[i]) :: r[i] == ExpansionRecord(i)
    ensures forall i | i in games && !(i in keys && IsPromoBox(c.exps.m[i])) :: r[i] == games[i]
    decreases |keys|
  {
    if keys == [] then games
    else
      var init := keys[..|keys| - 1];
      var k := keys[|keys| - 1];
      assert forall j | 0 <= j < |init| :: init[j] == keys[j];
      assert forall i :: i in keys <==> i in init || i == k;
      var r := Promote(c, games, init);
      if IsPromoBox(c.exps.m[k]) then r[k := ExpansionRecord(k)] else r
  }

  // ---------------------------------------------------------------------
  // Lines 91-94: each expansion is filed under the expansions it expands

  /** One expansion's links: `eid` joins the list of every fetched expansion
      it has an inbound link to. */
  function LinkParents(c: Catalog, p: Pass, eid: int, links: seq<IdLink>): (r: Pass)
    ensures r.games == p.games && r.accLists == p.accLists && r.cleared == p.cleared
    decreases |links|
  {
    if links == [] then p
    else
      var l := links[0];
      var p1 := if l.inbound && l.id in c.exps.m then AddExps(p, ExpansionRecord(l.id), [eid]) else p;
      LinkParents(c, p1, eid, links[1..])
  }

  /** The loop over the expansion dict, in key order. */
  function LinkExpansions(c: Catalog, p: Pass, keys: seq<int>): (r: Pass)
    requires forall j | 0 <= j < |keys| :: keys[j] in c.exps.m
    ensures r.games == p.games && r.accLists == p.accLists && r.cleared == p.cleared
    decreases |keys|
  {
    if keys == [] then p
    else LinkExpansions(c, LinkParents(c, p, keys[0], c.exps.m[keys[0]].expansions), keys[1..])
  }

  lemma {:induction false} LinkParentsClosed(c: Catalog, p: Pass, eid: int, links: seq<IdLink>)
    requires Closed(c, p) && eid in c.exps.m
    ensures Closed(c, LinkParents(c, p, eid, links))
    decreases |links|
  {
    if links != [] {
      var l := links[0];
      if l.inbound && l.id in c.exps.m {
        AddExpsClosed(c, p, ExpansionRecord(l.id), [eid]);
      }
      var p1 := if l.inbound && l.id in c.exps.m then AddExps(p, ExpansionRecord(l.id), [eid]) else p;
      LinkParentsClosed(c, p1, eid, links[1..]);
    }
  }

  lemma {:induction false} LinkExpansionsClosed(c: Catalog, p: Pass, keys: seq<int>)
    requires Closed(c, p) && forall j | 0 <= j < |keys| :: keys[j] in c.exps.m
    ensures Closed(c, LinkExpansions(c, p, keys))
    decreases |keys|
  {
    if keys != [] {
      LinkParentsClosed(c, p, keys[0], c.exps.m[keys[0]].expansions);
      LinkExpansionsClosed(c, LinkParents(c, p, keys[0], c.exps.m[keys[0]].expansions), keys[1..]);
    }
  }

  /** Linking only appends. */
  lemma {:induction false} LinkParentsGrows(c: Catalog, p: Pass, eid: int, links: seq<IdLink>)
    ensures Grows(p, LinkParents(c, p, eid, links))
    decreases |links|
  {
    if links != [] {
      var l := links[0];
      var p1 := if l.inbound && l.id in c.exps.m then AddExps(p, ExpansionRecord(l.id), [eid]) else p;
      LinkParentsGrows(c, p1, eid, links[1..]);
    }
  }

  /** An expansion lands on the list of each expansion it links to inbound. */
  lemma {:induction false} LinkParentsFiles(c: Catalog, p: Pass, eid: int, links: seq<IdLink>, k: int)
    requires k in c.exps.m && HasInbound(links, k)
    ensures eid in LinkParents(c, p, eid, links).ExpsOf(ExpansionRecord(k))
    decreases |links|
  {
    var l := links[0];
    var p1 := if l.inbound && l.id in c.exps.m then AddExps(p, ExpansionRecord(l.id), [eid]) else p;
    if l.inbound && l.id == k {
      assert eid in p1.ExpsOf(ExpansionRecord(k));
      LinkParentsGrows(c, p1, eid, links[1..]);
    } else {
      var i :| 0 <= i < |links| && links[i].inbound && links[i].id == k;
      assert links[1..][i - 1] == links[i];
      LinkParentsFiles(c, p1, eid, links[1..], k);
    }
  }

  /** ... and on no other list. */
  lemma {:induction false} LinkParentsOnly(c: Catalog, p: Pass, eid: int, links: seq<IdLink>, h: Holder, x: int)
    requires x in LinkParents(c, p, eid, links).ExpsOf(h)
    ensures x in p.ExpsOf(h) || (x == eid && h.ExpansionRecord? && h.id in c.exps.m && HasInbound(links, h.id))
    decreases |links|
  {
    if links != [] {
      var l := links[0];
      var p1 := if l.inbound && l.id in c.exps.m then AddExps(p, ExpansionRecord(l.id), [eid]) else p;
      LinkParentsOnly(c, p1, eid, links[1..], h, x);
      if x in p1.ExpsOf(h) {
        if l.inbound && l.id in c.exps.m && h == ExpansionRecord(l.id) && x !in p.ExpsOf(h) {
          assert x == eid;
          assert HasInbound(links, h.id) by { assert links[0].inbound && links[0].id == h.id; }
        }
      } else {
        var i :| 0 <= i < |links[1..]| && links[1..][i].inbound && links[1..][i].id == h.id;
        assert links[i + 1] == links[1..][i];
      }
    }
  }

  /** Looping only appends. */
  lemma {:induction false} LinkExpansionsGrows(c: Catalog, p: Pass, keys: seq<int>)
    requires forall j | 0 <= j < |keys| :: keys[j] in c.exps.m
    ensures Grows(p, LinkExpansions(c, p, keys))
    decreases |keys|
  {
    if keys != [] {
      var p1 := LinkParents(c, p, keys[0], c.exps.m[keys[0]].expansions);
      LinkParentsGrows(c, p, keys[0], c.exps.m[keys[0]].expansions);
      LinkExpansionsGrows(c, p1, keys[1..]);
    }
  }

  /** After the loop, every expansion is on the list of each expansion it
      links to inbound. */
  lemma {:induction false} LinkExpansionsFiles(c: Catalog, p: Pass, keys: seq<int>, j: int, k: int)
    requires forall j | 0 <= j < |keys| :: keys[j] in c.exps.m
    requires 0 <= j < |keys| && k in c.exps.m && HasInbound(c.exps.m[keys[j]].expansions, k)
    ensures keys[j] in LinkExpansions(c, p, keys).ExpsOf(ExpansionRecord(k))
    decreases |keys|
  {
    var p1 := LinkParents(c, p, keys[0], c.exps.m[keys[0]].expansions);
    if j == 0 {
      LinkParentsFiles(c, p, keys[0], c.exps.m[keys[0]].expansions, k);
      LinkExpansionsGrows(c, p1, keys[1..]);
    } else {
      assert keys[1..][j - 1] == keys[j];
      LinkExpansionsFiles(c, p1, keys[1..], j - 1, k);
    }
  }

  /** ... and every list holds only such expansions. */
  lemma {:induction false} LinkExpansionsOnly(c: Catalog, p: Pass, keys: seq<int>, h: Holder, x: int)
    requires forall j | 0 <= j < |keys| :: keys[j] in c.exps.m
    requires x in LinkExpansions(c, p, keys).ExpsOf(h)
    ensures x in p.ExpsOf(h)
            || (x in keys && h.ExpansionRecord? && h.id in c.exps.m && HasInbound(c.exps.m[x].expansions, h.id))
    decreases |keys|
  {
    if keys != [] {
      var p1 := LinkParents(c, p, keys[0], c.exps.m[keys[0]].expansions);
      LinkExpansionsOnly(c, p1, keys[1..], h, x);
      if x in p1.ExpsOf(h) {
        LinkParentsOnly(c, p, keys[0], c.exps.m[keys[0]].expansions, h, x);
      } else {
        assert x in keys[1..];
      }
    }
  }

  // ---------------------------------------------------------------------
  // Lines 97-108: each accessory is filed under what it belongs to

  /** Where an inbound link to `id` files things: under the record the game
      dict holds, else under the fetched expansion, else nowhere. */
  function LinkTarget(c: Catalog, games: map<int, Holder>, id: int): (t: Option<Holder>)
    ensures t.Some? <==> id in games || id in c.exps.m
  {
    if id in games then Some(games[id])
    else if id in c.exps.m then Some(ExpansionRecord(id))
    else None
  }

  /** Some inbound link of `links` files under `h`. */
  predicate FilesUnder(c: Catalog, games: map<int, Holder>, links: seq<IdLink>, h: Holder) {
    exists i | 0 <= i < |links| :: links[i].inbound && LinkTarget(c, games, links[i].id) == Some(h)
  }

  /** One link of the accessory at position `j`. */
  function LinkAccessoryVia(c: Catalog, p: Pass, j: nat, l: IdLink): (r: Pass)
    ensures r.games == p.games && r.expLists == p.expLists && r.cleared == p.cleared
  {
    if l.inbound && LinkTarget(c, p.games, l.id).Some? then AddAccs(p, LinkTarget(c, p.games, l.id).value, [j])
    else p
  }

  /** All links of the accessory at position `j`, in order. */
  function LinkAccessoryLinks(c: Catalog, p: Pass, j: nat, links: seq<IdLink>): (r: Pass)
    ensures r.games == p.games && r.expLists == p.expLists && r.cleared == p.cleared
    decreases |links|
  {
    if links == [] then p
    else LinkAccessoryLinks(c, LinkAccessoryVia(c, p, j, links[0]), j, links[1..])
  }

  /** The accessory at position `j`: an accessory without an inbound link to
      a held record goes to the catch-all game, and the lookup fails when
      that game is not held. */
  function LinkAccessory(c: Catalog, p: Pass, j: nat): (r: Result<Pass>)
    requires j < |c.accessories|
    ensures r.Success? <==> LinksToHeld(c, p.games, c.accessories[j].accessories) || CatchAllId in p.games
    ensures r.Failure? ==> r.error == MissingKey(KeyText(CatchAllId))
    ensures r.Success? ==> r.value.games == p.games && r.value.expLists == p.expLists && r.value.cleared == p.cleared
  {
    var p1 := LinkAccessoryLinks(c, p, j, c.accessories[j].accessories);
    if LinksToHeld(c, p.games, c.accessories[j].accessories) then Success(p1)
    else if CatchAllId !in p.games then Failure(MissingKey(KeyText(CatchAllId)))
    else Success(AddAccs(p1, p.games[CatchAllId], [j]))
  }

  /** Every accessory record from position `j` on links to a held record. */
  predicate AccessoriesLinked(c: Catalog, games: map<int, Holder>, j: nat) {
    forall i | j <= i < |c.accessories| :: LinksToHeld(c, games, c.accessories[i].accessories)
  }

  /** The loop over the accessory records from position `j` on. */
  function LinkAccessories(c: Catalog, p: Pass, j: nat): (r: Result<Pass>)
    requires j <= |c.accessories|
    ensures r.Success? <==> CatchAllId in p.games || AccessoriesLinked(c, p.games, j)
    ensures r.Failure? ==> r.error == MissingKey(KeyText(CatchAllId))
    ensures r.Success? ==> r.value.games == p.games && r.value.expLists == p.expLists && r.value.cleared == p.cleared
    decreases |c.accessories| - j
  {
    if j == |c.accessories| then Success(p)
    else
      assert AccessoriesLinked(c, p.games, j) <==>
             LinksToHeld(c, p.games, c.accessories[j].accessories) && AccessoriesLinked(c, p.games, j + 1);
      var p1 :- LinkAccessory(c, p, j);
      LinkAccessories(c, p1, j + 1)
  }

  /** Where the pass files the accessory at position `i`: under every record
      one of its inbound links files under, or under the catch-all game when
      it has none. */
  predicate AccessoryGoesTo(c: Catalog, games: map<int, Holder>, i: nat, h: Holder)
    requires i < |c.accessories|
  {
    var links := c.accessories[i].accessories;
    || FilesUnder(c, games, links, h)
    || (!LinksToHeld(c, games, links) && CatchAllId in games && h == games[CatchAllId])
  }

  lemma {:induction false} LinkAccessoryLinksClosed(c: Catalog, p: Pass, j: nat, links: seq<IdLink>)
    requires Closed(c, p) && j < |c.accessories|
    ensures Closed(c, LinkAccessoryLinks(c, p, j, links))
    decreases |links|
  {
    if links != [] {
      var l := links[0];
      if l.inbound && LinkTarget(c, p.games, l.id).Some? {
        AddAccsClosed(c, p, LinkTarget(c, p.games, l.id).value, [j]);
      }
      LinkAccessoryLinksClosed(c, LinkAccessoryVia(c, p, j, l), j, links[1..]);
    }
  }

  lemma {:induction false} LinkAccessoriesClosed(c: Catalog, p: Pass, j: nat)
    requires Closed(c, p) && j <= |c.accessories| && LinkAccessories(c, p, j).Success?
    ensures Closed(c, LinkAccessories(c, p, j).value)
    decreases |c.accessories| - j
  {
    if j < |c.accessories| {
      var links := c.accessories[j].accessories;
      var q := LinkAccessoryLinks(c, p, j, links);
      LinkAccessoryLinksClosed(c, p, j, links);
      if !LinksToHeld(c, p.games, links) {
        AddAccsClosed(c, q, p.games[CatchAllId], [j]);
      }
      LinkAccessoriesClosed(c, LinkAccessory(c, p, j).value, j + 1);
    }
  }

  lemma {:induction false} LinkAccessoryLinksGrows(c: Catalog, p: Pass, j: nat, links: seq<IdLink>)
    ensures Grows(p, LinkAccessoryLinks(c, p, j, links))
    decreases |links|
  {
    if links != [] {
      LinkAccessoryLinksGrows(c, LinkAccessoryVia(c, p, j, links[0]), j, links[1..]);
    }
  }

  /** One accessory's links file it under each record they name. */
  lemma {:induction false} LinkAccessoryLinksFiles(c: Catalog, p: Pass, j: nat, links: seq<IdLink>, h: Holder)
    requires FilesUnder(c, p.games, links, h)
    ensures j in LinkAccessoryLinks(c, p, j, links).AccsOf(h)
    decreases |links|
  {
    var p1 := LinkAccessoryVia(c, p, j, links[0]);
    if links[0].inbound && LinkTarget(c, p.games, links[0].id) == Some(h) {
      assert j in p1.AccsOf(h);
      LinkAccessoryLinksGrows(c, p1, j, links[1..]);
    } else {
      var i :| 0 <= i < |links| && links[i].inbound && LinkTarget(c, p.games, links[i].id) == Some(h);
      assert links[1..][i - 1] == links[i];
      LinkAccessoryLinksFiles(c, p1, j, links[1..], h);
    }
  }

  /** ... and under nothing else. */
  lemma {:induction false} LinkAccessoryLinksOnly(c: Catalog, p: Pass, j: nat, links: seq<IdLink>, h: Holder, x: nat)
    requires x in LinkAccessoryLinks(c, p, j, links).AccsOf(h)
    ensures x in p.AccsOf(h) || (x == j && FilesUnder(c, p.games, links, h))
    decreases |links|
  {
    if links != [] {
      var l := links[0];
      var p1 := LinkAccessoryVia(c, p, j, l);
      LinkAccessoryLinksOnly(c, p1, j, links[1..], h, x);
      if x in p1.AccsOf(h) {
        if l.inbound && LinkTarget(c, p.games, l.id) == Some(h) && x !in p.AccsOf(h) {
          assert x == j;
          assert FilesUnder(c, p.games, links, h) by { assert links[0] == l; }
        }
      } else {
        var i :| 0 <= i < |links[1..]| && links[1..][i].inbound && LinkTarget(c, p.games, links[1..][i].id) == Some(h);
        assert links[i + 1] == links[1..][i];
      }
    }
  }

  lemma {:induction false} LinkAccessoriesGrows(c: Catalog, p: Pass, j: nat)
    requires j <= |c.accessories| && LinkAccessories(c, p, j).Success?
    ensures Grows(p, LinkAccessories(c, p, j).value)
    decreases |c.accessories| - j
  {
    if j < |c.accessories| {
      var p1 := LinkAccessory(c, p, j).value;
      LinkAccessoryLinksGrows(c, p, j, c.accessories[j].accessories);
      LinkAccessoriesGrows(c, p1, j + 1);
    }
  }

  /** After the loop, each accessory is on the list of every record it goes
      to. */
  lemma {:induction false} LinkAccessoriesFiles(c: Catalog, p: Pass, j: nat, i: nat, h: Holder)
    requires j <= i < |c.accessories| && LinkAccessories(c, p, j).Success?
    requires AccessoryGoesTo(c, p.games, i, h)
    ensures i in LinkAccessories(c, p, j).value.AccsOf(h)
    decreases |c.accessories| - j
  {
    var links := c.accessories[j].accessories;
    var p1 := LinkAccessory(c, p, j).value;
    if i == j {
      if FilesUnder(c, p.games, links, h) {
        LinkAccessoryLinksFiles(c, p, j, links, h);
        if !LinksToHeld(c, p.games, links) {
          LinkAccessoryLinksGrows(c, p, j, links);
        }
      }
      assert i in p1.AccsOf(h);
      LinkAccessoriesGrows(c, p1, j + 1);
    } else {
      LinkAccessoriesFiles(c, p1, j + 1, i, h);
    }
  }

  /** ... and the lists hold nothing else. */
  lemma {:induction false} LinkAccessoriesOnly(c: Catalog, p: Pass, j: nat, h: Holder, x: nat)
    requires j <= |c.accessories| && LinkAccessories(c, p, j).Success?
    requires x in LinkAccessories(c, p, j).value.AccsOf(h)
    ensures x in p.AccsOf(h) || (j <= x < |c.accessories| && AccessoryGoesTo(c, p.games, x, h))
    decreases |c.accessories| - j
  {
    if j < |c.accessories| {
      var links := c.accessories[j].accessories;
      var p1 := LinkAccessory(c, p, j).value;
      var q := LinkAccessoryLinks(c, p, j, links);
      LinkAccessoriesOnly(c, p1, j + 1, h, x);
      if x in p1.AccsOf(h) && x !in p.AccsOf(h) {
        if x in q.AccsOf(h) {
          LinkAccessoryLinksOnly(c, p, j, links, h, x);
        } else {
          assert x == j;
        }
      }
    }
  }

  // ---------------------------------------------------------------------
  // Lines 110-128: each expansion is attached to the game it expands

  /** Lines 119-121 (and 126-128): `h` gets the expansion `k`, then the list
      gathered under `k`'s record as it is at that moment (with `k` itself on
      it when the two lists are one), then `k`'s accessories. */
  function AttachTo(p: Pass, h: Holder, k: int): (r: Pass)
    ensures r.games == p.games && r.cleared == p.cleared
  {
    var p1 := AddExps(p, h, [k]);
    var p2 := AddExps(p1, h, p1.ExpsOf(ExpansionRecord(k)));
    AddAccs(p2, h, p2.AccsOf(ExpansionRecord(k)))
  }

  /** One link of expansion `k`: an inbound link to a held game attaches a
      non-promo expansion to that game. */
  function AttachVia(c: Catalog, p: Pass, k: int, l: IdLink): (r: Pass)
    requires k in c.exps.m
    ensures r.games == p.games && r.cleared == p.cleared
  {
    if l.inbound && l.id in p.games && !IsPromoBox(c.exps.m[k]) then AttachTo(p, p.games[l.id], k) else p
  }

  /** All links of expansion `k`, in order. */
  function AttachToOwners(c: Catalog, p: Pass, k: int, links: seq<IdLink>): (r: Pass)
    requires k in c.exps.m
    ensures r.games == p.games && r.cleared == p.cleared
    decreases |links|
  {
    if links == [] then p
    else AttachToOwners(c, AttachVia(c, p, k, links[0]), k, links[1..])
  }

  /** Expansion `k`: one with no inbound link to a held record is an orphan;
      its poll is cleared and it goes to the catch-all game, and the lookup
      fails when that game is not held. */
  function AttachOne(c: Catalog, p: Pass, k: int): (r: Result<Pass>)
    requires k in c.exps.m
    ensures r.Success? <==> LinksToHeld(c, p.games, c.exps.m[k].expansions) || CatchAllId in p.games
    ensures r.Failure? ==> r.error == MissingKey(KeyText(CatchAllId))
    ensures r.Success? ==> r.value.games == p.games
    ensures r.Success? ==> r.value.cleared == p.cleared + if LinksToHeld(c, p.games, c.exps.m[k].expansions) then {} else {k}
  {
    var links := c.exps.m[k].expansions;
    var p1 := AttachToOwners(c, p, k, links);
    if LinksToHeld(c, p.games, links) then Success(p1)
    else if CatchAllId !in p.games then Failure(MissingKey(KeyText(CatchAllId)))
    else Success(AttachTo(p1.(cleared := p1.cleared + {k}), p.games[CatchAllId], k))
  }

  /** Every expansion among `keys` links to a held record. */
  predicate ExpansionsLinked(c: Catalog, games: map<int, Holder>, keys: seq<int>)
    requires forall j | 0 <= j < |keys| :: keys[j] in c.exps.m
  {
    forall j | 0 <= j < |keys| :: LinksToHeld(c, games, c.exps.m[keys[j]].expansions)
  }

  /** The orphans among `keys`. */
  function Orphans(c: Catalog, games: map<int, Holder>, keys: seq<int>): (o: set<int>)
    requires forall j | 0 <= j < |keys| :: keys[j] in c.exps.m
    ensures forall k :: k in o <==> k in keys && !LinksToHeld(c, games, c.exps.m[k].expansions)
  {
    set k | k in keys && !LinksToHeld(c, games, c.exps.m[k].expansions)
  }

  /** The loop over the expansion dict, in key order. */
  function AttachExpansions(c: Catalog, p: Pass, keys: seq<int>): (r: Result<Pass>)
    requires forall j | 0 <= j < |keys| :: keys[j] in c.exps.m
    ensures r.Success? <==> CatchAllId in p.games || ExpansionsLinked(c, p.games, keys)
    ensures r.Failure? ==> r.error == MissingKey(KeyText(CatchAllId))
    ensures r.Success? ==> r.value.games == p.games
    decreases |keys|
  {
    if keys == [] then Success(p)
    else
      assert ExpansionsLinked(c, p.games, keys) <==>
             LinksToHeld(c, p.games, c.exps.m[keys[0]].expansions) && ExpansionsLinked(c, p.games, keys[1..]) by {
        assert forall j | 1 <= j < |keys| :: keys[1..][j - 1] == keys[j];
      }
      var p1 :- AttachOne(c, p, keys[0]);
      AttachExpansions(c, p1, keys[1..])
  }

  /** The loop clears the poll of exactly the orphans. */
  lemma {:induction false} AttachExpansionsClears(c: Catalog, p: Pass, keys: seq<int>)
    requires forall j | 0 <= j < |keys| :: keys[j] in c.exps.m
    requires AttachExpansions(c, p, keys).Success?
    ensures AttachExpansions(c, p, keys).value.cleared == p.cleared + Orphans(c, p.games, keys)
    decreases |keys|
  {
    if keys != [] {
      AttachExpansionsClears(c, AttachOne(c, p, keys[0]).value, keys[1..]);
      assert forall k :: k in keys <==> k == keys[0] || k in keys[1..];
    }
  }

  /** Some inbound link of `links` names a held record, held as `h`. */
  predicate OwnedBy(games: map<int, Holder>, links: seq<IdLink>, h: Holder) {
    exists i | 0 <= i < |links| :: links[i].inbound && links[i].id in games && games[links[i].id] == h
  }

  /** Where the pass attaches expansion `k`: under every held game it links
      to inbound, unless it is a promo box, or under the catch-all game when
      it is an orphan. */
  predicate ExpansionGoesTo(c: Catalog, games: map<int, Holder>, k: int, h: Holder)
    requires k in c.exps.m
  {
    var links := c.exps.m[k].expansions;
    || (!IsPromoBox(c.exps.m[k]) && OwnedBy(games, links, h))
    || (!LinksToHeld(c, games, links) && CatchAllId in games && h == games[CatchAllId])
  }

  lemma AttachToClosed(c: Catalog, p: Pass, h: Holder, k: int)
    requires Closed(c, p) && k in c.exps.m
    ensures Closed(c, AttachTo(p, h, k))
  {
    var p1 := AddExps(p, h, [k]);
    AddExpsClosed(c, p, h, [k]);
    var p2 := AddExps(p1, h, p1.ExpsOf(ExpansionRecord(k)));
    AddExpsClosed(c, p1, h, p1.ExpsOf(ExpansionRecord(k)));
    AddAccsClosed(c, p2, h, p2.AccsOf(ExpansionRecord(k)));
  }

  /** Attaching only appends, ... */
  lemma AttachToGrows(p: Pass, h: Holder, k: int)
    ensures Grows(p, AttachTo(p, h, k))
  {
  }

  /** ... `h` gains `k`, `k`'s expansions and `k`'s accessories, ... */
  lemma AttachToPlaces(p: Pass, h: Holder, k: int)
    ensures var r := AttachTo(p, h, k);
            && k in r.ExpsOf(h)
            && (forall x | x in p.ExpsOf(ExpansionRecord(k)) :: x in r.ExpsOf(h))
            && (forall x | x in p.AccsOf(ExpansionRecord(k)) :: x in r.AccsOf(h))
  {
  }

  /** ... and no list gains anything else. */
  lemma AttachToOnly(p: Pass, h: Holder, k: int, g: Holder, x: int)
    ensures var r := AttachTo(p, h, k);
            && (x in r.ExpsOf(g) ==> x in p.ExpsOf(g) || (g == h && (x == k || x in p.ExpsOf(ExpansionRecord(k)))))
            && (x in r.AccsOf(g) ==> x in p.AccsOf(g) || (g == h && x in p.AccsOf(ExpansionRecord(k))))
  {
  }

  lemma {:induction false} AttachToOwnersClosed(c: Catalog, p: Pass, k: int, links: seq<IdLink>)
    requires Closed(c, p) && k in c.exps.m
    ensures Closed(c, AttachToOwners(c, p, k, links))
    decreases |links|
  {
    if links != [] {
      var l := links[0];
      if l.inbound && l.id in p.games && !IsPromoBox(c.exps.m[k]) {
        AttachToClosed(c, p, p.games[l.id], k);
      }
      AttachToOwnersClosed(c, AttachVia(c, p, k, l), k, links[1..]);
    }
  }

  lemma {:induction false} AttachToOwnersGrows(c: Catalog, p: Pass, k: int, links: seq<IdLink>)
    requires k in c.exps.m
    ensures Grows(p, AttachToOwners(c, p, k, links))
    decreases |links|
  {
    if links != [] {
      var l := links[0];
      if l.inbound && l.id in p.games && !IsPromoBox(c.exps.m[k]) {
        AttachToGrows(p, p.games[l.id], k);
      }
      AttachToOwnersGrows(c, AttachVia(c, p, k, l), k, links[1..]);
    }
  }

  /** A non-promo expansion, its expansions and its accessories go to every
      held game it links to inbound. */
  lemma {:induction false} AttachToOwnersFiles(c: Catalog, p: Pass, k: int, links: seq<IdLink>, h: Holder)
    requires k in c.exps.m && !IsPromoBox(c.exps.m[k]) && OwnedBy(p.games, links, h)
    ensures var r := AttachToOwners(c, p, k, links);
            && k in r.ExpsOf(h)
            && (forall x | x in p.ExpsOf(ExpansionRecord(k)) :: x in r.ExpsOf(h))
            && (forall x | x in p.AccsOf(ExpansionRecord(k)) :: x in r.AccsOf(h))
    decreases |links|
  {
    var l := links[0];
    var p1 := AttachVia(c, p, k, l);
    if l.inbound && l.id in p.games && p.games[l.id] == h {
      AttachToPlaces(p, h, k);
      AttachToOwnersGrows(c, p1, k, links[1..]);
    } else {
      var i :| 0 <= i < |links| && links[i].inbound && links[i].id in p.games && p.games[links[i].id] == h;
      assert links[1..][i - 1] == links[i];
      if l.inbound && l.id in p.games {
        AttachToGrows(p, p.games[l.id], k);
      }
      AttachToOwnersFiles(c, p1, k, links[1..], h);
    }
  }

  /** ... and nothing else is attached anywhere. */
  lemma {:induction false} AttachToOwnersOnly(c: Catalog, p: Pass, k: int, links: seq<IdLink>, g: Holder, x: int)
    requires k in c.exps.m
    ensures var r := AttachToOwners(c, p, k, links);
            && (x in r.ExpsOf(g) ==>
                  x in p.ExpsOf(g)
                  || (!IsPromoBox(c.exps.m[k]) && OwnedBy(p.games, links, g) && (x == k || x in r.ExpsOf(ExpansionRecord(k)))))
            && (x in r.AccsOf(g) ==>
                  x in p.AccsOf(g) || (!IsPromoBox(c.exps.m[k]) && OwnedBy(p.games, links, g) && x in r.AccsOf(ExpansionRecord(k))))
    decreases |links|
  {
    if links != [] {
      var l := links[0];
      var p1 := AttachVia(c, p, k, l);
      var r := AttachToOwners(c, p, k, links);
      AttachToOwnersOnly(c, p1, k, links[1..], g, x);
      AttachToOwnersGrows(c, p1, k, links[1..]);
      assert forall h | OwnedBy(p.games, links[1..], h) :: OwnedBy(p.games, links, h) by {
        forall h | OwnedBy(p.games, links[1..], h) ensures OwnedBy(p.games, links, h) {
          var i :| 0 <= i < |links[1..]| && links[1..][i].inbound && links[1..][i].id in p.games && p.games[links[1..][i].id] == h;
          assert links[i + 1] == links[1..][i];
        }
      }
      if l.inbound && l.id in p.games && !IsPromoBox(c.exps.m[k]) {
        AttachToOnly(p, p.games[l.id], k, g, x);
        AttachToGrows(p, p.games[l.id], k);
        assert OwnedBy(p.games, links, p.games[l.id]) by { assert links[0] == l; }
      }
    }
  }

  lemma AttachOneClosed(c: Catalog, p: Pass, k: int)
    requires Closed(c, p) && k in c.exps.m && AttachOne(c, p, k).Success?
    ensures Closed(c, AttachOne(c, p, k).value)
  {
    var links := c.exps.m[k].expansions;
    var p1 := AttachToOwners(c, p, k, links);
    AttachToOwnersClosed(c, p, k, links);
    if !LinksToHeld(c, p.games, links) {
      AttachToClosed(c, p1.(cleared := p1.cleared + {k}), p.games[CatchAllId], k);
    }
  }

  lemma AttachOneGrows(c: Catalog, p: Pass, k: int)
    requires k in c.exps.m && AttachOne(c, p, k).Success?
    ensures Grows(p, AttachOne(c, p, k).value)
  {
    var links := c.exps.m[k].expansions;
    var p1 := AttachToOwners(c, p, k, links);
    AttachToOwnersGrows(c, p, k, links);
    if !LinksToHeld(c, p.games, links) {
      AttachToGrows(p1.(cleared := p1.cleared + {k}), p.games[CatchAllId], k);
    }
  }

  lemma AttachOneKeeps(c: Catalog, p: Pass, k: int, h: Holder, x: int)
    requires k in c.exps.m && AttachOne(c, p, k).Success?
    ensures x in p.ExpsOf(h) ==> x in AttachOne(c, p, k).value.ExpsOf(h)
    ensures x in p.AccsOf(h) ==> x in AttachOne(c, p, k).value.AccsOf(h)
  {
    AttachOneGrows(c, p, k);
  }

  /** Expansion `k`, its expansions and its accessories go to every record
      it goes to. */
  lemma AttachOneFiles(c: Catalog, p: Pass, k: int, h: Holder)
    requires k in c.exps.m && AttachOne(c, p, k).Success? && ExpansionGoesTo(c, p.games, k, h)
    ensures var r := AttachOne(c, p, k).value;
            && k in r.ExpsOf(h)
            && (forall x | x in p.ExpsOf(ExpansionRecord(k)) :: x in r.ExpsOf(h))
            && (forall x | x in p.AccsOf(ExpansionRecord(k)) :: x in r.AccsOf(h))
  {
    var links := c.exps.m[k].expansions;
    var p1 := AttachToOwners(c, p, k, links);
    if LinksToHeld(c, p.games, links) {
      AttachToOwnersFiles(c, p, k, links, h);
    } else {
      AttachToOwnersGrows(c, p, k, links);
      AttachToPlaces(p1.(cleared := p1.cleared + {k}), h, k);
    }
  }

  /** ... and nothing else is attached anywhere. */
  lemma AttachOneOnly(c: Catalog, p: Pass, k: int, g: Holder, x: int)
    requires k in c.exps.m && AttachOne(c, p, k).Success?
    ensures var r := AttachOne(c, p, k).value;
            && (x in r.ExpsOf(g) ==>
                  x in p.ExpsOf(g)
                  || (ExpansionGoesTo(c, p.games, k, g) && (x == k || x in r.ExpsOf(ExpansionRecord(k)))))
            && (x in r.AccsOf(g) ==>
                  x in p.AccsOf(g) || (ExpansionGoesTo(c, p.games, k, g) && x in r.AccsOf(ExpansionRecord(k))))
  {
    var links := c.exps.m[k].expansions;
    var p1 := AttachToOwners(c, p, k, links);
    AttachToOwnersOnly(c, p, k, links, g, x);
    if !LinksToHeld(c, p.games, links) {
      var q := p1.(cleared := p1.cleared + {k});
      AttachToOnly(q, p.games[CatchAllId], k, g, x);
      AttachToGrows(q, p.games[CatchAllId], k);
    }
  }

  lemma {:induction false} AttachExpansionsClosed(c: Catalog, p: Pass, keys: seq<int>)
    requires Closed(c, p) && forall j | 0 <= j < |keys| :: keys[j] in c.exps.m
    requires AttachExpansions(c, p, keys).Success?
    ensures Closed(c, AttachExpansions(c, p, keys).value)
    decreases |keys|
  {
    if keys != [] {
      AttachOneClosed(c, p, keys[0]);
      AttachExpansionsClosed(c, AttachOne(c, p, keys[0]).value, keys[1..]);
    }
  }

  lemma {:induction false} AttachExpansionsGrows(c: Catalog, p: Pass, keys: seq<int>)
    requires forall j | 0 <= j < |keys| :: keys[j] in c.exps.m
    requires AttachExpansions(c, p, keys).Success?
    ensures Grows(p, AttachExpansions(c, p, keys).value)
    decreases |keys|
  {
    if keys != [] {
      AttachOneGrows(c, p, keys[0]);
      AttachExpansionsGrows(c, AttachOne(c, p, keys[0]).value, keys[1..]);
    }
  }

  /** One item's membership survives the loop. */
  lemma {:induction false} AttachExpansionsKeeps(c: Catalog, p: Pass, keys: seq<int>, h: Holder, x: int)
    requires forall j | 0 <= j < |keys| :: keys[j] in c.exps.m
    requires AttachExpansions(c, p, keys).Success?
    ensures x in p.ExpsOf(h) ==> x in AttachExpansions(c, p, keys).value.ExpsOf(h)
    ensures x in p.AccsOf(h) ==> x in AttachExpansions(c, p, keys).value.AccsOf(h)
    decreases |keys|
  {
    if keys != [] {
      AttachOneGrows(c, p, keys[0]);
      AttachExpansionsKeeps(c, AttachOne(c, p, keys[0]).value, keys[1..], h, x);
    }
  }

  /** After the loop, every expansion, with what was gathered under it before
      the loop, is under every record it goes to. */
  lemma {:induction false} AttachExpansionsFiles(c: Catalog, p: Pass, keys: seq<int>, j: int, h: Holder, x: int)
    requires forall j | 0 <= j < |keys| :: keys[j] in c.exps.m
    requires AttachExpansions(c, p, keys).Success?
    requires 0 <= j < |keys| && ExpansionGoesTo(c, p.games, keys[j], h)
    ensures var r := AttachExpansions(c, p, keys).value;
            && keys[j] in r.ExpsOf(h)
            && (x in p.ExpsOf(ExpansionRecord(keys[j])) ==> x in r.ExpsOf(h))
            && (x in p.AccsOf(ExpansionRecord(keys[j])) ==> x in r.AccsOf(h))
    decreases |keys|
  {
    var k := keys[j];
    var p1 := AttachOne(c, p, keys[0]).value;
    if j == 0 {
      AttachOneFiles(c, p, k, h);
      AttachExpansionsKeeps(c, p1, keys[1..], h, k);
      AttachExpansionsKeeps(c, p1, keys[1..], h, x);
    } else {
      assert keys[1..][j - 1] == k;
      AttachOneKeeps(c, p, keys[0], ExpansionRecord(k), x);
      AttachExpansionsFiles(c, p1, keys[1..], j - 1, h, x);
    }
  }

  /** ... and nothing else is attached anywhere: what an expansion list
      gained came with an expansion `keys[j]` that goes there, as that
      expansion or from its own list, ... */
  lemma {:induction false} AttachExpansionsOnlyExps(c: Catalog, p: Pass, keys: seq<int>, g: Holder, x: int)
    returns (j: int)
    requires forall j | 0 <= j < |keys| :: keys[j] in c.exps.m
    requires AttachExpansions(c, p, keys).Success?
    requires x in AttachExpansions(c, p, keys).value.ExpsOf(g) && x !in p.ExpsOf(g)
    ensures 0 <= j < |keys| && ExpansionGoesTo(c, p.games, keys[j], g)
    ensures x == keys[j] || x in AttachExpansions(c, p, keys).value.ExpsOf(ExpansionRecord(keys[j]))
    decreases |keys|
  {
    var p1 := AttachOne(c, p, keys[0]).value;
    var r := AttachExpansions(c, p, keys).value;
    AttachOneOnly(c, p, keys[0], g, x);
    if x in p1.ExpsOf(g) {
      AttachExpansionsGrows(c, p1, keys[1..]);
      j := 0;
    } else {
      var j1 := AttachExpansionsOnlyExps(c, p1, keys[1..], g, x);
      j := j1 + 1;
      assert keys[1..][j1] == keys[j];
    }
  }

  /** ... and what an accessory list gained came from the list of such an
      expansion. */
  lemma {:induction false} AttachExpansionsOnlyAccs(c: Catalog, p: Pass, keys: seq<int>, g: Holder, x: int)
    returns (j: int)
    requires forall j | 0 <= j < |keys| :: keys[j] in c.exps.m
    requires AttachExpansions(c, p, keys).Success?
    requires x in AttachExpansions(c, p, keys).value.AccsOf(g) && x !in p.AccsOf(g)
    ensures 0 <= j < |keys| && ExpansionGoesTo(c, p.games, keys[j], g)
    ensures x in AttachExpansions(c, p, keys).value.AccsOf(ExpansionRecord(keys[j]))
    decreases |keys|
  {
    var p1 := AttachOne(c, p, keys[0]).value;
    var r := AttachExpansions(c, p, keys).value;
    AttachOneOnly(c, p, keys[0], g, x);
    if x in p1.AccsOf(g) {
      AttachExpansionsGrows(c, p1, keys[1..]);
      j := 0;
    } else {
      var j1 := AttachExpansionsOnlyAccs(c, p1, keys[1..], g, x);
      j := j1 + 1;
      assert keys[1..][j1] == keys[j];
    }
  }

  // ---------------------------------------------------------------------
  // The catalog and the whole linking pass (lines 70-128)

  /** `details[j]` is a record of the given kind and no later record of
      that kind has its id. */
  predicate LastOfItsId(details: seq<Detail>, kind: string, j: int)
    requires 0 <= j < |details|
  {
    && details[j].kind == kind
    && forall l | j < l < |details| :: details[l].kind == kind ==> details[l].id != details[j].id
  }

  /** Lines 70-71 and 76-84: every fetched record of the given kind under
      its id, keys in first-fetch order; of two records with one id, the
      later wins. */
  function ById(details: seq<Detail>, kind: string): (r: OMap<Detail>)
    ensures r.Valid()
    ensures forall k | k in r.m :: r.m[k].id == k && r.m[k] in details && r.m[k].kind == kind
    ensures forall j | 0 <= j < |details| && details[j].kind == kind :: details[j].id in r.m
    ensures forall j | 0 <= j < |details| && LastOfItsId(details, kind, j) :: r.m[details[j].id] == details[j]
    decreases |details|
  {
    if details == [] then EmptyOMap()
    else
      var init := details[..|details| - 1];
      var last := details[|details| - 1];
      var m := ById(init, kind);
      var r := if last.kind == kind then m.Put(last.id, last) else m;
      forall j | 0 <= j < |details| && details[j].kind == kind
        ensures details[j].id in r.m
      {
        if j < |init| {
          assert init[j] == details[j];
        }
      }
      forall j | 0 <= j < |details| && LastOfItsId(details, kind, j)
        ensures r.m[details[j].id] == details[j]
      {
        if j < |init| {
          assert init[j] == details[j];
          assert LastOfItsId(init, kind, j);
        }
      }
      r
  }

  /** The catalog of the fetched records: board games and expansions by id,
      with the custom links added to the expansions where they were fetched,
      and the accessory records in fetch order. */
  function NewCatalog(details: seq<Detail>, accessoryDetails: seq<Detail>): (c: Catalog)
    ensures c.Valid()
    ensures forall j | 0 <= j < |details| && details[j].kind == GameKind :: details[j].id in c.gameRecs
    ensures forall j | 0 <= j < |details| && details[j].kind == ExpansionKind :: details[j].id in c.exps.m
    ensures forall i | i in c.gameRecs :: c.gameRecs[i] in details && c.gameRecs[i].kind == GameKind
    ensures c.accessories == accessoryDetails
    ensures c.gameRecs == ById(details, GameKind).m
    ensures c.exps == CustomExpansionMappingsIfPresent(ById(details, ExpansionKind))
  {
    Catalog(ById(details, GameKind).m, CustomExpansionMappingsIfPresent(ById(details, ExpansionKind)), accessoryDetails)
  }

  /** The catalog as line 86 builds it: `custom_expansion_mappings` indexes
      both expansions unconditionally, so a collection without either one
      raises KeyError there. When both were fetched it is the catalog above. */
  function NewCatalogAsWritten(details: seq<Detail>, accessoryDetails: seq<Detail>): (r: Result<Catalog>)
    ensures var exps := ById(details, ExpansionKind).m;
            r.Failure? <==> TuscanyId !in exps || PoisonId !in exps
    ensures TuscanyId !in ById(details, ExpansionKind).m ==> r == Failure(MissingKey(KeyText(TuscanyId)))
    ensures r.Success? ==> r.value == NewCatalog(details, accessoryDetails)
  {
    var exps := ById(details, ExpansionKind);
    MappingsAgreeWhenBothFetched(exps);
    var mapped :- CustomExpansionMappings(exps);
    Success(Catalog(ById(details, GameKind).m, mapped, accessoryDetails))
  }

  /** The game dict before linking: every board game record as itself, and
      every promo box as its expansion record. */
  function StartGames(c: Catalog): (games: map<int, Holder>)
    requires c.Valid()
    ensures forall i :: i in games <==> i in c.gameRecs || (i in c.exps.m && IsPromoBox(c.exps.m[i]))
    ensures forall i | i in c.exps.m && IsPromoBox(c.exps.m[i]) :: games[i] == ExpansionRecord(i)
    ensures forall i | i in c.gameRecs && !(i in c.exps.m && IsPromoBox(c.exps.m[i])) :: games[i] == GameRecord(i)
  {
    Promote(c, map i | i in c.gameRecs :: GameRecord(i), c.exps.keys)
  }

  /** Lines 89-128: the promo boxes join the game dict, expansions are filed
      under the expansions they expand, accessories under their records, and
      expansions attached to their games; orphans of either kind go to the
      catch-all game. */
  function LinkPass(c: Catalog): (r: Result<Pass>)
    requires c.Valid()
    ensures r.Success? <==>
              || CatchAllId in StartGames(c)
              || (AccessoriesLinked(c, StartGames(c), 0) && ExpansionsLinked(c, StartGames(c), c.exps.keys))
    ensures r.Failure? ==> r.error == MissingKey(KeyText(CatchAllId))
    ensures r.Success? ==> r.value.games == StartGames(c)
  {
    var p0 := Pass(StartGames(c), map[], map[], {});
    var p1 := LinkExpansions(c, p0, c.exps.keys);
    var p2 :- LinkAccessories(c, p1, 0);
    AttachExpansions(c, p2, c.exps.keys)
  }

  lemma LinkClosed(c: Catalog)
    requires c.Valid() && LinkPass(c).Success?
    ensures Closed(c, LinkPass(c).value)
  {
    var p0 := Pass(StartGames(c), map[], map[], {});
    var p1 := LinkExpansions(c, p0, c.exps.keys);
    LinkExpansionsClosed(c, p0, c.exps.keys);
    LinkAccessoriesClosed(c, p1, 0);
    AttachExpansionsClosed(c, LinkAccessories(c, p1, 0).value, c.exps.keys);
  }

  /** Linking cannot fail when the catch-all game's record was fetched as a
      board game. */
  lemma LinkSucceedsWithCatchAll(c: Catalog)
    requires c.Valid() && CatchAllId in c.gameRecs
    ensures LinkPass(c).Success?
  {
  }

  /** The only record the pass clears is an orphan expansion's. */
  lemma LinkClearsOrphans(c: Catalog)
    requires c.Valid() && LinkPass(c).Success?
    ensures forall k :: k in LinkPass(c).value.cleared <==>
              k in c.exps.m && !LinksToHeld(c, StartGames(c), c.exps.m[k].expansions)
  {
    var p0 := Pass(StartGames(c), map[], map[], {});
    var p1 := LinkExpansions(c, p0, c.exps.keys);
    AttachExpansionsClears(c, LinkAccessories(c, p1, 0).value, c.exps.keys);
  }

  /** An accessory ends up under every record it goes to. */
  lemma AccessoryPlaced(c: Catalog, i: nat, h: Holder)
    requires c.Valid() && LinkPass(c).Success? && i < |c.accessories|
    requires AccessoryGoesTo(c, StartGames(c), i, h)
    ensures i in LinkPass(c).value.AccsOf(h)
  {
    var p0 := Pass(StartGames(c), map[], map[], {});
    var p1 := LinkExpansions(c, p0, c.exps.keys);
    LinkAccessoriesFiles(c, p1, 0, i, h);
    AttachExpansionsKeeps(c, LinkAccessories(c, p1, 0).value, c.exps.keys, h, i);
  }

  /** An expansion ends up under every record it goes to. */
  lemma ExpansionPlaced(c: Catalog, k: int, h: Holder)
    requires c.Valid() && LinkPass(c).Success? && k in c.exps.m
    requires ExpansionGoesTo(c, StartGames(c), k, h)
    ensures k in LinkPass(c).value.ExpsOf(h)
  {
    var p0 := Pass(StartGames(c), map[], map[], {});
    var p1 := LinkExpansions(c, p0, c.exps.keys);
    var j :| 0 <= j < |c.exps.keys| && c.exps.keys[j] == k;
    AttachExpansionsFiles(c, LinkAccessories(c, p1, 0).value, c.exps.keys, j, h, k);
  }

  /** A promo box linked to a non-promo expansion of a held game ends up in
      that game's expansion list, carried along with the expansion, while the
      game dict also holds the promo box as a game of its own. */
  lemma PromoBoxNests(c: Catalog, promo: int, x: int, g: int)
    requires c.Valid() && LinkPass(c).Success?
    requires promo in c.exps.m && IsPromoBox(c.exps.m[promo])
    requires x in c.exps.m && !IsPromoBox(c.exps.m[x]) && HasInbound(c.exps.m[promo].expansions, x)
    requires g in StartGames(c) && HasInbound(c.exps.m[x].expansions, g)
    ensures StartGames(c)[promo] == ExpansionRecord(promo)
    ensures promo in LinkPass(c).value.ExpsOf(StartGames(c)[g])
  {
    var keys := c.exps.keys;
    var games := StartGames(c);
    var p0 := Pass(games, map[], map[], {});
    var p1 := LinkExpansions(c, p0, keys);
    var jp :| 0 <= jp < |keys| && keys[jp] == promo;
    var jx :| 0 <= jx < |keys| && keys[jx] == x;
    LinkExpansionsFiles(c, p0, keys, jp, x);
    var p2 := LinkAccessories(c, p1, 0).value;
    LinkAccessoriesGrows(c, p1, 0);
    assert promo in p2.ExpsOf(ExpansionRecord(x));
    var i :| 0 <= i < |c.exps.m[x].expansions| && c.exps.m[x].expansions[i].inbound && c.exps.m[x].expansions[i].id == g;
    assert OwnedBy(games, c.exps.m[x].expansions, games[g]);
    AttachExpansionsFiles(c, p2, keys, jx, games[g], promo);
  }
}
