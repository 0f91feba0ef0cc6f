/** The owned editions of the collection pass: every owned edition keyed by
    its id, with the players of the logged plays filed under the first
    edition of each game, and the owned accessories keyed alike. */
module Editions {
  import opened Lists
  import opened Records
  import opened Ordered
  import opened Filters

  /** Lines 60-63: every owned edition under its id, in fetch order, each
      with an empty player list. */
  function CollectionById(items: seq<CollectionItem>): (r: MultiDict<CollectionItem>)
    ensures |r.items| == |items|
    ensures forall i | 0 <= i < |items| :: r.items[i].0 == items[i].id && r.items[i].1.id == items[i].id
    ensures forall i | 0 <= i < |items| :: r.items[i].1.players == []
    ensures forall i | 0 <= i < |items| :: r.items[i].1.(players := items[i].players) == items[i]
  {
    MultiDict(Map(items, (c: CollectionItem) => (c.id, c.(players := []))))
  }

  /** The players of every play of game `k`, in play order. */
  function PlayersOf(plays: seq<Play>, k: int): seq<string> {
    if plays == [] then []
    else (if plays[0].gameId == k then plays[0].players else []) + PlayersOf(plays[1..], k)
  }

  /** Lines 66-68 for one play: a play of an owned game adds its players to
      the first edition of that game; other plays are dropped. */
  function AddPlay(md: MultiDict<CollectionItem>, play: Play): (r: MultiDict<CollectionItem>)
    ensures |r.items| == |md.items|
    ensures forall i | 0 <= i < |md.items| :: r.items[i].0 == md.items[i].0
    ensures forall i | 0 <= i < |md.items| :: r.items[i].1.(players := md.items[i].1.players) == md.items[i].1
    ensures forall i | 0 <= i < |md.items| ::
              r.items[i].1.players == md.items[i].1.players
                                      + (if i == FirstIndex(md.items, play.gameId) then play.players else [])
  {
    if md.Contains(play.gameId) then
      var first := md.First(play.gameId);
      assert first == md.items[FirstIndex(md.items, play.gameId)].1;
      md.UpdateFirst(play.gameId, first.(players := first.players + play.players))
    else md
  }

  /** Pairs lists with the same keys in the same places find a key at the
      same place. */
  lemma {:induction false} FirstIndexSameKeys<V>(a: seq<(int, V)>, b: seq<(int, V)>, k: int)
    requires |a| == |b| && forall i | 0 <= i < |a| :: a[i].0 == b[i].0
    ensures FirstIndex(a, k) == FirstIndex(b, k)
    decreases |a|
  {
    if a != [] && a[0].0 != k {
      FirstIndexSameKeys(a[1..], b[1..], k);
    }
  }

  /** Lines 65-68: the first edition of each owned game gets the players of
      all its plays, in play order; every other edition, every other field
      and every key stays as it was. */
  function AddPlays(md: MultiDict<CollectionItem>, plays: seq<Play>): (r: MultiDict<CollectionItem>)
    ensures |r.items| == |md.items|
    ensures forall i | 0 <= i < |md.items| :: r.items[i].0 == md.items[i].0
    ensures forall i | 0 <= i < |md.items| :: r.items[i].1.(players := md.items[i].1.players) == md.items[i].1
    ensures forall i | 0 <= i < |md.items| ::
              r.items[i].1.players == md.items[i].1.players
                + (if i == FirstIndex(md.items, md.items[i].0) then PlayersOf(plays, md.items[i].0) else [])
    decreases |plays|, 1
  {
    if plays == [] then
      assert forall i | 0 <= i < |md.items| :: md.items[i].1.players + [] == md.items[i].1.players;
      md
    else
      var md1 := AddPlay(md, plays[0]);
      var r := AddPlays(md1, plays[1..]);
      AddPlaysStep(md, plays, md1, r);
      r
  }

  lemma AddPlaysStep(md: MultiDict<CollectionItem>, plays: seq<Play>, md1: MultiDict<CollectionItem>,
                     r: MultiDict<CollectionItem>)
    requires plays != [] && md1 == AddPlay(md, plays[0]) && r == AddPlays(md1, plays[1..])
    ensures forall i | 0 <= i < |md.items| :: r.items[i].1.(players := md.items[i].1.players) == md.items[i].1
    ensures forall i | 0 <= i < |md.items| ::
              r.items[i].1.players == md.items[i].1.players
                + (if i == FirstIndex(md.items, md.items[i].0) then PlayersOf(plays, md.items[i].0) else [])
    decreases |plays|, 0
  {
    forall i | 0 <= i < |md.items|
      ensures r.items[i].1.(players := md.items[i].1.players) == md.items[i].1
      ensures r.items[i].1.players == md.items[i].1.players
                + (if i == FirstIndex(md.items, md.items[i].0) then PlayersOf(plays, md.items[i].0) else [])
    {
      var k, x, x1 := md.items[i].0, md.items[i].1, md1.items[i].1;
      FirstIndexSameKeys(md.items, md1.items, k);
      var now := if i == FirstIndex(md.items, plays[0].gameId) then plays[0].players else [];
      var later := if i == FirstIndex(md.items, k) then PlayersOf(plays[1..], k) else [];
      assert x1.players == x.players + now;
      assert r.items[i].1.players == x1.players + later;
      var fg := FirstIndex(md.items, plays[0].gameId);
      assert i == fg ==> k == plays[0].gameId;
      ConcatAssoc(x.players, now, later);
      assert PlayersOf(plays, k) == (if plays[0].gameId == k then plays[0].players else []) + PlayersOf(plays[1..], k);
    }
  }

  lemma ConcatAssoc<T>(a: seq<T>, b: seq<T>, c: seq<T>)
    ensures a + b + c == a + (b + c)
  {
  }

  /** Lines 44-45 and 60-68: the owned editions with the catch-all's blank
      edition last, plays filed under first editions. */
  function OwnedEditions(collection: seq<CollectionItem>, plays: seq<Play>): (md: MultiDict<CollectionItem>)
    ensures |md.items| == |collection| + 1
    ensures forall i | 0 <= i < |collection| ::
              md.items[i].0 == collection[i].id && md.items[i].1.(players := collection[i].players) == collection[i]
    ensures md.items[|collection|].0 == CatchAllId
    ensures md.items[|collection|].1.(players := []) == BlankCollection(CatchAllId, CatchAllName)
  {
    AddPlays(CollectionById(collection + [BlankCollection(CatchAllId, CatchAllName)]), plays)
  }

  /** The catch-all game is always owned, and each owned game's first edition
      carries exactly the players of its plays while later editions carry
      none. */
  lemma OwnedEditionsShape(collection: seq<CollectionItem>, plays: seq<Play>)
    ensures var md := OwnedEditions(collection, plays);
            && md.Contains(CatchAllId)
            && |md.items| == |collection| + 1
            && forall i | 0 <= i < |md.items| ::
                 md.items[i].1.players == if i == FirstIndex(md.items, md.items[i].0)
                                          then PlayersOf(plays, md.items[i].0) else []
  {
    var items := collection + [BlankCollection(CatchAllId, CatchAllName)];
    var c := CollectionById(items);
    var md := AddPlays(c, plays);
    assert md.items[|collection|].0 == CatchAllId;
    FirstIndexAtMost(md.items, CatchAllId, |collection|);
    forall i | 0 <= i < |md.items|
      ensures md.items[i].1.players == if i == FirstIndex(md.items, md.items[i].0)
                                       then PlayersOf(plays, md.items[i].0) else []
    {
      FirstIndexSameKeys(c.items, md.items, md.items[i].0);
    }
  }

  /** Lines 50-52: owned accessories under their ids, as fetched. */
  function AccessoriesById(items: seq<CollectionItem>): (r: MultiDict<CollectionItem>)
    ensures |r.items| == |items| && forall i | 0 <= i < |items| :: r.items[i] == (items[i].id, items[i])
  {
    MultiDict(Map(items, (c: CollectionItem) => (c.id, c)))
  }
}
