/** The small record filters and fix-ups of the collection pass. */
module Filters {
  import opened Outcome
  import opened Text
  import opened Records
  import opened Ordered

  /** The "(Public Domain)" publisher. */
  const PublicDomain := 171

  /** The board game family "Box of Promos". */
  const BoxOfPromos := 39378

  /** The loop of publisher_filter, `kept` being the list built so far: a
      public-domain publisher replaces everything and ends the loop; any
      other is kept, flagged as owned when it published the owned edition. */
  function PublisherLoop(publishers: seq<Link>, version: CollectionItem, kept: seq<Link>): (r: seq<Link>)
    ensures forall i | 0 <= i < |publishers| && publishers[i].id == PublicDomain
                       && (forall j | 0 <= j < i :: publishers[j].id != PublicDomain) ::
              r == [publishers[i]]
    ensures (forall i | 0 <= i < |publishers| :: publishers[i].id != PublicDomain) ==>
              |r| == |kept| + |publishers| && r[..|kept|] == kept
              && forall i | 0 <= i < |publishers| :: FlaggedCopy(publishers[i], r[|kept| + i], version)
    decreases |publishers|
  {
    if publishers == [] then kept
    else
      var pub := publishers[0];
      if pub.id == PublicDomain then [pub]
      else
        var flagged := if Some(pub.id) == version.publisherId then pub.(ownFlag := true) else pub;
        var r := PublisherLoop(publishers[1..], version, kept + [flagged]);
        assert forall i | 1 <= i < |publishers| :: publishers[i] == publishers[1..][i - 1];
        assert forall i | 0 <= i < |publishers| && publishers[i].id == PublicDomain
                          && (forall j | 0 <= j < i :: publishers[j].id != PublicDomain) ::
                 i >= 1 && publishers[1..][i - 1].id == PublicDomain
                 && (forall j | 0 <= j < i - 1 :: publishers[1..][j].id != PublicDomain);
        r
  }

  /** `q` is `p` with the "own" flag set exactly when `p` published the
      owned edition (a flag already present stays). */
  predicate FlaggedCopy(p: Link, q: Link, version: CollectionItem) {
    && q.id == p.id && q.name == p.name && q.inbound == p.inbound
    && (q.ownFlag <==> p.ownFlag || Some(p.id) == version.publisherId)
  }

  /** `publisher_filter`: public-domain games show only the public-domain
      publisher; otherwise every publisher, with the owned edition's marked. */
  function PublisherFilter(publishers: seq<Link>, version: CollectionItem): (r: seq<Link>)
    ensures forall i | 0 <= i < |publishers| && publishers[i].id == PublicDomain
                       && (forall j | 0 <= j < i :: publishers[j].id != PublicDomain) ::
              r == [publishers[i]]
    ensures (forall i | 0 <= i < |publishers| :: publishers[i].id != PublicDomain) ==>
              |r| == |publishers| && forall i | 0 <= i < |r| :: FlaggedCopy(publishers[i], r[i], version)
  {
    PublisherLoop(publishers, version, [])
  }

  /** `family_filter`: "Admin" families (the group before the first ":" is
      exactly "Admin") are dropped; any other family passes unchanged. */
  function FamilyFilter(family: Family): (r: Option<Family>)
    ensures r.None? <==> family.name == "Admin" || HasPrefix(family.name, "Admin:")
    ensures r.Some? ==> r.value == family
  {
    var group := SplitOn(family.name, ":")[0];
    GroupBeforeColon(family.name);
    if group == "Admin" then None else Some(family)
  }

  /** The first piece of a split at ":" is the text before the first ":". */
  lemma {:induction false} FirstPieceBeforeColon(s: string)
    ensures var p := SplitOn(s, ":")[0];
            HasPrefix(s, p) && (forall j | 0 <= j < |p| :: p[j] != ':') && (|p| == |s| || s[|p|] == ':')
    decreases |s|
  {
    if s != [] && !HasPrefix(s, ":") {
      FirstPieceBeforeColon(s[1..]);
      var q := SplitOn(s[1..], ":")[0];
      assert SplitOn(s, ":")[0] == [s[0]] + q;
      assert s == [s[0]] + s[1..];
    }
  }

  lemma GroupBeforeColon(s: string)
    ensures SplitOn(s, ":")[0] == "Admin" <==> s == "Admin" || HasPrefix(s, "Admin:")
  {
    var p := SplitOn(s, ":")[0];
    FirstPieceBeforeColon(s);
    if HasPrefix(s, "Admin:") {
      assert s[5] == ':';
      assert p == s[..5];
    }
  }

  /** `is_promo_box`: the record belongs to the "Box of Promos" family. */
  function IsPromoBox(d: Detail): (r: bool)
    ensures r <==> exists i | 0 <= i < |d.families| :: d.families[i].id == BoxOfPromos
  {
    HasFamily(d.families, BoxOfPromos)
  }

  function HasFamily(families: seq<Family>, id: int): (r: bool)
    ensures r <==> exists i | 0 <= i < |families| :: families[i].id == id
  {
    if families == [] then false
    else if families[0].id == id then true
    else
      assert forall i | 1 <= i < |families| :: families[i] == families[1..][i - 1];
      HasFamily(families[1..], id)
  }

  /** Original Tuscany (147101) and the Poison expansion (147827) get an
      extra inbound link to the game they expand: Viticulture Essential
      Edition (183394) and Council of Verona (165469). */
  const TuscanyId := 147101
  const ViticultureEssentialId := 183394
  const PoisonId := 147827
  const CouncilOfVeronaId := 165469

  /** `custom_expansion_mappings`: both expansions must have been fetched
      (KeyError otherwise); each gains one inbound link at the end of its
      expansion links, and nothing else changes. */
  function CustomExpansionMappings(expansions: OMap<Detail>): (r: Result<OMap<Detail>>)
    requires expansions.Valid()
    ensures r.Success? <==> TuscanyId in expansions.m && PoisonId in expansions.m
    ensures r.Success? ==> r.value.Valid() && r.value.keys == expansions.keys
    ensures r.Success? ==> r.value.m.Keys == expansions.m.Keys
    ensures r.Success? ==> forall k | k in expansions.m && k != TuscanyId && k != PoisonId ::
                             r.value.m[k] == expansions.m[k]
    ensures r.Success? ==> r.value.m[TuscanyId] == WithLinkTo(expansions.m[TuscanyId], ViticultureEssentialId)
    ensures r.Success? ==> r.value.m[PoisonId] == WithLinkTo(expansions.m[PoisonId], CouncilOfVeronaId)
  {
    if TuscanyId !in expansions.m then Failure(MissingKey(KeyText(TuscanyId)))
    else
      var first := expansions.Put(TuscanyId, WithLinkTo(expansions.m[TuscanyId], ViticultureEssentialId));
      if PoisonId !in first.m then Failure(MissingKey(KeyText(PoisonId)))
      else Success(first.Put(PoisonId, WithLinkTo(first.m[PoisonId], CouncilOfVeronaId)))
  }

  /** The mappings as evidently intended: a link is added only to an
      expansion that was fetched, so a collection without either one passes
      through unchanged instead of failing. */
  function CustomExpansionMappingsIfPresent(expansions: OMap<Detail>): (r: OMap<Detail>)
    requires expansions.Valid()
    ensures r.Valid() && r.keys == expansions.keys && r.m.Keys == expansions.m.Keys
    ensures forall k | k in expansions.m && k != TuscanyId && k != PoisonId :: r.m[k] == expansions.m[k]
    ensures TuscanyId in expansions.m ==>
              r.m[TuscanyId] == WithLinkTo(expansions.m[TuscanyId], ViticultureEssentialId)
    ensures PoisonId in expansions.m ==> r.m[PoisonId] == WithLinkTo(expansions.m[PoisonId], CouncilOfVeronaId)
  {
    var first := if TuscanyId in expansions.m
                 then expansions.Put(TuscanyId, WithLinkTo(expansions.m[TuscanyId], ViticultureEssentialId))
                 else expansions;
    if PoisonId in first.m then first.Put(PoisonId, WithLinkTo(first.m[PoisonId], CouncilOfVeronaId))
    else first
  }

  /** The two agree whenever the mappings as written succeed, and the ones as
      written fail exactly when one of the two expansions was not fetched. */
  lemma MappingsAgreeWhenBothFetched(expansions: OMap<Detail>)
    requires expansions.Valid()
    ensures CustomExpansionMappings(expansions).Success? ==>
              CustomExpansionMappings(expansions).value == CustomExpansionMappingsIfPresent(expansions)
    ensures TuscanyId !in expansions.m ==>
              CustomExpansionMappings(expansions) == Failure(MissingKey(KeyText(TuscanyId)))
    ensures TuscanyId in expansions.m && PoisonId !in expansions.m ==>
              CustomExpansionMappings(expansions) == Failure(MissingKey(KeyText(PoisonId)))
  {
  }

  /** `d` with one more inbound expansion link, to `id`, at the end. */
  function WithLinkTo(d: Detail, id: int): (r: Detail)
    ensures r.expansions == d.expansions + [IdLink(id, true)]
    ensures r.(expansions := d.expansions) == d
  {
    d.(expansions := d.expansions + [IdLink(id, true)])
  }

  /** The catch-all game that collects promos and accessories whose own game
      is not in the collection. */
  const CatchAllId := 81913
  const CatchAllName := "ZZZ: Expansions without Game"

  /** `_create_blank_collection`: an owned-edition record with no plays, no
      tags, no picture and publisher id 0. */
  function BlankCollection(id: int, name: string): (r: CollectionItem)
    ensures r.id == id && r.collectionId == id && r.name == name
    ensures r.image.None? && r.imageVersion.None? && r.publisherId == Some(0)
    ensures r.players == [] && r.tags == [] && r.numplays == 0
  {
    CollectionItem(id, id, name, None, None, "", Some(0), "", "", [], 0, [])
  }
}
