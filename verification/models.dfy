/** The game entity the collection pass builds for each owned edition, and
    the derived fields its constructor computes from a catalog record. */
module Models {
  import opened Outcome
  import opened Text
  import opened Lists
  import opened Sorting
  import opened Records
  import Titles

  /** One entry of the exported collection. `image` holds the owned-edition
      record: the collection pass passes that record in the constructor's
      `image` position. The description is kept as given (HTML entities are
      not decoded here). */
  datatype BoardGame = BoardGame(
    id: int,
    name: string,
    description: string,
    categories: seq<string>,
    mechanics: seq<string>,
    contained: seq<Link>,
    families: seq<Family>,
    artists: seq<Link>,
    designers: seq<Link>,
    publishers: seq<Link>,
    players: seq<PlayerCount>,
    weight: string,
    playingTime: string,
    rank: Option<Decimal>,
    usersrated: Decimal,
    numowned: Decimal,
    average: Option<Decimal>,
    rating: Option<Decimal>,
    numplays: int,
    image: CollectionItem,
    tags: seq<string>,
    previousPlayers: seq<string>,
    expansions: seq<BoardGame>,
    accessories: seq<BoardGame>)

  /** The constructor's name handling: a leading article moves to the end
      ("The X" becomes "X, The"). A name without words has no first word and
      the lookup fails. Apart from failing on the empty name, this is what
      move_article_to_end does. */
  function ArticleMovedName(name: string): (r: Result<string>)
    ensures r.Failure? <==> AllSpace(name)
    ensures name != "" ==> r == Titles.MoveArticleToEnd(name)
  {
    var title := Words(name);
    if title == [] then Failure(NoWords(name))
    else if Titles.IsArticle(title[0]) then Success(JoinWith(" ", title[1..]) + ", " + title[0])
    else Success(name)
  }

  /** The labels of a list of player counts, in order. */
  function CountLabels(counts: seq<PlayerCount>): seq<string> {
    Map(counts, (p: PlayerCount) => p.numplayers)
  }

  /** The player-count labels of every expansion, expansion by expansion. */
  function ExpansionLabels(expansions: seq<BoardGame>): seq<string> {
    Flatten(Map(expansions, (e: BoardGame) => CountLabels(e.players)))
  }

  /** The merge loop of calc_num_players, `counts` being the list so far:
      each label not yet present is appended once, tagged "expansion". */
  function AddExpansionCounts(counts: seq<PlayerCount>, labels: seq<string>): (r: seq<PlayerCount>)
    ensures |r| >= |counts| && r[..|counts|] == counts
    ensures forall i | |counts| <= i < |r| ::
              r[i].result == FromExpansion && r[i].numplayers in labels
              && r[i].numplayers !in CountLabels(counts)
    ensures forall i, j | |counts| <= i < j < |r| :: r[i].numplayers != r[j].numplayers
    ensures forall l | l in labels :: l in CountLabels(r)
    decreases |labels|
  {
    if labels == [] then counts
    else
      var next :=
        if labels[0] in CountLabels(counts) then counts
        else counts + [PlayerCount(labels[0], FromExpansion)];
      var r := AddExpansionCounts(next, labels[1..]);
      assert r[..|counts|] == next[..|counts|] == counts;
      assert labels[0] in CountLabels(next) by {
        if labels[0] !in CountLabels(counts) {
          assert CountLabels(next)[|counts|] == labels[0];
        }
      }
      assert forall l | l in CountLabels(counts) :: l in CountLabels(next) by {
        forall l | l in CountLabels(counts) ensures l in CountLabels(next) {
          var i :| 0 <= i < |counts| && CountLabels(counts)[i] == l;
          assert CountLabels(next)[i] == l;
        }
      }
      assert forall l | l in CountLabels(next) :: l in CountLabels(r) by {
        forall l | l in CountLabels(next) ensures l in CountLabels(r) {
          var i :| 0 <= i < |next| && CountLabels(next)[i] == l;
          assert r[i] == next[i];
          assert CountLabels(r)[i] == l;
        }
      }
      assert forall i | |counts| <= i < |next| :: next[i] == PlayerCount(labels[0], FromExpansion);
      forall i | |counts| <= i < |r|
        ensures r[i].result == FromExpansion && r[i].numplayers in labels
                && r[i].numplayers !in CountLabels(counts)
      {
        if i >= |next| {
          assert r[i].numplayers in labels[1..];
        } else {
          assert r[i] == next[i];
        }
      }
      forall i, j | |counts| <= i < j < |r| ensures r[i].numplayers != r[j].numplayers {
        if i < |next| {
          assert r[i] == next[i];
          assert r[i].numplayers in CountLabels(next) by {
            assert CountLabels(next)[i] == r[i].numplayers;
          }
        }
      }
      r
  }

  /** An independent statement of the merge: the labels that are neither in
      `seen` nor earlier in `labels`, in the order they first occur. */
  function FreshLabels(seen: seq<string>, labels: seq<string>): seq<string>
    decreases |labels|
  {
    if labels == [] then []
    else
      var init := labels[..|labels| - 1];
      var l := labels[|labels| - 1];
      FreshLabels(seen, init) + (if l in seen || l in init then [] else [l])
  }

  /** One more label adds it when it is fresh. */
  lemma FreshLabelsSnoc(seen: seq<string>, init: seq<string>, l: string)
    ensures FreshLabels(seen, init + [l])
              == FreshLabels(seen, init) + (if l in seen || l in init then [] else [l])
  {
    assert (init + [l])[..|init|] == init;
  }

  lemma ExpansionTaggedAppend(a: seq<string>, b: seq<string>)
    ensures ExpansionTagged(a + b) == ExpansionTagged(a) + ExpansionTagged(b)
  {
  }

  /** Each label as a count tagged "expansion". */
  function ExpansionTagged(ls: seq<string>): (r: seq<PlayerCount>)
    ensures |r| == |ls| && forall i | 0 <= i < |ls| :: r[i] == PlayerCount(ls[i], FromExpansion)
  {
    seq(|ls|, i requires 0 <= i < |ls| => PlayerCount(ls[i], FromExpansion))
  }

  /** One more label runs the loop body once more on the list so far. */
  lemma {:induction false} AddExpansionCountsSnoc(counts: seq<PlayerCount>, labels: seq<string>, l: string)
    ensures var r := AddExpansionCounts(counts, labels);
            AddExpansionCounts(counts, labels + [l])
              == if l in CountLabels(r) then r else r + [PlayerCount(l, FromExpansion)]
    decreases |labels|
  {
    if labels == [] {
      assert [l][1..] == [];
      var next :=
        if l in CountLabels(counts) then counts
        else counts + [PlayerCount(l, FromExpansion)];
      assert AddExpansionCounts(next, []) == next;
    } else {
      var ls := labels + [l];
      assert ls[0] == labels[0] && ls[1..] == labels[1..] + [l];
      var next :=
        if labels[0] in CountLabels(counts) then counts
        else counts + [PlayerCount(labels[0], FromExpansion)];
      AddExpansionCountsSnoc(next, labels[1..], l);
    }
  }

  /** A label is in the merged list exactly when it was in the list before
      or among the merged labels. */
  lemma MergedLabelsAre(counts: seq<PlayerCount>, labels: seq<string>, l: string)
    ensures l in CountLabels(AddExpansionCounts(counts, labels)) <==> l in CountLabels(counts) || l in labels
  {
    var r := AddExpansionCounts(counts, labels);
    if l in CountLabels(r) {
      var i :| 0 <= i < |r| && CountLabels(r)[i] == l;
      if i < |counts| {
        assert r[..|counts|][i] == r[i];
        assert CountLabels(counts)[i] == l;
      }
    }
    if l in CountLabels(counts) {
      var i :| 0 <= i < |counts| && CountLabels(counts)[i] == l;
      assert r[..|counts|][i] == r[i];
      assert CountLabels(r)[i] == l;
    }
  }

  /** The merge appends exactly the fresh labels, in first-occurrence order,
      each tagged "expansion". The stable sort that follows keeps this order
      among counts with equal keys, so it is observable. */
  lemma {:induction false} AddExpansionCountsInOrder(counts: seq<PlayerCount>, labels: seq<string>)
    ensures AddExpansionCounts(counts, labels)
              == counts + ExpansionTagged(FreshLabels(CountLabels(counts), labels))
    decreases |labels|
  {
    if labels != [] {
      var init := labels[..|labels| - 1];
      var l := labels[|labels| - 1];
      assert labels == init + [l];
      var f := FreshLabels(CountLabels(counts), init);
      var r := AddExpansionCounts(counts, init);
      var extra := if l in CountLabels(counts) || l in init then [] else [l];
      calc {
        AddExpansionCounts(counts, labels);
        == { AddExpansionCountsSnoc(counts, init, l); }
        if l in CountLabels(r) then r else r + [PlayerCount(l, FromExpansion)];
        == { MergedLabelsAre(counts, init, l); }
        r + ExpansionTagged(extra);
        == { AddExpansionCountsInOrder(counts, init); }
        counts + ExpansionTagged(f) + ExpansionTagged(extra);
        == { ExpansionTaggedAppend(f, extra); }
        counts + ExpansionTagged(f + extra);
        == { FreshLabelsSnoc(CountLabels(counts), init, l); }
        counts + ExpansionTagged(FreshLabels(CountLabels(counts), labels));
      }
    }
  }

  /** The sort key of calc_num_players: the label with "+" removed, as an
      integer; `None` where `int()` raises. */
  function CountValue(p: PlayerCount): Option<int> {
    ParseInt(ReplaceAll(p.numplayers, "+", ""))
  }

  function CountKey(p: PlayerCount): SortKey {
    IntKey(CountValue(p).GetOr(0))
  }

  /** The first count whose label is not an integer, or the length. */
  function FirstUnparsable(counts: seq<PlayerCount>): (i: nat)
    ensures i <= |counts|
    ensures forall j | 0 <= j < i :: CountValue(counts[j]).Some?
    ensures i < |counts| ==> CountValue(counts[i]).None?
  {
    if counts == [] then 0
    else if CountValue(counts[0]).None? then 0
    else 1 + FirstUnparsable(counts[1..])
  }

  /** `sorted(counts, key=lambda x: int(x[0].replace("+", "")))`: the keys are
      computed in list order and the first label that is not an integer
      raises; otherwise a stable sort by the integer. */
  function SortPlayerCounts(counts: seq<PlayerCount>): (r: Result<seq<PlayerCount>>)
    ensures r.Success? <==> forall i | 0 <= i < |counts| :: CountValue(counts[i]).Some?
    ensures r.Success? ==> multiset(r.value) == multiset(counts)
    ensures r.Success? ==> forall i | 0 <= i < |r.value| :: CountValue(r.value[i]).Some?
    ensures r.Success? ==> forall i, j | 0 <= i < j < |r.value| ::
              CountValue(r.value[i]).value <= CountValue(r.value[j]).value
    ensures r.Success? ==> forall k :: FilterKey(r.value, CountKey, k) == FilterKey(counts, CountKey, k)
  {
    var bad := FirstUnparsable(counts);
    if bad < |counts| then Failure(NotAnInteger(ReplaceAll(counts[bad].numplayers, "+", "")))
    else
      var sorted := SortBy(counts, CountKey);
      forall i | 0 <= i < |sorted| ensures CountValue(sorted[i]).Some? {
        assert sorted[i] in multiset(counts);
      }
      Success(sorted)
  }

  /** `calc_num_players`: the record's own poll, then the expansion counts it
      lacks, sorted by player count. */
  function CalcNumPlayers(d: Detail, expansions: seq<BoardGame>): (r: Result<seq<PlayerCount>>)
    ensures r.Success? <==> forall p | p in PollWithExpansions(d, expansions) :: CountValue(p).Some?
    ensures r.Success? ==> multiset(r.value) == multiset(PollWithExpansions(d, expansions))
    ensures r.Success? ==> forall i | 0 <= i < |r.value| :: CountValue(r.value[i]).Some?
    ensures r.Success? ==> forall i, j | 0 <= i < j < |r.value| ::
              CountValue(r.value[i]).value <= CountValue(r.value[j]).value
    ensures r.Success? ==> forall k :: FilterKey(r.value, CountKey, k) == FilterKey(PollWithExpansions(d, expansions), CountKey, k)
  {
    var merged := PollWithExpansions(d, expansions);
    var r := SortPlayerCounts(merged);
    assert r.Success? <==> forall p | p in merged :: CountValue(p).Some? by {
      if r.Failure? {
        var i :| 0 <= i < |merged| && CountValue(merged[i]).None?;
        assert merged[i] in merged;
      }
    }
    r
  }

  /** Lines 47-53: the record's poll with the expansions' new counts appended. */
  function PollWithExpansions(d: Detail, expansions: seq<BoardGame>): seq<PlayerCount> {
    AddExpansionCounts(d.suggestedNumPlayers, ExpansionLabels(expansions))
  }

  /** Every pair of the record's own poll is in the result, unchanged; every
      player count of every expansion is present; the added ones are tagged
      "expansion", are new and appear once each. */
  lemma NumPlayersMerge(d: Detail, expansions: seq<BoardGame>)
    requires CalcNumPlayers(d, expansions).Success?
    ensures multiset(d.suggestedNumPlayers) <= multiset(CalcNumPlayers(d, expansions).value)
    ensures forall l | l in ExpansionLabels(expansions) ::
              exists p | p in CalcNumPlayers(d, expansions).value :: p.numplayers == l
    ensures forall p | p in CalcNumPlayers(d, expansions).value && p !in d.suggestedNumPlayers ::
              && p.result == FromExpansion
              && p.numplayers !in CountLabels(d.suggestedNumPlayers)
              && multiset(CalcNumPlayers(d, expansions).value)[p] == 1
  {
    var base := d.suggestedNumPlayers;
    var merged := AddExpansionCounts(base, ExpansionLabels(expansions));
    var r := CalcNumPlayers(d, expansions).value;
    MergedCounts(base, ExpansionLabels(expansions));
    assert multiset(r) == multiset(merged);
    forall l | l in ExpansionLabels(expansions) ensures exists p | p in r :: p.numplayers == l {
      var p :| p in merged && p.numplayers == l;
      assert p in multiset(merged);
    }
    forall p | p in r && p !in base
      ensures p.result == FromExpansion && p.numplayers !in CountLabels(base) && multiset(r)[p] == 1
    {
      assert p in multiset(r);
    }
  }

  /** The same three facts of the merged list, before sorting. */
  lemma MergedCounts(base: seq<PlayerCount>, labels: seq<string>)
    ensures var merged := AddExpansionCounts(base, labels);
            && multiset(base) <= multiset(merged)
            && (forall l | l in labels :: exists p | p in merged :: p.numplayers == l)
            && forall p | p in merged && p !in base ::
                 p.result == FromExpansion && p.numplayers !in CountLabels(base) && multiset(merged)[p] == 1
  {
    MergedKeepsBase(base, labels);
    MergedHasLabels(base, labels);
    MergedNewOnce(base, labels);
  }

  lemma MergedKeepsBase(base: seq<PlayerCount>, labels: seq<string>)
    ensures multiset(base) <= multiset(AddExpansionCounts(base, labels))
  {
    var merged := AddExpansionCounts(base, labels);
    assert merged == base + merged[|base|..];
  }

  lemma MergedHasLabels(base: seq<PlayerCount>, labels: seq<string>)
    ensures var merged := AddExpansionCounts(base, labels);
            forall l | l in labels :: exists p | p in merged :: p.numplayers == l
  {
    var merged := AddExpansionCounts(base, labels);
    forall l | l in labels ensures exists p | p in merged :: p.numplayers == l {
      var i :| 0 <= i < |merged| && CountLabels(merged)[i] == l;
      assert merged[i] in merged;
    }
  }

  lemma MergedNewOnce(base: seq<PlayerCount>, labels: seq<string>)
    ensures var merged := AddExpansionCounts(base, labels);
            forall p | p in merged && p !in base ::
              p.result == FromExpansion && p.numplayers !in CountLabels(base) && multiset(merged)[p] == 1
  {
    var merged := AddExpansionCounts(base, labels);
    forall p | p in merged && p !in base
      ensures p.result == FromExpansion && p.numplayers !in CountLabels(base) && multiset(merged)[p] == 1
    {
      var i :| 0 <= i < |merged| && merged[i] == p;
      NewCountOnce(base, merged, i);
    }
  }

  /** An added count occurs once in the merged list. */
  lemma NewCountOnce(base: seq<PlayerCount>, merged: seq<PlayerCount>, i: nat)
    requires |merged| >= |base| && merged[..|base|] == base
    requires forall j | |base| <= j < |merged| :: merged[j].numplayers !in CountLabels(base)
    requires forall j, k | |base| <= j < k < |merged| :: merged[j].numplayers != merged[k].numplayers
    requires |base| <= i < |merged|
    ensures multiset(merged)[merged[i]] == 1
  {
    var p := merged[i];
    var before := merged[|base|..i];
    var after := merged[i + 1..];
    assert merged == base + before + [p] + after;
    assert p !in base;
    assert p !in before;
    assert p !in after;
  }

  /** The playing-time buckets: the label of the first bound strictly above
      the minutes. */
  const PlaytimeTable: seq<(int, string)> :=
    [(30, "< 30min"), (60, "30min - 1h"), (120, "1-2h"), (180, "2-3h"), (240, "3-4h")]

  function FirstBucketAbove(minutes: int, table: seq<(int, string)>): string {
    if table == [] then "> 4h"
    else if table[0].0 > minutes then table[0].1
    else FirstBucketAbove(minutes, table[1..])
  }

  /** The bucket of a playing time in minutes. */
  function PlaytimeBucket(minutes: int): (bucket: string)
    ensures bucket == "< 30min" <==> minutes < 30
    ensures bucket == "30min - 1h" <==> 30 <= minutes < 60
    ensures bucket == "1-2h" <==> 60 <= minutes < 120
    ensures bucket == "2-3h" <==> 120 <= minutes < 180
    ensures bucket == "3-4h" <==> 180 <= minutes < 240
    ensures bucket == "> 4h" <==> minutes >= 240
  {
    var t0 := PlaytimeTable;
    var t1 := [(60, "30min - 1h"), (120, "1-2h"), (180, "2-3h"), (240, "3-4h")];
    var t2 := [(120, "1-2h"), (180, "2-3h"), (240, "3-4h")];
    var t3 := [(180, "2-3h"), (240, "3-4h")];
    var t4 := [(240, "3-4h")];
    assert t0[1..] == t1 && t1[1..] == t2 && t2[1..] == t3 && t3[1..] == t4 && t4[1..] == [];
    assert FirstBucketAbove(minutes, t4) == if minutes < 240 then "3-4h" else "> 4h";
    assert FirstBucketAbove(minutes, t3) == if minutes < 180 then "2-3h" else FirstBucketAbove(minutes, t4);
    assert FirstBucketAbove(minutes, t2) == if minutes < 120 then "1-2h" else FirstBucketAbove(minutes, t3);
    assert FirstBucketAbove(minutes, t1) == if minutes < 60 then "30min - 1h" else FirstBucketAbove(minutes, t2);
    assert FirstBucketAbove(minutes, t0) == if minutes < 30 then "< 30min" else FirstBucketAbove(minutes, t1);
    FirstBucketAbove(minutes, t0)
  }

  /** The position of a bucket label, shortest first. */
  function BucketOrder(bucket: string): nat {
    if bucket == "< 30min" then 0
    else if bucket == "30min - 1h" then 1
    else if bucket == "1-2h" then 2
    else if bucket == "2-3h" then 3
    else if bucket == "3-4h" then 4
    else 5
  }

  /** A longer game never lands in a shorter bucket. */
  lemma PlaytimeBucketMonotone(m1: int, m2: int)
    requires m1 <= m2
    ensures BucketOrder(PlaytimeBucket(m1)) <= BucketOrder(PlaytimeBucket(m2))
  {
  }

  /** `calc_playing_time`: "Unknown" for a missing time, the bucket of the
      minutes otherwise; a time that is not an integer raises. */
  function CalcPlayingTime(playingTime: string): (r: Result<string>)
    ensures playingTime == "" ==> r == Success("Unknown")
    ensures playingTime != "" ==> (r.Success? <==> ParseInt(playingTime).Some?)
    ensures playingTime != "" && r.Success? ==> r.value == PlaytimeBucket(ParseInt(playingTime).value)
  {
    if playingTime == "" then Success("Unknown")
    else
      match ParseInt(playingTime)
      case None => Failure(NotAnInteger(playingTime))
      case Some(minutes) => Success(PlaytimeBucket(minutes))
  }

  /** Python's `round` on a `Decimal`: the nearest integer, ties to even. */
  function RoundHalfEven(v: real): (n: int)
    ensures -(1.0 / 2.0) <= v - n as real <= 1.0 / 2.0
    ensures v - n as real == 1.0 / 2.0 || n as real - v == 1.0 / 2.0 ==> n % 2 == 0
  {
    var f := v.Floor;
    var frac := v - f as real;
    if frac < 1.0 / 2.0 then f
    else if frac > 1.0 / 2.0 then f + 1
    else if f % 2 == 0 then f
    else f + 1
  }

  /** The weight table, by rounded weight. */
  function WeightLabel(rounded: int): Option<string> {
    if rounded == -1 then Some("Unknown")
    else if rounded == 0 || rounded == 1 then Some("Light")
    else if rounded == 2 then Some("Light Medium")
    else if rounded == 3 then Some("Medium")
    else if rounded == 4 then Some("Medium Heavy")
    else if rounded == 5 then Some("Heavy")
    else None
  }

  /** `Decimal(text)` for a statistic that is present: a number or a special
      value, and `decimal.InvalidOperation` for any other text. */
  function ParseDecimal(t: NumText): (r: Result<Decimal>)
    requires !t.Blank?
    ensures t.Number? <==> r.Success? && r.value.Finite?
    ensures t.Special? <==> r.Success? && r.value.NotFinite?
    ensures t.Text? <==> r.Failure?
    ensures t.Number? ==> r.value.value == t.value
    ensures t.Special? ==> r.value.special == t.special
  {
    match t
    case Number(v) => Success(Finite(v))
    case Special(s) => Success(NotFinite(s))
    case Text(s) => Failure(NotADecimal(s))
  }

  /** `calc_weight`: a missing weight counts as -1 ("Unknown"); otherwise the
      weight rounded half to even picks the label, and a rounded value
      outside -1..5 has none. `round` refuses a NaN or an infinity. */
  function CalcWeight(weight: NumText): (r: Result<string>)
    ensures weight.Blank? ==> r == Success("Unknown")
    ensures weight.Text? ==> r == Failure(NotADecimal(weight.text))
    ensures weight.Special? ==> r == Failure(CannotRound(weight.special.NaN?))
    ensures weight.Number? ==> var v := weight.value;
              && (r == Success("Unknown") <==> -(3.0 / 2.0) < v < -(1.0 / 2.0))
              && (r == Success("Light") <==> -(1.0 / 2.0) <= v < 3.0 / 2.0)
              && (r == Success("Light Medium") <==> 3.0 / 2.0 <= v <= 5.0 / 2.0)
              && (r == Success("Medium") <==> 5.0 / 2.0 < v < 7.0 / 2.0)
              && (r == Success("Medium Heavy") <==> 7.0 / 2.0 <= v <= 9.0 / 2.0)
              && (r == Success("Heavy") <==> 9.0 / 2.0 < v < 11.0 / 2.0)
              && (r.Failure? <==> v <= -(3.0 / 2.0) || v >= 11.0 / 2.0)
  {
    match weight
    case Blank => Success("Unknown")
    case Text(t) => Failure(NotADecimal(t))
    case Special(s) => Failure(CannotRound(s.NaN?))
    case Number(v) =>
      var rounded := RoundHalfEven(v);
      match WeightLabel(rounded)
      case None => Failure(NoWeightLabel(rounded))
      case Some(name) => Success(name)
  }

  /** `calc_rank`: no rank when it is missing or "Not Ranked"; otherwise the
      text as a `Decimal`, special values included. */
  function CalcRank(rank: NumText): (r: Result<Option<Decimal>>)
    ensures rank.Blank? || rank == Text("Not Ranked") ==> r == Success(None)
    ensures rank.Number? ==> r == Success(Some(Finite(rank.value)))
    ensures rank.Special? ==> r == Success(Some(NotFinite(rank.special)))
    ensures rank.Text? && rank.text != "Not Ranked" ==> r == Failure(NotADecimal(rank.text))
  {
    match rank
    case Blank => Success(None)
    case Text(t) => if t == "Not Ranked" then Success(None) else Failure(NotADecimal(t))
    case Number(v) => Success(Some(Finite(v)))
    case Special(s) => Success(Some(NotFinite(s)))
  }

  /** `calc_usersrated` and `calc_numowned`: 0 when missing. */
  function DecimalOrZero(t: NumText): (r: Result<Decimal>)
    ensures t.Blank? ==> r == Success(Finite(0.0))
    ensures t.Number? ==> r == Success(Finite(t.value))
    ensures t.Special? ==> r == Success(NotFinite(t.special))
    ensures t.Text? ==> r == Failure(NotADecimal(t.text))
  {
    if t.Blank? then Success(Finite(0.0)) else ParseDecimal(t)
  }

  /** `calc_rating` and `calc_average`: no value when missing. */
  function DecimalOrNone(t: NumText): (r: Result<Option<Decimal>>)
    ensures t.Blank? ==> r == Success(None)
    ensures t.Number? ==> r == Success(Some(Finite(t.value)))
    ensures t.Special? ==> r == Success(Some(NotFinite(t.special)))
    ensures t.Text? ==> r == Failure(NotADecimal(t.text))
  {
    if t.Blank? then Success(None)
    else
      var v :- ParseDecimal(t);
      Success(Some(v))
  }

  /** `BoardGame(game_data, image, expansions=..., accessories=...)` with the
      defaults for the other parameters: no tags, no plays, no previous
      players. The fields are computed in the constructor's order, so the
      first failing one decides the fault. */
  function NewBoardGame(d: Detail, image: CollectionItem, expansions: seq<BoardGame>,
                        accessories: seq<BoardGame>): (r: Result<BoardGame>)
    ensures r.Success? <==>
              && ArticleMovedName(d.name).Success?
              && CalcNumPlayers(d, expansions).Success?
              && CalcWeight(d.weight).Success?
              && CalcPlayingTime(d.playingTime).Success?
              && CalcRank(d.rank).Success?
              && DecimalOrZero(d.usersrated).Success?
              && DecimalOrZero(d.numowned).Success?
              && DecimalOrNone(d.average).Success?
              && DecimalOrNone(d.rating).Success?
    ensures r.Success? ==>
              && r.value.id == d.id
              && r.value.name == ArticleMovedName(d.name).value
              && r.value.image == image
              && r.value.expansions == expansions
              && r.value.accessories == accessories
              && r.value.publishers == d.publishers
              && r.value.families == d.families
              && r.value.contained == d.contained
              && r.value.tags == [] && r.value.numplays == 0 && r.value.previousPlayers == []
              && r.value.description == d.description
              && r.value.categories == d.categories && r.value.mechanics == d.mechanics
              && r.value.artists == d.artists && r.value.designers == d.designers
    ensures r.Success? ==>
              && r.value.players == CalcNumPlayers(d, expansions).value
              && r.value.weight == CalcWeight(d.weight).value
              && r.value.playingTime == CalcPlayingTime(d.playingTime).value
              && r.value.rank == CalcRank(d.rank).value
              && r.value.usersrated == DecimalOrZero(d.usersrated).value
              && r.value.numowned == DecimalOrZero(d.numowned).value
              && r.value.average == DecimalOrNone(d.average).value
              && r.value.rating == DecimalOrNone(d.rating).value
  {
    var name :- ArticleMovedName(d.name);
    var players :- CalcNumPlayers(d, expansions);
    var weight :- CalcWeight(d.weight);
    var playingTime :- CalcPlayingTime(d.playingTime);
    var rank :- CalcRank(d.rank);
    var usersrated :- DecimalOrZero(d.usersrated);
    var numowned :- DecimalOrZero(d.numowned);
    var average :- DecimalOrNone(d.average);
    var rating :- DecimalOrNone(d.rating);
    Success(BoardGame(
      d.id, name, d.description, d.categories, d.mechanics, d.contained, d.families,
      d.artists, d.designers, d.publishers, players, weight, playingTime, rank,
      usersrated, numowned, average, rating, 0, image, [], [], expansions, accessories))
  }

  /** `__eq__`: two entities (every one here is of the one class) are the
      same game when their ids agree; the same game hashes alike. */
  predicate SameGame(a: BoardGame, b: BoardGame)
    ensures SameGame(a, b) ==> GameHash(a) == GameHash(b)
    ensures a == b ==> SameGame(a, b)
  {
    a.id == b.id
  }

  /** The modulus of CPython's integer hash on 64-bit builds, 2^61 - 1. */
  const HashModulus: int := 0x1FFF_FFFF_FFFF_FFFF

  /** CPython's `hash` of an integer: the value reduced modulo 2^61 - 1 with
      the sign kept, and -1 (reserved for errors) replaced by -2. */
  function IntHash(n: int): (h: int)
    ensures h != -1 && -HashModulus < h < HashModulus
    ensures n >= 0 ==> h >= 0
    ensures n < 0 ==> h <= 0
    ensures !(n < 0 && (n + 1) % HashModulus == 0) ==> (h - n) % HashModulus == 0
    ensures n < 0 && (n + 1) % HashModulus == 0 ==> h == -2
  {
    if n >= 0 then n % HashModulus
    else
      var h := -((-n) % HashModulus);
      ReduceNegative(n);
      if h == -1 then -2 else h
  }

  lemma ReduceNegative(n: int)
    requires n < 0
    ensures (-((-n) % HashModulus) - n) % HashModulus == 0
    ensures -((-n) % HashModulus) == -1 <==> (n + 1) % HashModulus == 0
  {
    var q := (-n) / HashModulus;
    var m := (-n) % HashModulus;
    assert -n == q * HashModulus + m;
    assert -m - n == q * HashModulus;
    assert (n + 1) == -(q * HashModulus) + (1 - m);
  }

  /** `__hash__`: the hash of the id; an id in 0 .. 2^61-2 is its own hash. */
  function GameHash(g: BoardGame): (h: int)
    ensures h != -1 && -HashModulus < h < HashModulus
    ensures g.id >= 0 ==> h >= 0
    ensures g.id < 0 ==> h <= 0
    ensures 0 <= g.id < HashModulus ==> h == g.id
  {
    IntHash(g.id)
  }

  /** Equal games hash alike, as a dict or set needs. */
  lemma EqualGamesHashAlike(a: BoardGame, b: BoardGame)
    requires SameGame(a, b)
    ensures GameHash(a) == GameHash(b)
  {
  }
}
