/** The callbacks the catalog client's XML schema runs on already-parsed
    values, and the batching of ids into catalog requests. */
module Hooks {
  import opened Outcome
  import opened Text
  import opened Lists
  import opened Records

  /** One `<result value=... numvotes=...>` of a player-count poll. */
  datatype Vote = Vote(value: string, numvotes: int)

  /** The key a vote is filed under: lower case, spaces turned into "_"
      ("Not Recommended" becomes "not_recommended"). */
  function VoteKey(value: string): (k: string)
    ensures |k| == |value|
    ensures forall j | 0 <= j < |value| :: k[j] == if value[j] == ' ' then '_' else LowerChar(value[j])
  {
    ReplaceCharByChar(Lower(value), ' ', '_');
    ReplaceAll(Lower(value), " ", "_")
  }

  /** The dict comprehension over the votes: every vote's key is present and
      holds the count of the last vote with that key. */
  function Tally(results: seq<Vote>): (t: map<string, int>)
    ensures forall i | 0 <= i < |results| :: VoteKey(results[i].value) in t
    ensures forall k | k in t :: exists i | 0 <= i < |results| ::
              && VoteKey(results[i].value) == k && t[k] == results[i].numvotes
              && forall j | i < j < |results| :: VoteKey(results[j].value) != k
  {
    var pairs := Map(results, (v: Vote) => (VoteKey(v.value), v.numvotes));
    assert forall i | 0 <= i < |results| :: pairs[i] == (VoteKey(results[i].value), results[i].numvotes);
    LastWins(pairs)
  }

  /** A dict built from (key, value) pairs in order: every key is present and
      holds the value of the last pair filed under it. */
  function LastWins(pairs: seq<(string, int)>): (t: map<string, int>)
    ensures forall i | 0 <= i < |pairs| :: pairs[i].0 in t
    ensures forall k | k in t :: exists i | 0 <= i < |pairs| :: IsLastPair(pairs, k, i) && t[k] == pairs[i].1
  {
    if pairs == [] then map[]
    else
      var init := pairs[..|pairs| - 1];
      var last := pairs[|pairs| - 1];
      var t0 := LastWins(init);
      var t := t0[last.0 := last.1];
      forall k | k in t
        ensures exists i | 0 <= i < |pairs| :: IsLastPair(pairs, k, i) && t[k] == pairs[i].1
      {
        if k == last.0 {
          assert IsLastPair(pairs, k, |pairs| - 1);
        } else {
          var i :| 0 <= i < |init| && IsLastPair(init, k, i) && t0[k] == init[i].1;
          LastPairExtends(pairs, k, i);
        }
      }
      assert forall i | 0 <= i < |init| :: init[i] == pairs[i];
      t
  }

  /** A last pair stays last when a pair under another key follows. */
  lemma LastPairExtends(pairs: seq<(string, int)>, k: string, i: nat)
    requires 0 <= i < |pairs| - 1 && pairs[|pairs| - 1].0 != k
    requires IsLastPair(pairs[..|pairs| - 1], k, i)
    ensures IsLastPair(pairs, k, i) && pairs[i] == pairs[..|pairs| - 1][i]
  {
    var init := pairs[..|pairs| - 1];
    forall j | i < j < |pairs| ensures pairs[j].0 != k {
      if j < |pairs| - 1 {
        assert init[j] == pairs[j];
      }
    }
  }

  /** `pairs[i]` is the last pair filed under `k`. */
  ghost predicate IsLastPair(pairs: seq<(string, int)>, k: string, i: int)
    requires 0 <= i < |pairs|
  {
    pairs[i].0 == k && forall j | i < j < |pairs| :: pairs[j].0 != k
  }

  /** The decision on one player count from its three tallies. */
  function Recommend(best: int, recommended: int, notRecommended: int): (r: Recommendation)
    ensures r != FromExpansion
    ensures r == NotRecommended <==> best + recommended <= notRecommended
    ensures r == Best <==> best + recommended > notRecommended && best > 10 && best > recommended
  {
    if !(best + recommended > notRecommended) then NotRecommended
    else if best > 10 && best > recommended then Best
    else Recommended
  }

  /** Ordering of the three poll outcomes, worst first. */
  function Strength(r: Recommendation): nat {
    match r
    case NotRecommended => 0
    case Recommended => 1
    case Best => 2
    case FromExpansion => 0
  }

  /** More "best" votes never weaken the outcome. */
  lemma MoreBestNeverWeakens(best: int, recommended: int, notRecommended: int, extra: nat)
    ensures Strength(Recommend(best, recommended, notRecommended))
            <= Strength(Recommend(best + extra, recommended, notRecommended))
  {
  }

  /** More "not recommended" votes never strengthen the outcome. */
  lemma MoreNotRecommendedNeverStrengthens(best: int, recommended: int, notRecommended: int, extra: nat)
    ensures Strength(Recommend(best, recommended, notRecommended + extra))
            <= Strength(Recommend(best, recommended, notRecommended))
  {
  }

  /** More "recommended" votes can turn a "best" count into a merely
      recommended one: 11 best, 10 recommended is best; with 11 recommended it
      is not. */
  lemma MoreRecommendedCanWeaken()
    ensures Recommend(11, 10, 0) == Best && Recommend(11, 11, 0) == Recommended
  {
  }

  /** `numplayers_to_result`: an empty poll counts as zero votes everywhere; a
      non-empty poll that lacks one of the three keys fails on the lookup,
      "best" first, then "recommended", then "not_recommended". */
  function NumplayersToResult(results: seq<Vote>): (r: Result<Recommendation>)
    ensures results == [] ==> r == Success(NotRecommended)
    ensures r.Failure? <==>
              results != [] && !("best" in Tally(results) && "recommended" in Tally(results)
                                 && "not_recommended" in Tally(results))
    ensures r.Success? && results != [] ==>
              r.value == Recommend(Tally(results)["best"], Tally(results)["recommended"],
                                   Tally(results)["not_recommended"])
  {
    var t := if results == [] then map["best" := 0, "recommended" := 0, "not_recommended" := 0]
             else Tally(results);
    if "best" !in t then Failure(MissingKey("best"))
    else if "recommended" !in t then Failure(MissingKey("recommended"))
    else if "not_recommended" !in t then Failure(MissingKey("not_recommended"))
    else Success(Recommend(t["best"], t["recommended"], t["not_recommended"]))
  }

  /** `suggested_numplayers`: the counts not "not recommended", in poll
      order; a single survivor is relabelled "best". */
  function SuggestedNumplayers(polls: seq<PlayerCount>): (r: seq<PlayerCount>)
    ensures forall i | 0 <= i < |r| :: r[i].result != NotRecommended
    ensures |r| == |Keep(polls, IsRecommendedCount)|
    ensures forall i | 0 <= i < |r| :: r[i].numplayers == Keep(polls, IsRecommendedCount)[i].numplayers
    ensures |r| == 1 ==> r[0].result == Best
    ensures |r| != 1 ==> r == Keep(polls, IsRecommendedCount)
  {
    var kept := Keep(polls, IsRecommendedCount);
    if |kept| == 1 then [kept[0].(result := Best)] else kept
  }

  predicate IsRecommendedCount(p: PlayerCount) {
    p.result != NotRecommended
  }

  /** `age_conversion`: the integer written in the first two characters. */
  function AgeConversion(ageResult: string): (r: Result<int>)
    ensures var head := ageResult[..if |ageResult| < 2 then |ageResult| else 2];
            && (r.Success? <==> ParseInt(head).Some?)
            && (r.Success? ==> Some(r.value) == ParseInt(head))
            && (r.Failure? ==> r.error == NotAnInteger(head))
    ensures r.Success? ==> -9 <= r.value <= 99
  {
    var head := ageResult[..if |ageResult| < 2 then |ageResult| else 2];
    ParseShortInt(head);
    match ParseInt(head)
    case None => Failure(NotAnInteger(head))
    case Some(n) => Success(n)
  }

  /** Two characters hold at most a sign and a digit, or two digits. */
  lemma ParseShortInt(s: string)
    requires |s| <= 2
    ensures ParseInt(s).Some? ==> -9 <= ParseInt(s).value <= 99
  {
    var t := Strip(s);
    if |t| > 1 && (t[0] == '-' || t[0] == '+') && AllDigits(t[1..]) {
      var d := t[1..];
      assert d == d[..0] + [d[0]];
      assert DigitsValue(d[..0]) == 0;
    } else if |t| > 0 && AllDigits(t) {
      if |t| == 2 {
        var h := t[..1];
        assert h[..0] == [] && h[0] == t[0] && t[..|t| - 1] == h;
        assert DigitsValue(h) <= 9;
      } else {
        assert DigitsValue(t[..0]) == 0;
      }
    }
  }

  /** Only the first two characters count. */
  lemma AgeReadsTwoCharacters(ageResult: string, tail: string)
    requires |ageResult| >= 2
    ensures AgeConversion(ageResult + tail) == AgeConversion(ageResult)
  {
    assert (ageResult + tail)[..2] == ageResult[..2];
  }

  /** A poll value such as "21 and up" or "8" gives its leading number. */
  lemma AgeOfLeadingNumber(n: nat, rest: string)
    requires n < 100
    requires n >= 10 || rest == "" || IsSpace(rest[0])
    ensures AgeConversion(ShowNat(n) + rest) == Success(n)
  {
    var s := ShowNat(n) + rest;
    var head := s[..if |s| < 2 then |s| else 2];
    ParseShowNat(n);
    if n >= 10 {
      assert ShowNat(n) == ShowNat(n / 10) + [('0' as int + n % 10) as char];
      assert head == ShowNat(n);
    } else if rest == "" {
      assert head == ShowNat(n);
    } else {
      assert head == ShowNat(n) + [rest[0]];
      assert Strip(head) == Strip(ShowNat(n));
    }
  }

  /** `suggested_playerage`: the age votes with at least one vote, in order. */
  function SuggestedPlayerage(votes: seq<AgeVote>): (r: seq<AgeVote>)
    ensures forall i | 0 <= i < |r| :: r[i].numvotes > 0 && r[i] in votes
    ensures forall i | 0 <= i < |votes| && votes[i].numvotes > 0 :: votes[i] in r
  {
    Keep(votes, HasVotes)
  }

  predicate HasVotes(v: AgeVote) {
    v.numvotes > 0
  }

  /** The kept age votes stay in poll order. */
  lemma SuggestedPlayerageConcat(a: seq<AgeVote>, b: seq<AgeVote>)
    ensures SuggestedPlayerage(a + b) == SuggestedPlayerage(a) + SuggestedPlayerage(b)
  {
    KeepConcat(a, b, HasVotes);
  }

  /** `after_status_hook`: the status attributes (in schema order) whose
      value is "1", by name. */
  function StatusTags(status: seq<(string, string)>): (r: seq<string>)
    ensures |r| <= |status|
    ensures forall t :: t in r <==> exists i | 0 <= i < |status| :: status[i] == (t, "1")
    decreases |status|
  {
    if status == [] then []
    else
      var rest := StatusTags(status[1..]);
      assert forall i | 1 <= i < |status| :: status[i] == status[1..][i - 1];
      if status[0].1 == "1" then [status[0].0] + rest else rest
  }

  /** Tags keep the order of the status attributes. */
  lemma {:induction false} StatusTagsConcat(a: seq<(string, string)>, b: seq<(string, string)>)
    ensures StatusTags(a + b) == StatusTags(a) + StatusTags(b)
    decreases |a|
  {
    if a == [] {
      assert a + b == b;
    } else {
      assert (a + b)[1..] == a[1..] + b;
      StatusTagsConcat(a[1..], b);
    }
  }

  /** `after_players_hook`: a player's name, or "Unknown" when it has none. */
  function PlayerName(player: map<string, string>): (r: string)
    ensures "name" in player ==> r == player["name"]
    ensures "name" !in player ==> r == "Unknown"
  {
    if "name" in player then player["name"] else "Unknown"
  }

  /** How many ids one catalog request carries at most. */
  const BatchSize := 100

  /** `chunks(ids, n)`: consecutive slices of `n` ids, the last one shorter. */
  function Chunks(ids: seq<int>, n: nat): (r: seq<seq<int>>)
    requires n > 0
    ensures Flatten(r) == ids
    ensures forall i | 0 <= i < |r| :: 0 < |r[i]| <= n
    ensures forall i | 0 <= i < |r| - 1 :: |r[i]| == n
    decreases |ids|
  {
    if ids == [] then []
    else if |ids| <= n then
      assert Flatten([ids]) == ids + Flatten([]);
      [ids]
    else
      var rest := Chunks(ids[n..], n);
      assert ids == ids[..n] + ids[n..];
      assert ([ids[..n]] + rest)[1..] == rest;
      [ids[..n]] + rest
  }

  /** `game_list`: no request for no ids; otherwise one request per chunk of
      at most 100 ids, the answers concatenated. `fetch` stands for one
      request and its parse. */
  function GameList(ids: seq<int>, fetch: seq<int> -> seq<Detail>): (r: seq<Detail>)
    ensures ids == [] ==> r == []
  {
    if ids == [] then [] else FetchAll(Chunks(ids, BatchSize), fetch)
  }

  function FetchAll(batches: seq<seq<int>>, fetch: seq<int> -> seq<Detail>): seq<Detail> {
    if batches == [] then [] else fetch(batches[0]) + FetchAll(batches[1..], fetch)
  }

  /** When a request answers each id with its record, in order, batching is
      invisible: the whole list is the records of all ids, in order. */
  lemma BatchingIsInvisible(ids: seq<int>, record: int -> Detail, fetch: seq<int> -> seq<Detail>)
    requires forall batch :: fetch(batch) == Map(batch, record)
    ensures GameList(ids, fetch) == Map(ids, record)
  {
    if ids != [] {
      FetchAllIsMap(Chunks(ids, BatchSize), record, fetch);
    }
  }

  lemma {:induction false} FetchAllIsMap(batches: seq<seq<int>>, record: int -> Detail,
                                         fetch: seq<int> -> seq<Detail>)
    requires forall batch :: fetch(batch) == Map(batch, record)
    ensures FetchAll(batches, fetch) == Map(Flatten(batches), record)
    decreases |batches|
  {
    if batches != [] {
      FetchAllIsMap(batches[1..], record, fetch);
      MapConcat(batches[0], Flatten(batches[1..]), record);
    }
  }
}
