/**
 * The medal-leader rule of the Olympic statistics: which country, or pair of
 * countries, leads in one medal type.
 */
module Olympics {
  import opened Wrappers

  /** A results dictionary as its items in insertion order: country, then medal counts by medal name. */
  type Results = seq<(string, map<string, int>)>

  /** (country, count) pairs in the order of the results. */
  type Counts = seq<(string, int)>

  const ValidMedals: set<string> := {"Gold", "Silver", "Bronze"}

  /** {country: data[medal] for country, data in results.items()}: KeyError at the first country without the medal. */
  function MedalCounts(results: Results, medal: string): (r: Result<Counts>)
    ensures r.Err? <==> exists k :: 0 <= k < |results| && medal !in results[k].1
    ensures r.Err? ==> r.error == KeyError
    ensures r.Ok? ==> |r.value| == |results|
    ensures r.Ok? ==> forall k :: 0 <= k < |results| ==> r.value[k] == (results[k].0, results[k].1[medal])
  {
    if results == [] then Ok([])
    else if medal !in results[0].1 then Err(KeyError)
    else match MedalCounts(results[1..], medal)
      case Err(e) => Err(e)
      case Ok(rest) =>
        assert forall k :: 1 <= k < |results| ==> results[k] == results[1..][k - 1];
        Ok([(results[0].0, results[0].1[medal])] + rest)
  }

  /** max(medal_counts.values()). */
  function MaxCount(counts: Counts): (m: int)
    requires counts != []
    ensures forall k :: 0 <= k < |counts| ==> counts[k].1 <= m
    ensures exists k :: 0 <= k < |counts| && counts[k].1 == m
  {
    if |counts| == 1 then counts[0].1
    else
      var rest := MaxCount(counts[1..]);
      assert forall k :: 1 <= k < |counts| ==> counts[k] == counts[1..][k - 1];
      if counts[0].1 >= rest then counts[0].1 else rest
  }

  /** The countries whose count is m, in order. */
  function Leaders(counts: Counts, m: int): seq<string> {
    if counts == [] then []
    else
      var last := counts[|counts| - 1];
      Leaders(counts[..|counts| - 1], m) + (if last.1 == m then [last.0] else [])
  }

  /** The leaders as one string: the name, "A/B", or "None" for none or more than two. */
  function Best(leaders: seq<string>): string {
    if |leaders| == 1 then leaders[0]
    else if |leaders| == 2 then leaders[0] + "/" + leaders[1]
    else "None"
  }

  /** find_best_country_in_sport. */
  function FindBestCountryInSport(results: Results, medal: string): (best: Result<string>)
    ensures medal !in ValidMedals ==> best == Err(ValueError)
    ensures medal in ValidMedals && (exists k :: 0 <= k < |results| && medal !in results[k].1) ==>
      best == Err(KeyError)
    ensures medal in ValidMedals && results == [] ==> best == Err(ValueError)
    ensures best.Ok? <==>
      medal in ValidMedals && results != [] && forall k :: 0 <= k < |results| ==> medal in results[k].1
  {
    if medal !in ValidMedals then Err(ValueError)
    else match MedalCounts(results, medal)
      case Err(e) => Err(e)
      case Ok(counts) =>
        if counts == [] then Err(ValueError)
        else Ok(Best(Leaders(counts, MaxCount(counts))))
  }

  /** The leaders of a + b are those of a, then those of b. */
  lemma {:induction false} LeadersAppend(a: Counts, b: Counts, m: int)
    ensures Leaders(a + b, m) == Leaders(a, m) + Leaders(b, m)
  {
    if b != [] {
      assert (a + b)[..|a + b| - 1] == a + b[..|b| - 1];
      LeadersAppend(a, b[..|b| - 1], m);
    } else {
      assert a + b == a;
    }
  }

  /** A country is a leader exactly when its count is m. */
  lemma {:induction false} LeadersMembership(counts: Counts, m: int, name: string)
    ensures name in Leaders(counts, m) <==> exists k :: 0 <= k < |counts| && counts[k] == (name, m)
  {
    if counts != [] {
      var front := counts[..|counts| - 1];
      assert counts == front + [counts[|counts| - 1]];
      LeadersMembership(front, m, name);
    }
  }

  /** Without a count m there is no leader. */
  lemma {:induction false} NoLeaders(counts: Counts, m: int)
    requires forall k :: 0 <= k < |counts| ==> counts[k].1 != m
    ensures Leaders(counts, m) == []
  {
    if counts != [] {
      NoLeaders(counts[..|counts| - 1], m);
    }
  }

  /** The leaders are the countries with the maximal count, which no count exceeds. */
  lemma LeadersAreMaximal(results: Results, medal: string, name: string)
    requires MedalCounts(results, medal).Ok? && results != []
    ensures var counts := MedalCounts(results, medal).value;
      var m := MaxCount(counts);
      (forall k :: 0 <= k < |results| ==> results[k].1[medal] <= m)
      && (name in Leaders(counts, m) <==>
          exists k :: 0 <= k < |results| && results[k].0 == name && results[k].1[medal] == m)
  {
    var counts := MedalCounts(results, medal).value;
    LeadersMembership(counts, MaxCount(counts), name);
  }

  /** Splitting the counts around an index. */
  lemma LeadersAround(counts: Counts, m: int, i: nat)
    requires i < |counts|
    ensures Leaders(counts, m) ==
      Leaders(counts[..i], m) + (if counts[i].1 == m then [counts[i].0] else []) + Leaders(counts[i + 1..], m)
  {
    assert counts == counts[..i] + [counts[i]] + counts[i + 1..];
    LeadersAppend(counts[..i] + [counts[i]], counts[i + 1..], m);
    LeadersAppend(counts[..i], [counts[i]], m);
  }

  /** One index with count m and none elsewhere: that country alone leads. */
  lemma OneLeader(counts: Counts, m: int, i: nat)
    requires i < |counts| && counts[i].1 == m
    requires forall k :: 0 <= k < |counts| && k != i ==> counts[k].1 != m
    ensures Leaders(counts, m) == [counts[i].0]
  {
    LeadersAround(counts, m, i);
    NoLeaders(counts[..i], m);
    NoLeaders(counts[i + 1..], m);
  }

  /** Two indices with count m and none elsewhere: those two countries lead, in order. */
  lemma TwoLeaders(counts: Counts, m: int, i: nat, j: nat)
    requires i < j < |counts| && counts[i].1 == m && counts[j].1 == m
    requires forall k :: 0 <= k < |counts| && k != i && k != j ==> counts[k].1 != m
    ensures Leaders(counts, m) == [counts[i].0, counts[j].0]
  {
    LeadersAround(counts, m, j);
    NoLeaders(counts[j + 1..], m);
    OneLeader(counts[..j], m, i);
  }

  /** Three indices with count m: at least three countries lead. */
  lemma ThreeLeaders(counts: Counts, m: int, i: nat, j: nat, l: nat)
    requires i < j < l < |counts| && counts[i].1 == m && counts[j].1 == m && counts[l].1 == m
    ensures |Leaders(counts, m)| >= 3
  {
    LeadersAround(counts, m, l);
    LeadersAround(counts[..l], m, j);
    LeadersAround(counts[..l][..j], m, i);
  }

  /** On valid input the result is the leaders for the maximal count, as one string. */
  lemma FindBestUsesLeaders(results: Results, medal: string)
    requires medal in ValidMedals
    requires forall k :: 0 <= k < |results| ==> medal in results[k].1
    requires results != []
    ensures var counts := MedalCounts(results, medal).value;
      FindBestCountryInSport(results, medal) == Ok(Best(Leaders(counts, MaxCount(counts))))
  {
  }

  /** One country ahead of all others is returned by name. */
  lemma SingleLeaderNamed(results: Results, medal: string, i: nat)
    requires medal in ValidMedals
    requires forall k :: 0 <= k < |results| ==> medal in results[k].1
    requires i < |results|
    requires forall k :: 0 <= k < |results| && k != i ==> results[k].1[medal] < results[i].1[medal]
    ensures FindBestCountryInSport(results, medal) == Ok(results[i].0)
  {
    var counts := MedalCounts(results, medal).value;
    var m := MaxCount(counts);
    assert m == counts[i].1;
    OneLeader(counts, m, i);
    FindBestUsesLeaders(results, medal);
  }

  /** Two countries tied ahead of all others are returned as "A/B", in the order of the results. */
  lemma TwoLeadersJoined(results: Results, medal: string, i: nat, j: nat)
    requires medal in ValidMedals
    requires forall k :: 0 <= k < |results| ==> medal in results[k].1
    requires i < j < |results|
    requires results[i].1[medal] == results[j].1[medal]
    requires forall k :: 0 <= k < |results| && k != i && k != j ==> results[k].1[medal] < results[i].1[medal]
    ensures FindBestCountryInSport(results, medal) == Ok(results[i].0 + "/" + results[j].0)
  {
    var counts := MedalCounts(results, medal).value;
    var m := MaxCount(counts);
    assert m == counts[i].1;
    TwoLeaders(counts, m, i, j);
    FindBestUsesLeaders(results, medal);
  }

  /** Three or more countries tied for the lead give "None". */
  lemma ManyLeadersGiveNone(results: Results, medal: string, i: nat, j: nat, l: nat)
    requires medal in ValidMedals
    requires forall k :: 0 <= k < |results| ==> medal in results[k].1
    requires i < j < l < |results|
    requires results[i].1[medal] == results[j].1[medal] == results[l].1[medal]
    requires forall k :: 0 <= k < |results| ==> results[k].1[medal] <= results[i].1[medal]
    ensures FindBestCountryInSport(results, medal) == Ok("None")
  {
    var counts := MedalCounts(results, medal).value;
    var m := MaxCount(counts);
    assert m == counts[i].1;
    ThreeLeaders(counts, m, i, j, l);
    assert Best(Leaders(counts, m)) == "None";
    FindBestUsesLeaders(results, medal);
  }
}
