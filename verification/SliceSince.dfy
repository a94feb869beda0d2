/** The ticker's page, cut from a cached list, against the query it stands for. */
module SliceSince {
  import opened Ordering
  import opened MatchResults

  /** Newest first: by time played and then by id, both descending. */
  function Newer(): (Match, Match) -> bool {
    (a: Match, b: Match) => a.playedAt > b.playedAt || (a.playedAt == b.playedAt && a.id > b.id)
  }

  /** Of two rows of different ids exactly one is the newer: the later played, or of one time the higher id. */
  lemma OneIsNewer(a: Match, b: Match)
    requires a.id != b.id
    ensures Newer()(a, b) <==> !Newer()(b, a)
    ensures a.playedAt > b.playedAt ==> Newer()(a, b)
    ensures a.playedAt == b.playedAt && a.id > b.id ==> Newer()(a, b)
  {
  }

  function Older(): (Match, Match) -> bool { (a: Match, b: Match) => Newer()(b, a) }

  function Reversed(matches: seq<Match>): (r: seq<Match>)
    ensures |r| == |matches| && forall i :: 0 <= i < |r| ==> r[i] == matches[|matches| - 1 - i]
  {
    seq(|matches|, i requires 0 <= i < |matches| => matches[|matches| - 1 - i])
  }

  function After(matches: seq<Match>, since: int): seq<Match> {
    if matches == [] then []
    else
      var before, last := After(matches[..|matches| - 1], since), matches[|matches| - 1];
      if last.id > since then before + [last] else before
  }

  function Take(matches: seq<Match>, limit: nat): seq<Match> {
    if |matches| <= limit then matches else matches[..limit]
  }

  /** The list backwards, past the given id, cut to the limit. */
  function Slice(matches: seq<Match>, since: int, limit: nat): seq<Match> {
    Take(After(Reversed(matches), since), limit)
  }

  /**
  What the query may answer: the rows past the given id in some arrangement that is newest first,
  cut to the limit.  `rows` lists the table in any order.
  */
  ghost predicate Answers(rows: seq<Match>, since: int, limit: nat, page: seq<Match>) {
    exists all :: multiset(all) == multiset(After(rows, since)) && Ordered(Newer(), all) && page == Take(all, limit)
  }

  lemma {:induction false} AfterCounts(matches: seq<Match>, since: int, m: Match)
    ensures multiset(After(matches, since))[m] == (if m.id > since then multiset(matches)[m] else 0)
  {
    if matches != [] {
      AfterCounts(matches[..|matches| - 1], since, m);
      WithoutLast(matches);
    }
  }

  /** Filtering does not mind the order of the rows. */
  lemma AfterPermutes(a: seq<Match>, b: seq<Match>, since: int)
    requires multiset(a) == multiset(b)
    ensures multiset(After(a, since)) == multiset(After(b, since))
  {
    forall m ensures multiset(After(a, since))[m] == multiset(After(b, since))[m] {
      AfterCounts(a, since, m);
      AfterCounts(b, since, m);
    }
  }

  lemma {:induction false} AfterStaysOrdered(matches: seq<Match>, since: int)
    requires Ordered(Newer(), matches)
    ensures Ordered(Newer(), After(matches, since))
    ensures forall m :: m in After(matches, since) ==> m in matches
  {
    hide Newer;
    if matches != [] {
      var init := matches[..|matches| - 1];
      AfterStaysOrdered(init, since);
      forall m | m in init ensures Newer()(m, matches[|matches| - 1]) {
        var k :| 0 <= k < |init| && init[k] == m;
        assert matches[k] == m;
      }
      var before, r := After(init, since), After(matches, since);
      forall i, j | 0 <= i < j < |r| ensures Newer()(r[i], r[j]) {
        if j < |before| {
          assert Newer()(before[i], before[j]);
        } else {
          assert before[i] in init;
        }
      }
    }
  }

  lemma {:induction false} ReversedPermutes(matches: seq<Match>)
    ensures multiset(Reversed(matches)) == multiset(matches)
  {
    if matches == [] {
      assert Reversed(matches) == [];
    } else {
      ReversedPermutes(matches[..|matches| - 1]);
      WithoutLast(matches);
      assert Reversed(matches) == [matches[|matches| - 1]] + Reversed(matches[..|matches| - 1]);
    }
  }

  /**
  Cut from a list the database ordered oldest first, the page is the one answer the query can give:
  the sort key is a total order, so the arrangement is unique.
  */
  lemma SliceIsTheAnswer(cached: seq<Match>, rows: seq<Match>, since: int, limit: nat, page: seq<Match>)
    requires Ordered(Older(), cached) && multiset(rows) == multiset(cached)
    ensures Answers(rows, since, limit, page) <==> page == Slice(cached, since, limit)
  {
    var back := Reversed(cached);
    assert Ordered(Newer(), back) by {
      forall i, j | 0 <= i < j < |back| ensures Newer()(back[i], back[j]) {
        assert Older()(cached[|cached| - 1 - j], cached[|cached| - 1 - i]);
      }
    }
    ReversedPermutes(cached);
    AfterPermutes(back, rows, since);
    AfterStaysOrdered(back, since);
    var mine := After(back, since);
    forall all | multiset(all) == multiset(After(rows, since)) && Ordered(Newer(), all) ensures all == mine {
      hide Newer, Asymmetric, Ordered, After;
      SortedOnce(Newer(), all, mine);
    }
  }
}
