/** Completed tournaments' podiums, and the titles counted over them. */
module HallOfFame {
  import opened Options
  import opened Sums
  import opened Ranking
  import opened Standings
  import Leaderboard

  const PODIUM_DEPTH: nat := 3

  /** A completed tournament and its final board. */
  datatype Completed = Completed(tournament: int, startDate: int, endDate: Option<int>, rows: seq<Row>)

  datatype Entry = Entry(tournament: int, startDate: int, endDate: Option<int>, entrants: nat, podium: seq<Row>) {
    function FinishedOn(): int { if endDate.Some? then endDate.value else startDate }
  }

  datatype TitleRow = TitleRow(manager: int, handle: int, titles: nat, podiums: nat)

  /** The board's own rows of a podium rank, in the board's order. */
  function OnPodium(rows: seq<Row>): seq<Row> {
    if rows == [] then []
    else
      var before, last := OnPodium(rows[..|rows| - 1]), rows[|rows| - 1];
      if last.rank <= PODIUM_DEPTH then before + [last] else before
  }

  function Entries(completed: seq<Completed>): seq<Entry> {
    seq(|completed|, i requires 0 <= i < |completed| =>
      var c := completed[i]; Entry(c.tournament, c.startDate, c.endDate, |c.rows|, OnPodium(c.rows)))
  }

  /** Newest first, the id breaking ties. */
  function ByFinish(): Columns<Entry> {
    Columns((e: Entry) => Mark(e.FinishedOn(), e.tournament), (e: Entry) => 0)
  }

  function ByTitles(): Columns<TitleRow> {
    Columns((r: TitleRow) => Mark(r.titles, r.podiums), (r: TitleRow) => r.handle)
  }

  /** Every podium row, tournament by tournament. */
  function Appearances(entries: seq<Entry>): seq<Row> {
    if entries == [] then [] else Appearances(entries[..|entries| - 1]) + entries[|entries| - 1].podium
  }

  // ---------------------------------------------------------------- counting

  function Position(rows: seq<TitleRow>, manager: int): (k: nat)
    ensures k <= |rows| && (k < |rows| ==> rows[k].manager == manager)
    ensures forall i :: 0 <= i < k ==> rows[i].manager != manager
  {
    if rows == [] then 0
    else
      var before := Position(rows[..|rows| - 1], manager);
      if before < |rows| - 1 || rows[|rows| - 1].manager == manager then before else |rows|
  }

  function One(yes: bool): nat { if yes then 1 else 0 }

  /** A record is opened the first time its manager appears, under the name shown there. */
  function CountOne(rows: seq<TitleRow>, row: Row): seq<TitleRow> {
    var k := Position(rows, row.manager);
    if k < |rows|
    then rows[k := TitleRow(row.manager, rows[k].handle, rows[k].titles + One(row.rank == 1), rows[k].podiums + 1)]
    else rows + [TitleRow(row.manager, row.handle, One(row.rank == 1), 1)]
  }

  function CountAll(appearances: seq<Row>): seq<TitleRow> {
    if appearances == [] then []
    else CountOne(CountAll(appearances[..|appearances| - 1]), appearances[|appearances| - 1])
  }

  function PodiumsOf(appearances: seq<Row>, manager: int): nat {
    if appearances == [] then 0
    else PodiumsOf(appearances[..|appearances| - 1], manager) + One(appearances[|appearances| - 1].manager == manager)
  }

  function TitlesOf(appearances: seq<Row>, manager: int): nat {
    if appearances == [] then 0
    else
      var last := appearances[|appearances| - 1];
      TitlesOf(appearances[..|appearances| - 1], manager) + One(last.manager == manager && last.rank == 1)
  }

  function FirstHandle(appearances: seq<Row>, manager: int): Option<int> {
    if appearances == [] then None
    else
      var before, last := FirstHandle(appearances[..|appearances| - 1], manager), appearances[|appearances| - 1];
      if before.None? && last.manager == manager then Some(last.handle) else before
  }

  /** Everything a manager won, under the name first shown. */
  ghost predicate Right(row: TitleRow, appearances: seq<Row>) {
    && row.titles == TitlesOf(appearances, row.manager)
    && row.podiums == PodiumsOf(appearances, row.manager)
    && Some(row.handle) == FirstHandle(appearances, row.manager)
  }

  ghost predicate NoManagerTwice(rows: seq<TitleRow>) {
    forall i, j :: 0 <= i < j < |rows| ==> rows[i].manager != rows[j].manager
  }

  /** One right row for every manager that appears. */
  ghost predicate Tells(rows: seq<TitleRow>, appearances: seq<Row>) {
    && NoManagerTwice(rows)
    && (forall i :: 0 <= i < |rows| ==> Right(rows[i], appearances))
    && (forall manager :: FirstHandle(appearances, manager).Some? <==> Position(rows, manager) < |rows|)
  }

  lemma {:induction false} CountsTell(appearances: seq<Row>)
    ensures Tells(CountAll(appearances), appearances)
  {
    if appearances != [] {
      var init, last := appearances[..|appearances| - 1], appearances[|appearances| - 1];
      CountsTell(init);
      TellsOneMore(CountAll(init), init, last);
      assert init + [last] == appearances;
    }
  }

  lemma {:induction false} AbsentCountsNothing(appearances: seq<Row>, manager: int)
    requires FirstHandle(appearances, manager).None?
    ensures PodiumsOf(appearances, manager) == TitlesOf(appearances, manager) == 0
  {
    if appearances != [] {
      AbsentCountsNothing(appearances[..|appearances| - 1], manager);
    }
  }

  /** Which managers have a record after one more appearance. */
  lemma OneMoreManager(rows: seq<TitleRow>, last: Row, manager: int)
    ensures Position(CountOne(rows, last), manager) < |CountOne(rows, last)|
            <==> Position(rows, manager) < |rows| || manager == last.manager
  {
    var k := Position(rows, last.manager);
    var after := CountOne(rows, last);
    var p, q := Position(rows, manager), Position(after, manager);
    if p < |rows| {
      assert after[p].manager == manager;
    }
    if q < |rows| {
      assert rows[q].manager == manager;
    }
    if manager == last.manager {
      assert after[k].manager == manager;
    }
  }

  lemma OneMoreRow(rows: seq<TitleRow>, init: seq<Row>, last: Row, i: nat)
    requires Tells(rows, init) && i < |CountOne(rows, last)|
    ensures Right(CountOne(rows, last)[i], init + [last])
  {
    assert (init + [last])[..|init|] == init;
    var k := Position(rows, last.manager);
    if i < |rows| {
      assert Right(rows[i], init);
      assert i != k ==> rows[i].manager != last.manager;
    } else {
      AbsentCountsNothing(init, last.manager);
    }
  }

  lemma TellsOneMore(rows: seq<TitleRow>, init: seq<Row>, last: Row)
    requires Tells(rows, init)
    ensures Tells(CountOne(rows, last), init + [last])
  {
    assert (init + [last])[..|init|] == init;
    assert NoManagerTwice(CountOne(rows, last));
    hide Right, NoManagerTwice;
    forall manager
      ensures FirstHandle(init + [last], manager).Some?
              <==> Position(CountOne(rows, last), manager) < |CountOne(rows, last)|
    {
      OneMoreManager(rows, last, manager);
    }
    hide Position, CountOne, Right, NoManagerTwice;
    forall i | 0 <= i < |CountOne(rows, last)| ensures Right(CountOne(rows, last)[i], init + [last]) {
      OneMoreRow(rows, init, last, i);
    }
  }

  function PodiumsIn(): TitleRow -> int { (r: TitleRow) => r.podiums }

  function TitlesIn(): TitleRow -> int { (r: TitleRow) => r.titles }

  function Winners(appearances: seq<Row>): nat {
    if appearances == [] then 0
    else Winners(appearances[..|appearances| - 1]) + One(appearances[|appearances| - 1].rank == 1)
  }

  /** Every place on a podium is somebody's, once; so is every title. */
  lemma {:induction false} CountsAddUp(appearances: seq<Row>)
    ensures Sum(CountAll(appearances), PodiumsIn()) == |appearances|
    ensures Sum(CountAll(appearances), TitlesIn()) == Winners(appearances)
  {
    if appearances != [] {
      var init, last := appearances[..|appearances| - 1], appearances[|appearances| - 1];
      CountsAddUp(init);
      var rows, after := CountAll(init), CountAll(appearances);
      var k := Position(rows, last.manager);
      if k < |rows| {
        SumUpdate(rows, PodiumsIn(), k, after[k]);
        SumUpdate(rows, TitlesIn(), k, after[k]);
      } else {
        assert after[..|rows|] == rows;
      }
    }
  }

  function PodiumSize(): Entry -> int { (e: Entry) => |e.podium| }

  lemma {:induction false} AppearancesSize(entries: seq<Entry>)
    ensures |Appearances(entries)| == Sum(entries, PodiumSize())
  {
    if entries != [] {
      AppearancesSize(entries[..|entries| - 1]);
    }
  }

  /** The podium counts add up to the podium sizes. */
  lemma PodiumCountsAreThePodiums(entries: seq<Entry>)
    ensures Sum(CountAll(Appearances(entries)), PodiumsIn()) == Sum(entries, PodiumSize())
  {
    CountsAddUp(Appearances(entries));
    AppearancesSize(entries);
  }

  // ---------------------------------------------------------------- the table

  /** One tournament's podium, counted on top of those before it. */
  method CountPodium(counted: seq<TitleRow>, ghost before: seq<Row>, podium: seq<Row>) returns (records: seq<TitleRow>)
    requires counted == CountAll(before)
    ensures records == CountAll(before + podium)
  {
    hide CountOne;
    records := counted;
    assert before + podium[..0] == before;
    for j := 0 to |podium|
      invariant records == CountAll(before + podium[..j])
    {
      assert (before + podium[..j + 1])[..|before| + j] == before + podium[..j];
      records := CountOne(records, podium[j]);
    }
    assert podium[..|podium|] == podium;
  }

  method CountRecords(entries: seq<Entry>) returns (records: seq<TitleRow>)
    ensures records == CountAll(Appearances(entries))
  {
    hide CountOne;
    records := [];
    for i := 0 to |entries|
      invariant records == CountAll(Appearances(entries[..i]))
    {
      hide CountAll;
      assert entries[..i + 1][..i] == entries[..i];
      records := CountPodium(records, Appearances(entries[..i]), entries[i].podium);
    }
    assert entries[..|entries|] == entries;
  }

  /** Counts in nested loops, then orders and ranks the records on titles and podiums together. */
  method Titles(entries: seq<Entry>) returns (rows: array<TitleRow>, ranks: array<nat>, ghost counted: seq<TitleRow>)
    ensures counted == CountAll(Appearances(entries)) && Tells(counted, Appearances(entries))
    ensures ranks.Length == rows.Length && rows[..] == Sort(ByTitles(), counted)
    ensures forall i :: 0 <= i < rows.Length ==> ranks[i] == RankOf(ByTitles(), counted, rows[i])
  {
    hide Tells, CountAll, Sort, RankOf, Appearances;
    var records := CountRecords(entries);
    CountsTell(Appearances(entries));
    counted := records;
    rows := new TitleRow[|records|](i requires 0 <= i < |records| => records[i]);
    assert rows[..] == records;
    ranks := CompetitionRank(ByTitles(), rows);
  }

  /** Newest tournament first, and the titles counted over them in that order. */
  method Build(completed: seq<Completed>)
    returns (entries: seq<Entry>, rows: array<TitleRow>, ranks: array<nat>, ghost counted: seq<TitleRow>)
    ensures multiset(entries) == multiset(Entries(completed)) && IsSorted(ByFinish(), entries)
    ensures Tells(counted, Appearances(entries))
    ensures Sum(counted, PodiumsIn()) == Sum(entries, PodiumSize())
    ensures ranks.Length == rows.Length && rows[..] == Sort(ByTitles(), counted)
    ensures forall i :: 0 <= i < rows.Length ==> ranks[i] == RankOf(ByTitles(), counted, rows[i])
  {
    hide Sort, RankOf, IsSorted, Tells, CountAll;
    entries := Sort(ByFinish(), Entries(completed));
    SortIsRight(ByFinish(), Entries(completed));
    rows, ranks, counted := Titles(entries);
    PodiumCountsAreThePodiums(entries);
  }

  // ---------------------------------------------------------------- podiums

  lemma {:induction false} PodiumIsTheRanking(rows: seq<Row>, all: seq<Row>)
    requires forall row :: row in rows ==> row.rank == RankOf(Leaderboard.ByTotal(), all, row)
    ensures OnPodium(rows) == Podium(Leaderboard.ByTotal(), rows, all, PODIUM_DEPTH)
  {
    hide RankOf;
    if rows != [] {
      PodiumIsTheRanking(rows[..|rows| - 1], all);
      assert rows[|rows| - 1] in rows;
    }
  }

  /** Of a board as the leaderboard finishes it, a podium is a prefix, and no tie is cut in two. */
  lemma PodiumIsTheTop(rows: seq<Row>)
    requires Leaderboard.Ranked(rows)
    ensures var p := OnPodium(rows);
      && p <= rows
      && (forall i :: 0 <= i < |rows| ==> (rows[i].rank <= PODIUM_DEPTH <==> i < |p|))
      && (forall i, j :: 0 <= i < |p| <= j < |rows| ==> rows[i].total > rows[j].total)
  {
    var view, p := Leaderboard.ByTotal(), OnPodium(rows);
    PodiumIsTheRanking(rows, rows);
    PodiumIsAPrefix(view, rows, |rows|, PODIUM_DEPTH);
    assert rows[..|rows|] == rows;
    forall i | 0 <= i < |rows| ensures rows[i].rank <= PODIUM_DEPTH <==> i < |p| {
      assert rows[i] in rows;
      if i < |p| {
        PodiumRanks(view, rows, rows, PODIUM_DEPTH, i);
        assert p[i] == rows[i];
      }
    }
    forall i, j | 0 <= i < |p| <= j < |rows| ensures rows[i].total > rows[j].total {
      assert view.mark(rows[i]).Beats(view.mark(rows[j]));
    }
  }

  // ---------------------------------------------------------------- what the orders mean

  /** More titles, or as many and more podiums. */
  predicate WonMore(a: TitleRow, b: TitleRow) { a.titles > b.titles || (a.titles == b.titles && a.podiums > b.podiums) }

  /** The titles table ranks strictly by what was won, and lists rows of a rank by name. */
  lemma TitlesFollowWins(counted: seq<TitleRow>, i: nat, j: nat)
    requires i < j < |Sort(ByTitles(), counted)|
    ensures var a, b := Sort(ByTitles(), counted)[i], Sort(ByTitles(), counted)[j];
      && !WonMore(b, a) && (WonMore(a, b) || a.handle <= b.handle)
      && (RankOf(ByTitles(), counted, a) < RankOf(ByTitles(), counted, b) <==> WonMore(a, b))
      && (RankOf(ByTitles(), counted, a) == RankOf(ByTitles(), counted, b) <==>
            a.titles == b.titles && a.podiums == b.podiums)
  {
    var rows := Sort(ByTitles(), counted);
    SortIsRight(ByTitles(), counted);
    assert rows[i] in multiset(counted) && rows[j] in multiset(counted);
    assert Before(ByTitles(), rows[i], rows[j]);
    RanksFollowScores(ByTitles(), counted, rows[i], rows[j]);
  }

  /** The day a tournament is listed under: its last, or its first when it has no last. */
  predicate FinishedLater(a: Entry, b: Entry) {
    var last, other := if a.endDate == None then a.startDate else a.endDate.value,
                       if b.endDate == None then b.startDate else b.endDate.value;
    last > other || (last == other && a.tournament > b.tournament)
  }

  /** Nothing listed finished later than what is listed above it. */
  lemma NewestComesFirst(entries: seq<Entry>, i: nat, j: nat)
    requires IsSorted(ByFinish(), entries) && i < j < |entries|
    ensures !FinishedLater(entries[j], entries[i])
  {
    assert Before(ByFinish(), entries[i], entries[j]);
  }

  function Above(total: int): Row -> int { (row: Row) => if row.total > total then 1 else 0 }

  lemma {:induction false} BetterIsAbove(rows: seq<Row>, total: int)
    ensures Better(Leaderboard.ByTotal(), rows, Mark(total, 0)) == Sum(rows, Above(total))
  {
    if rows != [] {
      BetterIsAbove(rows[..|rows| - 1], total);
    }
  }

  /** A finished board is by points and then by name, and a rank is one more than the rows with more points. */
  lemma BoardsFollowPoints(rows: seq<Row>, i: nat, j: nat)
    requires Leaderboard.Ranked(rows) && i < j < |rows|
    ensures rows[i].total > rows[j].total || (rows[i].total == rows[j].total && rows[i].handle <= rows[j].handle)
    ensures rows[i].rank == 1 + Sum(rows, Above(rows[i].total))
    ensures rows[j].rank == 1 + Sum(rows, Above(rows[j].total))
  {
    assert Before(Leaderboard.ByTotal(), rows[i], rows[j]);
    assert rows[i] in rows && rows[j] in rows;
    BetterIsAbove(rows, rows[i].total);
    BetterIsAbove(rows, rows[j].total);
  }

  /** A podium is the rows of rank one to three, and a title is a first place. */
  lemma {:induction false} PodiumsAreTheTopThree(rows: seq<Row>, row: Row)
    ensures multiset(OnPodium(rows))[row] == if row.rank <= 3 then multiset(rows)[row] else 0
  {
    if rows != [] {
      var init, last := rows[..|rows| - 1], rows[|rows| - 1];
      PodiumsAreTheTopThree(init, row);
      assert rows == init + [last];
    }
  }

  function WonBy(manager: int): Row -> int { (row: Row) => if row.manager == manager && row.rank == 1 then 1 else 0 }

  function PlacedBy(manager: int): Row -> int { (row: Row) => if row.manager == manager then 1 else 0 }

  lemma {:induction false} CountsAreSums(appearances: seq<Row>, manager: int)
    ensures TitlesOf(appearances, manager) == Sum(appearances, WonBy(manager))
    ensures PodiumsOf(appearances, manager) == Sum(appearances, PlacedBy(manager))
  {
    if appearances != [] {
      CountsAreSums(appearances[..|appearances| - 1], manager);
    }
  }

  function TitlesAt(manager: int): Entry -> int { (e: Entry) => Sum(e.podium, WonBy(manager)) }

  function PodiumsAt(manager: int): Entry -> int { (e: Entry) => Sum(e.podium, PlacedBy(manager)) }

  /** A manager's record is what its rows on the podiums come to, tournament by tournament. */
  lemma {:induction false} RecordsAreSums(entries: seq<Entry>, manager: int)
    ensures TitlesOf(Appearances(entries), manager) == Sum(entries, TitlesAt(manager))
    ensures PodiumsOf(Appearances(entries), manager) == Sum(entries, PodiumsAt(manager))
  {
    CountsAreSums(Appearances(entries), manager);
    if entries != [] {
      var init, last := entries[..|entries| - 1], entries[|entries| - 1];
      RecordsAreSums(init, manager);
      CountsAreSums(Appearances(init), manager);
      SumConcat(Appearances(init), last.podium, WonBy(manager));
      SumConcat(Appearances(init), last.podium, PlacedBy(manager));
    }
  }

  /** The name on a manager's record is the one it was first shown under. */
  lemma {:induction false} NamesAreTheFirst(appearances: seq<Row>, i: nat)
    requires i < |appearances| && forall k :: 0 <= k < i ==> appearances[k].manager != appearances[i].manager
    ensures FirstHandle(appearances, appearances[i].manager) == Some(appearances[i].handle)
    decreases |appearances|
  {
    var n := |appearances| - 1;
    if i < n {
      NamesAreTheFirst(appearances[..n], i);
    } else {
      NotShownYet(appearances[..n], appearances[i].manager);
    }
  }

  lemma {:induction false} NotShownYet(appearances: seq<Row>, manager: int)
    requires forall row :: row in appearances ==> row.manager != manager
    ensures FirstHandle(appearances, manager) == None
  {
    if appearances != [] {
      NotShownYet(appearances[..|appearances| - 1], manager);
    }
  }

  /** What is listed of a completed tournament: its dates, how many took part, and the podium of its board. */
  lemma EntriesTellTheirTournaments(completed: seq<Completed>, i: nat)
    requires i < |completed|
    ensures |Entries(completed)| == |completed|
    ensures var e, c := Entries(completed)[i], completed[i];
      && e.tournament == c.tournament && e.startDate == c.startDate && e.endDate == c.endDate
      && e.entrants == |c.rows|
      && forall row :: multiset(e.podium)[row] == if row.rank <= 3 then multiset(c.rows)[row] else 0
  {
    var c := completed[i];
    assert Entries(completed)[i].podium == OnPodium(c.rows);
    forall row: Row ensures multiset(OnPodium(c.rows))[row] == if row.rank <= 3 then multiset(c.rows)[row] else 0 {
      PodiumsAreTheTopThree(c.rows, row);
    }
  }
}
