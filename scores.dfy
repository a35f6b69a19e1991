/** The score ledger (mastermind.py, save_score and display_scores): one
    record per player name holding the player's wins and the guess count of
    the most recent save. The sqlite table is modelled as a map keyed by the
    player_name column, which the table declares UNIQUE. */
module Scores {

  /** The wins and guesses columns of one row of the scores table. */
  datatype Record = Record(wins: nat, guesses: int)

  /** A row as the listing returns it: player_name with its record. */
  type Entry = (string, Record)

  /** The table after save_score(name, guesses): a new name gets one win,
      a known name one win more, and either way the guess count is
      overwritten. */
  function AfterSave(table: map<string, Record>, name: string, guesses: int): map<string, Record> {
    if name in table then
      table[name := Record(table[name].wins + 1, guesses)]
    else
      table[name := Record(1, guesses)]
  }

  /** Every row of the table as an entry. */
  ghost function Entries(table: map<string, Record>): set<Entry> {
    set n | n in table :: (n, table[n])
  }

  /** The rows for the given names only. */
  ghost function EntriesOf(table: map<string, Record>, names: set<string>): set<Entry> {
    set n | n in names && n in table :: (n, table[n])
  }

  /** Ordered by wins, highest first; no order among equal wins. */
  predicate ByWinsDescending(rows: seq<Entry>) {
    forall i, j :: 0 <= i < j < |rows| ==> rows[i].1.wins >= rows[j].1.wins
  }

  /** What SELECT ... ORDER BY wins DESC may return for the table: every
      row exactly once, highest wins first. */
  ghost predicate IsListing(table: map<string, Record>, rows: seq<Entry>) {
    ByWinsDescending(rows) && multiset(rows) == multiset(Entries(table))
  }

  /** Places one more row into an ordered listing, after the rows with at
      least as many wins. */
  function InsertByWins(rows: seq<Entry>, e: Entry): (r: seq<Entry>)
    requires ByWinsDescending(rows)
    ensures ByWinsDescending(r)
    ensures multiset(r) == multiset(rows) + multiset{e}
    ensures |r| == |rows| + 1
    ensures r[0] == if rows != [] && rows[0].1.wins >= e.1.wins then rows[0] else e
  {
    if rows == [] then [e]
    else if rows[0].1.wins >= e.1.wins then
      var rest := InsertByWins(rows[1..], e);
      assert rows == [rows[0]] + rows[1..];
      PrependKeepsOrder(rows[0], rest);
      [rows[0]] + rest
    else
      PrependKeepsOrder(e, rows);
      [e] + rows
  }

  /** A row with at least the wins of the first row may go in front. */
  lemma PrependKeepsOrder(x: Entry, rows: seq<Entry>)
    requires ByWinsDescending(rows)
    requires rows != [] ==> x.1.wins >= rows[0].1.wins
    ensures ByWinsDescending([x] + rows)
  {
    var r := [x] + rows;
    forall i, j | 0 <= i < j < |r|
      ensures r[i].1.wins >= r[j].1.wins
    {
      assert r[j] == rows[j - 1];
      if i > 0 {
        assert r[i] == rows[i - 1];
      } else if j > 1 {
        assert rows[0].1.wins >= rows[j - 1].1.wins;
      }
    }
  }

  /** One name more: its row joins the selection. */
  lemma EntriesOfStep(table: map<string, Record>, names: set<string>, n: string)
    requires n in table && n !in names
    ensures EntriesOf(table, names + {n}) == EntriesOf(table, names) + {(n, table[n])}
    ensures (n, table[n]) !in EntriesOf(table, names)
  {
  }

  class Ledger {
    var scores: map<string, Record>

    /** Every stored record has at least one win: rows are created by a
        win and each later save adds one. */
    ghost predicate Valid()
      reads this
    {
      forall n :: n in scores ==> scores[n].wins >= 1
    }

    /** An empty scores table, as setup_database creates it. */
    constructor ()
      ensures Valid() && scores == map[]
    {
      scores := map[];
    }

    /** save_score: looks the name up, then updates its row or inserts one. */
    method SaveScore(name: string, guesses: int)
      requires Valid()
      modifies this
      ensures Valid()
      ensures scores == AfterSave(old(scores), name, guesses)
    {
      if name in scores {
        var wins := scores[name].wins + 1;
        scores := scores[name := Record(wins, guesses)];
      } else {
        scores := scores[name := Record(1, guesses)];
      }
    }

    /** display_scores' query: every row, ordered by wins descending. */
    method DisplayScores() returns (rows: seq<Entry>)
      ensures IsListing(scores, rows)
    {
      var rest := scores.Keys;
      rows := [];
      while rest != {}
        invariant rest <= scores.Keys
        invariant ByWinsDescending(rows)
        invariant multiset(rows) == multiset(EntriesOf(scores, scores.Keys - rest))
        decreases rest
      {
        var n :| n in rest;
        EntriesOfStep(scores, scores.Keys - rest, n);
        assert scores.Keys - (rest - {n}) == (scores.Keys - rest) + {n};
        rows := InsertByWins(rows, (n, scores[n]));
        rest := rest - {n};
      }
      assert EntriesOf(scores, scores.Keys) == Entries(scores);
    }
  }

  /** Saving touches only the saved name's record. */
  lemma SaveKeepsOthers(table: map<string, Record>, name: string, guesses: int, other: string)
    requires other != name
    ensures other in AfterSave(table, name, guesses) <==> other in table
    ensures other in table ==> AfterSave(table, name, guesses)[other] == table[other]
  {
  }

  /** Saving a name adds exactly one win to its record and replaces, never
      sums, its guess count. */
  lemma SaveRecord(table: map<string, Record>, name: string, guesses: int)
    ensures name in AfterSave(table, name, guesses)
    ensures AfterSave(table, name, guesses)[name].guesses == guesses
    ensures AfterSave(table, name, guesses)[name].wins
         == (if name in table then table[name].wins else 0) + 1
  {
  }

  /** Two wins by the same player: wins 1 then 2, guesses 7 then 4. */
  lemma SaveTwice()
    ensures AfterSave(map[], "Alice", 7) == map["Alice" := Record(1, 7)]
    ensures AfterSave(AfterSave(map[], "Alice", 7), "Alice", 4) == map["Alice" := Record(2, 4)]
  {
  }

  /** A listing holds each stored record exactly once and nothing else. */
  lemma {:induction false} ListingRows(table: map<string, Record>, rows: seq<Entry>)
    requires IsListing(table, rows)
    ensures forall n :: n in table ==> multiset(rows)[(n, table[n])] == 1
    ensures forall i :: 0 <= i < |rows| ==> rows[i].0 in table && table[rows[i].0] == rows[i].1
  {
    forall n | n in table
      ensures multiset(rows)[(n, table[n])] == 1
    {
      assert (n, table[n]) in Entries(table);
    }
    forall i | 0 <= i < |rows|
      ensures rows[i].0 in table && table[rows[i].0] == rows[i].1
    {
      assert rows[i] in multiset(rows);
      assert rows[i] in Entries(table);
    }
  }

  /** Players with 3, 1 and 2 wins are listed with 3, 2, 1 wins. */
  lemma ListingExample(rows: seq<Entry>)
    requires IsListing(map["A" := Record(3, 5), "B" := Record(1, 9), "C" := Record(2, 6)], rows)
    ensures |rows| == 3
    ensures rows[0].1.wins == 3 && rows[1].1.wins == 2 && rows[2].1.wins == 1
  {
    var table := map["A" := Record(3, 5), "B" := Record(1, 9), "C" := Record(2, 6)];
    var a, b, c := ("A", Record(3, 5)), ("B", Record(1, 9)), ("C", Record(2, 6));
    assert table.Keys == {"A", "B", "C"};
    assert Entries(table) == {a, b, c} by {
      assert a in Entries(table) && b in Entries(table) && c in Entries(table);
    }
    assert multiset(rows) == multiset{a, b, c};
    assert |rows| == 3;
    ListingRows(table, rows);
    assert a in multiset(rows) && b in multiset(rows) && c in multiset(rows);
    assert rows[0].1.wins == 3;
    assert rows[2].1.wins == 1;
  }
}
