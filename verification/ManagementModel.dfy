/**
 * The management view that consumes enrichment results: `src/host/management_model.cpp`. Results
 * arrive one at a time in completion order; the view does not depend on that order.
 */
module ManagementModel {
  import opened Bytes
  import ApaScan
  import Enrichment = HdlEnrichment

  datatype Kind = Free | Pfs | Hdl | Other

  datatype CatalogEntry = CatalogEntry(isSub: bool, kind: Kind, startLba: U32)

  datatype EnrichmentState = NotApplicable | Pending | Ready | Failed

  type GameResult = Enrichment.GameResult

  datatype Row = Row(partition: CatalogEntry, state: EnrichmentState, game: Option<string>, error: string)

  datatype Progress = Progress(total: nat, pending: nat, ready: nat, failed: nat)

  predicate IsHdlRow(e: CatalogEntry) {
    !e.isSub && e.kind == Hdl
  }

  function Count(rows: seq<Row>, state: EnrichmentState): nat {
    if rows == [] then 0
    else Count(rows[..|rows| - 1], state) + (if rows[|rows| - 1].state == state then 1 else 0)
  }

  /** The counters a row list calls for. */
  function ProgressOf(rows: seq<Row>): Progress {
    var p, r, f := Count(rows, Pending), Count(rows, Ready), Count(rows, Failed);
    Progress(p + r + f, p, r, f)
  }

  lemma {:induction false} CountUpdate(rows: seq<Row>, i: nat, row: Row, state: EnrichmentState)
    requires i < |rows|
    ensures Count(rows[i := row], state) + (if rows[i].state == state then 1 else 0)
         == Count(rows, state) + (if row.state == state then 1 else 0)
  {
    var front := rows[..|rows| - 1];
    if i == |rows| - 1 {
      assert rows[i := row][..|rows| - 1] == front;
    } else {
      CountUpdate(front, i, row, state);
      assert rows[i := row][..|rows| - 1] == front[i := row];
    }
  }

  lemma {:induction false} CountSnoc(rows: seq<Row>, row: Row, state: EnrichmentState)
    ensures Count(rows + [row], state) == Count(rows, state) + (if row.state == state then 1 else 0)
  {
    assert (rows + [row])[..|rows|] == rows;
  }

  lemma {:induction false} CountPositive(rows: seq<Row>, i: nat)
    requires i < |rows|
    ensures Count(rows, rows[i].state) > 0
  {
    if i < |rows| - 1 {
      CountPositive(rows[..|rows| - 1], i);
    }
  }

  function Places(rows: seq<Row>, state: EnrichmentState): set<nat> {
    set i: nat | i < |rows| && rows[i].state == state
  }

  /** The counters count rows. */
  lemma {:induction false} CountIsCardinality(rows: seq<Row>, state: EnrichmentState)
    ensures Count(rows, state) == |Places(rows, state)|
  {
    if rows != [] {
      var n, front := |rows| - 1, rows[..|rows| - 1];
      CountIsCardinality(front, state);
      assert Places(rows, state) == Places(front, state) + if rows[n].state == state then {n} else {};
    }
  }

  /** What one result does to the row it belongs to. */
  function Enriched(row: Row, result: GameResult): Row {
    if result.ok then row.(state := Ready, game := Some(result.text), error := "")
    else row.(state := Failed, game := None, error := result.text)
  }

  /** Results for unknown partitions change nothing. */
  function Apply(rows: seq<Row>, index: map<U32, nat>, result: GameResult): seq<Row>
    requires IndexOk(rows, index)
  {
    if result.lba in index then
      var i := index[result.lba];
      rows[i := Enriched(rows[i], result)]
    else rows
  }

  /** The index maps the start LBA of an HDL row to the first row with that LBA. */
  predicate IndexOk(rows: seq<Row>, index: map<U32, nat>) {
    && (forall lba :: lba in index ==>
          && index[lba] < |rows| && IsHdlRow(rows[index[lba]].partition) && rows[index[lba]].partition.startLba == lba)
    && (forall i :: 0 <= i < |rows| && IsHdlRow(rows[i].partition) ==>
          rows[i].partition.startLba in index && index[rows[i].partition.startLba] <= i)
  }

  /** Exactly the HDL rows take part in enrichment. */
  predicate StatesOk(rows: seq<Row>) {
    forall i :: 0 <= i < |rows| ==> (rows[i].state == NotApplicable <==> !IsHdlRow(rows[i].partition))
  }

  function FirstRow(entry: CatalogEntry): Row {
    Row(entry, if IsHdlRow(entry) then Pending else NotApplicable, None, "")
  }

  lemma IndexGrows(rows: seq<Row>, index: map<U32, nat>, entry: CatalogEntry)
    requires IndexOk(rows, index) && StatesOk(rows)
    ensures StatesOk(rows + [FirstRow(entry)])
    ensures IndexOk(rows + [FirstRow(entry)],
                    if IsHdlRow(entry) && entry.startLba !in index then index[entry.startLba := |rows|] else index)
  {
  }

  lemma IndexStays(rows: seq<Row>, index: map<U32, nat>, result: GameResult)
    requires IndexOk(rows, index) && StatesOk(rows)
    ensures result.lba in index ==> index[result.lba] < |rows| && rows[index[result.lba]].state != NotApplicable
    ensures IndexOk(Apply(rows, index, result), index) && StatesOk(Apply(rows, index, result))
  {
  }

  class ManagementModel {
    var rows: seq<Row>
    var hdlRowsByLba: map<U32, nat>
    var progress: Progress

    /** In every reachable state the counters are the numbers of rows in each state. */
    ghost predicate Valid()
      reads this
    {
      && IndexOk(rows, hdlRowsByLba)
      && progress == ProgressOf(rows)
      && StatesOk(rows)
    }

    constructor (entries: seq<CatalogEntry>)
      ensures Valid()
      ensures |rows| == |entries|
      ensures forall i :: 0 <= i < |rows| ==> rows[i] == FirstRow(entries[i])
      ensures forall i :: 0 <= i < |rows| ==>
        && rows[i].partition == entries[i] && rows[i].game == None && rows[i].error == ""
        && rows[i].state == if !entries[i].isSub && entries[i].kind == Hdl then Pending else NotApplicable
    {
      rows := [];
      hdlRowsByLba := map[];
      progress := Progress(0, 0, 0, 0);
      new;
      hide IndexOk, ProgressOf, StatesOk;
      for k := 0 to |entries|
        invariant Valid() && |rows| == k
        invariant forall i :: 0 <= i < k ==> rows[i] == FirstRow(entries[i])
      {
        AddRow(entries[k]);
      }
    }

    method AddRow(entry: CatalogEntry)
      requires Valid()
      modifies this
      ensures Valid() && rows == old(rows) + [FirstRow(entry)]
    {
      hide Count, IndexOk, StatesOk;
      IndexGrows(rows, hdlRowsByLba, entry);
      if IsHdlRow(entry) {
        if entry.startLba !in hdlRowsByLba {
          hdlRowsByLba := hdlRowsByLba[entry.startLba := |rows|];
        }
        progress := progress.(total := progress.total + 1, pending := progress.pending + 1);
      }
      var row := FirstRow(entry);
      CountSnoc(rows, row, Pending);
      CountSnoc(rows, row, Ready);
      CountSnoc(rows, row, Failed);
      rows := rows + [row];
    }

    /** Applies one result; the counters follow the row from its old state to its new one. */
    method ApplyHdlResult(result: GameResult) returns (updated: Option<nat>)
      requires Valid()
      modifies this
      ensures Valid()
      ensures hdlRowsByLba == old(hdlRowsByLba) && progress.total == old(progress.total)
      ensures rows == Apply(old(rows), hdlRowsByLba, result)
      ensures updated == if result.lba in hdlRowsByLba then Some(hdlRowsByLba[result.lba]) else None
    {
      hide Count, IndexOk, StatesOk;
      IndexStays(rows, hdlRowsByLba, result);
      if result.lba !in hdlRowsByLba {
        return None;
      }
      var index := hdlRowsByLba[result.lba];
      var row := rows[index];
      CountPositive(rows, index);
      if row.state == Pending && progress.pending != 0 {
        progress := progress.(pending := progress.pending - 1);
      } else if row.state == Ready && progress.ready != 0 {
        progress := progress.(ready := progress.ready - 1);
      } else if row.state == Failed && progress.failed != 0 {
        progress := progress.(failed := progress.failed - 1);
      }
      row := row.(game := None, error := "");
      if result.ok {
        row := row.(state := Ready, game := Some(result.text));
        progress := progress.(ready := progress.ready + 1);
      } else {
        row := row.(state := Failed, error := result.text);
        progress := progress.(failed := progress.failed + 1);
      }
      CountUpdate(rows, index, row, Pending);
      CountUpdate(rows, index, row, Ready);
      CountUpdate(rows, index, row, Failed);
      rows := rows[index := row];
      return Some(index);
    }
  }

  // ---- order independence ----

  function ApplyAll(rows: seq<Row>, index: map<U32, nat>, results: seq<GameResult>): (r: seq<Row>)
    requires IndexOk(rows, index)
    ensures IndexOk(r, index) && |r| == |rows|
  {
    if results == [] then rows
    else Apply(ApplyAll(rows, index, results[..|results| - 1]), index, results[|results| - 1])
  }

  ghost predicate DistinctLbas(results: seq<GameResult>) {
    forall i, j :: 0 <= i < j < |results| ==> results[i].lba != results[j].lba
  }

  /** A row after all results: the one result for its LBA decides, or nothing happened to it. */
  lemma {:induction false} RowAfter(rows: seq<Row>, index: map<U32, nat>, results: seq<GameResult>, i: nat)
    requires IndexOk(rows, index) && DistinctLbas(results) && i < |rows|
    ensures forall k :: 0 <= k < |results| && results[k].lba in index && index[results[k].lba] == i ==>
      ApplyAll(rows, index, results)[i] == Enriched(rows[i], results[k])
    ensures (forall k :: 0 <= k < |results| && results[k].lba in index ==> index[results[k].lba] != i) ==>
      ApplyAll(rows, index, results)[i] == rows[i]
    ensures ApplyAll(rows, index, results)[i].partition == rows[i].partition
  {
    if results != [] {
      var front, last := results[..|results| - 1], results[|results| - 1];
      assert forall k :: 0 <= k < |front| ==> front[k] == results[k];
      RowAfter(rows, index, front, i);
      forall k | 0 <= k < |results| && results[k].lba in index && index[results[k].lba] == i
        ensures ApplyAll(rows, index, results)[i] == Enriched(rows[i], results[k])
      {
        assert results[k].lba == rows[i].partition.startLba;
        if k == |results| - 1 {
          assert forall q :: 0 <= q < |front| && front[q].lba in index ==> index[front[q].lba] != i;
        } else {
          assert front[k] == results[k] && last.lba != results[k].lba;
        }
      }
    }
  }

  /** After all results the row of each shows a game exactly when it was read, and its error otherwise. */
  lemma {:induction false} RowShowsResult(rows: seq<Row>, index: map<U32, nat>, results: seq<GameResult>, k: nat)
    requires IndexOk(rows, index) && DistinctLbas(results) && k < |results| && results[k].lba in index
    ensures var row := ApplyAll(rows, index, results)[index[results[k].lba]];
      && row.partition.startLba == results[k].lba && IsHdlRow(row.partition)
      && (results[k].ok ==> row.state == Ready && row.game == Some(results[k].text) && row.error == "")
      && (!results[k].ok ==> row.state == Failed && row.game == None && row.error == results[k].text)
  {
    hide ApplyAll;
    RowAfter(rows, index, results, index[results[k].lba]);
  }

  /**
   * Re-applying a result that has already arrived, whatever has arrived since for other partitions,
   * changes no row and no counter.
   */
  lemma {:induction false} ReapplyChangesNothing(rows: seq<Row>, index: map<U32, nat>, results: seq<GameResult>,
                                                 result: GameResult)
    requires IndexOk(rows, index) && DistinctLbas(results) && result in results
    ensures Apply(ApplyAll(rows, index, results), index, result) == ApplyAll(rows, index, results)
    ensures ProgressOf(Apply(ApplyAll(rows, index, results), index, result))
         == ProgressOf(ApplyAll(rows, index, results))
  {
    hide ApplyAll, IndexOk, Count;
    var k :| 0 <= k < |results| && results[k] == result;
    if result.lba in index {
      IndexedRow(rows, index, result.lba);
      RowAfter(rows, index, results, index[result.lba]);
    }
  }

  lemma IndexedRow(rows: seq<Row>, index: map<U32, nat>, lba: U32)
    requires IndexOk(rows, index) && lba in index
    ensures index[lba] < |rows|
  {
  }

  /** Results with distinct LBAs give the same rows and counters in any completion order. */
  lemma {:induction false} Confluent(rows: seq<Row>, index: map<U32, nat>, a: seq<GameResult>, b: seq<GameResult>)
    requires IndexOk(rows, index) && DistinctLbas(a) && DistinctLbas(b)
    requires forall r :: r in a <==> r in b
    ensures ApplyAll(rows, index, a) == ApplyAll(rows, index, b)
    ensures ProgressOf(ApplyAll(rows, index, a)) == ProgressOf(ApplyAll(rows, index, b))
  {
    forall i | 0 <= i < |rows| ensures ApplyAll(rows, index, a)[i] == ApplyAll(rows, index, b)[i] {
      RowAfter(rows, index, a, i);
      RowAfter(rows, index, b, i);
      if k :| 0 <= k < |a| && a[k].lba in index && index[a[k].lba] == i {
        assert a[k] in b;
        var q :| 0 <= q < |b| && b[q] == a[k];
      } else {
        forall q | 0 <= q < |b| && b[q].lba in index ensures index[b[q].lba] != i {
          assert b[q] in a;
          var k :| 0 <= k < |a| && a[k] == b[q];
        }
      }
    }
  }

  /** When every HDL row's result has arrived and row LBAs differ, nothing is pending. */
  lemma {:induction false} AllArrived(rows: seq<Row>, index: map<U32, nat>, results: seq<GameResult>)
    requires IndexOk(rows, index) && DistinctLbas(results)
    requires StatesOk(rows)
    requires forall i, j :: 0 <= i < j < |rows| && IsHdlRow(rows[i].partition) && IsHdlRow(rows[j].partition) ==>
      rows[i].partition.startLba != rows[j].partition.startLba
    requires forall i :: 0 <= i < |rows| && IsHdlRow(rows[i].partition) ==>
      exists k :: 0 <= k < |results| && results[k].lba == rows[i].partition.startLba
    ensures ProgressOf(ApplyAll(rows, index, results)).pending == 0
  {
    var after := ApplyAll(rows, index, results);
    forall i | 0 <= i < |after| ensures after[i].state != Pending {
      RowAfter(rows, index, results, i);
      if IsHdlRow(rows[i].partition) {
        var k :| 0 <= k < |results| && results[k].lba == rows[i].partition.startLba;
        assert index[results[k].lba] == i;
      } else {
        assert forall k :: 0 <= k < |results| && results[k].lba in index ==> index[results[k].lba] != i;
      }
    }
    CountZero(after, Pending);
  }

  lemma {:induction false} CountZero(rows: seq<Row>, state: EnrichmentState)
    requires forall i :: 0 <= i < |rows| ==> rows[i].state != state
    ensures Count(rows, state) == 0
  {
    if rows != [] {
      CountZero(rows[..|rows| - 1], state);
    }
  }

  // ---- fed by the scheduler ----

  function Games(reports: seq<Enrichment.Report>): (r: seq<GameResult>)
    ensures |r| == |reports|
  {
    seq(|reports|, (i: nat) requires i < |reports| => reports[i].game)
  }

  /**
   * A view fed from the callbacks of any parallel run, in the order they happened to come, ends up
   * as if it had been fed the serial catalog entries of the same partitions one after another.
   */
  lemma {:induction false} ViewIgnoresScheduling(rows: seq<Row>, index: map<U32, nat>, parse: Enrichment.Parser,
                                                order: seq<ApaScan.Partition>, s: Enrichment.State)
    requires IndexOk(rows, index)
    requires Enrichment.Inv(parse, order, s) && Enrichment.Joined(s)
    requires Enrichment.DistinctStarts(order) && forall i :: 0 <= i < |order| ==> parse(order[i]).lba == order[i].start
    ensures var entries := Enrichment.CatalogPrefix(parse, order, Enrichment.Claimed(order, s)).entries;
      ApplyAll(rows, index, Games(s.reports)) == ApplyAll(rows, index, entries)
  {
    hide ApplyAll, IndexOk, Enrichment.Inv, Enrichment.Joined, Enrichment.CountOk;
    var k := Enrichment.Claimed(order, s);
    var games, entries := Games(s.reports), Enrichment.CatalogPrefix(parse, order, k).entries;
    Enrichment.ReportedGames(parse, order, s);
    assert forall i :: 0 <= i < k ==> entries[i] == parse(order[i]);
    assert forall i :: 0 <= i < |games| ==> s.reports[i] in s.reports && games[i] == s.reports[i].game;
    forall i, j | 0 <= i < j < |games| ensures games[i].lba != games[j].lba {
      assert s.reports[i].index != s.reports[j].index;
    }
    forall g | g in entries ensures g in games {
      var i :| 0 <= i < k && entries[i] == g;
      assert Enrichment.Reported(s.reports, i);
      var r :| 0 <= r < |s.reports| && s.reports[r].index == i;
      assert games[r] == g;
    }
    forall g | g in games ensures g in entries {
      var r :| 0 <= r < |games| && games[r] == g;
      assert entries[s.reports[r].index] == g;
    }
    Confluent(rows, index, games, entries);
  }
}
