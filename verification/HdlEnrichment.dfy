/**
 * The HDL metadata scheduler: `src/host/hdl_enrichment.cpp`, and the serial catalog of
 * `src/core/hdl.cpp` it must agree with. Workers claim indices with an atomic counter, fill result
 * slots, and may be cancelled at any moment; atomics are atomic steps here.
 */
module HdlEnrichment {
  import opened Bytes
  import opened ApaScan

  const TYPE_HDL: U16 := 0x1337

  /** What parsing one HDL partition yields; `text` stands for the remaining metadata fields. */
  datatype GameResult = GameResult(ok: bool, lba: U32, text: string)

  /** Parsing is a deterministic function of the partition on an immutable device. */
  type Parser = Partition -> GameResult

  datatype Catalog = Catalog(entries: seq<GameResult>, total: nat, readable: nat, unreadable: nat, cancelled: bool)

  /** One call of the progress callback; `index` is the place of the game's partition in LBA order. */
  datatype Report = Report(done: nat, index: nat, game: GameResult)

  // ---- the order in which partitions are read ----

  predicate IsHdlMain(p: Partition) {
    !p.IsSub() && p.kind == TYPE_HDL
  }

  function HdlMains(ps: seq<Partition>): seq<Partition> {
    if ps == [] then [] else (if IsHdlMain(ps[0]) then [ps[0]] else []) + HdlMains(ps[1..])
  }

  /** A result of sorting the HDL main partitions by start LBA; ties are in no particular order. */
  ghost predicate IsLbaOrder(ps: seq<Partition>, order: seq<Partition>) {
    && multiset(order) == multiset(HdlMains(ps))
    && SortedByStart(order)
  }

  ghost predicate DistinctStarts(s: seq<Partition>) {
    forall i, j :: 0 <= i < j < |s| ==> s[i].start != s[j].start
  }

  ghost predicate SortedByStart(s: seq<Partition>) {
    forall i, j :: 0 <= i < j < |s| ==> s[i].start <= s[j].start
  }

  /** Partitions that start at the same LBA are the same. */
  ghost predicate TiesAgree(s: seq<Partition>) {
    forall i, j :: 0 <= i < j < |s| && s[i].start == s[j].start ==> s[i] == s[j]
  }

  lemma SameHead(a: seq<Partition>, b: seq<Partition>)
    requires multiset(a) == multiset(b) && TiesAgree(a) && a != [] && b != []
    requires SortedByStart(a) && SortedByStart(b)
    ensures a[0] == b[0]
  {
    assert a[0] in multiset(b) && b[0] in multiset(a);
    var i :| 0 <= i < |b| && b[i] == a[0];
    var j :| 0 <= j < |a| && a[j] == b[0];
    assert b[0].start <= b[i].start;
    assert a[0].start == a[j].start;
    assert j == 0 || a[0] == a[j];
  }

  lemma DropHead(s: seq<Partition>)
    requires s != []
    ensures multiset(s[1..]) == multiset(s) - multiset{s[0]}
    ensures s == [s[0]] + s[1..]
  {
    assert s == [s[0]] + s[1..];
  }

  /** Two sorted arrangements of the same partitions are equal when ties agree. */
  lemma {:induction false} SortedUnique(a: seq<Partition>, b: seq<Partition>)
    requires multiset(a) == multiset(b) && TiesAgree(a)
    requires SortedByStart(a) && SortedByStart(b)
    ensures a == b
  {
    assert |a| == |multiset(a)| == |multiset(b)| == |b|;
    if a != [] {
      SameHead(a, b);
      DropHead(a);
      DropHead(b);
      SortedUnique(a[1..], b[1..]);
    }
  }

  /** Exchanging two partitions with the same start LBA leaves the list sorted. */
  lemma SwapStaysSorted(a: seq<Partition>, i: nat, j: nat)
    requires SortedByStart(a) && i < j < |a| && a[i].start == a[j].start
    ensures var b := a[i := a[j]][j := a[i]]; SortedByStart(b) && multiset(b) == multiset(a)
  {
    var b := a[i := a[j]][j := a[i]];
    assert forall k :: 0 <= k < |a| ==> b[k].start == a[k].start;
  }

  /**
   * The sort is not stable, so the order is determined exactly when no two different HDL partitions
   * start at the same LBA.
   */
  lemma LbaOrderUniqueIff(ps: seq<Partition>, a: seq<Partition>)
    requires IsLbaOrder(ps, a)
    ensures (forall b :: IsLbaOrder(ps, b) ==> b == a) <==> TiesAgree(a)
  {
    hide HdlMains, SortedByStart;
    if TiesAgree(a) {
      forall b | IsLbaOrder(ps, b) ensures b == a {
        SortedUnique(a, b);
      }
    } else {
      var i, j :| 0 <= i < j < |a| && a[i].start == a[j].start && a[i] != a[j];
      SwapStaysSorted(a, i, j);
      var b := a[i := a[j]][j := a[i]];
      assert IsLbaOrder(ps, b) && b[i] != a[i];
    }
  }

  /** The HDL main partitions by start LBA, with ties in an arbitrary order. */
  method HdlMainsByLba(ps: seq<Partition>) returns (order: seq<Partition>)
    ensures IsLbaOrder(ps, order)
  {
    hide HdlMains, IsHdlMain;
    order := [];
    assert ps[0..] == ps;
    for i := 0 to |ps|
      invariant SortedByStart(order)
      invariant multiset(order) + multiset(HdlMains(ps[i..])) == multiset(HdlMains(ps))
    {
      MainsFrom(ps, i);
      if IsHdlMain(ps[i]) {
        order := InsertByStart(order, ps[i]);
      }
    }
    NoMains();
    assert ps[|ps|..] == [];
  }

  lemma NoMains()
    ensures HdlMains([]) == []
  {
  }

  lemma MainsFrom(ps: seq<Partition>, i: nat)
    requires i < |ps|
    ensures multiset(HdlMains(ps[i..])) ==
      (if IsHdlMain(ps[i]) then multiset{ps[i]} else multiset{}) + multiset(HdlMains(ps[i + 1..]))
  {
    hide IsHdlMain;
    assert ps[i..][0] == ps[i] && ps[i..][1..] == ps[i + 1..];
  }

  method InsertByStart(order: seq<Partition>, p: Partition) returns (r: seq<Partition>)
    requires SortedByStart(order)
    ensures SortedByStart(r) && multiset(r) == multiset(order) + multiset{p}
  {
    hide SortedByStart;
    var k := 0;
    while k < |order| && order[k].start <= p.start
      invariant k <= |order| && (k > 0 ==> order[k - 1].start <= p.start)
    {
      if order[k].start == p.start {
        var before: bool := *;
        if before {
          break;
        }
      }
      k := k + 1;
    }
    r := order[..k] + [p] + order[k..];
    assert order == order[..k] + order[k..];
    InsertedSorted(order, k, p);
  }

  lemma InsertedSorted(order: seq<Partition>, k: nat, p: Partition)
    requires SortedByStart(order) && k <= |order|
    requires (k > 0 ==> order[k - 1].start <= p.start) && (k < |order| ==> p.start <= order[k].start)
    ensures SortedByStart(order[..k] + [p] + order[k..])
  {
    var r := order[..k] + [p] + order[k..];
    var starts := seq(|r|, (i: nat) requires i < |r| => r[i].start);
    forall i | 0 <= i < |r|
      ensures starts[i] == if i < k then order[i].start else if i == k then p.start else order[i - 1].start
    {
    }
    forall i, j | 0 <= i < j < |r| ensures starts[i] <= starts[j] {
    }
  }

  lemma {:induction false} HdlMainsHold(ps: seq<Partition>, p: Partition)
    ensures multiset(HdlMains(ps))[p] == if p.flags % 2 == 0 && p.kind == 0x1337 then multiset(ps)[p] else 0
  {
    if ps != [] {
      HdlMainsHold(ps[1..], p);
      assert ps == [ps[0]] + ps[1..];
      assert multiset(HdlMains(ps)) ==
        (if IsHdlMain(ps[0]) then multiset{ps[0]} else multiset{}) + multiset(HdlMains(ps[1..]));
    }
  }

  /** What is read are the main partitions of type 0x1337, each as often as the scan lists it, and nothing else. */
  lemma OrderHoldsHdlMains(ps: seq<Partition>, order: seq<Partition>, p: Partition)
    requires IsLbaOrder(ps, order)
    ensures multiset(order)[p] == if p.flags % 2 == 0 && p.kind == 0x1337 then multiset(ps)[p] else 0
  {
    HdlMainsHold(ps, p);
  }

  // ---- the serial reference ----

  function CountOk(games: seq<GameResult>): nat {
    if games == [] then 0 else CountOk(games[..|games| - 1]) + (if games[|games| - 1].ok then 1 else 0)
  }

  lemma {:induction false} CountOkBound(games: seq<GameResult>)
    ensures CountOk(games) <= |games|
  {
    if games != [] {
      CountOkBound(games[..|games| - 1]);
    }
  }

  function OkPlaces(games: seq<GameResult>): set<nat> {
    set i: nat | i < |games| && games[i].ok
  }

  lemma {:induction false} CountOkIsCardinality(games: seq<GameResult>)
    ensures CountOk(games) == |OkPlaces(games)|
  {
    if games != [] {
      var n, front := |games| - 1, games[..|games| - 1];
      CountOkIsCardinality(front);
      assert OkPlaces(games) == OkPlaces(front) + if games[n].ok then {n} else {};
    }
  }

  function Parsed(parse: Parser, order: seq<Partition>): (r: seq<GameResult>)
    ensures |r| == |order|
  {
    seq(|order|, (i: nat) requires i < |order| => parse(order[i]))
  }

  /** The catalog of the first `k` partitions in LBA order. */
  function CatalogPrefix(parse: Parser, order: seq<Partition>, k: nat): Catalog
    requires k <= |order|
  {
    var entries := Parsed(parse, order[..k]);
    CountOkBound(entries);
    Catalog(entries, |order|, CountOk(entries), k - CountOk(entries), k < |order|)
  }

  /** The callbacks a serial read of the first `k` partitions makes. */
  function SerialReports(parse: Parser, order: seq<Partition>, k: nat): seq<Report>
    requires k <= |order|
  {
    seq(k, (i: nat) requires i < k => Report(i + 1, i, parse(order[i])))
  }

  lemma PrefixSnoc(parse: Parser, order: seq<Partition>, k: nat)
    requires k < |order|
    ensures Parsed(parse, order[..k + 1]) == Parsed(parse, order[..k]) + [parse(order[k])]
    ensures CountOk(Parsed(parse, order[..k + 1]))
         == CountOk(Parsed(parse, order[..k])) + (if parse(order[k]).ok then 1 else 0)
  {
    var longer := Parsed(parse, order[..k + 1]);
    assert longer[..k] == Parsed(parse, order[..k]);
  }

  /** The catalog is that of the first `k` HDL main partitions in an LBA order. */
  ghost predicate ReadUpTo(parse: Parser, ps: seq<Partition>, order: seq<Partition>, k: nat, catalog: Catalog) {
    IsLbaOrder(ps, order) && k <= |order| && catalog == CatalogPrefix(parse, order, k)
  }

  /** Reads in LBA order until done or until a stop request is seen between two partitions. */
  method ReadCatalog(parse: Parser, ps: seq<Partition>, mayStop: bool)
    returns (catalog: Catalog, reports: seq<Report>)
    ensures exists order, k ::
      ReadUpTo(parse, ps, order, k, catalog) && reports == SerialReports(parse, order, k) && (mayStop || k == |order|)
  {
    hide CountOk, Parsed, IsLbaOrder;
    var order := HdlMainsByLba(ps);
    catalog := Catalog([], |order|, 0, 0, false);
    reports := [];
    var stopRequested := false;
    for k := 0 to |order|
      invariant catalog == CatalogPrefix(parse, order, k).(cancelled := false)
      invariant reports == SerialReports(parse, order, k)
    {
      if mayStop && !stopRequested {
        stopRequested := *;
      }
      if stopRequested {
        catalog := catalog.(cancelled := true);
        assert ReadUpTo(parse, ps, order, k, catalog);
        return;
      }
      var game := parse(order[k]);
      PrefixSnoc(parse, order, k);
      catalog := catalog.(
        readable := catalog.readable + (if game.ok then 1 else 0),
        unreadable := catalog.unreadable + (if game.ok then 0 else 1),
        entries := catalog.entries + [game]);
      reports := reports + [Report(|catalog.entries|, k, game)];
    }
    assert ReadUpTo(parse, ps, order, |order|, catalog);
  }

  // ---- the policy ----

  datatype Media = Unknown | Rotational | SolidState

  function ChooseMaxInFlight(media: Media, candidates: nat, overrideCount: nat): (r: nat)
    ensures r <= candidates && (r == 0 <==> candidates == 0)
    ensures overrideCount == 0 && media != SolidState ==> r <= 1
    ensures overrideCount == 0 && media == SolidState ==> r <= 4 && (r < 4 ==> r == candidates)
    ensures overrideCount != 0 ==> r <= overrideCount && (r < overrideCount ==> r == candidates)
  {
    if candidates == 0 then 0
    else if overrideCount != 0 then Min(overrideCount, candidates)
    else if media == SolidState then Min(4, candidates)
    else 1
  }

  // ---- the worker protocol ----

  datatype Worker =
    | Ready                             // about to test the stop token
    | Claiming                          // about to fetch-add `next`
    | Reading(index: nat)               // owns an index, slot still empty
    | Stored(index: nat)                // slot filled, about to fetch-add `completed`
    | Reporting(index: nat, done: nat)  // about to call the progress callback
    | Exited

  datatype State = State(
    next: nat, completed: nat, results: seq<Option<GameResult>>, stop: bool,
    workers: seq<Worker>, reports: seq<Report>)

  predicate Init(s: State, n: nat) {
    && s.next == 0 && s.completed == 0 && s.reports == []
    && s.results == seq(n, _ => None)
    && (forall w :: 0 <= w < |s.workers| ==> s.workers[w] == Ready)
  }

  /** The next atomic step of worker `w`. */
  function WorkerStep(parse: Parser, order: seq<Partition>, s: State, w: nat): State
    requires w < |s.workers| && s.workers[w] != Exited && |s.results| == |order|
    requires s.workers[w].Reading? ==> s.workers[w].index < |order|
    requires s.workers[w].Reporting? ==> s.workers[w].index < |order| && s.results[s.workers[w].index].Some?
  {
    match s.workers[w]
    case Ready => s.(workers := s.workers[w := if s.stop then Exited else Claiming])
    case Claiming =>
      s.(next := s.next + 1, workers := s.workers[w := if s.next >= |order| then Exited else Reading(s.next)])
    case Reading(i) => s.(results := s.results[i := Some(parse(order[i]))], workers := s.workers[w := Stored(i)])
    case Stored(i) => s.(completed := s.completed + 1, workers := s.workers[w := Reporting(i, s.completed + 1)])
    case Reporting(i, d) =>
      s.(reports := s.reports + [Report(d, i, s.results[i].value)], workers := s.workers[w := Ready])
  }

  /** The index a worker owns. */
  predicate Owns(w: Worker, i: nat) {
    (w.Reading? || w.Stored? || w.Reporting?) && w.index == i
  }

  function CountSome(results: seq<Option<GameResult>>): nat {
    if results == [] then 0 else CountSome(results[1..]) + (if results[0].Some? then 1 else 0)
  }

  function CountStored(workers: seq<Worker>): nat {
    if workers == [] then 0 else CountStored(workers[1..]) + (if workers[0].Stored? then 1 else 0)
  }

  function CountReporting(workers: seq<Worker>): nat {
    if workers == [] then 0 else CountReporting(workers[1..]) + (if workers[0].Reporting? then 1 else 0)
  }

  /** Slots and claims: every claimed index is owned by one worker or filled with its own result. */
  ghost predicate SlotsOk(parse: Parser, order: seq<Partition>, s: State) {
    && |s.results| == |order|
    && (forall i :: 0 <= i < |order| && s.results[i].Some? ==> i < s.next && s.results[i].value == parse(order[i]))
    && (forall w :: 0 <= w < |s.workers| && s.workers[w].Reading? ==>
          s.workers[w].index < |order| && s.workers[w].index < s.next && s.results[s.workers[w].index] == None)
    && (forall w :: 0 <= w < |s.workers| && (s.workers[w].Stored? || s.workers[w].Reporting?) ==>
          s.workers[w].index < |order| && s.results[s.workers[w].index].Some?)
  }

  ghost predicate UniqueOwners(workers: seq<Worker>) {
    forall v, w, i :: 0 <= v < w < |workers| ==> !(Owns(workers[v], i) && Owns(workers[w], i))
  }

  ghost predicate ClaimsOk(order: seq<Partition>, s: State) {
    && |s.results| == |order|
    && UniqueOwners(s.workers)
    && (forall i :: 0 <= i < |order| && i < s.next && s.results[i] == None ==>
          exists w :: 0 <= w < |s.workers| && s.workers[w] == Reading(i))
    && (!s.stop ==> forall w :: 0 <= w < |s.workers| && s.workers[w] == Exited ==> s.next >= |order|)
  }

  /** Every completion number up to `completed` is in exactly one report or one pending callback. */
  ghost predicate ReportsOk(parse: Parser, order: seq<Partition>, s: State) {
    && s.completed + CountStored(s.workers) == CountSome(s.results)
    && |s.reports| + CountReporting(s.workers) == s.completed
    && (forall r :: 0 <= r < |s.reports| ==> 1 <= s.reports[r].done <= s.completed)
    && (forall w :: 0 <= w < |s.workers| && s.workers[w].Reporting? ==> 1 <= s.workers[w].done <= s.completed)
    && (forall q, r :: 0 <= q < r < |s.reports| ==> s.reports[q].done != s.reports[r].done)
    && (forall r, w :: 0 <= r < |s.reports| && 0 <= w < |s.workers| && s.workers[w].Reporting? ==>
          s.reports[r].done != s.workers[w].done)
    && (forall v, w :: 0 <= v < w < |s.workers| && s.workers[v].Reporting? && s.workers[w].Reporting? ==>
          s.workers[v].done != s.workers[w].done)
  }

  /** Every filled slot is reported once, or its worker is about to. */
  ghost predicate GamesOk(parse: Parser, order: seq<Partition>, s: State) {
    && |s.results| == |order|
    && (forall r :: 0 <= r < |s.reports| ==> ReportOk(parse, order, s, s.reports[r]))
    && (forall q, r :: 0 <= q < r < |s.reports| ==> s.reports[q].index != s.reports[r].index)
    && (forall r, w :: 0 <= r < |s.reports| && 0 <= w < |s.workers| ==> !Owns(s.workers[w], s.reports[r].index))
    && (forall i :: 0 <= i < |order| && s.results[i].Some? ==> Held(s.workers, i) || Reported(s.reports, i))
  }

  predicate ReportOk(parse: Parser, order: seq<Partition>, s: State, r: Report) {
    && r.index < |order| && r.index < |s.results| && s.results[r.index] == Some(r.game)
    && r.game == parse(order[r.index])
  }

  ghost predicate Held(workers: seq<Worker>, i: nat) {
    exists w :: 0 <= w < |workers| && Owns(workers[w], i) && !workers[w].Reading?
  }

  ghost predicate Reported(reports: seq<Report>, i: nat) {
    exists r :: 0 <= r < |reports| && reports[r].index == i
  }

  ghost predicate Inv(parse: Parser, order: seq<Partition>, s: State) {
    SlotsOk(parse, order, s) && ClaimsOk(order, s) && ReportsOk(parse, order, s) && GamesOk(parse, order, s)
  }

  /** One atomic step: a stop request arrives, or some worker moves. */
  ghost predicate Next(parse: Parser, order: seq<Partition>, s: State, s': State) {
    || s' == s.(stop := true)
    || exists w :: CanStep(order, s, w) && s' == WorkerStep(parse, order, s, w)
  }

  predicate CanStep(order: seq<Partition>, s: State, w: int) {
    && 0 <= w < |s.workers| && s.workers[w] != Exited && |s.results| == |order|
    && (s.workers[w].Reading? ==> s.workers[w].index < |order|)
    && (s.workers[w].Reporting? ==> s.workers[w].index < |order| && s.results[s.workers[w].index].Some?)
  }

  ghost predicate IsRun(parse: Parser, order: seq<Partition>, run: seq<State>) {
    && |run| > 0 && Init(run[0], |order|)
    && forall k :: 0 <= k < |run| - 1 ==> Step(parse, order, run, k)
  }

  ghost predicate Step(parse: Parser, order: seq<Partition>, run: seq<State>, k: int)
    requires 0 <= k < |run| - 1
  {
    Next(parse, order, run[k], run[k + 1])
  }

  // ---- counting lemmas ----

  lemma {:induction false} CountSomeUpdate(s: seq<Option<GameResult>>, i: nat, x: Option<GameResult>)
    requires i < |s|
    ensures CountSome(s[i := x]) + (if s[i].Some? then 1 else 0) == CountSome(s) + (if x.Some? then 1 else 0)
  {
    if i > 0 {
      CountSomeUpdate(s[1..], i - 1, x);
      assert s[i := x][1..] == s[1..][i - 1 := x];
    } else {
      assert s[i := x][1..] == s[1..];
    }
  }

  lemma {:induction false} CountWorkersUpdate(s: seq<Worker>, i: nat, x: Worker)
    requires i < |s|
    ensures CountStored(s[i := x]) + (if s[i].Stored? then 1 else 0) == CountStored(s) + (if x.Stored? then 1 else 0)
    ensures CountReporting(s[i := x]) + (if s[i].Reporting? then 1 else 0)
         == CountReporting(s) + (if x.Reporting? then 1 else 0)
  {
    if i > 0 {
      CountWorkersUpdate(s[1..], i - 1, x);
      assert s[i := x][1..] == s[1..][i - 1 := x];
    } else {
      assert s[i := x][1..] == s[1..];
    }
  }

  lemma {:induction false} CountNone(n: nat)
    ensures CountSome(seq(n, _ => None)) == 0
  {
    if n > 0 {
      CountNone(n - 1);
      var s: seq<Option<GameResult>> := seq(n, _ => None);
      assert s[1..] == seq(n - 1, _ => None);
    }
  }

  lemma {:induction false} CountIdle(workers: seq<Worker>)
    requires forall w :: 0 <= w < |workers| ==> !workers[w].Stored? && !workers[w].Reporting?
    ensures CountStored(workers) == 0 && CountReporting(workers) == 0
  {
    if workers != [] {
      CountIdle(workers[1..]);
    }
  }

  // ---- the invariant over every run ----

  lemma InitInv(parse: Parser, order: seq<Partition>, s: State)
    requires Init(s, |order|)
    ensures Inv(parse, order, s)
  {
    CountNone(|order|);
    CountIdle(s.workers);
  }

  lemma StepSlots(parse: Parser, order: seq<Partition>, s: State, w: nat)
    requires SlotsOk(parse, order, s) && ClaimsOk(order, s) && CanStep(order, s, w)
    ensures SlotsOk(parse, order, WorkerStep(parse, order, s, w))
  {
    var s' := WorkerStep(parse, order, s, w);
    if s.workers[w].Reading? {
      var i := s.workers[w].index;
      forall v | 0 <= v < |s'.workers| && s'.workers[v].Reading? ensures s'.workers[v].index != i {
        assert Owns(s.workers[v], s.workers[v].index) && Owns(s.workers[w], i);
      }
    }
  }

  lemma StepOwners(parse: Parser, order: seq<Partition>, s: State, w: nat)
    requires SlotsOk(parse, order, s) && ClaimsOk(order, s) && CanStep(order, s, w)
    ensures UniqueOwners(WorkerStep(parse, order, s, w).workers)
  {
    var workers' := WorkerStep(parse, order, s, w).workers;
    assert forall v :: 0 <= v < |workers'| && v != w ==> workers'[v] == s.workers[v];
    forall u, v, i | 0 <= u < v < |workers'| ensures !(Owns(workers'[u], i) && Owns(workers'[v], i)) {
      assert !(Owns(s.workers[u], i) && Owns(s.workers[v], i));
    }
  }

  lemma StepClaims(parse: Parser, order: seq<Partition>, s: State, w: nat)
    requires SlotsOk(parse, order, s) && ClaimsOk(order, s) && CanStep(order, s, w)
    ensures ClaimsOk(order, WorkerStep(parse, order, s, w))
  {
    hide UniqueOwners, SlotsOk;
    StepOwners(parse, order, s, w);
    var s' := WorkerStep(parse, order, s, w);
    forall i | 0 <= i < |order| && i < s'.next && s'.results[i] == None
      ensures exists v :: 0 <= v < |s'.workers| && s'.workers[v] == Reading(i)
    {
      if i < s.next {
        assert s.results[i] == None;
        var v :| 0 <= v < |s.workers| && s.workers[v] == Reading(i);
        assert s'.workers[v] == Reading(i);
      } else {
        assert s'.workers[w] == Reading(i);
      }
    }
  }

  lemma StepReports(parse: Parser, order: seq<Partition>, s: State, w: nat)
    requires SlotsOk(parse, order, s) && ReportsOk(parse, order, s) && CanStep(order, s, w)
    ensures ReportsOk(parse, order, WorkerStep(parse, order, s, w))
  {
    hide CountSome, CountStored, CountReporting;
    var s' := WorkerStep(parse, order, s, w);
    CountWorkersUpdate(s.workers, w, s'.workers[w]);
    if s.workers[w].Reading? {
      CountSomeUpdate(s.results, s.workers[w].index, s'.results[s.workers[w].index]);
    }
  }

  lemma StepGames(parse: Parser, order: seq<Partition>, s: State, w: nat)
    requires SlotsOk(parse, order, s) && ClaimsOk(order, s) && GamesOk(parse, order, s) && CanStep(order, s, w)
    ensures GamesOk(parse, order, WorkerStep(parse, order, s, w))
  {
    hide Held, Reported, ReportOk;
    var s' := WorkerStep(parse, order, s, w);
    StepReportsValid(parse, order, s, w);
    StepReportsFree(parse, order, s, w);
    forall i | 0 <= i < |order| && s'.results[i].Some? ensures Held(s'.workers, i) || Reported(s'.reports, i) {
      StepCovered(parse, order, s, w, i);
    }
  }

  lemma StepReportsValid(parse: Parser, order: seq<Partition>, s: State, w: nat)
    requires SlotsOk(parse, order, s) && ClaimsOk(order, s) && GamesOk(parse, order, s) && CanStep(order, s, w)
    ensures var s' := WorkerStep(parse, order, s, w);
      && (forall r :: 0 <= r < |s'.reports| ==> ReportOk(parse, order, s', s'.reports[r]))
      && (forall q, r :: 0 <= q < r < |s'.reports| ==> s'.reports[q].index != s'.reports[r].index)
  {
    hide Held, Reported;
    var s' := WorkerStep(parse, order, s, w);
    if s.workers[w].Reporting? {
      var i := s.workers[w].index;
      assert Owns(s.workers[w], i);
      assert forall r :: 0 <= r < |s.reports| ==> s'.reports[r] == s.reports[r] && s.reports[r].index != i;
    }
  }

  lemma StepReportsFree(parse: Parser, order: seq<Partition>, s: State, w: nat)
    requires SlotsOk(parse, order, s) && ClaimsOk(order, s) && GamesOk(parse, order, s) && CanStep(order, s, w)
    ensures var s' := WorkerStep(parse, order, s, w);
      forall r, v :: 0 <= r < |s'.reports| && 0 <= v < |s'.workers| ==> !Owns(s'.workers[v], s'.reports[r].index)
  {
    hide Held, Reported;
    var s' := WorkerStep(parse, order, s, w);
    forall r, v | 0 <= r < |s'.reports| && 0 <= v < |s'.workers| ensures !Owns(s'.workers[v], s'.reports[r].index) {
      if r < |s.reports| {
        assert s'.reports[r] == s.reports[r] && !Owns(s.workers[v], s.reports[r].index);
        assert ReportOk(parse, order, s, s.reports[r]);
      } else {
        var i := s.workers[w].index;
        assert Owns(s.workers[w], i);
        assert v == w || !Owns(s.workers[v], i);
      }
    }
  }

  lemma StepCovered(parse: Parser, order: seq<Partition>, s: State, w: nat, i: nat)
    requires SlotsOk(parse, order, s) && GamesOk(parse, order, s) && CanStep(order, s, w)
    requires i < |order| && WorkerStep(parse, order, s, w).results[i].Some?
    ensures var s' := WorkerStep(parse, order, s, w); Held(s'.workers, i) || Reported(s'.reports, i)
  {
    hide ReportOk;
    var s' := WorkerStep(parse, order, s, w);
    if s.results[i] == None || Owns(s.workers[w], i) {
      if s.workers[w].Reporting? {
        assert s'.reports[|s.reports|].index == i;
      } else {
        assert Owns(s'.workers[w], i);
      }
    } else if Reported(s.reports, i) {
      var r :| 0 <= r < |s.reports| && s.reports[r].index == i;
      assert s'.reports[r] == s.reports[r];
    } else {
      var v :| 0 <= v < |s.workers| && Owns(s.workers[v], i) && !s.workers[v].Reading?;
      assert s'.workers[v] == s.workers[v];
    }
  }

  lemma NextInv(parse: Parser, order: seq<Partition>, s: State, s': State)
    requires Inv(parse, order, s) && Next(parse, order, s, s')
    ensures Inv(parse, order, s')
  {
    hide Inv, WorkerStep;
    if s' == s.(stop := true) {
      StopInv(parse, order, s);
    } else {
      var w :| CanStep(order, s, w) && s' == WorkerStep(parse, order, s, w);
      StepInv(parse, order, s, w);
    }
  }

  lemma {:induction false} RunInv(parse: Parser, order: seq<Partition>, run: seq<State>, k: nat)
    requires IsRun(parse, order, run) && k < |run|
    ensures Inv(parse, order, run[k])
  {
    hide Init, Inv, Next;
    if k == 0 {
      InitInv(parse, order, run[0]);
    } else {
      RunInv(parse, order, run, k - 1);
      assert Step(parse, order, run, k - 1);
      NextInv(parse, order, run[k - 1], run[k]);
    }
  }

  // ---- progress: every run ends ----

  function WorkerRank(w: Worker): nat {
    match w
    case Exited => 0
    case Claiming => 1
    case Ready => 2
    case Reporting(_, _) => 3
    case Stored(_) => 4
    case Reading(_) => 5
  }

  function WorkersRank(workers: seq<Worker>): nat {
    if workers == [] then 0 else WorkersRank(workers[1..]) + WorkerRank(workers[0])
  }

  function Rank(order: seq<Partition>, s: State): nat {
    5 * (if s.next < |order| then |order| - s.next else 0) + WorkersRank(s.workers)
  }

  lemma {:induction false} WorkersRankUpdate(s: seq<Worker>, i: nat, x: Worker)
    requires i < |s|
    ensures WorkersRank(s[i := x]) + WorkerRank(s[i]) == WorkersRank(s) + WorkerRank(x)
  {
    if i > 0 {
      WorkersRankUpdate(s[1..], i - 1, x);
      assert s[i := x][1..] == s[1..][i - 1 := x];
    } else {
      assert s[i := x][1..] == s[1..];
    }
  }

  /** Every worker step brings the join closer, whatever the schedule. */
  lemma StepDescends(parse: Parser, order: seq<Partition>, s: State, w: nat)
    requires CanStep(order, s, w)
    ensures Rank(order, WorkerStep(parse, order, s, w)) < Rank(order, s)
  {
    WorkersRankUpdate(s.workers, w, WorkerStep(parse, order, s, w).workers[w]);
  }

  predicate Joined(s: State) {
    forall w :: 0 <= w < |s.workers| ==> s.workers[w] == Exited
  }

  /** Until all workers have exited, each that has not can move. */
  lemma NoDeadlock(parse: Parser, order: seq<Partition>, s: State)
    requires Inv(parse, order, s)
    ensures forall w :: 0 <= w < |s.workers| && s.workers[w] != Exited ==> CanStep(order, s, w)
  {
    hide ReportsOk, ClaimsOk, GamesOk;
  }

  // ---- the result after the join ----

  /** How many leading slots have been claimed. */
  function Claimed(order: seq<Partition>, s: State): nat {
    Min(s.next, |order|)
  }

  /** After the join exactly the claimed slots are filled, each with its own partition's result. */
  lemma JoinedSlots(parse: Parser, order: seq<Partition>, s: State)
    requires Inv(parse, order, s) && Joined(s)
    ensures |s.results| == |order|
    ensures forall i :: 0 <= i < |order| ==>
      s.results[i] == if i < Claimed(order, s) then Some(parse(order[i])) else None
    ensures s.completed == Claimed(order, s)
    ensures !s.stop && s.workers != [] ==> Claimed(order, s) == |order|
  {
    hide ReportsOk;
    forall i | 0 <= i < |order|
      ensures s.results[i] == if i < Claimed(order, s) then Some(parse(order[i])) else None
    {
      assert forall w :: 0 <= w < |s.workers| ==> s.workers[w] != Reading(i);
    }
    JoinedCount(parse, order, s);
    if s.workers != [] {
      assert s.workers[0] == Exited;
    }
  }

  lemma JoinedCount(parse: Parser, order: seq<Partition>, s: State)
    requires |s.results| == |order| && ReportsOk(parse, order, s) && Joined(s)
    requires forall i :: 0 <= i < |order| ==> (s.results[i].Some? <==> i < Claimed(order, s))
    ensures s.completed == Claimed(order, s)
  {
    CountIdle(s.workers);
    CountLeading(s.results, Claimed(order, s));
  }

  lemma {:induction false} CountLeading(s: seq<Option<GameResult>>, k: nat)
    requires k <= |s| && forall i :: 0 <= i < |s| ==> (s[i].Some? <==> i < k)
    ensures CountSome(s) == k
  {
    if s != [] {
      CountLeading(s[1..], if k == 0 then 0 else k - 1);
    }
  }

  /** The loop after the join: collects the filled slots in index order. */
  method Collect(parse: Parser, order: seq<Partition>, results: seq<Option<GameResult>>, ghost k: nat)
    returns (catalog: Catalog)
    requires |results| == |order| && k <= |order|
    requires forall i :: 0 <= i < |order| ==> results[i] == if i < k then Some(parse(order[i])) else None
    ensures catalog == CatalogPrefix(parse, order, k)
  {
    hide CountOk, Parsed;
    catalog := Catalog([], |order|, 0, 0, false);
    for i := 0 to |results|
      invariant catalog == CatalogPrefix(parse, order, Min(i, k)).(cancelled := false)
    {
      if results[i].Some? {
        var game := results[i].value;
        PrefixSnoc(parse, order, i);
        catalog := catalog.(
          readable := catalog.readable + (if game.ok then 1 else 0),
          unreadable := catalog.unreadable + (if game.ok then 0 else 1),
          entries := catalog.entries + [game]);
      }
    }
    catalog := catalog.(cancelled := |catalog.entries| != catalog.total);
  }

  function Upto(k: nat): (r: set<nat>)
    ensures |r| == k
    ensures forall d :: d in r <==> 1 <= d <= k
  {
    if k == 0 then {} else Upto(k - 1) + {k}
  }

  /** The completion numbers that were reported. */
  function Dones(reports: seq<Report>): set<nat> {
    if reports == [] then {} else Dones(reports[..|reports| - 1]) + {reports[|reports| - 1].done}
  }

  lemma {:induction false} DonesMembers(reports: seq<Report>)
    ensures forall i :: 0 <= i < |reports| ==> reports[i].done in Dones(reports)
    ensures forall d :: d in Dones(reports) ==> exists i :: 0 <= i < |reports| && reports[i].done == d
  {
    if reports != [] {
      var front := reports[..|reports| - 1];
      DonesMembers(front);
      forall d | d in Dones(reports) ensures exists i :: 0 <= i < |reports| && reports[i].done == d {
        if d in Dones(front) {
          var i :| 0 <= i < |front| && front[i].done == d;
          assert reports[i].done == d;
        }
      }
    }
  }

  /** k different numbers from 1..k are all of them. */
  lemma {:induction false} DistinctFill(reports: seq<Report>, k: nat)
    requires |reports| == k
    requires forall i :: 0 <= i < |reports| ==> 1 <= reports[i].done <= k
    requires forall i, j :: 0 <= i < j < |reports| ==> reports[i].done != reports[j].done
    ensures Dones(reports) == Upto(k)
  {
    hide Dones, Upto;
    var seen := Dones(reports);
    DonesMembers(reports);
    DistinctSize(reports);
    assert seen <= Upto(k);
    assert |Upto(k) - seen| == |Upto(k)| - |seen|;
  }

  lemma {:induction false} DistinctSize(reports: seq<Report>)
    requires forall i, j :: 0 <= i < j < |reports| ==> reports[i].done != reports[j].done
    ensures |Dones(reports)| == |reports|
  {
    if reports != [] {
      var front, last := reports[..|reports| - 1], reports[|reports| - 1];
      DistinctSize(front);
      DonesMembers(front);
      assert last.done !in Dones(front);
    }
  }

  /** The progress callback has been called with each of 1..k exactly once. */
  lemma ReportsComplete(parse: Parser, order: seq<Partition>, s: State)
    requires Inv(parse, order, s) && Joined(s)
    ensures |s.reports| == s.completed
    ensures forall q, r :: 0 <= q < r < |s.reports| ==> s.reports[q].done != s.reports[r].done
    ensures Dones(s.reports) == Upto(s.completed)
  {
    hide SlotsOk, ClaimsOk;
    CountIdle(s.workers);
    DistinctFill(s.reports, s.completed);
  }

  /** The games reported are exactly those of the first `k` partitions, each once. */
  ghost predicate ReportsCover(parse: Parser, order: seq<Partition>, reports: seq<Report>, k: nat)
    requires k <= |order|
  {
    && (forall r :: r in reports ==> r.index < k && r.game == parse(order[r.index]))
    && (forall q, r :: 0 <= q < r < |reports| ==> reports[q].index != reports[r].index)
    && (forall i :: 0 <= i < k ==> Reported(reports, i))
  }

  lemma ReportedGames(parse: Parser, order: seq<Partition>, s: State)
    requires Inv(parse, order, s) && Joined(s)
    ensures ReportsCover(parse, order, s.reports, Claimed(order, s))
  {
    hide ReportsOk, ClaimsOk, SlotsOk;
    JoinedSlots(parse, order, s);
    forall i | 0 <= i < Claimed(order, s) ensures Reported(s.reports, i) {
      assert s.results[i].Some?;
      assert forall w :: 0 <= w < |s.workers| ==> !Owns(s.workers[w], i);
    }
  }

  /**
   * Whatever the interleaving and whenever the stop request came: after the join the filled slots
   * are those of a prefix of the LBA order, so collecting them gives a prefix of the serial
   * catalog, and without a stop request all of it. Every completion was reported exactly once.
   */
  lemma ParallelIsSerialPrefix(parse: Parser, order: seq<Partition>, run: seq<State>)
    requires IsRun(parse, order, run) && Joined(run[|run| - 1])
    ensures var s := run[|run| - 1]; var k := Claimed(order, s);
      && |s.results| == |order|
      && (forall i :: 0 <= i < |order| ==> s.results[i] == if i < k then Some(parse(order[i])) else None)
      && (!s.stop && s.workers != [] ==> k == |order|)
      && |s.reports| == k
      && (forall q, r :: 0 <= q < r < |s.reports| ==> s.reports[q].done != s.reports[r].done)
      && Dones(s.reports) == Upto(k)
  {
    hide Init, Next, ReportsOk, ClaimsOk, SlotsOk, Joined;
    var s := run[|run| - 1];
    RunInv(parse, order, run, |run| - 1);
    JoinedSlots(parse, order, s);
    ReportsComplete(parse, order, s);
  }

  /** What a prefix of the serial catalog is: the same entries, cut short exactly when cancelled. */
  lemma PrefixOfSerial(parse: Parser, order: seq<Partition>, k: nat)
    requires k <= |order|
    ensures var c, serial := CatalogPrefix(parse, order, k), CatalogPrefix(parse, order, |order|);
      && c.entries == serial.entries[..k]
      && c.readable + c.unreadable == |c.entries|
      && (c.cancelled <==> |c.entries| < |serial.entries|)
      && (c.cancelled <==> c != serial)
  {
    hide CountOk;
    assert order[..|order|] == order;
    var c, serial := CatalogPrefix(parse, order, k), CatalogPrefix(parse, order, |order|);
    assert c.entries == serial.entries[..k];
  }

  /**
   * The scheduler: one worker at a time is picked arbitrarily and takes its next atomic step, and a
   * stop request may arrive before any of them. It always comes to an end, the catalog is a prefix
   * of the serial one, all of it when nobody asks to stop, and the games of that prefix have been
   * reported, each once.
   */
  method EnrichHdlCatalog(parse: Parser, ps: seq<Partition>, media: Media, overrideCount: nat, mayStop: bool)
    returns (catalog: Catalog, reports: seq<Report>)
    ensures exists order, k ::
      ReadUpTo(parse, ps, order, k, catalog) && ReportsCover(parse, order, reports, k) && (mayStop || k == |order|)
    ensures |reports| == |catalog.entries| && Dones(reports) == Upto(|reports|)
  {
    hide Inv, WorkerStep, Rank, CatalogPrefix, Init, Next, IsLbaOrder, ReportsCover;
    var order := HdlMainsByLba(ps);
    var maxInFlight := ChooseMaxInFlight(media, |order|, overrideCount);
    if maxInFlight <= 1 {
      catalog, reports := ReadCatalog(parse, ps, mayStop);
      ghost var read, k :| ReadUpTo(parse, ps, read, k, catalog) && reports == SerialReports(parse, read, k)
        && (mayStop || k == |read|);
      SerialReported(parse, read, k);
      return;
    }
    var s := State(0, 0, seq(|order|, _ => None), false, seq(Min(maxInFlight, |order|), _ => Ready), []);
    InitInv(parse, order, s);
    while !Joined(s)
      invariant Inv(parse, order, s) && s.workers != []
      invariant s.stop ==> mayStop
      decreases Rank(order, s)
    {
      if mayStop && !s.stop {
        var arrives: bool := *;
        if arrives {
          ghost var before := s;
          s := s.(stop := true);
          StopInv(parse, order, before);
        }
      }
      var w :| 0 <= w < |s.workers| && s.workers[w] != Exited;
      NoDeadlock(parse, order, s);
      StepDescends(parse, order, s, w);
      StepInv(parse, order, s, w);
      s := WorkerStep(parse, order, s, w);
    }
    JoinedSlots(parse, order, s);
    ReportsComplete(parse, order, s);
    ReportedGames(parse, order, s);
    catalog := Collect(parse, order, s.results, Claimed(order, s));
    reports := s.reports;
    CatalogLength(parse, order, Claimed(order, s));
    assert ReadUpTo(parse, ps, order, Claimed(order, s), catalog);
  }

  lemma CatalogLength(parse: Parser, order: seq<Partition>, k: nat)
    requires k <= |order|
    ensures |CatalogPrefix(parse, order, k).entries| == k
  {
    hide CountOk;
  }

  lemma {:induction false} SerialReported(parse: Parser, order: seq<Partition>, k: nat)
    requires k <= |order|
    ensures var reports := SerialReports(parse, order, k);
      && |reports| == k == |CatalogPrefix(parse, order, k).entries|
      && Dones(reports) == Upto(k) && ReportsCover(parse, order, reports, k)
  {
    hide CountOk;
    var reports := SerialReports(parse, order, k);
    DistinctFill(reports, k);
    forall i | 0 <= i < k ensures Reported(reports, i) {
      assert reports[i].index == i;
    }
  }

  lemma StopInv(parse: Parser, order: seq<Partition>, s: State)
    requires Inv(parse, order, s)
    ensures Inv(parse, order, s.(stop := true)) && Rank(order, s.(stop := true)) == Rank(order, s)
    ensures s.(stop := true).workers == s.workers
  {
  }

  lemma StepInv(parse: Parser, order: seq<Partition>, s: State, w: nat)
    requires Inv(parse, order, s) && CanStep(order, s, w)
    ensures Inv(parse, order, WorkerStep(parse, order, s, w))
    ensures var s' := WorkerStep(parse, order, s, w); |s'.workers| == |s.workers| && s'.stop == s.stop
  {
    hide SlotsOk, ClaimsOk, ReportsOk, GamesOk;
    StepSlots(parse, order, s, w);
    StepClaims(parse, order, s, w);
    StepReports(parse, order, s, w);
    StepGames(parse, order, s, w);
  }
}
