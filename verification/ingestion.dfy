/** The body of `main`: the rate-gated fetch/upsert loop over the sampled
    identifiers, and the surrounding catalog, sampling and connection steps.

    The clock is abstract and monotone: reading it costs nothing, every other
    step lets an arbitrary non-negative amount of time pass, and `time.sleep(d)`
    lets at least `d` pass (`Elapse`). The market-data request and the database
    are oracles: item `i` of a run meets `envs[i]`, which fixes the decoded HTTP
    response for that request and whether the database accepts the write. */
module Ingestion {
  import opened Wrappers
  import opened Errors
  import Json
  import Catalog
  import opened Store

  /** Requests allowed in one rate window before the gate closes. */
  const RequestsPerWindow: nat := 30
  /** Length of a rate window, in seconds. */
  const WindowSeconds: real := 60.0
  /** The fixed pause after every item, in seconds. */
  const PauseSeconds: real := 2.0

  /** What the outside world answers for one item of the loop. */
  datatype ItemEnv = ItemEnv(
    /** The decoded response of the market-data request, or its failure. */
    response: Result<seq<Json.Value>, Error>,
    /** Whether the database executes and commits the upsert. */
    storeUp: bool)

  /** What one item does to the table. */
  datatype Plan =
    /** No record came back (or a falsy one): nothing is written. */
    | Skip
    /** The row is upserted and committed. */
    | Write(row: Row)
    /** An exception escapes the item and ends the loop. */
    | Abort(error: Error)

  /** One item without the clock: fetch, then upsert if the record is truthy. */
  function PlanItem(env: ItemEnv, dumps: Json.Value -> string): (p: Plan)
    ensures p.Skip? <==> match Catalog.FirstOrNone(env.response)
                         case None => true
                         case Some(record) => !Json.Truthy(record)
    ensures p.Write? ==> WellFormed(p.row) && env.storeUp
    ensures p.Write? ==> Catalog.FirstOrNone(env.response) == Some(env.response.value[0])
                          && RowOf(env.response.value[0], dumps) == Success(p.row)
    ensures p.Abort? <==> match Catalog.FirstOrNone(env.response)
                          case None => false
                          case Some(record) =>
                            Json.Truthy(record) && (RowOf(record, dumps).Failure? || !env.storeUp)
    ensures p.Abort? ==> match RowOf(env.response.value[0], dumps)
                         case Failure(e) => p.error == e
                         case Success(_) => p.error == StoreFailed
  {
    match Catalog.FirstOrNone(env.response)
    case None => Skip
    case Some(record) =>
      if !Json.Truthy(record) then Skip
      else
        match RowOf(record, dumps)
        case Failure(e) => Abort(e)
        case Success(row) => if env.storeUp then Write(row) else Abort(StoreFailed)
  }

  /** What each item of a run does, in item order. */
  function Plans(envs: seq<ItemEnv>, dumps: Json.Value -> string): (plans: seq<Plan>)
    ensures |plans| == |envs|
    ensures forall j :: 0 <= j < |envs| ==> plans[j] == PlanItem(envs[j], dumps)
    decreases |envs|
  {
    if envs == [] then []
    else Plans(envs[..|envs| - 1], dumps) + [PlanItem(envs[|envs| - 1], dumps)]
  }

  /** The rows the plans write, in order. */
  function WrittenRows(plans: seq<Plan>): (rows: seq<Row>)
    ensures |rows| <= |plans|
    decreases |plans|
  {
    if plans == [] then []
    else
      var earlier := WrittenRows(plans[..|plans| - 1]);
      match plans[|plans| - 1]
      case Write(row) => earlier + [row]
      case _ => earlier
  }

  /** The written rows are the rows of the `Write` plans: each comes from
      one, and each one's row is among them. */
  lemma {:induction false} WrittenRowsAreWrites(plans: seq<Plan>)
    ensures forall j :: 0 <= j < |WrittenRows(plans)| ==> Write(WrittenRows(plans)[j]) in plans
    ensures forall j :: 0 <= j < |plans| && plans[j].Write? ==> plans[j].row in WrittenRows(plans)
    decreases |plans|
  {
    if plans != [] {
      var before := plans[..|plans| - 1];
      WrittenRowsAreWrites(before);
      assert plans == before + [plans[|plans| - 1]];
    }
  }

  /** The position of the first plan that aborts, or the number of plans. */
  function FirstAbort(plans: seq<Plan>): (n: nat)
    ensures n <= |plans|
    ensures forall j :: 0 <= j < n ==> !plans[j].Abort?
    ensures n < |plans| ==> plans[n].Abort?
    decreases |plans|
  {
    if plans == [] || plans[0].Abort? then 0
    else 1 + FirstAbort(plans[1..])
  }

  /** The rows a run writes are the rows of its `Write` plans, so they are
      complete whenever those are. */
  lemma {:induction false} WrittenRowsWellFormed(plans: seq<Plan>)
    requires forall j :: 0 <= j < |plans| && plans[j].Write? ==> WellFormed(plans[j].row)
    ensures AllWellFormed(WrittenRows(plans))
    decreases |plans|
  {
    if plans != [] {
      var before := plans[..|plans| - 1];
      WrittenRowsWellFormed(before);
    }
  }

  /** A run keeps the table's schema: every row it writes comes from
      `RowOf`, which always builds a complete row under its own key. */
  lemma RunKeepsSchema(table: Table, envs: seq<ItemEnv>, dumps: Json.Value -> string, n: nat)
    requires Schema(table) && n <= |envs|
    ensures Schema(UpsertAll(table, WrittenRows(Plans(envs, dumps)[..n])))
  {
    WrittenRowsWellFormed(Plans(envs, dumps)[..n]);
  }

  /** An item before the first abort that does not abort moves past it; one
      that does abort is the first abort. */
  lemma FirstAbortStep(plans: seq<Plan>, i: nat)
    requires i <= FirstAbort(plans) && i < |plans|
    ensures !plans[i].Abort? ==> i + 1 <= FirstAbort(plans)
    ensures plans[i].Abort? ==> i == FirstAbort(plans)
  {
  }

  /** The table after one plan: a written row is upserted, anything else
      leaves the table as it was. */
  function Apply(table: Table, plan: Plan): Table {
    match plan
    case Write(row) => Upsert(table, row)
    case _ => table
  }

  /** The table after the first `n` plans, each applied as soon as its item
      is fetched. */
  function Replay(table: Table, plans: seq<Plan>, n: nat): (t: Table)
    requires n <= |plans|
  {
    if n == 0 then table else Apply(Replay(table, plans, n - 1), plans[n - 1])
  }

  /** Writing each row as it arrives is the same as upserting all written rows
      in item order: a run's effect on the table depends only on which items
      brought back data, never on the clock. */
  lemma {:induction false} ReplayUpsertsWrittenRows(table: Table, plans: seq<Plan>, n: nat)
    requires n <= |plans|
    ensures Replay(table, plans, n) == UpsertAll(table, WrittenRows(plans[..n]))
  {
    if n > 0 {
      ReplayUpsertsWrittenRows(table, plans, n - 1);
      assert plans[..n][..n - 1] == plans[..n - 1];
      match plans[n - 1]
      case Write(row) =>
        UpsertAllSnoc(table, WrittenRows(plans[..n - 1]), row);
      case _ =>
    }
  }

  /** One request on the timeline of a run. */
  datatype Fetch = Fetch(
    /** The identifier asked for, as the catalog gave it; it is interpolated
        into the request URL whatever its type. */
    id: Json.Value,
    /** When the request was issued. */
    at: real,
    /** `request_count` when it was issued. */
    count: nat,
    /** `start_time` when it was issued: the start of its rate window. */
    windowStart: real)

  /** Time passing: at least `atLeast` seconds, possibly more. */
  method Elapse(now: real, atLeast: real) returns (later: real)
    ensures later >= now + atLeast
  {
    var lag: real :| lag >= 0.0;
    later := now + atLeast + lag;
  }

  /** `request_count` at the next request, given its value at this one: the
      item increments it, and the gate restarts it once it reaches the cap. */
  function NextCount(count: nat): nat {
    if count + 1 == RequestsPerWindow then 0 else count + 1
  }

  /** How a request follows the one before it: the counter steps by
      `NextCount`, a pause lies between them, a non-zero counter keeps the
      window and a zero counter opens a window at least `WindowSeconds` after
      the previous one opened. */
  ghost predicate Follows(prev: Fetch, next: Fetch) {
    && next.count == NextCount(prev.count)
    && prev.at + PauseSeconds <= next.at
    && (next.count != 0 ==> next.windowStart == prev.windowStart)
    && (next.count == 0 ==> prev.windowStart + WindowSeconds <= next.windowStart)
  }

  /** A request issued at or after the run's first clock reading, inside its window. */
  ghost predicate InRun(f: Fetch, clock: real) {
    f.count < RequestsPerWindow && clock <= f.windowStart <= f.at
  }

  /** The shape of a run's request timeline, for a run whose clock started at
      `clock`: every request lies in the run, the counter starts at 0, and
      each request follows the one before it. */
  ghost predicate Paced(fetches: seq<Fetch>, clock: real)
    decreases |fetches|
  {
    if fetches == [] then true
    else
      var before := fetches[..|fetches| - 1];
      var last := fetches[|fetches| - 1];
      && Paced(before, clock)
      && InRun(last, clock)
      && (before == [] ==> last.count == 0)
      && (before != [] ==> Follows(before[|before| - 1], last))
  }

  /** A timeline stays paced when the next request follows its last one. */
  lemma PacedExtend(fetches: seq<Fetch>, next: Fetch, clock: real)
    requires Paced(fetches, clock)
    requires InRun(next, clock)
    requires fetches == [] ==> next.count == 0
    requires fetches != [] ==> Follows(fetches[|fetches| - 1], next)
    ensures Paced(fetches + [next], clock)
  {
    assert (fetches + [next])[..|fetches|] == fetches;
  }

  /** The requests ask for `ids` in order, one each, from the first on. */
  ghost predicate AskedFor(fetches: seq<Fetch>, ids: seq<Json.Value>)
    decreases |fetches|
  {
    |fetches| <= |ids|
    && (fetches != [] ==>
          && AskedFor(fetches[..|fetches| - 1], ids)
          && fetches[|fetches| - 1].id == ids[|fetches| - 1])
  }

  /** The next request asks for the next identifier. */
  lemma AskedForExtend(fetches: seq<Fetch>, ids: seq<Json.Value>, next: Fetch)
    requires AskedFor(fetches, ids) && |fetches| < |ids|
    requires next.id == ids[|fetches|]
    ensures AskedFor(fetches + [next], ids)
  {
    assert (fetches + [next])[..|fetches|] == fetches;
  }

  /** Request `j` asks for identifier `j`. */
  lemma {:induction false} AskedForAt(fetches: seq<Fetch>, ids: seq<Json.Value>)
    requires AskedFor(fetches, ids)
    ensures forall j :: 0 <= j < |fetches| ==> fetches[j].id == ids[j]
    decreases |fetches|
  {
    if fetches != [] {
      AskedForAt(fetches[..|fetches| - 1], ids);
    }
  }

  /** What pacing says about each request of the timeline. */
  lemma {:induction false} PacedAt(fetches: seq<Fetch>, clock: real, j: nat)
    requires Paced(fetches, clock)
    requires j < |fetches|
    ensures InRun(fetches[j], clock)
    ensures j == 0 ==> fetches[j].count == 0
    ensures j > 0 ==> Follows(fetches[j - 1], fetches[j])
    decreases |fetches|
  {
    var before := fetches[..|fetches| - 1];
    if j < |before| {
      PacedAt(before, clock, j);
    }
  }

  /** Paced requests spread out: any `k + 1` consecutive ones span at least
      `k` pauses. */
  lemma {:induction false} PacedSpan(fetches: seq<Fetch>, clock: real, j: nat, k: nat)
    requires Paced(fetches, clock)
    requires j + k < |fetches|
    ensures fetches[j].at + PauseSeconds * (k as real) <= fetches[j + k].at
    decreases k
  {
    if k > 0 {
      PacedSpan(fetches, clock, j, k - 1);
      PacedAt(fetches, clock, j + k);
    }
  }

  /** In a paced timeline the counter is the request's position modulo the
      cap: every request counts exactly once, and each window holds exactly
      `RequestsPerWindow` requests (the last one possibly fewer). */
  lemma {:induction false} PacedCount(fetches: seq<Fetch>, clock: real, j: nat)
    requires Paced(fetches, clock)
    requires j < |fetches|
    ensures fetches[j].count == j % RequestsPerWindow
    decreases j
  {
    PacedAt(fetches, clock, j);
    if j > 0 {
      PacedCount(fetches, clock, j - 1);
      PacedAt(fetches, clock, j);
    }
  }

  /** What a paced timeline means for the provider: requests at least a pause
      apart, a counter equal to the position modulo 30, windows that restart
      every 30 requests and at least 60 s apart, and never more than 30
      requests in any 60 s: the request 30 places after any other comes at
      least a full window later. */
  lemma {:induction false} PacedTimeline(fetches: seq<Fetch>, clock: real)
    requires Paced(fetches, clock)
    ensures forall j :: 0 <= j < |fetches| ==> clock <= fetches[j].windowStart <= fetches[j].at
    ensures forall j :: 0 < j < |fetches| ==> fetches[j - 1].at + PauseSeconds <= fetches[j].at
    ensures forall j :: 0 <= j < |fetches| ==> fetches[j].count == j % RequestsPerWindow
    ensures forall j :: 0 < j < |fetches| && j % RequestsPerWindow != 0 ==>
              fetches[j].windowStart == fetches[j - 1].windowStart
    ensures forall j :: 0 < j < |fetches| && j % RequestsPerWindow == 0 ==>
              fetches[j - 1].windowStart + WindowSeconds <= fetches[j].windowStart
    ensures forall j :: 0 <= j && j + RequestsPerWindow < |fetches| ==>
              fetches[j].at + WindowSeconds <= fetches[j + RequestsPerWindow].at
  {
    forall j | 0 <= j < |fetches|
      ensures InRun(fetches[j], clock) && fetches[j].count == j % RequestsPerWindow
      ensures j > 0 ==> Follows(fetches[j - 1], fetches[j])
    {
      PacedAt(fetches, clock, j);
      PacedCount(fetches, clock, j);
    }
    forall j | 0 <= j && j + RequestsPerWindow < |fetches|
      ensures fetches[j].at + WindowSeconds <= fetches[j + RequestsPerWindow].at
    {
      PacedSpan(fetches, clock, j, RequestsPerWindow);
    }
  }

  /** The rate gate in front of each request (load_data.py, lines 165-176). It closes when
      the counter has reached the cap; it then sleeps out the rest of the
      window, if any is left, and restarts the window and the counter. With at
      least a pause after each request of the window, a full window has always
      passed by then, so the sleep never runs. */
  method RateGate(count: nat, start: real, now: real)
    returns (count': nat, start': real, now': real, slept: int)
    requires count <= RequestsPerWindow
    requires start + PauseSeconds * (count as real) <= now
    ensures count < RequestsPerWindow ==> count' == count && start' == start
    ensures count == RequestsPerWindow ==> count' == 0 && start + WindowSeconds <= start'
    ensures now <= now' && start' <= now'
    ensures slept == 0
  {
    count', start', now', slept := count, start, now, 0;
    var current := now';
    if count' >= RequestsPerWindow {
      var elapsed := current - start';
      if elapsed < WindowSeconds {
        slept := slept + 1;
        now' := Elapse(now', WindowSeconds - elapsed);
      }
      now' := Elapse(now', 0.0);
      start' := now';
      count' := 0;
    }
  }

  /** The body of the `try` for one item: fetch the record and upsert it when
      it is truthy, or raise. On a table that keeps its schema a written
      record simply replaces the row under its key. */
  method Item(env: ItemEnv, dumps: Json.Value -> string, final: Table)
    returns (final': Table, failure: Option<Error>)
    ensures match Catalog.FirstOrNone(env.response)
            case None => failure == None && final' == final
            case Some(record) =>
              && (!Json.Truthy(record) ==> failure == None && final' == final)
              && (Json.Truthy(record) ==>
                    match RowOf(record, dumps)
                    case Failure(e) => failure == Some(e) && final' == final
                    case Success(row) =>
                      && (!env.storeUp ==> failure == Some(StoreFailed) && final' == final)
                      && (env.storeUp ==> failure == None && (Schema(final) ==> final' == final[row.id := row])))
    ensures failure.Some? <==> PlanItem(env, dumps).Abort?
    ensures failure.Some? ==> PlanItem(env, dumps) == Abort(failure.value) && final' == final
    ensures failure.None? ==> final' == Apply(final, PlanItem(env, dumps))
  {
    final', failure := final, None;
    var plan := PlanItem(env, dumps);
    match plan
    case Abort(e) => failure := Some(e);
    case Write(row) => final' := Upsert(final, row);
    case Skip =>
  }

  /** The state the loop keeps between items: the request counter, the start
      of the current window, the clock, and the requests issued so far. Each
      request of the window lies at least a pause before the clock. */
  ghost predicate Between(fetches: seq<Fetch>, ids: seq<Json.Value>, clock: real,
                          count: nat, start: real, now: real)
  {
    && count <= RequestsPerWindow
    && clock <= start <= now
    && start + PauseSeconds * (count as real) <= now
    && (fetches == [] ==> count == 0)
    && (fetches != [] ==>
          var last := fetches[|fetches| - 1];
          && count == last.count + 1
          && last.at + PauseSeconds <= now
          && last.windowStart == start)
    && AskedFor(fetches, ids)
    && Paced(fetches, clock)
  }

  /** The gate and the request for the next identifier (load_data.py, lines
      165-178). */
  method Request(fetches: seq<Fetch>, ids: seq<Json.Value>, clock: real,
                 count: nat, start: real, now: real)
    returns (fetches': seq<Fetch>, count': nat, start': real, now': real)
    requires Between(fetches, ids, clock, count, start, now) && |fetches| < |ids|
    ensures fetches' == fetches + [Fetch(ids[|fetches|], now', count', start')]
    ensures count' < RequestsPerWindow && clock <= start' <= now'
    ensures start' + PauseSeconds * (count' as real) <= now'
    ensures AskedFor(fetches', ids) && Paced(fetches', clock)
  {
    now' := Elapse(now, 0.0);
    var slept;
    count', start', now', slept := RateGate(count, start, now');
    var request := Fetch(ids[|fetches|], now', count', start');
    PacedExtend(fetches, request, clock);
    AskedForExtend(fetches, ids, request);
    fetches' := fetches + [request];
  }

  /** The `for id in random_ids` loop of `main` (load_data.py, lines 161-191): gate, fetch,
      upsert or skip, count, pause. An item that raises ends the loop; the rows
      committed before it stay.

      Outcome: the table is each reached item's plan applied in turn to the
      starting table, whatever the clock did (`ReplayUpsertsWrittenRows` turns
      that into the written rows upserted in order). Timing: the counter is `j % 30` at the
      `j`-th request, requests are at least 2 s apart, a window restarts at
      least 60 s after the previous one, and the gate's sleep never runs. */
  method Ingest(table: Table, ids: seq<Json.Value>, envs: seq<ItemEnv>,
                dumps: Json.Value -> string, clock: real)
    returns (final: Table, processed: nat, failure: Option<Error>,
             fetches: seq<Fetch>)
    requires |envs| == |ids|
    ensures processed == FirstAbort(Plans(envs, dumps))
    ensures failure.None? <==> processed == |ids|
    ensures failure.Some? ==> PlanItem(envs[processed], dumps) == Abort(failure.value)
    ensures final == Replay(table, Plans(envs, dumps), processed)
    ensures |fetches| == if failure.Some? then processed + 1 else processed
    ensures AskedFor(fetches, ids)
    ensures Paced(fetches, clock)
  {
    final := table;
    failure := None;
    fetches := [];
    var now := clock;
    var start := now;
    var count: nat := 0;
    var i := 0;
    ghost var plans := Plans(envs, dumps);
    while i < |ids|
      invariant i <= |ids|
      invariant |fetches| == i
      invariant i <= FirstAbort(plans)
      invariant final == Replay(table, plans, i)
      invariant failure == None
      invariant Between(fetches, ids, clock, count, start, now)
    {
      fetches, count, start, now := Request(fetches, ids, clock, count, start, now);
      FirstAbortStep(plans, i);
      final, failure := Item(envs[i], dumps, final);
      if failure.Some? {
        break;
      }
      now := Elapse(now, 0.0);
      count := count + 1;
      now := Elapse(now, PauseSeconds);
      i := i + 1;
    }
    processed := i;
  }

  /** How `main` ends: by returning its summary string, or by raising. */
  datatype Exit = Returned | Raised(error: Error)

  /** `main` (load_data.py, lines 145-199). The catalog request, the connection attempt and
      each item's request and write are oracles: `catalog` is the decoded
      catalog response, `connected` whether `psycopg2.connect` succeeds, and
      `envs[j]` what item `j` meets (there is an answer for every item a
      sample can hold).

      A malformed catalog raises before anything else happens. An empty sample
      returns at once. A failed connection is caught, but the `finally` clause
      then reads the never-assigned `conn` and raises. Otherwise the loop runs,
      and `main` returns even when an item raised, keeping the rows committed
      before it. */
  method Run(table: Table, catalog: Result<seq<Json.Value>, Error>, connected: bool,
             envs: seq<ItemEnv>, dumps: Json.Value -> string, clock: real)
    returns (final: Table, selected: seq<Json.Value>, fetches: seq<Fetch>, exit: Exit)
    requires Catalog.SampleSize <= |envs|
    ensures Catalog.CatalogIds(catalog).Failure? ==>
              exit == Raised(Catalog.CatalogIds(catalog).error) && final == table && fetches == []
    ensures Catalog.CatalogIds(catalog).Success? ==>
              var ids := Catalog.CatalogIds(catalog).value;
              && |selected| == (if |ids| < Catalog.SampleSize then |ids| else Catalog.SampleSize)
              && multiset(selected) <= multiset(ids)
    ensures |selected| <= Catalog.SampleSize
    ensures selected == [] ==> final == table && fetches == []
    ensures selected == [] && Catalog.CatalogIds(catalog).Success? ==> exit == Returned
    ensures selected != [] && !connected ==>
              exit == Raised(ConnectionUnbound) && final == table && fetches == []
    ensures selected != [] && connected ==>
              var plans := Plans(envs[..|selected|], dumps);
              && exit == Returned
              && final == UpsertAll(table, WrittenRows(plans[..FirstAbort(plans)]))
              && |fetches| == (if FirstAbort(plans) < |plans| then FirstAbort(plans) + 1 else |plans|)
    ensures AskedFor(fetches, selected) && Paced(fetches, clock)
  {
    final, selected, fetches := table, [], [];
    var ids := Catalog.CatalogIds(catalog);
    if ids.Failure? {
      return final, selected, fetches, Raised(ids.error);
    }
    var sample := Catalog.SelectRandom(ids.value, Catalog.SampleSize);
    selected := sample.value;
    if selected == [] {
      return final, selected, fetches, Returned;
    }
    if !connected {
      return final, selected, fetches, Raised(ConnectionUnbound);
    }
    var processed, failure;
    final, processed, failure, fetches := Ingest(table, selected, envs[..|selected|], dumps, clock);
    ReplayUpsertsWrittenRows(table, Plans(envs[..|selected|], dumps), processed);
    exit := Returned;
  }
}
