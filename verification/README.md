# Crypto market-data ingestion, modelled in Dafny

`load_data.py` is a small script. It fetches the CoinGecko identifier
catalog, samples 50 identifiers, and then handles each one in turn: it
fetches the market record, and if a record came back it upserts it into
the PostgreSQL table `cryptocurrencies`. A rate gate keeps the loop under
30 requests per 60 seconds, and every item is followed by a 2-second pause.

The model keeps the logic under that plumbing:

- `Catalog` (catalog.dfy) covers three things:
  - the identifier list that `fetch_crypto_ids` builds;
  - the clamped draw of `select_random_crypto_ids`;
  - the first-or-none selection in `get_crypto_info`.
- `Store` (store.dfy) covers the write path of `insert_cryptocurrencies`:
  - the 25 columns, and how a record becomes a row, including the `roi` rule;
  - the `INSERT ... ON CONFLICT (id) DO UPDATE SET ...` statement, run against a table that is a map from primary key to row.
- `Ingestion` (ingestion.dfy) covers the body of `main`:
  - the rate gate;
  - the per-item fetch/upsert step;
  - the loop and its request timeline;
  - `main` itself.
- `Json` (json.dfy) covers decoded JSON values and Python truthiness.
- `Wrappers`/`Errors` (wrappers.dfy) hold `Option`, `Result`, and the exceptions the script can raise.

The outside world is made up of parameters:

- Every HTTP response arrives as a `Result` holding the decoded JSON array, or the request failure.
- Whether `psycopg2.connect` succeeds is a boolean.
- Whether the database accepts each write is a boolean.
- `json.dumps` is an uninterpreted function `dumps`.
- The clock is abstract and monotone. `Elapse(now, d)` lets at least `d` seconds pass; `time.sleep(d)` is `Elapse(now, d)`, and every other step is `Elapse(now, 0)`.
- `random.sample` is a nondeterministic choice of one remaining position per draw.

The main results:

- **Upsert is overwrite.** Because the SET clause names every non-key column, the SQL conflict semantics equal map overwrite `t[id := row]`. Upsert is therefore idempotent, and of two writes under one key the last one wins.
- **The loop's effect on the table.** The table ends as the starting table with the written rows upserted in sample order, up to the first item that raised.
- **The request timeline is paced.** At request `j` the counter is `j % 30`. Requests are at least 2 s apart. Windows restart every 30 requests and at least 60 s apart. Any request comes at least 60 s after the one 30 places before it.
- **The gate never sleeps.** The gate's sleep branch is dead code: with a 2 s pause after each request, 30 requests already take 60 s.

## Model

| member | source | states |
|---|---|---|
| Catalog.IdsOf | load_data.py:22 | the comprehension yields one id per catalog element, the value under its `id` key whatever its type (null and numbers included); or it raises the error of the first element that is not an object or has no `id` key, every earlier one being readable |
| Catalog.CatalogIds | load_data.py:13-26 | a failed catalog request degrades to the empty list; otherwise ids align with the elements; it raises exactly when some element is not an object or lacks the `id` key |
| Catalog.SelectRandom | load_data.py:29-36 | a non-negative request yields `min(num_samples, len(ids))` ids drawn from distinct positions (a sub-multiset of the input), the whole input permuted when it is too short; only a negative count raises |
| Catalog.FirstOrNone | load_data.py:48-56 | the first record exactly when the request succeeded with a non-empty list; `None` for an empty list and for a failed request |
| Store.RowOf | load_data.py:106-133 | a record becomes a complete row keyed by its `id`, each column holding the field of the same name (missing fields as NULL); `roi` holds `dumps(roi)` exactly when the value is truthy, NULL otherwise (an empty object included); a non-object or a null id raises |
| Store.ApplySet | load_data.py:79-104 | the SET clause gives each listed column the EXCLUDED value, keeps every other cell, and adds no other column |
| Store.UpdateCoversNonKey | load_data.py:68-104 | the SET list names exactly the 24 non-key columns of the INSERT column list |
| Store.SetClauseOverwrites | load_data.py:79-104 | a SET clause over every non-key column turns a complete stored row into the proposed row |
| Store.ConflictUpdate | load_data.py:79-104 | the conflict branch keeps the stored key, and on complete rows with the same key leaves nothing of the stored row |
| Store.Upsert | load_data.py:68-104 | on a table that keeps its schema, the upsert of a complete row is map overwrite `t[id := row]`, whether the id was present or not, and the schema is kept |
| Store.UpsertIdempotent | load_data.py:79-104 | upserting the same row twice gives the table of upserting it once |
| Store.UpsertLastWriteWins | load_data.py:79-104 | of two upserts under one id, only the second row's values remain |
| Store.UpsertAll | load_data.py:178-183 | a sequence of upserts of complete rows keeps the table's schema |
| Store.UpsertAllUntouched | load_data.py:178-183 | an id no written row carries keeps its stored row, or stays absent |
| Store.UpsertAllLastWins | load_data.py:178-183 | an id some written row carries holds the last such row |
| Ingestion.PlanItem | load_data.py:178-188 | an item is skipped exactly when no record came back or the record is falsy; a written row is complete, comes from the first record, and needs the database to accept it; the item raises exactly when the record is truthy and either the row cannot be built or the database refuses it, with the row's error in the first case and the database error in the second |
| Ingestion.FirstAbort | load_data.py:151-194 | the loop stops at the first item that raises: none before it raises, and it raises unless every item ran |
| Ingestion.WrittenRowsAreWrites | load_data.py:178-188 | the rows the loop writes are the rows of the items that reached the upsert: each written row comes from one such item, and each such item's row is written |
| Ingestion.WrittenRowsWellFormed | load_data.py:178-188 | every row the loop writes is complete when every written plan's row is |
| Ingestion.RunKeepsSchema | load_data.py:164-191 | the loop keeps the table's schema |
| Ingestion.ReplayUpsertsWrittenRows | load_data.py:164-191 | upserting each row as its item is fetched equals upserting all written rows in sample order afterwards |
| Ingestion.Elapse | load_data.py:173 | time passing: at least the requested seconds elapse |
| Ingestion.RateGate | load_data.py:165-176 | below the cap the counter and window are kept; at the cap the counter restarts at 0 and the new window opens at least 60 s after the old one; the clock never runs backwards; after at least one pause per counted request the sleep branch never runs |
| Ingestion.Request | load_data.py:165-178 | the gated request for the next id is appended to the timeline, which stays paced and in sample order |
| Ingestion.Item | load_data.py:178-188 | no record or a falsy one leaves the table alone without raising; a truthy record whose row cannot be built raises that row's error, and one the database refuses raises the database error, both leaving the table alone; otherwise, on a table that keeps its schema, the record's row replaces whatever was stored under its key |
| Ingestion.AskedForAt | load_data.py:164-178 | request `j` asks for identifier `j` of the sample |
| Ingestion.PacedAt | load_data.py:161-191 | every request lies in its run and window, the first has counter 0, and each follows the one before |
| Ingestion.PacedSpan | load_data.py:190-191 | any `k + 1` consecutive requests span at least `k` pauses |
| Ingestion.PacedCount | load_data.py:162-190 | the counter at request `j` is `j % 30`: every item counts once |
| Ingestion.PacedTimeline | load_data.py:161-191 | requests lie inside their window and the run, at least 2 s apart, with counter `j % 30`; the window is kept within a block of 30 and restarts at least 60 s later at each multiple of 30; request `j + 30` comes at least 60 s after request `j` |
| Ingestion.Ingest | load_data.py:161-191 | the loop processes exactly the items before the first one that raises, and reports that item's error; the table ends as each reached item's plan applied in order to the starting table, which `ReplayUpsertsWrittenRows` equates with the written rows upserted in order; one request per item reached, in sample order, on a paced timeline |
| Ingestion.Run | load_data.py:145-199 | a catalog with a non-object element or one without an `id` key raises with the table unchanged; the sample has `min(50, len(ids))` ids from the catalog; an empty sample returns with the table unchanged; a failed connection raises the unbound `conn` error; otherwise `main` returns after the loop, with the table as the loop leaves it, even when an item raised |

## Left out

- HTTP, headers, the API key and `load_dotenv` are left out. Each response is a parameter: the decoded list, or the failure.
- `psycopg2` connect, cursor, commit, close and the `with conn` transaction are left out. The connection outcome and each write's acceptance are booleans, and a committed write is a map update.
- Rows are committed one by one. An item that raises never reaches `commit`, so it writes nothing, and the earlier rows stay.
- The distribution of `random.sample` is left out. Only which multisets can be drawn is modelled.
- Real `time.time()` floats are left out, including a clock that is not monotone. The clock is an abstract monotone real.
- The internals of `json.dumps` are left out (it is the uninterpreted parameter `dumps`). The code never reads `roi` back, so no round trip is claimed.
- Prints, the summary string `main` returns, and the always-falsy `success` are left out.
  - `insert_cryptocurrencies` returns nothing, so "Failed to insert" is printed for every written item.
  - That only changes a message, never the table.
- Postgres column types and value coercion are left out.
  - At insert time, a record whose `id` is neither text nor null stops with an error of its own, `UnsupportedId`; Postgres would try to coerce it to text. The catalog and the sample carry identifiers of any JSON type unchanged, as the comprehension does.
  - `psycopg2` cannot adapt an object at all, and it adapts a list to a Postgres array, which the column's type then rejects or converts. The model stores objects and lists in columns other than `roi` unchanged.
- A response body that is a JSON object rather than an array is left out. `data[0]` on it would raise `KeyError`. Responses are lists, or failures.
- Run: the market-data oracle `envs` must hold an answer for each of the at most 50 items a sample can have, which is why `Run` requires `50 <= |envs|`.
- Ingest: the timing facts are stated as the predicates `Paced` and `AskedFor`. `PacedTimeline` and `AskedForAt` spell out what they mean, request by request.
- The code keeps no aggregate success, no-data or failure counts, so none are modelled.
- Facts about the code the model follows:
  - `main` keeps no success, no-data or failure counts and always returns the same string.
  - The code has no read path for `roi`. It stores NULL for every falsy value, including a present but empty object.
  - `insert_cryptocurrencies` returns nothing, whether or not a row was affected.
  - `random.sample` draws distinct positions, so an identifier listed twice in the catalog can be drawn twice; the model states a sub-multiset.
  - The gate's sleep is kept exactly as written, and the model proves it never runs.
