# GitHub event scanner — a Dafny model

This project models the incremental GitHub-event scanner of the judges action
(`judges/github-events/github-events.rb`). The scanner walks one repository's
events, newest first. It stops after `max_events` events or at the first event
whose id is below `latest`, the id where the previous run stopped. Every other
event is claimed in the fact store by an insert-if-absent on `event_id`,
inside a transaction. The claimed record is then handed to `fill_up_event`.
That function either fills in the record, which commits it as a fact, or
raises `Factbase::Rollback` through `skip_event`, which undoes the claim. The
scan counts the events it visited (`total`) and the facts it added
(`detected`), and it returns the id of the last event it visited.

Layout:

- `wrappers.dfy` — `Option`.
- `events.dfy` (module `Events`) — the raw event, the fact record and the
  classifier `FillUp`, a pure function. `FillUp` has three outcomes:
  - `Derive(fact)`: the filled-in record;
  - `Discard`: the rollback raised by `skip_event`;
  - `Fault`: a Ruby error from indexing into a payload object that is absent
    (for example a pull-request event without `pull_request`). This error is
    not a rollback, so it escapes the transaction and the scan.
- `fact_store.dfy` (module `FactStores`) — the fact store as a class whose
  `facts: seq<Fact>` field its methods reassign. Its invariant is at most one
  fact per event id. The methods are insert-if-absent (`IfAbsent`), filling in
  the claimed record (`Fill`) and rolling back to a snapshot (`Restore`).
- `scan.dfy` (module `Scanning`) — the specification of the scan:
  - `Txn`: one event's transaction;
  - `VisitEvent`: one visit;
  - `Run`: the rest of a scan, recursively;
  - `ScanAll`: a whole scan with `FillUp`.
  It also holds the imperative loop `ScanRepository` and its transaction
  `Transact`. Both are proved equal to that specification. The transaction is
  modelled as snapshot, claim, then fill in or restore.
- `scan_properties.dfy` (module `ScanProperties`) — lemmas about the scan.
  They cover where it stops, what it adds, that a discard leaves no trace,
  exactly-once claims and idempotence.
- `scenarios.dfy` (module `Scenarios`) — concrete scans. These include the
  tag and watch scenarios of `test/judges/test-github-events.rb`.

`Run` and its lemmas take the classifier as a parameter (`Classifier`). The
scanner's own scan is the instance with `FillUp`. `FillUpKeepsClaimId`
discharges the one assumption some lemmas make about the classifier: it
never changes the claimed event id. `ScanAllKeepsClaimsUnique` and
`ScanAllIsIdempotent` state those lemmas for `ScanAll` itself.

The scan does not return the highest id it saw: it returns the id of the
last event it visited (`id = json[:id].to_i` on line 123,
returned on line 143). That event is the oldest one visited. When the scan
stops on an old event, it is the first id below `latest`
(`Scenarios.ReturnsLastVisitedId`, `Scenarios.ReturnsIdBelowLatest`).

## Model

| member | source | states |
|---|---|---|
| `Events.FillUp` | judges/github-events/github-events.rb:35-111 | A derived fact keeps the claimed event id and carries `when`, `event_type` and `repository` from the event. It carries `who` = the actor id when an actor is present, except on a published release. Only pull-request, issue, release and create events are ever derived. Pushes and types outside the dispatch are always discarded. Issue comments are never derived; they fail exactly when the issue is absent, or when a created comment or its user is absent. A pull request fails iff `pull_request` is absent and is derived iff its action is `closed`; its `what` is `pull-was-merged` iff `merged_at` is set, else `pull-was-closed`. An issues event is derived iff its issue is present, with `issue-was-closed`/`issue-was-opened` for those actions and no `what` otherwise. A release event is never discarded. It fails iff the release, or a published release's author, is absent. A published release gets `release-published` and `who` = the author id; other actions get no `what`. A create event is always derived, with `tag-was-created` and `tag` = `ref` iff `ref_type` is `tag`. On every derived fact, `issue` is set only from a pull request or an issue, `release_id` only from a release and `tag` only from a tag creation; otherwise each keeps the claim's value |
| `FactStores.AppendFreshKeepsUnique` | judges/github-events/github-events.rb:128-131 | Adding a fact whose event id is not yet in the store keeps at most one fact per event id, and the id is then present |
| `FactStores.PrefixHasEvent` | judges/github-events/github-events.rb:128-137 | A fact with a given event id stays present in any store that extends this one |
| `FactStores.FactStore.IfAbsent` | judges/github-events/github-events.rb:129-131 | Insert-if-absent by event id: it claims iff no fact has that id, and then appends a bare record with that id. Otherwise the store is unchanged. Uniqueness of event ids is kept |
| `FactStores.FactStore.Fill` | judges/github-events/github-events.rb:132-133 | The record claimed last is replaced by its filled-in version with the same event id; every other fact is unchanged and uniqueness is kept |
| `FactStores.FactStore.Restore` | judges/github-events/github-events.rb:128-137 | A rollback puts the store back to the snapshot taken when the transaction began |
| `Scanning.Txn` | judges/github-events/github-events.rb:128-137 | A transaction skips iff the event id is already present, and then the store is unchanged. It commits iff the id is absent and the classifier derives; the store is then the old store plus the derived fact. It rolls back or fails, leaving the store unchanged, iff the id is absent and the classifier discards or fails |
| `Scanning.TxnKeepsClaimsUnique` | judges/github-events/github-events.rb:128-137 | With a classifier that keeps the claimed id, a transaction keeps at most one fact per event id. Afterwards a fact with the event's id exists iff the transaction did not roll back or fail |
| `Scanning.FillUpKeepsClaimId` | judges/github-events/github-events.rb:129-133 | Filling a claim never changes its event id |
| `Scanning.VisitEvent` | judges/github-events/github-events.rb:122-137 | Visiting an event counts it and records its id whatever happens next. It stops iff the id is below `latest`, and then no claim is made. It raises iff the id is at or above `latest` and the transaction failed. `detected` grows by one iff the transaction committed |
| `Scanning.Run` | judges/github-events/github-events.rb:117-138 | From any point of the scan: `total` never exceeds the number of events, nor `max_events` once below it. With `total` at or above `max_events` nothing more is visited. `detected` grows exactly by the number of facts added, and never by more than `total` grows. The last id is that of the last visited event |
| `Scanning.ScanAll` | judges/github-events/github-events.rb:113-144 | A whole scan: `detected` ≤ `total` ≤ the number of events, `total` ≤ `max_events` (zero when that is negative), and the store grows by exactly `detected` facts. The returned id is that of the last visited event, or nil when none was visited |
| `Scanning.Transact` | judges/github-events/github-events.rb:128-137 | The imperative transaction (snapshot, insert-if-absent, then fill in or restore) leaves the store and reports the step exactly as `Txn` specifies, keeping the store's invariant |
| `Scanning.ScanRepository` | judges/github-events/github-events.rb:113-144 | The loop leaves the store, the returned id, `total`, `detected` and whether an error escaped exactly as `ScanAll` specifies, keeping at most one fact per event id |
| `ScanProperties.RunExtendsStore` | judges/github-events/github-events.rb:128-137 | A scan never removes or changes a fact; it only appends. With a classifier that keeps the claimed id, it keeps at most one fact per event id (exactly-once) |
| `ScanProperties.VisitedAreAtOrAboveLatest` | judges/github-events/github-events.rb:122-127 | Every visited event except possibly the last has an id at or above `latest` |
| `ScanProperties.StopsBelowLatest` | judges/github-events/github-events.rb:117-127 | A scan that ends normally short of both `max_events` and the end of the events ended on an event whose id is below `latest`, which it counted |
| `ScanProperties.AbortsOnlyOnFault` | judges/github-events/github-events.rb:124-137 | An id below `latest` ends the scan normally. A scan that ends by an error ends on a visited event whose fill-up failed |
| `ScanProperties.AddedFactsAreDerived` | judges/github-events/github-events.rb:128-137 | Every fact a scan adds is the classifier's fact for a visited event whose id is at or above `latest` and was not in the store before |
| `ScanProperties.ClaimedEventsArePresent` | judges/github-events/github-events.rb:128-137 | After a scan, a fact exists for every visited event at or above `latest` that was already present or that the classifier derives |
| `ScanProperties.DiscardLeavesNoTrace` | judges/github-events/github-events.rb:128-137 | Event ids are distinct. A visited event that was absent and that the classifier does not derive leaves no fact with its id: the claim was rolled back |
| `ScanProperties.RescanChangesNothing` | judges/github-events/github-events.rb:117-138 | Scanning again from the store a scan ends with visits the same events. It commits nothing, leaves the store and `detected` unchanged, and ends the same way |
| `ScanProperties.ScanIsIdempotent` | judges/github-events/github-events.rb:113-144 | Scanning the same events twice: the second scan derives nothing and leaves the store as the first left it. It visits as many events, returns the same id and ends the same way |
| `ScanProperties.VisitsDiscarded` | judges/github-events/github-events.rb:117-138 | If every event is at or above `latest` and discarded, the scan visits min(number of events, `max_events`) of them, and none when `max_events` is negative, detects none and leaves the store unchanged |
| `ScanProperties.ScanAllKeepsClaimsUnique` | judges/github-events/github-events.rb:128-137 | The scanner's own scan keeps at most one fact per event id, and every visited event at or above `latest` that `fill_up_event` derives has a fact afterwards |
| `ScanProperties.ScanAllIsIdempotent` | judges/github-events/github-events.rb:113-144 | Running the scanner's own scan twice over the same events: the second run detects nothing, leaves the store unchanged, visits as many events, returns the same id and ends the same way |
| `Scenarios.TagCreationIsRecorded` | test/judges/test-github-events.rb:40-62 | A `CreateEvent` with `ref_type` `tag` and `ref` `foo` by user 42 yields exactly one fact, `tag-was-created`, with `who` 42 and `tag` `foo` |
| `Scenarios.WatchEventLeavesNoFact` | test/judges/test-github-events.rb:64-78 | A `WatchEvent` is visited but leaves the store exactly as it was |
| `Scenarios.ReturnsLastVisitedId` | judges/github-events/github-events.rb:117-143 | Scanning ids 103, 102, 101 of undispatched types with `latest` 100: all three are visited and discarded, and the scan returns 101, not the highest id 103 |
| `Scenarios.ReturnsIdBelowLatest` | judges/github-events/github-events.rb:122-127 | Scanning ids 103, 99, 98 with `latest` 100: two events are visited and the scan returns 99, an id below `latest` |
| `Scenarios.CapStopsBeforeCounting` | judges/github-events/github-events.rb:117-121 | With `max_events` 1, only the newest event is visited and returned |

## Left out

- Watermark persistence and quota handling belong to the surrounding iteration helper (`as`, `by`, `quota_aware`, `limit 1`, lines 29-33), which is not part of this model. `latest` and `max_events` are parameters. The returned id is a result.
- The internals of the fact store's `if_absent` and `txn` are not part of this model. They are modelled by their contract: insert-if-absent keyed by `event_id`, with commit or restore of a snapshot.
- Fetching the events (`repository_events`, with its pagination) is left out: the events are a sequence given newest first.
- Logging, the `details` strings and the user-name lookup `J.who` are left out. `J.who` is a remote call that builds `details`.
- `Time.parse`/`iso8601` and the string-to-integer conversion of ids are left out. Times are opaque integers, and event and repository ids are integers.
- Event types, payload actions and `ref_type` are enumerations, each with a catch-all case whose name is restricted to the names the classifier does not compare against.
- Attributes set only on branches that always discard are not modelled: `push_id` and the comment id, body and author. They never reach the store.
- `Events.FillUp`: fact attributes are single-valued here, so assigning `who` twice on a published release leaves the author id. The fact store's attributes can hold several values, so the stored `who` of such a fact may also keep the actor id.
- `Events.FillUp`: assigning a nil value to a fact attribute (a tag event without `ref`) leaves the attribute unset. How the fact store reacts to a nil value is not part of this model.
- `Events.FillUp`: the repository object and `created_at` are assumed present; an event without them makes the scanner fail, and the model has no such event. An absent payload object is modelled as a payload whose parts are all absent. That is faithful for every branch except two: a push event without a payload fails in the scanner (line 52) but is `Discard` here, and a create event without a payload fails in the scanner (line 100) but is `Derive` here.
- An error raised by the remote calls during a scan is not modelled. Only the failure of `fill_up_event` on an absent payload object is modelled, as `Fault`.
- On such a failure, the scanner returns nothing from the scan. `ScanRepository` reports `raised` together with the counters at that moment.
- The release-diff fields (`commits`, `hoc`, `contributors`, `last_commit`), pull-request comment counts and `pull-was-reviewed` appear only in the tests. The scanner does not implement them: a `PullRequestReviewEvent` is discarded.
- Retraction of facts about vanished issues is not modelled: `judges/label-was-attached/label-was-attached.rb` is not part of this model.
- Repository mask parsing is not modelled: `lib/each_repo` is not part of this model.
- `judges/dimensions-of-terrain/dimensions-of-terrain.rb` is not modelled. It only sums values fetched by remote calls.
