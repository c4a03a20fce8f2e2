# qBittorrent transfer-list model, in Dafny

This project models the core of qBittorrent's transfer-list model
(`src/qtlibtorrent/torrentmodel.cpp`). That is the table behind the main
window's list of torrents. Each row wraps one torrent handle, and the view
reads the row's columns, edits its name or label, and asks for an
aggregate status report.

What is modelled:

- **Engine and handles** (`engine.dfy`). A handle is the info-hash of its
  torrent plus the identity of that torrent object in the session. A torrent
  that is removed and added again gets a new handle with the same hash, and
  the old handle stays invalid. The torrent engine is a parameter: a map
  from the live handles to the status a handle query returns, so a handle
  is valid exactly while it is a key. A query on an invalid handle,
  including asking it for its hash, answers `InvalidHandle`, which stands
  for libtorrent's `invalid_handle` exception. The session's ETA and
  share-ratio estimates are opaque functions passed in.
- **Display state** (`states.dfy`). `TorrentModelItem::state` becomes
  `Classify`, a pure decision over paused, queued, seed, engine state and
  payload rates. It is proved equal to a first-match table in the precedence order
  paused > queued > checking > transfer rate > invalid.
- **Columns** (`columns.dfy`). The column numbering, the composite
  seeds/peers sort key, and the ETA sentinel for complete, paused and queued
  torrents. The key's recoverability and ordering are proved while the
  swarm count stays below 100000.
- **Rows** (`items.dfy`). `TorrentModelItem` is a class whose name and label
  are updated in place, backed by the persistent store (a class of maps).
  `Edit` describes everything one `setData` call does. `SetData` is proved
  against it. While the handle stays valid, the `labelChanged`
  notifications are proved to replay the label's history.
- **The list model** (`model.dfy`). `TorrentModel` holds the rows as a
  sequence and records its notifications in a ghost log:
  - the `torrentRow` scan, `addTorrent`, `removeTorrent`, `torrentHash`,
    `handleTorrentUpdate` and `handleTorrentAboutToBeRemoved`;
  - the bounds-checked `data` and `setData`;
  - the loading loop of `populate`.

  The rows hold handles, and a row keeps its handle after that handle has
  become invalid. The model's invariant is that no two rows with valid
  handles share a hash; a stale row may sit beside a newer handle of the
  same torrent. The scan, addition, removal and loading are proved against
  pure functions on the list of handles (`RowOf`, `AddHandle`, `RemoveRow`,
  `AddAll`), which carry the lookup, uniqueness and order properties. The
  bounds-checked `data` and `setData` are proved against the row's own
  `Data` and `Edit`.
- **Status report** (`reports.dfy`). `getTorrentStatusReport` folds the
  rows' states into five counters, including the fall-through from a paused
  state into the inactive branch. The fold is proved to balance, and to give
  the same report for any reordering of the rows.

A paused torrent is not counted twice on either side: it adds one to the paused counter,
then falls through and adds one to the inactive counter and one to its side's
counter, once each. `Count` and `GetTorrentStatusReport` follow the code.

## Model

| member | source | states |
|---|---|---|
| TorrentStates.Classify | src/qtlibtorrent/torrentmodel.cpp:19-74 | States each class as an if-and-only-if over the handle. The state is Invalid exactly for an invalid handle or an unrecognised engine state that is neither paused nor queued. Paused exactly when the handle says paused; queued exactly when queued and not paused; checking exactly when neither and the engine is checking. Paused, queued and checking split by the seed flag. Downloading/StalledDl exactly for the fetching engine states and Seeding/StalledUp exactly for the complete ones, with active only at a positive rate. |
| TorrentStates.ClassifyFollowsPrecedence | src/qtlibtorrent/torrentmodel.cpp:19-74 | The classification equals the first applicable rule of the precedence table: paused, queued, checking, fetching by rate, complete by rate, then invalid. |
| TorrentStates.PausedIgnoresEverythingElse | src/qtlibtorrent/torrentmodel.cpp:23-27 | Two paused handles with the same seed flag get the same state, and that state is a paused one, whatever their queue flag, engine state and rates. |
| TorrentColumns.SourcesKeyRecoversCount | src/qtlibtorrent/torrentmodel.cpp:123-131 | With a non-negative source count and a swarm count below 100000, the key divided by 1000000 is the source count and the remainder is the tail (ten times the swarm count, or 1). |
| TorrentColumns.SourcesKeyOrdersByCount | src/qtlibtorrent/torrentmodel.cpp:123-131 | More connected sources always give a larger key, whatever the tails, when the smaller key's swarm count is below 100000. |
| TorrentColumns.SourcesKeyBreaksTies | src/qtlibtorrent/torrentmodel.cpp:126-127 | For the same source count, a larger swarm count at or above it gives a larger key. |
| TorrentColumns.SourcesKeyNeedsBound | src/qtlibtorrent/torrentmodel.cpp:123-131 | Without the bound the ordering fails: no seeds in a swarm of 200000 sorts above one seed, and a swarm of 100000 no longer divides back to a zero count. |
| TorrentColumns.EtaFollowsClassification | src/qtlibtorrent/torrentmodel.cpp:144-148 | The ETA is the 8640000-second sentinel exactly when the torrent is a seed or its display state is paused or queued; otherwise it is the session's estimate. |
| TorrentItems.Edit | src/qtlibtorrent/torrentmodel.cpp:77-101 | An edit is refused (false) exactly for a non-display role or a column other than name and label. The name and label change only through their own column. A name edit is saved exactly when the handle is valid. A label is saved and announced, as (old, new), exactly when it differs and the handle is valid. The edit fails on the handle exactly when the handle is invalid and the hash is needed: a name edit, or a label edit to a new value. Every other display-role name or label edit answers true, including an unchanged label on an invalid handle. |
| TorrentItems.EditKeepsLabelChain | src/qtlibtorrent/torrentmodel.cpp:87-96 | While the handle is valid, each edit keeps the `labelChanged` log chained: every notification starts where the previous one ended, is a real change, and the last ends at the current label. |
| TorrentItems.LabelEditIdempotent | src/qtlibtorrent/torrentmodel.cpp:87-96 | Repeating a label edit returns true and saves and announces nothing, whether or not the handle is valid. |
| TorrentItems.TorrentModelItem.constructor | src/qtlibtorrent/torrentmodel.cpp:9-17 | A new row takes its name from the store, or the handle's name when the stored one is empty. It takes its label and added and completed dates from the store, and has announced nothing. |
| TorrentItems.TorrentModelItem.Data | src/qtlibtorrent/torrentmodel.cpp:103-166 | A cell fails exactly for a display-role column that needs the handle when the handle is invalid. The status cell never fails and shows the classification. The handle columns show the status-derived value. The label cell shows the label, and an unknown column is empty. |
| TorrentItems.TorrentModelItem.SetData | src/qtlibtorrent/torrentmodel.cpp:77-101 | The row's name, label, store maps, label log and result are exactly those `Edit` gives for the old name and label. The dates are untouched. |
| TorrentItems.SeedsCellRecoversCount | src/qtlibtorrent/torrentmodel.cpp:123-131 | For a valid handle with a swarm count below 100000, the seeds cell is a number whose quotient by 1000000 is the seed count. |
| TorrentItems.PeersCellRecoversCount | src/qtlibtorrent/torrentmodel.cpp:132-139 | For a valid handle with at least as many peers as seeds and a swarm count below 100000, the peers cell's quotient by 1000000 is the non-seed peer count. |
| TorrentItems.EtaCellFollowsState | src/qtlibtorrent/torrentmodel.cpp:144-148 | For a valid handle, the ETA cell is the sentinel when the row's state is paused or queued or the torrent is a seed, and the session's estimate otherwise. |
| StatusReports.Count | src/qtlibtorrent/torrentmodel.cpp:365-394 | Counting a row: an invalid row adds nothing. Any other row adds exactly one to active or inactive and exactly one to downloading or seeding. Active grows exactly for Downloading and Seeding, seeding exactly for the upload-side states, and paused exactly for the paused states, which also count as inactive. |
| StatusReports.TallyBalances | src/qtlibtorrent/torrentmodel.cpp:360-397 | Over any list of rows: active plus inactive, and downloading plus seeding, each equal the number of rows not shown as invalid; paused is at most inactive. |
| StatusReports.TallyAppend | src/qtlibtorrent/torrentmodel.cpp:360-397 | The report of two runs of rows is the field-wise sum of their reports. |
| StatusReports.TallyOrderIndependent | src/qtlibtorrent/torrentmodel.cpp:360-397 | Swapping two runs of rows leaves the report unchanged. |
| StatusReports.TallyPermutation | src/qtlibtorrent/torrentmodel.cpp:360-397 | Any two lists holding the same rows, as multisets, give the same report: the counts do not depend on row order. |
| StatusReports.CountRow | src/qtlibtorrent/torrentmodel.cpp:365-394 | The switch with its paused-state fall-through counts a row exactly as `Count` does. |
| TorrentModels.RowOf | src/qtlibtorrent/torrentmodel.cpp:277-288 | The lookup returns -1 exactly when no row holds a valid handle with that hash. Otherwise it returns the smallest such row; rows whose handle has become invalid are skipped. |
| TorrentModels.RowOfFindsOwnRow | src/qtlibtorrent/torrentmodel.cpp:277-288 | When no two valid rows share a hash, looking up the hash of a row whose handle is valid finds that row. |
| TorrentModels.AddHandleKeepsUnique | src/qtlibtorrent/torrentmodel.cpp:290-300 | Adding keeps the hashes of valid rows unique. After adding a valid handle the lookup finds its torrent. Adding an invalid handle, or one whose torrent the lookup already finds, changes nothing. |
| TorrentModels.LiveRun | src/qtlibtorrent/torrentmodel.cpp:175-181 | The number of handles loaded: every handle before it is valid, and the handle at it, if any, is invalid. |
| TorrentModels.RemoveRowKeepsOthers | src/qtlibtorrent/torrentmodel.cpp:308 | Removing a row shortens the list by one and keeps every other row in its relative order. |
| TorrentModels.RemoveFoundRow | src/qtlibtorrent/torrentmodel.cpp:302-311 | Removing the row the lookup found keeps the hashes of valid rows unique, and afterwards the lookup finds no row for that hash. |
| TorrentModels.RemoveAsWrittenKeepsUnique | src/qtlibtorrent/torrentmodel.cpp:302-311 | Removal with the guard as written keeps the hashes of valid rows unique. |
| TorrentModels.FirstRowIsNeverRemoved | src/qtlibtorrent/torrentmodel.cpp:306 | When the lookup finds row 0, removal as written leaves the list unchanged, while removal under the guard `row >= 0` drops that row. |
| TorrentModels.StaleRowBesideReAdded | src/qtlibtorrent/torrentmodel.cpp:290-311 | A sole row found at row 0 survives removal as written. Once its handle is invalid and the torrent comes back under a new handle, the stale row no longer answers the lookup, so adding appends a second row for the same hash. Under the guard `row >= 0` the row would have been removed and the new handle is the only row. |
| TorrentModels.UniqueSurvivesEngineChange | src/qtlibtorrent/torrentmodel.cpp:277-311 | The invariant that no two valid rows share a hash carries over to any later engine in which no row's handle has come back to life. |
| TorrentModels.PopulateThenRemoveExample | src/qtlibtorrent/torrentmodel.cpp:175-181 | Loading valid handles a, b, c with distinct hashes lists them in that order, and removing b's hash then leaves a, c. |
| TorrentModels.TorrentModel.constructor | src/qtlibtorrent/torrentmodel.cpp:170-173 | A new model has no rows, has sent no notifications, and satisfies the invariant in every engine. |
| TorrentModels.TorrentModel.ScanRows | src/qtlibtorrent/torrentmodel.cpp:277-288 | The scan with its counter starting at `counter` reports -1 when the lookup finds nothing, and otherwise `counter` plus the found row. Rows whose handle is invalid are skipped but still counted. |
| TorrentModels.TorrentModel.TorrentRow | src/qtlibtorrent/torrentmodel.cpp:277-288 | With the counter starting at 0, the scan returns exactly the lookup's row: the smallest row with a valid handle for the hash, or -1. |
| TorrentModels.TorrentModel.TorrentHash | src/qtlibtorrent/torrentmodel.cpp:412-417 | Outside the rows, the result is the empty string. Inside, the query fails exactly when that row's handle is invalid, and otherwise it answers the hash of the row's handle. |
| TorrentModels.TorrentModel.TorrentHashRowRoundTrip | src/qtlibtorrent/torrentmodel.cpp:412-417 | When no two valid rows share a hash, the hash of a valid row looks up to that row, and the row a lookup finds answers that hash. |
| TorrentModels.TorrentModel.AddTorrent | src/qtlibtorrent/torrentmodel.cpp:290-300 | The call fails exactly when the handle is invalid, and then nothing changes. The handles become `AddHandle` of the old ones: the handle is appended exactly when it is valid and the lookup finds no valid row for its hash, even when a stale row holds that hash. Earlier rows stay as they were. The begin-insert, torrent-added and end-insert notifications for the new last row are sent exactly when a row is added. A new row is fresh and built from the store. No two valid rows share a hash afterwards. |
| TorrentModels.TorrentModel.Populate | src/qtlibtorrent/torrentmodel.cpp:175-181 | The handles are added in turn up to the first invalid one, whose failing hash query ends the loading: the rows' handles are exactly those of adding that leading run one by one. Earlier rows are kept, the invariant holds, and one insertion is announced per added row, in order. |
| TorrentModels.TorrentModel.LoadNext | src/qtlibtorrent/torrentmodel.cpp:179-181 | One loading step adds the next handle and fails exactly when it is invalid. The rows and notifications stay the starting ones extended by the rows for the added handles, in order, now including what this handle added, and the invariant holds. |
| TorrentModels.ExtendsStep | src/qtlibtorrent/torrentmodel.cpp:179-181 | Adding one handle as addTorrent does keeps the model an extension of the starting rows: the prefix is kept, the hashes grow by what the handle adds, and the notifications by its insertions, numbered from the end of the earlier rows. |
| TorrentModels.TorrentModel.RemoveTorrent | src/qtlibtorrent/torrentmodel.cpp:302-311 | With the guard as written, the row the lookup finds is removed and announced only when it is above 0. Otherwise nothing changes. No two valid rows share a hash afterwards. |
| TorrentModels.TorrentModel.RemoveTorrentAtAnyRow | src/qtlibtorrent/torrentmodel.cpp:302-311 | With the guard `row >= 0`, any found row is removed and announced. Afterwards the lookup finds no row for that hash, and the other rows keep their order. |
| TorrentModels.TorrentModel.HandleTorrentUpdate | src/qtlibtorrent/torrentmodel.cpp:333-339 | The rows are unchanged. A row change is announced for the found row exactly when the handle is valid and the lookup finds a row for its hash. |
| TorrentModels.TorrentModel.HandleTorrentAboutToBeRemoved | src/qtlibtorrent/torrentmodel.cpp:419-425 | The rows are unchanged. The warning is passed on, naming the found row's handle, exactly when the handle is valid and the lookup finds a row for its hash. |
| TorrentModels.TorrentModel.Data | src/qtlibtorrent/torrentmodel.cpp:251-259 | Out-of-range positions are empty. A display cell whose handle query fails is empty. The status cell shows the row's state. Otherwise the cell is the row's own value. |
| TorrentModels.TorrentModel.SetData | src/qtlibtorrent/torrentmodel.cpp:261-275 | A non-display role or an out-of-range position changes nothing and returns false. Otherwise the row's edit is exactly `Edit`. The model passes on the row's label notification, returns true only when the row accepted the edit, and then announces the row as changed. No row is added or removed. |
| TorrentModels.TorrentModel.GetTorrentStatusReport | src/qtlibtorrent/torrentmodel.cpp:360-397 | The loop's report equals the fold of `Count` over the rows' states in row order. |
| TorrentModels.TorrentModel.ReportBalances | src/qtlibtorrent/torrentmodel.cpp:360-397 | For the current rows, active plus inactive and downloading plus seeding both equal the number of rows not shown as invalid, and paused is at most inactive. |
| TorrentModels.UninitialisedCounterMisreports | src/qtlibtorrent/torrentmodel.cpp:277-288 | With the scan's counter starting at 7 instead of 0, the only row, row 0, is reported as row 7, past the end of the list. |

## Left out

- Signal and timer wiring in `populate`, `setRefreshInterval`, `forceModelRefresh`, `headerData` and `flags` are UI plumbing. Notifications the model sends are recorded in a ghost log instead.
- The icon and colour caches that `state()` overwrites are visual only; the cells carry placeholders.
- Progress is a floating-point value passed through unchanged; no property is stated about it.
- The session's ETA and share-ratio estimates and its list of handles come from a foreign singleton. They are opaque functions and a sequence parameter.
- The persistent store is a class of maps from hash to name, label and dates; how it is saved to disk is not part of this model.
- Memory management (`qDeleteAll`, the removed row never being freed) is not modelled.
- The engine is a snapshot per operation; concurrent changes to a handle between two queries are not modelled. That an invalid handle never becomes valid again is an assumption about the engine, stated as the precondition of `UniqueSurvivesEngineChange`, not something the model enforces between calls.
- The column numbers and the 8640000-second ETA sentinel come from `torrentmodel.h` and `misc.h`, which are not part of this model. The numbering follows the order of the cases in `TorrentModelItem::data`.
- TorrentColumns.SourcesKeyRecoversCount: the key is computed on unbounded integers. The source multiplies in 32-bit `int` (overflowing above 2147 sources) and converts a negative peer difference to an unsigned 64-bit value. These wrap-arounds are not modelled.
- TorrentItems.PeersCellRecoversCount: requires at least as many peers as seeds, because below that the unsigned conversion in the source wraps and the mathematical key is no longer meaningful.
- TorrentModels.TorrentModel.Populate: does not restate the initial contents of each new row, because the combined invariant exceeds the solver budget. `AddTorrent`, which it calls for each handle, proves those contents for each row it adds.
- An exception escaping `addTorrent` on an invalid handle is modelled as the failure result `InvalidHandle` with nothing changed. In `populate` it ends the loading at that handle, and the signal connections after the loop are not modelled anyway. An exception escaping `handleTorrentUpdate` or `handleTorrentAboutToBeRemoved` is modelled as the operation changing nothing.

## Findings

| source | as written | input that shows it | evidently intended | confidence | as-written member | corrected member |
|---|---|---|---|---|---|---|
| src/qtlibtorrent/torrentmodel.cpp:306 | removal guarded by `row > 0` | list [A, B] with valid handles; removing A finds row 0 and keeps it | remove any row the lookup finds (`row >= 0`) | not executed | TorrentModels.FirstRowIsNeverRemoved | TorrentModels.TorrentModel.RemoveTorrentAtAnyRow |
| src/qtlibtorrent/torrentmodel.cpp:280 | row counter declared without a value | list [A]; a counter holding 7 on entry reports A at row 7 | counter starts at 0, so the scan returns the found index | not executed | TorrentModels.UninitialisedCounterMisreports | TorrentModels.TorrentModel.TorrentRow |
