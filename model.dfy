/** The transfer-list model (TorrentModel): an ordered list of rows keyed by
    the torrents' hashes, with lookup by linear scan, idempotent addition,
    removal by hash, bounds-checked cell access, update notifications and the
    aggregate status report. Notifications to views are recorded in a ghost
    log of events. */
module TorrentModels {
  import E = TorrentEngine
  import opened TorrentStates
  import opened TorrentColumns
  import opened TorrentItems
  import opened StatusReports

  /** The notifications the model sends to its views and listeners. */
  datatype ModelEvent =
    | BeginInsertRows(row: int)
    | TorrentAdded(handle: E.Handle)
    | EndInsertRows
    | BeginRemoveRows(row: int)
    | EndRemoveRows
    | RowChanged(row: int)
    | TorrentAboutToBeRemoved(handle: E.Handle)
    | TorrentChangedLabel(hash: E.Hash, previous: string, current: string)

  /** The handles of a list of rows, in row order. */
  function HandlesOf(items: seq<TorrentModelItem>): seq<E.Handle> {
    seq(|items|, i requires 0 <= i < |items| => items[i].handle)
  }

  /** A handle that is still valid and answers `hash`. */
  predicate Answers(h: E.Handle, hash: E.Hash, engine: E.Engine) {
    h in engine && h.hash == hash
  }

  /** No two rows with valid handles share a hash. Rows whose handle has
      become invalid are not constrained: such a row may sit beside a newer
      handle of the same torrent. */
  predicate Unique(hs: seq<E.Handle>, engine: E.Engine) {
    forall i, j :: 0 <= i < j < |hs| && hs[i] in engine && hs[j] in engine ==> hs[i].hash != hs[j].hash
  }

  /** A handle that is invalid in `engine` was invalid, or not yet listed,
      before: once the uniqueness holds, it holds in every later engine
      that keeps dead handles dead. */
  lemma UniqueSurvivesEngineChange(hs: seq<E.Handle>, before: E.Engine, after: E.Engine)
    requires Unique(hs, before)
    requires forall i :: 0 <= i < |hs| && hs[i] in after ==> hs[i] in before
    ensures Unique(hs, after)
  {
  }

  /** The row a lookup by hash finds: the first row whose valid handle has
      that hash, or -1. A row whose handle has become invalid is skipped. */
  function RowOf(hs: seq<E.Handle>, hash: E.Hash, engine: E.Engine): (r: int)
    ensures -1 <= r < |hs|
    ensures r >= 0 ==> Answers(hs[r], hash, engine)
    ensures r >= 0 ==> forall j :: 0 <= j < r ==> !Answers(hs[j], hash, engine)
    ensures r < 0 <==> forall j :: 0 <= j < |hs| ==> !Answers(hs[j], hash, engine)
    decreases |hs|
  {
    if hs == [] then -1
    else if Answers(hs[0], hash, engine) then 0
    else
      var r := RowOf(hs[1..], hash, engine);
      assert forall j :: 1 <= j < |hs| ==> hs[j] == hs[1..][j - 1];
      if r < 0 then -1 else r + 1
  }

  /** With unique hashes, looking up the hash of a valid row finds that row. */
  lemma RowOfFindsOwnRow(hs: seq<E.Handle>, i: int, engine: E.Engine)
    requires Unique(hs, engine) && 0 <= i < |hs| && hs[i] in engine
    ensures RowOf(hs, hs[i].hash, engine) == i
  {
  }

  /** The handles after addTorrent: the handle is appended unless the lookup
      already finds its hash (or the handle is invalid). */
  function AddHandle(hs: seq<E.Handle>, h: E.Handle, engine: E.Engine): seq<E.Handle> {
    hs + Added(hs, h, engine)
  }

  /** What addTorrent appends to the handles: the handle itself, or nothing. */
  function Added(hs: seq<E.Handle>, h: E.Handle, engine: E.Engine): seq<E.Handle> {
    if h in engine && RowOf(hs, h.hash, engine) < 0 then [h] else []
  }

  /** Adding keeps the hashes of valid rows unique, makes a valid handle's
      torrent found by the lookup, and changes nothing for an invalid handle
      or a torrent already found. */
  lemma AddHandleKeepsUnique(hs: seq<E.Handle>, h: E.Handle, engine: E.Engine)
    requires Unique(hs, engine)
    ensures Unique(AddHandle(hs, h, engine), engine)
    ensures h in engine ==> RowOf(AddHandle(hs, h, engine), h.hash, engine) >= 0
    ensures h !in engine || RowOf(hs, h.hash, engine) >= 0 ==> AddHandle(hs, h, engine) == hs
  {
    if h in engine && RowOf(hs, h.hash, engine) < 0 {
      assert Answers(AddHandle(hs, h, engine)[|hs|], h.hash, engine);
    } else {
      assert AddHandle(hs, h, engine) == hs;
    }
  }

  /** The handles after adding a run of handles one after the other. */
  function AddAll(hs: seq<E.Handle>, handles: seq<E.Handle>, engine: E.Engine): seq<E.Handle>
    decreases |handles|
  {
    if handles == [] then hs
    else AddHandle(AddAll(hs, handles[..|handles| - 1], engine), handles[|handles| - 1], engine)
  }

  /** Adding the next handle of the run. */
  lemma AddAllStep(hs: seq<E.Handle>, handles: seq<E.Handle>, i: int, engine: E.Engine)
    requires 0 <= i < |handles|
    ensures AddAll(hs, handles[..i + 1], engine) == AddHandle(AddAll(hs, handles[..i], engine), handles[i], engine)
  {
    assert handles[..i + 1][..i] == handles[..i];
  }

  /** How many handles populate loads: the length of the leading run of
      valid handles. At the first invalid one the hash query of addTorrent
      fails, and nothing after it is loaded. */
  function LiveRun(handles: seq<E.Handle>, engine: E.Engine): (n: nat)
    ensures n <= |handles|
    ensures forall j :: 0 <= j < n ==> handles[j] in engine
    ensures n < |handles| ==> handles[n] !in engine
    decreases |handles|
  {
    if handles == [] || handles[0] !in engine then 0
    else
      var n := LiveRun(handles[1..], engine);
      assert forall j :: 1 <= j <= n ==> handles[j] == handles[1..][j - 1];
      1 + n
  }

  /** Taking the handles commutes with appending rows, so the handle of a
      row does not depend on the rows after it. */
  lemma HandlesOfAppend(a: seq<TorrentModelItem>, b: seq<TorrentModelItem>)
    ensures HandlesOf(a + b) == HandlesOf(a) + HandlesOf(b)
    ensures |HandlesOf(a + b)| == |a| + |b|
  {
  }

  /** A list without the row at `row` (unchanged when `row` is out of range). */
  function RemoveRow<T>(rows: seq<T>, row: int): seq<T> {
    if 0 <= row < |rows| then rows[..row] + rows[row + 1..] else rows
  }

  /** The removal exactly as written in removeTorrent: the guard accepts only
      rows above 0, so the first row is never removed. */
  function RemoveRowAsWritten<T>(rows: seq<T>, row: int): seq<T> {
    if row > 0 then RemoveRow(rows, row) else rows
  }

  /** Removing a row drops exactly that row and keeps the order of the others. */
  lemma RemoveRowKeepsOthers<T>(rows: seq<T>, row: int, k: int)
    requires 0 <= row < |rows| && 0 <= k < |rows| - 1
    ensures |RemoveRow(rows, row)| == |rows| - 1
    ensures RemoveRow(rows, row)[k] == if k < row then rows[k] else rows[k + 1]
  {
  }

  /** Removal commutes with taking the handles of the rows. */
  lemma HandlesOfRemoveRow(items: seq<TorrentModelItem>, row: int)
    ensures HandlesOf(RemoveRow(items, row)) == RemoveRow(HandlesOf(items), row)
  {
    if 0 <= row < |items| {
      var l, r := HandlesOf(RemoveRow(items, row)), RemoveRow(HandlesOf(items), row);
      assert |l| == |r|;
      forall k | 0 <= k < |l| ensures l[k] == r[k] {
        RemoveRowKeepsOthers(items, row, k);
        RemoveRowKeepsOthers(HandlesOf(items), row, k);
      }
    }
  }

  /** Removing the row a lookup found keeps the hashes of valid rows unique,
      and afterwards the lookup finds nothing for that hash. */
  lemma {:induction false} RemoveFoundRow(hs: seq<E.Handle>, hash: E.Hash, engine: E.Engine)
    requires Unique(hs, engine)
    ensures var r := RowOf(hs, hash, engine);
      Unique(RemoveRow(hs, r), engine) && RowOf(RemoveRow(hs, r), hash, engine) < 0
  {
    var r := RowOf(hs, hash, engine);
    if r >= 0 {
      var rest := RemoveRow(hs, r);
      forall i, j | 0 <= i < j < |rest| && rest[i] in engine && rest[j] in engine
        ensures rest[i].hash != rest[j].hash
      {
        RemoveRowKeepsOthers(hs, r, i);
        RemoveRowKeepsOthers(hs, r, j);
      }
      forall k | 0 <= k < |rest| ensures !Answers(rest[k], hash, engine) {
        RemoveRowKeepsOthers(hs, r, k);
      }
    }
  }

  /** Removal as written keeps the hashes of valid rows unique too. */
  lemma RemoveAsWrittenKeepsUnique(hs: seq<E.Handle>, hash: E.Hash, engine: E.Engine)
    requires Unique(hs, engine)
    ensures Unique(RemoveRowAsWritten(hs, RowOf(hs, hash, engine)), engine)
  {
    RemoveFoundRow(hs, hash, engine);
  }

  /** The first row survives a removal as written even when the lookup finds
      it, while removal under the guard `row >= 0` drops it. */
  lemma FirstRowIsNeverRemoved(hs: seq<E.Handle>, engine: E.Engine)
    requires |hs| > 0 && hs[0] in engine
    ensures RowOf(hs, hs[0].hash, engine) == 0
    ensures RemoveRowAsWritten(hs, RowOf(hs, hs[0].hash, engine)) == hs
    ensures RemoveRow(hs, RowOf(hs, hs[0].hash, engine)) == hs[1..]
  {
  }

  /** Three valid torrents a, b, c with distinct hashes are loaded in that
      order; removing b's hash leaves a, c. */
  lemma PopulateThenRemoveExample(a: E.Handle, b: E.Handle, c: E.Handle, engine: E.Engine)
    requires a in engine && b in engine && c in engine
    requires a.hash != b.hash && b.hash != c.hash && a.hash != c.hash
    ensures AddAll([], [a, b, c], engine) == [a, b, c]
    ensures RemoveRowAsWritten([a, b, c], RowOf([a, b, c], b.hash, engine)) == [a, c]
  {
    var abc := [a, b, c];
    assert [a][..0] == [];
    assert RowOf([], a.hash, engine) < 0;
    assert AddAll([], [a], engine) == [a];
    assert [a, b][..1] == [a];
    assert RowOf([a], b.hash, engine) < 0;
    assert AddAll([], [a, b], engine) == [a, b];
    assert abc[..2] == [a, b];
    assert RowOf([a, b], c.hash, engine) < 0;
    assert RowOf(abc, b.hash, engine) == 1;
  }

  /** The only row, for torrent `gone`, is found at row 0, so removal as
      written keeps it. Once the torrent is gone from the engine and added
      back under a new handle `readded`, the stale row no longer answers the lookup and
      a second row is appended for the same torrent. */
  lemma StaleRowBesideReAdded(gone: E.Handle, readded: E.Handle, before: E.Engine, after: E.Engine)
    requires gone in before && gone !in after && readded in after && readded.hash == gone.hash
    ensures RemoveRowAsWritten([gone], RowOf([gone], gone.hash, before)) == [gone]
    ensures AddHandle([gone], readded, after) == [gone, readded]
    ensures RemoveRow([gone], RowOf([gone], gone.hash, before)) == []
    ensures AddHandle([], readded, after) == [readded]
  {
    assert RowOf([gone], gone.hash, before) == 0;
    assert RowOf([gone], readded.hash, after) < 0;
  }

  /** The display states of a list of rows. */
  function StatesOf(items: seq<TorrentModelItem>, engine: E.Engine): seq<TorrentState> {
    seq(|items|, i requires 0 <= i < |items| => items[i].State(engine))
  }

  /** The events of adding new rows at `start` onwards for the handles `hs`. */
  ghost function Insertions(start: int, hs: seq<E.Handle>): seq<ModelEvent>
    decreases |hs|
  {
    if hs == [] then []
    else [BeginInsertRows(start), TorrentAdded(hs[0]), EndInsertRows] + Insertions(start + 1, hs[1..])
  }

  /** The insertions of two runs of new rows, the second starting where the
      first ends. */
  lemma {:induction false} InsertionsAppend(start: int, a: seq<E.Handle>, b: seq<E.Handle>)
    ensures Insertions(start, a + b) == Insertions(start, a) + Insertions(start + |a|, b)
    decreases |a|
  {
    if a == [] {
      assert a + b == b;
    } else {
      assert (a + b)[0] == a[0];
      assert (a + b)[1..] == a[1..] + b;
      InsertionsAppend(start + 1, a[1..], b);
    }
  }

  /** The rows `ts`, their handles `hs` and the signals `ev` extend `rows`,
      `base` and `events0` by one appended row per handle of `added`, each
      announced in order. */
  ghost predicate ExtendsRows(ts: seq<TorrentModelItem>, hs: seq<E.Handle>, ev: seq<ModelEvent>,
                              rows: seq<TorrentModelItem>, base: seq<E.Handle>, events0: seq<ModelEvent>,
                              added: seq<E.Handle>)
  {
    && |ts| >= |rows| && ts[..|rows|] == rows
    && |base| == |rows| && hs == base + added
    && ev == events0 + Insertions(|rows|, added)
  }

  /** Adding one handle the way addTorrent does keeps the extension relation. */
  lemma ExtendsStep(ts0: seq<TorrentModelItem>, hs0: seq<E.Handle>, ev0: seq<ModelEvent>,
                    ts1: seq<TorrentModelItem>, hs1: seq<E.Handle>, ev1: seq<ModelEvent>,
                    rows: seq<TorrentModelItem>, base: seq<E.Handle>, events0: seq<ModelEvent>,
                    added: seq<E.Handle>, h: E.Handle, engine: E.Engine)
    requires ExtendsRows(ts0, hs0, ev0, rows, base, events0, added) && |hs0| == |ts0|
    requires hs1 == AddHandle(hs0, h, engine)
    requires |ts1| >= |ts0| && ts1[..|ts0|] == ts0
    requires ev1 == ev0 + Insertions(|ts0|, Added(hs0, h, engine))
    ensures ExtendsRows(ts1, hs1, ev1, rows, base, events0, added + Added(base + added, h, engine))
  {
    var more := Added(hs0, h, engine);
    assert hs1 == base + (added + more);
    InsertionsAppend(|rows|, added, more);
    assert ts1[..|rows|] == ts0[..|rows|];
  }

  /** The torrentChangedLabel forwarded for an item edit, if any. */
  function Forwarded(hash: E.Hash, e: EditEffect): seq<ModelEvent> {
    if e.emitted.Some? then [TorrentChangedLabel(hash, e.emitted.value.previous, e.emitted.value.current)]
    else []
  }

  /** A row freshly made for the handle `h` from the store and the engine. */
  ghost predicate NewRow(item: TorrentModelItem, h: E.Handle, engine: E.Engine, store: PersistentData)
    reads item, store
    requires h in engine
  {
    && item.handle == h
    && item.name == InitialName(store.names, engine, h)
    && item.labelText == StoredText(store.labels, h.hash)
    && item.addedTime == StoredDate(store.addedDates, h.hash)
    && item.seedTime == StoredDate(store.seedDates, h.hash)
    && item.labelChanges == []
  }

  class TorrentModel {
    /** The rows, in display order. */
    var torrents: seq<TorrentModelItem>
    /** The notifications sent so far. */
    ghost var events: seq<ModelEvent>

    function Handles(): seq<E.Handle>
      reads this
    {
      HandlesOf(torrents)
    }

    /** The model's invariant in an engine: no two rows with valid handles
        share a hash. */
    ghost predicate Valid(engine: E.Engine)
      reads this
    {
      Unique(Handles(), engine)
    }

    constructor ()
      ensures torrents == [] && events == []
      ensures forall engine :: Valid(engine)
    {
      torrents := [];
      events := [];
    }

    /** The linear scan of torrentRow with its row counter starting at
        `counter`. Rows whose handle has become invalid are skipped but still
        counted. */
    method ScanRows(hash: E.Hash, engine: E.Engine, counter: int) returns (row: int)
      ensures var first := RowOf(Handles(), hash, engine);
        row == if first < 0 then -1 else counter + first
    {
      var i := 0;
      row := counter;
      while i < |torrents|
        invariant 0 <= i <= |torrents|
        invariant row == counter + i
        invariant forall j :: 0 <= j < i ==> !Answers(torrents[j].handle, hash, engine)
      {
        var q := torrents[i].QueryHash(engine);
        if q.Answer? && q.value == hash {
          assert Handles()[i] == torrents[i].handle;
          return;
        }
        row := row + 1;
        i := i + 1;
      }
      row := -1;
    }

    /** The row of the torrent with this hash, or -1 (torrentRow, with its
        counter started at 0). */
    method TorrentRow(hash: E.Hash, engine: E.Engine) returns (row: int)
      ensures row == RowOf(Handles(), hash, engine)
    {
      row := ScanRows(hash, engine, 0);
    }

    /** The hash of the torrent at `row`, or the empty string when `row` is
        out of range (torrentHash). */
    function TorrentHash(row: int, engine: E.Engine): (r: E.Query<E.Hash>)
      reads this
      ensures !(0 <= row < |torrents|) ==> r == E.Answer("")
      ensures 0 <= row < |torrents| ==> (r.InvalidHandle? <==> torrents[row].handle !in engine)
      ensures 0 <= row < |torrents| && r.Answer? ==> r.value == Handles()[row].hash
    {
      if 0 <= row < |torrents| then torrents[row].QueryHash(engine) else E.Answer("")
    }

    /** Hash lookup and row lookup are inverse on valid rows. */
    lemma TorrentHashRowRoundTrip(row: int, hash: E.Hash, engine: E.Engine)
      requires Valid(engine)
      ensures 0 <= row < |torrents| && TorrentHash(row, engine).Answer? ==>
        RowOf(Handles(), TorrentHash(row, engine).value, engine) == row
      ensures RowOf(Handles(), hash, engine) >= 0 ==>
        TorrentHash(RowOf(Handles(), hash, engine), engine) == E.Answer(hash)
    {
      if 0 <= row < |torrents| && TorrentHash(row, engine).Answer? {
        RowOfFindsOwnRow(Handles(), row, engine);
      }
    }

    /** Adds a row for the handle unless the lookup already finds its hash
        (addTorrent). With an invalid handle the hash query fails first: the
        failure escapes and nothing changes. */
    method AddTorrent(h: E.Handle, engine: E.Engine, store: PersistentData) returns (r: E.Query<()>)
      requires Valid(engine)
      modifies this
      ensures Valid(engine)
      ensures r.InvalidHandle? <==> h !in engine
      // the handle is appended exactly when the lookup does not find its
      // hash, the earlier rows stay as they were, and the insertion is announced
      ensures Handles() == AddHandle(old(Handles()), h, engine)
      ensures |torrents| >= |old(torrents)| && torrents[..|old(torrents)|] == old(torrents)
      ensures events == old(events) + Insertions(|old(torrents)|, Added(old(Handles()), h, engine))
      // the new row is built from the store
      ensures |torrents| > |old(torrents)| ==>
        h in engine && fresh(torrents[|old(torrents)|]) && NewRow(torrents[|old(torrents)|], h, engine, store)
    {
      if h !in engine {
        return E.InvalidHandle;
      }
      r := E.Answer(());
      var row := TorrentRow(h.hash, engine);
      if row < 0 {
        var n := |torrents|;
        var item := new TorrentModelItem(h, engine, store);
        torrents := torrents + [item];
        // beginInsertRows, torrentAdded and endInsertRows, in that order
        events := events + [BeginInsertRows(n), TorrentAdded(h), EndInsertRows];
        assert Added(old(Handles()), h, engine) == [h];
        assert Handles() == old(Handles()) + [h] by {
          HandlesOfAppend(old(torrents), [item]);
        }
        assert Insertions(n, [h]) == [BeginInsertRows(n), TorrentAdded(h), EndInsertRows] by {
          assert [h][1..] == [];
        }
        assert torrents[..n] == old(torrents);
        AddHandleKeepsUnique(old(Handles()), h, engine);
      } else {
        assert Added(old(Handles()), h, engine) == [];
      }
    }

    /** The rows and notifications extend `rows` and `events0` by the rows
        for `added`, in order. */
    ghost predicate Extends(rows: seq<TorrentModelItem>, base: seq<E.Handle>, events0: seq<ModelEvent>,
                            added: seq<E.Handle>)
      reads this
    {
      ExtendsRows(torrents, Handles(), events, rows, base, events0, added)
    }

    /** One step of the loading loop: adds the next handle, or reports the
        failure of an invalid one. */
    method LoadNext(h: E.Handle, engine: E.Engine, store: PersistentData, ghost rows: seq<TorrentModelItem>,
                    ghost base: seq<E.Handle>, ghost events0: seq<ModelEvent>, ghost added: seq<E.Handle>)
      returns (r: E.Query<()>)
      requires Valid(engine) && Extends(rows, base, events0, added)
      modifies this
      ensures r.InvalidHandle? <==> h !in engine
      ensures Valid(engine) && Extends(rows, base, events0, added + Added(base + added, h, engine))
    {
      ghost var ts0, hs0, ev0 := torrents, Handles(), events;
      r := AddTorrent(h, engine, store);
      ExtendsStep(ts0, hs0, ev0, torrents, Handles(), events, rows, base, events0, added, h, engine);
    }

    /** Adds a row for each handle in turn (the loading part of populate).
        The first invalid handle makes addTorrent's hash query fail; nothing
        catches that failure, so loading stops there. */
    method Populate(handles: seq<E.Handle>, engine: E.Engine, store: PersistentData)
      requires Valid(engine)
      modifies this
      ensures Valid(engine)
      ensures Handles() == AddAll(old(Handles()), handles[..LiveRun(handles, engine)], engine)
      ensures |torrents| >= |old(torrents)| && torrents[..|old(torrents)|] == old(torrents)
      ensures events == old(events) + Insertions(|old(torrents)|, Handles()[|old(torrents)|..])
    {
      ghost var base, rows, events0 := Handles(), torrents, events;
      var i := 0;
      ghost var added: seq<E.Handle> := [];
      while i < |handles|
        invariant 0 <= i <= |handles|
        invariant forall j :: 0 <= j < i ==> handles[j] in engine
        invariant Valid(engine) && Extends(rows, base, events0, added)
        invariant base + added == AddAll(base, handles[..i], engine)
      {
        ghost var more := Added(base + added, handles[i], engine);
        var r := LoadNext(handles[i], engine, store, rows, base, events0, added);
        if r.InvalidHandle? {
          assert added + more == added;
          break;
        }
        AddAllStep(base, handles, i, engine);
        added := added + more;
        i := i + 1;
      }
      assert i == LiveRun(handles, engine);
      assert Handles()[|rows|..] == added;
    }

    /** Removes the row of the torrent with this hash (removeTorrent), with
        the guard as written: a row found at index 0 is kept. */
    method RemoveTorrent(hash: E.Hash, engine: E.Engine)
      requires Valid(engine)
      modifies this
      ensures Valid(engine)
      ensures var r := RowOf(old(Handles()), hash, engine);
        && torrents == RemoveRowAsWritten(old(torrents), r)
        && events == old(events) + (if r > 0 then [BeginRemoveRows(r), EndRemoveRows] else [])
    {
      var row := TorrentRow(hash, engine);
      if row > 0 {
        events := events + [BeginRemoveRows(row)];
        torrents := torrents[..row] + torrents[row + 1..];
        events := events + [EndRemoveRows];
        HandlesOfRemoveRow(old(torrents), row);
        RemoveFoundRow(old(Handles()), hash, engine);
      }
    }

    /** Removal with the guard `row >= 0`: any row the lookup finds is
        removed, and afterwards the lookup finds no row for that hash. */
    method RemoveTorrentAtAnyRow(hash: E.Hash, engine: E.Engine)
      requires Valid(engine)
      modifies this
      ensures Valid(engine)
      ensures RowOf(Handles(), hash, engine) < 0
      ensures var r := RowOf(old(Handles()), hash, engine);
        && torrents == RemoveRow(old(torrents), r)
        && events == old(events) + (if r >= 0 then [BeginRemoveRows(r), EndRemoveRows] else [])
    {
      var row := TorrentRow(hash, engine);
      if row >= 0 {
        events := events + [BeginRemoveRows(row)];
        torrents := torrents[..row] + torrents[row + 1..];
        events := events + [EndRemoveRows];
      }
      HandlesOfRemoveRow(old(torrents), row);
      RemoveFoundRow(old(Handles()), hash, engine);
    }

    /** Announces a change to the row of this handle's torrent, if it has one
        (handleTorrentUpdate). An invalid handle fails its hash query and
        nothing is announced. */
    method HandleTorrentUpdate(h: E.Handle, engine: E.Engine)
      modifies this
      ensures torrents == old(torrents)
      ensures var r := RowOf(Handles(), h.hash, engine);
        events == old(events) + (if h in engine && r >= 0 then [RowChanged(r)] else [])
    {
      if h !in engine {
        return;
      }
      var row := TorrentRow(h.hash, engine);
      if row >= 0 {
        events := events + [RowChanged(row)];
      }
    }

    /** Passes on the engine's warning that a listed torrent is about to be
        removed (handleTorrentAboutToBeRemoved), naming the row's handle. */
    method HandleTorrentAboutToBeRemoved(h: E.Handle, engine: E.Engine)
      modifies this
      ensures torrents == old(torrents)
      ensures var r := RowOf(Handles(), h.hash, engine);
        events == old(events) + (if h in engine && r >= 0 then [TorrentAboutToBeRemoved(Handles()[r])] else [])
    {
      if h !in engine {
        return;
      }
      var row := TorrentRow(h.hash, engine);
      if row >= 0 {
        events := events + [TorrentAboutToBeRemoved(torrents[row].handle)];
      }
    }

    /** Whether a cell position is inside the table. */
    predicate InBounds(row: int, column: int)
      reads this
    {
      0 <= row < |torrents| && 0 <= column < ColumnCount
    }

    /** The value of a cell (TorrentModel::data): out-of-range positions and
        failed handle queries both give the empty value. */
    function Data(row: int, column: int, role: Role, engine: E.Engine, session: E.Session): (c: Cell)
      reads this, torrents
      ensures !InBounds(row, column) ==> c == Null
      ensures (InBounds(row, column) && torrents[row].handle !in engine && role == DisplayRole &&
               NeedsHandle(column)) ==> c == Null
      ensures InBounds(row, column) && role == DisplayRole && column == StatusColumn ==>
        c == StatusCell(torrents[row].State(engine))
      ensures InBounds(row, column) && torrents[row].Data(column, role, engine, session).Answer? ==>
        c == torrents[row].Data(column, role, engine, session).value
    {
      if InBounds(row, column) then
        match torrents[row].Data(column, role, engine, session)
        case Answer(v) => v
        case InvalidHandle => Null
      else Null
    }

    /** Edits a cell (TorrentModel::setData): display-role edits inside the
        table go to the row; a failed handle query counts as no change; an
        accepted edit announces the row as changed. */
    method SetData(row: int, column: int, value: string, role: Role, engine: E.Engine,
                   store: PersistentData) returns (changed: bool)
      modifies this, store, if 0 <= row < |torrents| then {torrents[row]} else {}
      ensures torrents == old(torrents)
      ensures !(role == DisplayRole && InBounds(row, column)) ==>
        && !changed
        && events == old(events)
        && unchanged(store)
        && (0 <= row < |torrents| ==> unchanged(torrents[row]))
      ensures role == DisplayRole && InBounds(row, column) ==>
        var item := torrents[row];
        var e := Edit(old(item.name), old(item.labelText), column, value, role, item.handle in engine);
        && changed == (e.result == E.Answer(true))
        && item.name == e.name
        && item.labelText == e.labelText
        && item.labelChanges == old(item.labelChanges) + Emitted(e)
        && store.names == Saved(old(store.names), item.handle.hash, e.savedName)
        && store.labels == Saved(old(store.labels), item.handle.hash, e.savedLabel)
        && store.addedDates == old(store.addedDates)
        && store.seedDates == old(store.seedDates)
        && events == old(events) + Forwarded(item.handle.hash, e) + (if changed then [RowChanged(row)] else [])
    {
      if role != DisplayRole {
        return false;
      }
      if InBounds(row, column) {
        var item := torrents[row];
        ghost var before := item.labelChanges;
        var r := item.SetData(column, value, role, engine, store);
        // the row's labelChanged reaches the model, which passes it on
        if |item.labelChanges| > |before| {
          var change := item.labelChanges[|before|];
          events := events + [TorrentChangedLabel(item.handle.hash, change.previous, change.current)];
        }
        changed := r == E.Answer(true);
        if changed {
          events := events + [RowChanged(row)];
        }
        return;
      }
      return false;
    }

    /** Counts the rows by display state (getTorrentStatusReport). */
    method GetTorrentStatusReport(engine: E.Engine) returns (report: StatusReport)
      ensures report == Tally(StatesOf(torrents, engine))
    {
      ghost var states := StatesOf(torrents, engine);
      report := EmptyReport;
      var i := 0;
      while i < |torrents|
        invariant 0 <= i <= |torrents|
        invariant report == Tally(states[..i])
      {
        var st := torrents[i].State(engine);
        report := CountRow(report, st);
        assert states[i] == st;
        assert Tally(states[..i + 1]) == Count(Tally(states[..i]), st) by {
          assert states[..i + 1][..i] == states[..i];
        }
        i := i + 1;
      }
      assert states[..i] == states;
    }

    /** The report of the current rows balances: active plus inactive and
        downloading plus seeding both count the rows not shown as invalid,
        and paused torrents are among the inactive ones. */
    lemma ReportBalances(engine: E.Engine)
      ensures var t := Tally(StatesOf(torrents, engine));
        && t.nbActive + t.nbInactive == CountShown(StatesOf(torrents, engine))
        && t.nbDownloading + t.nbSeeding == CountShown(StatesOf(torrents, engine))
        && t.nbPaused <= t.nbInactive
    {
      TallyBalances(StatesOf(torrents, engine));
    }
  }

  /** The torrentRow scan as written starts from an uninitialised counter:
      for any start other than 0 the row it reports for a present hash is off
      by that start, here past the end of a one-row list. */
  method UninitialisedCounterMisreports(a: E.Handle, engine: E.Engine, store: PersistentData) returns (row: int)
    requires a in engine
    ensures row == 7
  {
    var model := new TorrentModel();
    var r := model.AddTorrent(a, engine, store);
    assert model.Handles() == [a];
    row := model.ScanRows(a.hash, engine, 7);
  }
}
