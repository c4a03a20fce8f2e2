/** One row of the transfer list (TorrentModelItem): a torrent handle with the
    name, label and dates kept for it, the cell values derived from it, and
    the editing of its name and label. */
module TorrentItems {
  import E = TorrentEngine
  import opened Wrappers
  import opened TorrentStates
  import opened TorrentColumns

  /** The persistent per-torrent data (TorrentPersistentData), keyed by hash. */
  class PersistentData {
    var names: map<E.Hash, string>
    var labels: map<E.Hash, string>
    var addedDates: map<E.Hash, int>
    var seedDates: map<E.Hash, int>
  }

  /** A stored text, or the empty string when nothing is stored. */
  function StoredText(m: map<E.Hash, string>, hash: E.Hash): string {
    if hash in m then m[hash] else ""
  }

  /** A stored date, or no date. */
  function StoredDate(m: map<E.Hash, int>, hash: E.Hash): Option<int> {
    if hash in m then Some(m[hash]) else None
  }

  /** The name a new row starts with: the stored one, or the engine's when
      nothing (or the empty name) is stored. */
  function InitialName(names: map<E.Hash, string>, engine: E.Engine, h: E.Handle): string
    requires h in engine
  {
    if StoredText(names, h.hash) == "" then engine[h].name else StoredText(names, h.hash)
  }

  /** A store after an optional save under `hash`. */
  function Saved(m: map<E.Hash, string>, hash: E.Hash, saved: Option<string>): map<E.Hash, string> {
    if saved.Some? then m[hash := saved.value] else m
  }

  /** A labelChanged notification. */
  datatype LabelChange = LabelChange(previous: string, current: string)

  /** Everything one cell edit does: the new name and label, what is saved to
      the store, the notification emitted, and what the call reports. */
  datatype EditEffect = EditEffect(
    name: string,
    labelText: string,
    savedName: Option<string>,
    savedLabel: Option<string>,
    emitted: Option<LabelChange>,
    result: E.Query<bool>)

  /** The effect of TorrentModelItem::setData on a row holding `name` and
      `labelText`, when the handle is valid or not. */
  function Edit(name: string, labelText: string, column: int, value: string, role: Role,
                handleValid: bool): (e: EditEffect)
    // only display-role edits of the name or label columns are accepted
    ensures e.result == E.Answer(false) <==>
      role != DisplayRole || (column != NameColumn && column != LabelColumn)
    // the hash is queried, and so fails on an invalid handle, only for a name
    // edit or a label edit to a new value; every other accepted edit answers true
    ensures e.result.InvalidHandle? <==>
      !handleValid && role == DisplayRole &&
      (column == NameColumn || (column == LabelColumn && value != labelText))
    ensures e.result == E.Answer(true) <==>
      role == DisplayRole &&
      ((column == NameColumn && handleValid) ||
       (column == LabelColumn && (handleValid || value == labelText)))
    // the name and the label each change only through their own column
    ensures role == DisplayRole && column == NameColumn ==> e.name == value
    ensures role == DisplayRole && column == LabelColumn ==> e.labelText == value
    ensures e.name != name ==> role == DisplayRole && column == NameColumn
    ensures e.labelText != labelText ==> role == DisplayRole && column == LabelColumn
    // a name edit is always saved while the handle is valid
    ensures e.savedName.Some? <==> handleValid && role == DisplayRole && column == NameColumn
    ensures e.savedName.Some? ==> e.savedName.value == e.name
    // a label is saved, and announced with the old and new value, only when it changes
    ensures e.emitted.Some? <==>
      handleValid && role == DisplayRole && column == LabelColumn && value != labelText
    ensures e.emitted.Some? ==> e.emitted.value == LabelChange(labelText, e.labelText)
    ensures e.savedLabel.Some? <==> e.emitted.Some?
    ensures e.savedLabel.Some? ==> e.savedLabel.value == e.labelText
  {
    if role != DisplayRole then
      EditEffect(name, labelText, None, None, None, E.Answer(false))
    else if column == NameColumn then
      if handleValid then EditEffect(value, labelText, Some(value), None, None, E.Answer(true))
      else EditEffect(value, labelText, None, None, None, E.InvalidHandle)
    else if column == LabelColumn then
      if labelText == value then EditEffect(name, labelText, None, None, None, E.Answer(true))
      else if handleValid then
        EditEffect(name, value, None, Some(value), Some(LabelChange(labelText, value)), E.Answer(true))
      else EditEffect(name, value, None, None, None, E.InvalidHandle)
    else
      EditEffect(name, labelText, None, None, None, E.Answer(false))
  }

  /** The notifications of `log` lead from `initial` to `current`, each one
      taking over where the previous left off and each a real change. */
  predicate Chained(initial: string, log: seq<LabelChange>, current: string)
    decreases |log|
  {
    if log == [] then current == initial
    else
      var last := log[|log| - 1];
      last.current == current && last.previous != current &&
      Chained(initial, log[..|log| - 1], last.previous)
  }

  /** The notifications emitted by edits so far. */
  function Emitted(e: EditEffect): seq<LabelChange> {
    if e.emitted.Some? then [e.emitted.value] else []
  }

  /** While the handle stays valid, the labelChanged notifications replay the
      label's history exactly: every edit keeps the log chained to the label. */
  lemma {:induction false} EditKeepsLabelChain(initial: string, log: seq<LabelChange>, name: string,
                                               labelText: string, column: int, value: string, role: Role)
    requires Chained(initial, log, labelText)
    ensures var e := Edit(name, labelText, column, value, role, true);
      Chained(initial, log + Emitted(e), e.labelText)
  {
    var e := Edit(name, labelText, column, value, role, true);
    if e.emitted.Some? {
      var log' := log + [e.emitted.value];
      assert log + Emitted(e) == log';
      assert log'[..|log'| - 1] == log;
      assert Chained(initial, log, e.emitted.value.previous);
    } else {
      assert log + Emitted(e) == log;
    }
  }

  /** Repeating a label edit is a no-op: nothing is saved or announced again. */
  lemma LabelEditIdempotent(name: string, labelText: string, value: string, handleValid: bool)
    ensures var e1 := Edit(name, labelText, LabelColumn, value, DisplayRole, handleValid);
      var e2 := Edit(e1.name, e1.labelText, LabelColumn, value, DisplayRole, handleValid);
      e2 == EditEffect(e1.name, e1.labelText, None, None, None, E.Answer(true))
  {
  }

  class TorrentModelItem {
    /** The torrent handle this row wraps. */
    const handle: E.Handle
    var name: string
    var labelText: string
    const addedTime: Option<int>
    const seedTime: Option<int>
    /** The labelChanged notifications this row has emitted. */
    ghost var labelChanges: seq<LabelChange>

    /** Wraps a valid handle, taking name, label and dates from the store. */
    constructor (h: E.Handle, engine: E.Engine, store: PersistentData)
      requires h in engine
      ensures handle == h
      ensures name == InitialName(store.names, engine, h)
      ensures labelText == StoredText(store.labels, h.hash)
      ensures addedTime == StoredDate(store.addedDates, h.hash)
      ensures seedTime == StoredDate(store.seedDates, h.hash)
      ensures labelChanges == []
    {
      handle := h;
      var hash := h.hash;
      var stored := StoredText(store.names, hash);
      name := if stored == "" then engine[h].name else stored;
      addedTime := StoredDate(store.addedDates, hash);
      seedTime := StoredDate(store.seedDates, hash);
      labelText := StoredText(store.labels, hash);
      labelChanges := [];
    }

    /** The row's hash, which fails once its handle is invalid. */
    function QueryHash(engine: E.Engine): E.Query<E.Hash> {
      E.HashOf(engine, handle)
    }

    /** The row's display state. */
    function State(engine: E.Engine): TorrentState {
      Classify(E.Status(engine, handle))
    }

    /** The value of one cell of this row (TorrentModelItem::data). */
    function Data(column: int, role: Role, engine: E.Engine, session: E.Session): (r: E.Query<Cell>)
      reads this
      // only a handle column of an invalid handle fails
      ensures r.InvalidHandle? <==> handle !in engine && role == DisplayRole && NeedsHandle(column)
      // the status is always answered, invalid handles included
      ensures role == DisplayRole && column == StatusColumn ==> r == E.Answer(StatusCell(State(engine)))
      ensures role == DisplayRole && NeedsHandle(column) && handle in engine ==>
        r == E.Answer(HandleCell(engine[handle], column, session.eta(handle.hash), session.realRatio(handle.hash)))
      ensures role == DisplayRole && column == LabelColumn ==> r == E.Answer(Text(labelText))
      ensures role == DisplayRole && !(0 <= column < ColumnCount) ==> r == E.Answer(Null)
    {
      if role == DecorationRole && column == NameColumn then E.Answer(Icon)
      else if role == ForegroundRole then E.Answer(Colour)
      else if role != DisplayRole then E.Answer(Null)
      else if column == NameColumn then E.Answer(Text(name))
      else if column == StatusColumn then E.Answer(StatusCell(State(engine)))
      else if column == LabelColumn then E.Answer(Text(labelText))
      else if column == AddDateColumn then E.Answer(Date(addedTime))
      else if column == SeedDateColumn then E.Answer(Date(seedTime))
      else if !NeedsHandle(column) then E.Answer(Null)
      else if handle !in engine then E.InvalidHandle
      else E.Answer(HandleCell(engine[handle], column, session.eta(handle.hash), session.realRatio(handle.hash)))
    }

    /** Edits one cell (TorrentModelItem::setData). A name or label change is
        made before the handle is asked for its hash, so with an invalid
        handle the change stays in the row but is neither saved nor announced. */
    method SetData(column: int, value: string, role: Role, engine: E.Engine, store: PersistentData)
      returns (r: E.Query<bool>)
      modifies this, store
      ensures var e := Edit(old(name), old(labelText), column, value, role, handle in engine);
        && r == e.result
        && name == e.name
        && labelText == e.labelText
        && labelChanges == old(labelChanges) + Emitted(e)
        && store.names == Saved(old(store.names), handle.hash, e.savedName)
        && store.labels == Saved(old(store.labels), handle.hash, e.savedLabel)
      ensures store.addedDates == old(store.addedDates) && store.seedDates == old(store.seedDates)
    {
      if role != DisplayRole {
        return E.Answer(false);
      }
      if column == NameColumn {
        name := value;
        if handle !in engine {
          return E.InvalidHandle;
        }
        store.names := store.names[handle.hash := name];
        return E.Answer(true);
      } else if column == LabelColumn {
        var newLabel := value;
        if labelText != newLabel {
          var oldLabel := labelText;
          labelText := newLabel;
          if handle !in engine {
            return E.InvalidHandle;
          }
          store.labels := store.labels[handle.hash := newLabel];
          labelChanges := labelChanges + [LabelChange(oldLabel, newLabel)];
        }
        return E.Answer(true);
      }
      return E.Answer(false);
    }
  }

  /** The seeds column of a valid row splits back into the connected seeds. */
  lemma SeedsCellRecoversCount(item: TorrentModelItem, engine: E.Engine, session: E.Session)
    requires item.handle in engine
    requires engine[item.handle].numSeeds >= 0 && engine[item.handle].numComplete < 100000
    ensures var r := item.Data(SeedsColumn, DisplayRole, engine, session);
      r.Answer? && r.value.Number? && r.value.n / SortWeight == engine[item.handle].numSeeds
  {
    var s := engine[item.handle];
    SourcesKeyRecoversCount(s.numSeeds, s.numComplete);
  }

  /** The peers column of a valid row splits back into the connected
      non-seed peers. */
  lemma PeersCellRecoversCount(item: TorrentModelItem, engine: E.Engine, session: E.Session)
    requires item.handle in engine
    requires engine[item.handle].numPeers >= engine[item.handle].numSeeds
    requires engine[item.handle].numIncomplete < 100000
    ensures var r := item.Data(PeersColumn, DisplayRole, engine, session);
      var s := engine[item.handle];
      r.Answer? && r.value.Number? && r.value.n / SortWeight == s.numPeers - s.numSeeds
  {
    var s := engine[item.handle];
    SourcesKeyRecoversCount(s.numPeers - s.numSeeds, s.numIncomplete);
  }

  /** The ETA cell of a valid row shows the sentinel exactly when the torrent
      is complete, or shown paused or queued; otherwise the session's estimate. */
  lemma EtaCellFollowsState(item: TorrentModelItem, engine: E.Engine, session: E.Session)
    requires item.handle in engine
    ensures var st := item.State(engine);
      item.Data(EtaColumn, DisplayRole, engine, session) ==
        E.Answer(Number(if engine[item.handle].seed || st.IsPaused() || st.IsQueued()
                        then MaxEta else session.eta(item.handle.hash)))
  {
    EtaFollowsClassification(engine[item.handle], session.eta(item.handle.hash));
  }
}
