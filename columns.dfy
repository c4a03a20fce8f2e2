/** The columns of the transfer list and the values derived for them from one
    handle query: the seeds/peers composite sort keys and the ETA sentinel. */
module TorrentColumns {
  import E = TorrentEngine
  import opened Wrappers
  import opened TorrentStates

  // Column numbers, in the order TorrentModelItem::data lists them.
  const NameColumn: int := 0
  const PriorityColumn: int := 1
  const SizeColumn: int := 2
  const ProgressColumn: int := 3
  const StatusColumn: int := 4
  const SeedsColumn: int := 5
  const PeersColumn: int := 6
  const DownloadSpeedColumn: int := 7
  const UploadSpeedColumn: int := 8
  const EtaColumn: int := 9
  const RatioColumn: int := 10
  const LabelColumn: int := 11
  const AddDateColumn: int := 12
  const SeedDateColumn: int := 13
  const TrackerColumn: int := 14
  const DownloadLimitColumn: int := 15
  const UploadLimitColumn: int := 16
  const ColumnCount: int := 17

  /** The sentinel shown for a torrent that is not expected to finish (100 days, in seconds). */
  const MaxEta: int := 8640000

  /** The weight that puts the source count above the tie-breaking tail. */
  const SortWeight: int := 1000000

  /** The item-data roles the model distinguishes. */
  datatype Role = DisplayRole | DecorationRole | ForegroundRole | OtherRole

  /** A cell value as handed to the view; `Null` is the empty value. The icon and
      colour are the decoration caches, whose contents are not modelled. */
  datatype Cell =
    | Null
    | Number(n: int)
    | Fraction(x: real)
    | Text(s: string)
    | Date(t: Option<int>)
    | StatusCell(st: TorrentState)
    | Icon
    | Colour

  /** The composite sort key of the seeds and peers columns: the count of
      connected sources weighted by a million, plus a tail that is ten times
      the swarm's reported count when that is at least the connected count,
      and 1 otherwise. */
  function SourcesKey(count: int, available: int): int {
    count * SortWeight + Tail(count, available)
  }

  /** The tie-breaking tail of the key. */
  function Tail(count: int, available: int): int {
    if available >= count then available * 10 else 1
  }

  /** While the reported count stays below 100000, the key splits back into
      the connected count and the tail. */
  lemma SourcesKeyRecoversCount(count: int, available: int)
    requires 0 <= count && available < 100000
    ensures SourcesKey(count, available) / SortWeight == count
    ensures SourcesKey(count, available) % SortWeight == Tail(count, available)
  {
  }

  /** More connected sources always sort higher, whatever the tails, as long as
      the smaller key's reported count stays below 100000. */
  lemma SourcesKeyOrdersByCount(c1: int, a1: int, c2: int, a2: int)
    requires 0 <= c1 < c2 && a1 < 100000
    ensures SourcesKey(c1, a1) < SourcesKey(c2, a2)
  {
    assert Tail(c1, a1) < SortWeight;
    assert Tail(c2, a2) >= 1;
    assert c1 * SortWeight + SortWeight <= c2 * SortWeight;
  }

  /** For the same connected count, a larger reported swarm sorts higher. */
  lemma SourcesKeyBreaksTies(count: int, a1: int, a2: int)
    requires count <= a1 < a2
    ensures SourcesKey(count, a1) < SourcesKey(count, a2)
  {
  }

  /** Without the bound on the reported count the tail spills into the
      weighted part: no seeds and a 200000-strong swarm sort above one seed. */
  lemma SourcesKeyNeedsBound()
    ensures SourcesKey(0, 200000) > SourcesKey(1, 0)
    ensures SourcesKey(0, 100000) / SortWeight != 0
  {
  }

  /** The ETA column: the sentinel for a torrent that is complete, paused or
      queued, the session's estimate otherwise. */
  function Eta(s: E.TorrentStatus, sessionEta: int): int {
    if s.seed || s.paused || s.queued then MaxEta else sessionEta
  }

  /** The ETA rule read through the classification: the sentinel is shown
      exactly for a complete torrent or one shown paused or queued. */
  lemma EtaFollowsClassification(s: E.TorrentStatus, sessionEta: int)
    ensures var st := Classify(E.Answer(s));
      Eta(s, sessionEta) ==
        if s.seed || st.IsPaused() || st.IsQueued() then MaxEta else sessionEta
  {
  }

  /** The value of a column that needs the handle, from one handle query and
      the session's ETA and ratio for the torrent. */
  function HandleCell(s: E.TorrentStatus, column: int, sessionEta: int, sessionRatio: real): Cell {
    if column == PriorityColumn then Number(s.queuePosition)
    else if column == SizeColumn then Number(s.actualSize)
    else if column == ProgressColumn then Fraction(s.progress)
    else if column == SeedsColumn then Number(SourcesKey(s.numSeeds, s.numComplete))
    else if column == PeersColumn then Number(SourcesKey(s.numPeers - s.numSeeds, s.numIncomplete))
    else if column == DownloadSpeedColumn then Number(s.downloadPayloadRate)
    else if column == UploadSpeedColumn then Number(s.uploadPayloadRate)
    else if column == EtaColumn then Number(Eta(s, sessionEta))
    else if column == RatioColumn then Fraction(sessionRatio)
    else if column == TrackerColumn then Text(s.currentTracker)
    else if column == DownloadLimitColumn then Number(s.downloadLimit)
    else if column == UploadLimitColumn then Number(s.uploadLimit)
    else Null
  }

  /** The columns whose value comes from the handle (and so can fail). */
  predicate NeedsHandle(column: int) {
    column in {PriorityColumn, SizeColumn, ProgressColumn, SeedsColumn, PeersColumn,
               DownloadSpeedColumn, UploadSpeedColumn, EtaColumn, RatioColumn,
               TrackerColumn, DownloadLimitColumn, UploadLimitColumn}
  }
}
