/** The torrent engine as the list model sees it: the live torrent handles,
    the status fields the model queries, and the opaque session services (ETA
    and share ratio). The engine is passed explicitly to every operation; a
    handle is valid exactly while it is a key of the engine. */
module TorrentEngine {

  /** A torrent's info-hash in its textual form. */
  type Hash = string

  /** The engine's own state of a torrent (libtorrent's torrent_status::state_t).
      `Unknown` stands for any value outside the eight the model names. */
  datatype EngineState =
    | QueuedForChecking
    | CheckingFiles
    | DownloadingMetadata
    | Downloading
    | Finished
    | Seeding
    | Allocating
    | CheckingResumeData
    | Unknown
  {
    /** The states in which the engine is still fetching payload or metadata. */
    predicate IsFetching() {
      Allocating? || DownloadingMetadata? || Downloading?
    }

    /** The states in which the torrent is complete and may upload. */
    predicate IsComplete() {
      Finished? || Seeding?
    }

    /** The states in which the engine is verifying data. */
    predicate IsChecking() {
      QueuedForChecking? || CheckingResumeData? || CheckingFiles?
    }
  }

  /** What one handle query can report about a live torrent. Rates and counts
      are the engine's integers; progress is passed through untouched. */
  datatype TorrentStatus = TorrentStatus(
    paused: bool,
    queued: bool,
    seed: bool,
    state: EngineState,
    downloadPayloadRate: int,
    uploadPayloadRate: int,
    numSeeds: int,
    numPeers: int,
    numComplete: int,
    numIncomplete: int,
    queuePosition: int,
    actualSize: int,
    progress: real,
    name: string,
    currentTracker: string,
    downloadLimit: int,
    uploadLimit: int)

  /** A torrent handle: the info-hash of the torrent it was made for and the
      identity of that torrent object in the session. A torrent removed and
      added again gets a new handle with the same hash; the old handle stays
      invalid for good. */
  datatype Handle = Handle(hash: Hash, id: nat)

  /** The live torrents, keyed by their handles. */
  type Engine = map<Handle, TorrentStatus>

  /** The outcome of a handle query: a value, or the engine's
      "invalid handle" failure. */
  datatype Query<+T> = Answer(value: T) | InvalidHandle

  /** Queries a handle's status. */
  function Status(engine: Engine, h: Handle): Query<TorrentStatus> {
    if h in engine then Answer(engine[h]) else InvalidHandle
  }

  /** Queries a handle's hash, which fails once the handle is invalid. */
  function HashOf(engine: Engine, h: Handle): Query<Hash> {
    if h in engine then Answer(h.hash) else InvalidHandle
  }

  /** The session services the model defers to: the estimated time left and
      the real share ratio of a torrent. Both are opaque here. */
  datatype Session = Session(eta: Hash -> int, realRatio: Hash -> real)
}

/** The usual optional value. */
module Wrappers {
  datatype Option<+T> = None | Some(value: T)
}
