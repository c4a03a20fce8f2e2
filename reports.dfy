/** The aggregate status report (TorrentStatusReport): counts of downloading,
    seeding, active, inactive and paused torrents, folded over the rows'
    display states. */
module StatusReports {
  import opened TorrentStates

  datatype StatusReport = StatusReport(
    nbDownloading: nat,
    nbSeeding: nat,
    nbActive: nat,
    nbInactive: nat,
    nbPaused: nat)

  const EmptyReport := StatusReport(0, 0, 0, 0, 0)

  /** Adds one row in state `st` to the report. A paused torrent is counted as
      paused and then, falling through, as an inactive torrent of its side;
      an invalid row is not counted at all. */
  function Count(r: StatusReport, st: TorrentState): (r': StatusReport)
    ensures st == Invalid ==> r' == r
    // every shown row is exactly one of active or inactive, and one of downloading or seeding
    ensures st != Invalid ==> r'.nbActive + r'.nbInactive == r.nbActive + r.nbInactive + 1
    ensures st != Invalid ==> r'.nbDownloading + r'.nbSeeding == r.nbDownloading + r.nbSeeding + 1
    ensures r'.nbActive == r.nbActive + (if st.IsActive() then 1 else 0)
    ensures r'.nbSeeding == r.nbSeeding + (if st.IsUploadSide() then 1 else 0)
    ensures r'.nbPaused == r.nbPaused + (if st.IsPaused() then 1 else 0)
    ensures st.IsPaused() ==> r'.nbInactive == r.nbInactive + 1
  {
    match st
    case Downloading =>
      r.(nbActive := r.nbActive + 1, nbDownloading := r.nbDownloading + 1)
    case PausedDl =>
      InactiveDownloading(r.(nbPaused := r.nbPaused + 1))
    case StalledDl | CheckingDl | QueuedDl =>
      InactiveDownloading(r)
    case Seeding =>
      r.(nbActive := r.nbActive + 1, nbSeeding := r.nbSeeding + 1)
    case PausedUp =>
      InactiveSeeding(r.(nbPaused := r.nbPaused + 1))
    case StalledUp | CheckingUp | QueuedUp =>
      InactiveSeeding(r)
    case Invalid =>
      r
  }

  /** The shared arm of the downloading states that are not transferring. */
  function InactiveDownloading(r: StatusReport): StatusReport {
    r.(nbInactive := r.nbInactive + 1, nbDownloading := r.nbDownloading + 1)
  }

  /** The shared arm of the seeding states that are not transferring. */
  function InactiveSeeding(r: StatusReport): StatusReport {
    r.(nbSeeding := r.nbSeeding + 1, nbInactive := r.nbInactive + 1)
  }

  /** Counts one row in place, with the fall-through of the source's switch:
      a paused torrent counts as paused and then as an inactive torrent of
      its side. */
  method CountRow(report: StatusReport, st: TorrentState) returns (r: StatusReport)
    ensures r == Count(report, st)
  {
    r := report;
    match st {
      case Downloading =>
        r := r.(nbActive := r.nbActive + 1, nbDownloading := r.nbDownloading + 1);
      case PausedDl =>
        r := r.(nbPaused := r.nbPaused + 1);
        r := r.(nbInactive := r.nbInactive + 1, nbDownloading := r.nbDownloading + 1);
      case StalledDl | CheckingDl | QueuedDl =>
        r := r.(nbInactive := r.nbInactive + 1, nbDownloading := r.nbDownloading + 1);
      case Seeding =>
        r := r.(nbActive := r.nbActive + 1, nbSeeding := r.nbSeeding + 1);
      case PausedUp =>
        r := r.(nbPaused := r.nbPaused + 1);
        r := r.(nbSeeding := r.nbSeeding + 1, nbInactive := r.nbInactive + 1);
      case StalledUp | CheckingUp | QueuedUp =>
        r := r.(nbSeeding := r.nbSeeding + 1, nbInactive := r.nbInactive + 1);
      case Invalid =>
    }
  }

  /** The report of a sequence of rows, counted from the first to the last. */
  function Tally(states: seq<TorrentState>): StatusReport
    decreases |states|
  {
    if states == [] then EmptyReport
    else Count(Tally(states[..|states| - 1]), states[|states| - 1])
  }

  /** The number of rows that are shown in a state other than Invalid. */
  function CountShown(states: seq<TorrentState>): nat
    decreases |states|
  {
    if states == [] then 0
    else CountShown(states[..|states| - 1]) + (if states[|states| - 1] != Invalid then 1 else 0)
  }

  /** The report balances: the active/inactive split and the
      downloading/seeding split each count every shown row once, and every
      paused torrent is among the inactive ones. */
  lemma {:induction false} TallyBalances(states: seq<TorrentState>)
    ensures var t := Tally(states);
      && t.nbActive + t.nbInactive == CountShown(states)
      && t.nbDownloading + t.nbSeeding == CountShown(states)
      && t.nbPaused <= t.nbInactive
  {
    if states != [] {
      TallyBalances(states[..|states| - 1]);
    }
  }

  /** The field-wise sum of two reports. */
  function Sum(a: StatusReport, b: StatusReport): StatusReport {
    StatusReport(a.nbDownloading + b.nbDownloading, a.nbSeeding + b.nbSeeding,
                 a.nbActive + b.nbActive, a.nbInactive + b.nbInactive, a.nbPaused + b.nbPaused)
  }

  /** Counting a row on top of a report is adding that row's own report. */
  lemma CountIsSum(r: StatusReport, st: TorrentState)
    ensures Count(r, st) == Sum(r, Count(EmptyReport, st))
  {
  }

  /** Counting one more row at the end. */
  lemma TallySnoc(s: seq<TorrentState>, st: TorrentState)
    ensures Tally(s + [st]) == Count(Tally(s), st)
  {
    assert (s + [st])[..|s|] == s;
  }

  /** The report of two runs of rows is the sum of their reports. */
  lemma {:induction false} TallyAppend(a: seq<TorrentState>, b: seq<TorrentState>)
    ensures Tally(a + b) == Sum(Tally(a), Tally(b))
    decreases |b|
  {
    if b == [] {
      assert a + b == a;
    } else {
      var b', last := b[..|b| - 1], b[|b| - 1];
      assert a + b == (a + b') + [last];
      assert b == b' + [last];
      TallyAppend(a, b');
      TallySnoc(a + b', last);
      TallySnoc(b', last);
      CountIsSum(Tally(a + b'), last);
      CountIsSum(Tally(b'), last);
    }
  }

  /** Swapping two runs of rows gives the same counts. */
  lemma TallyOrderIndependent(a: seq<TorrentState>, b: seq<TorrentState>)
    ensures Tally(a + b) == Tally(b + a)
  {
    TallyAppend(a, b);
    TallyAppend(b, a);
  }

  /** Taking the same row out of two equal collections of rows. */
  lemma MultisetRemove(a: seq<TorrentState>, x: TorrentState, b1: seq<TorrentState>, b2: seq<TorrentState>)
    requires multiset(a + [x]) == multiset(b1 + [x] + b2)
    ensures multiset(a) == multiset(b1 + b2)
  {
    calc {
      multiset(a);
      multiset(a + [x]) - multiset{x};
      multiset(b1 + [x] + b2) - multiset{x};
      multiset(b1 + b2);
    }
  }

  /** A row in the middle counts as if it came last. */
  lemma TallyMiddle(b1: seq<TorrentState>, x: TorrentState, b2: seq<TorrentState>)
    ensures Tally(b1 + [x] + b2) == Sum(Tally(b1 + b2), Tally([x]))
  {
    var t1, tx, t2 := Tally(b1), Tally([x]), Tally(b2);
    calc {
      Tally(b1 + [x] + b2);
      { TallyAppend(b1 + [x], b2); }
      Sum(Tally(b1 + [x]), t2);
      { TallyAppend(b1, [x]); }
      Sum(Sum(t1, tx), t2);
      Sum(Sum(t1, t2), tx);
      { TallyAppend(b1, b2); }
      Sum(Tally(b1 + b2), tx);
    }
  }

  /** The report does not depend on the order of the rows: any two
      arrangements of the same rows give the same counts. */
  lemma {:induction false} TallyPermutation(a: seq<TorrentState>, b: seq<TorrentState>)
    requires multiset(a) == multiset(b)
    ensures Tally(a) == Tally(b)
    decreases |a|
  {
    if a == [] {
      assert |multiset(b)| == 0;
    } else {
      var a', x := a[..|a| - 1], a[|a| - 1];
      assert a == a' + [x];
      assert x in multiset(b);
      var k :| 0 <= k < |b| && b[k] == x;
      var b1, b2 := b[..k], b[k + 1..];
      assert b == b1 + [x] + b2;
      MultisetRemove(a', x, b1, b2);
      TallyPermutation(a', b1 + b2);
      TallyAppend(a', [x]);
      TallyMiddle(b1, x, b2);
    }
  }
}
