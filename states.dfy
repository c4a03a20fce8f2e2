/** The per-torrent display state (TorrentModelItem::state): a precedence-ordered
    decision over the handle's flags, engine state and transfer rates. */
module TorrentStates {
  import E = TorrentEngine

  /** The eleven states a row can be shown in. */
  datatype TorrentState =
    | Downloading
    | StalledDl
    | StalledUp
    | Seeding
    | PausedDl
    | PausedUp
    | QueuedDl
    | QueuedUp
    | CheckingUp
    | CheckingDl
    | Invalid
  {
    predicate IsPaused() {
      PausedDl? || PausedUp?
    }

    predicate IsQueued() {
      QueuedDl? || QueuedUp?
    }

    predicate IsChecking() {
      CheckingDl? || CheckingUp?
    }

    /** Transferring payload right now. */
    predicate IsActive() {
      Downloading? || Seeding?
    }

    /** The states of a torrent that is (or counts as) complete. */
    predicate IsUploadSide() {
      Seeding? || StalledUp? || PausedUp? || QueuedUp? || CheckingUp?
    }
  }

  /** Classifies one handle query. Paused wins over everything, then queued;
      otherwise the engine state decides, with the transfer rate telling active
      from stalled; an invalid handle or an unrecognised engine state gives
      `Invalid`. */
  function Classify(q: E.Query<E.TorrentStatus>): (st: TorrentState)
    // an invalid handle never escapes: it is a state like the others
    ensures st == Invalid <==>
      q.InvalidHandle? || (!q.value.paused && !q.value.queued && q.value.state.Unknown?)
    ensures st.IsPaused() <==> q.Answer? && q.value.paused
    ensures st.IsQueued() <==> q.Answer? && !q.value.paused && q.value.queued
    ensures st.IsChecking() <==>
      q.Answer? && !q.value.paused && !q.value.queued && q.value.state.IsChecking()
    // paused, queued and checking torrents are split by the seed flag
    ensures st.IsPaused() || st.IsQueued() || st.IsChecking() ==> (st.IsUploadSide() <==> q.value.seed)
    // otherwise the engine state picks the side and the rate picks active or stalled
    ensures st in {Downloading, StalledDl} <==>
      q.Answer? && !q.value.paused && !q.value.queued && q.value.state.IsFetching()
    ensures st in {Seeding, StalledUp} <==>
      q.Answer? && !q.value.paused && !q.value.queued && q.value.state.IsComplete()
    ensures st == Downloading ==> q.value.downloadPayloadRate > 0
    ensures st == Seeding ==> q.value.uploadPayloadRate > 0
    ensures st in {StalledDl, StalledUp} ==>
      q.value.downloadPayloadRate <= 0 || q.value.state.IsComplete()
    ensures st in {StalledDl, StalledUp} ==>
      q.value.uploadPayloadRate <= 0 || q.value.state.IsFetching()
  {
    match q
    case InvalidHandle => Invalid
    case Answer(s) =>
      if s.paused then
        (if s.seed then PausedUp else PausedDl)
      else if s.queued then
        (if s.seed then QueuedUp else QueuedDl)
      else if s.state.IsFetching() then
        (if s.downloadPayloadRate > 0 then Downloading else StalledDl)
      else if s.state.IsComplete() then
        (if s.uploadPayloadRate > 0 then Seeding else StalledUp)
      else if s.state.IsChecking() then
        (if s.seed then CheckingUp else CheckingDl)
      else Invalid
  }

  /** One line of the precedence table: when `applies`, the state is `result`. */
  datatype Rule = Rule(applies: bool, result: TorrentState)

  /** The first rule that applies; the last rule always does. */
  function FirstApplicable(rules: seq<Rule>): TorrentState {
    if rules == [] then Invalid
    else if rules[0].applies then rules[0].result
    else FirstApplicable(rules[1..])
  }

  /** The classification written as a first-match table in the precedence
      order paused > queued > checking > transfer rate > invalid. */
  function PrecedenceRules(q: E.Query<E.TorrentStatus>): seq<Rule> {
    match q
    case InvalidHandle => [Rule(true, Invalid)]
    case Answer(s) =>
      [ Rule(s.paused && s.seed, PausedUp),
        Rule(s.paused, PausedDl),
        Rule(s.queued && s.seed, QueuedUp),
        Rule(s.queued, QueuedDl),
        Rule(s.state.IsChecking() && s.seed, CheckingUp),
        Rule(s.state.IsChecking(), CheckingDl),
        Rule(s.state.IsFetching() && s.downloadPayloadRate > 0, Downloading),
        Rule(s.state.IsFetching(), StalledDl),
        Rule(s.state.IsComplete() && s.uploadPayloadRate > 0, Seeding),
        Rule(s.state.IsComplete(), StalledUp),
        Rule(true, Invalid) ]
  }

  /** Rules that do not apply can be dropped from the front of the table. */
  lemma {:induction false} SkipInapplicable(rules: seq<Rule>, k: nat)
    requires k <= |rules|
    requires forall i :: 0 <= i < k ==> !rules[i].applies
    ensures FirstApplicable(rules) == FirstApplicable(rules[k..])
  {
    if k > 0 {
      assert rules[1..][k - 1..] == rules[k..];
      SkipInapplicable(rules[1..], k - 1);
    }
  }

  /** The branch order of the classification agrees with the precedence table. */
  lemma ClassifyFollowsPrecedence(q: E.Query<E.TorrentStatus>)
    ensures Classify(q) == FirstApplicable(PrecedenceRules(q))
  {
    if q.Answer? {
      var s, rules := q.value, PrecedenceRules(q);
      // the index of the first rule that applies
      var k := if s.paused then (if s.seed then 0 else 1)
        else if s.queued then (if s.seed then 2 else 3)
        else if s.state.IsChecking() then (if s.seed then 4 else 5)
        else if s.state.IsFetching() then (if s.downloadPayloadRate > 0 then 6 else 7)
        else if s.state.IsComplete() then (if s.uploadPayloadRate > 0 then 8 else 9)
        else 10;
      SkipInapplicable(rules, k);
    }
  }

  /** A paused torrent is shown paused whatever its queue position, engine
      state and rates: only the seed flag matters. */
  lemma PausedIgnoresEverythingElse(s: E.TorrentStatus, t: E.TorrentStatus)
    requires s.paused && t.paused && s.seed == t.seed
    ensures Classify(E.Answer(s)) == Classify(E.Answer(t))
    ensures Classify(E.Answer(s)).IsPaused()
  {
  }
}
