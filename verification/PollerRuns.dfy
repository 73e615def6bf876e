/** Whole runs of the deployer: recorded successes only ever move forward, and no revision is
    attempted more often than its forgiveness allows. */
module PollerRuns {
  import opened Options
  import opened PollerSelection
  import opened PollerAttempts

  /* ----- what a poll attempts ----- */

  /** The walk releases this revision to this poll. */
  ghost predicate Released(c: Config, s: State, t: Tick, sha: Sha) {
    t.sight.Sees? && ReleasesIn(ViewOf(c, s, t), t.sight.git, Candidates(c, t.sight.head, t.sight.runs), sha)
  }

  /** A poll attempts exactly what the walk releases; under a retry only the retried revision, and
      only if it was attempted before and is not what is deployed. */
  lemma AttemptExactly(c: Config, s: State, t: Tick, sha: Sha)
    requires Looks(t)
    ensures var p := Pruned(s, t);
            Eligible(c, p, t) == Some(sha) <==>
              Released(c, p, t, sha) &&
              (t.retry.Some? ==> t.retry == Some(sha) && sha in Shas(p.attempts) && p.last != Some(sha))
  {
    var p := Pruned(s, t);
    if t.sight.Sees? { CandidateExactly(ViewOf(c, p, t), t.sight.git, sha); }
  }

  /** Without a retry, what is attempted is not on record. */
  lemma AttemptIsNew(c: Config, s: State, t: Tick, sha: Sha)
    requires Attempted(c, s, t) == Some(sha) && t.retry != Some(sha)
    ensures sha !in Shas(Pruned(s, t).attempts)
  {
    AttemptExactly(c, s, t, sha);
  }

  /* ----- successes move forward ----- */

  type Order = (Sha, Sha) -> bool

  ghost predicate PartialOrder(below: Order) {
    && (forall a :: below(a, a))
    && (forall a, b :: below(a, b) && below(b, a) ==> a == b)
    && (forall a, b, d :: below(a, b) && below(b, d) ==> below(a, d))
  }

  predicate Above(below: Order, a: Sha, b: Sha) { below(a, b) && a != b }

  /** Git never claims an ancestry that is not there; it may fail to know one. */
  ghost predicate Sound(below: Order, t: Tick) {
    t.sight.Sees? ==> forall a, b :: Ask(t.sight.git, a, b) == Yes ==> below(a, b)
  }

  function Success(c: Config, s: State, t: Tick): Option<Sha> {
    if Attempted(c, s, t).Some? && t.fate.outcome == Succeeds(true) then Attempted(c, s, t) else None
  }

  /** The recorded successes of a run, in order. */
  function Successes(c: Config, s: State, ticks: seq<Tick>): seq<Sha>
    decreases |ticks|
  {
    if ticks == [] then []
    else
      var rest := Successes(c, Polled(c, s, ticks[0]), ticks[1..]);
      if Success(c, s, ticks[0]).Some? then [Success(c, s, ticks[0]).value] + rest else rest
  }

  /** What a poll attempts is strictly above the last success. */
  lemma AttemptIsAbove(below: Order, c: Config, s: State, t: Tick, sha: Sha)
    requires Sound(below, t) && Attempted(c, s, t) == Some(sha) && s.last.Some?
    ensures Above(below, s.last.value, sha)
  {
    AttemptExactly(c, s, t, sha);
    var p := Pruned(s, t);
    ReleasedIsNewer(ViewOf(c, p, t), t.sight.git, Candidates(c, t.sight.head, t.sight.runs), sha);
    assert Newer(t.sight.git, sha, t.sight.head, s.last.value) == Yes;
    assert Ask(t.sight.git, s.last.value, sha) == Yes;
  }

  /** And it is in the branch: below its head, or the head. */
  lemma AttemptIsOnBranch(below: Order, c: Config, s: State, t: Tick, sha: Sha)
    requires Sound(below, t) && PartialOrder(below) && Attempted(c, s, t) == Some(sha) && s.last.Some?
    ensures t.sight.Sees? && below(sha, t.sight.head)
  {
    AttemptExactly(c, s, t, sha);
    var p := Pruned(s, t);
    ReleasedIsNewer(ViewOf(c, p, t), t.sight.git, Candidates(c, t.sight.head, t.sight.runs), sha);
    NewerExactly(t.sight.git, sha, t.sight.head, s.last.value);
    if sha != t.sight.head { assert Ask(t.sight.git, sha, t.sight.head) == Yes; }
  }

  lemma EndedLast(s: State, sha: Sha, o: Outcome)
    ensures Ended(s, sha, o).last == if o == Succeeds(true) then Some(sha) else s.last
  {
  }

  lemma OneSuccess(below: Order, c: Config, s: State, t: Tick)
    requires Sound(below, t)
    ensures Polled(c, s, t).last == if Success(c, s, t).Some? then Success(c, s, t) else s.last
    ensures Success(c, s, t).Some? && s.last.Some? ==> Above(below, s.last.value, Success(c, s, t).value)
  {
    if Attempted(c, s, t).Some? {
      var sha, ready := Attempted(c, s, t).value, Readied(Pruned(s, t), t);
      EndedLast(ready.(attempts := Recorded(ready.attempts, sha, t.now)), sha, t.fate.outcome);
    }
    if Success(c, s, t).Some? && s.last.Some? { AttemptIsAbove(below, c, s, t, Success(c, s, t).value); }
  }

  /** Strictly rising, and above what was there before. */
  ghost predicate Ascends(below: Order, last: Option<Sha>, found: seq<Sha>) {
    && (forall i, j :: 0 <= i < j < |found| ==> Above(below, found[i], found[j]))
    && (last.Some? ==> forall i :: 0 <= i < |found| ==> Above(below, last.value, found[i]))
  }

  /** Whatever CI lists, whatever git fails to know, with operator retries and with attempts failing
      or dying anywhere: each recorded success is strictly newer than every one before it. */
  lemma {:induction false} SuccessesAscend(below: Order, c: Config, s: State, ticks: seq<Tick>)
    requires PartialOrder(below) && forall t :: t in ticks ==> Sound(below, t)
    ensures Ascends(below, s.last, Successes(c, s, ticks))
    decreases |ticks|
  {
    if ticks != [] {
      var t := ticks[0];
      var next := Polled(c, s, t);
      assert t in ticks && forall u :: u in ticks[1..] ==> u in ticks;
      SuccessesAscend(below, c, next, ticks[1..]);
      OneSuccess(below, c, s, t);
      AscendStep(below, s.last, Success(c, s, t), Successes(c, next, ticks[1..]));
    }
  }

  lemma AscendStep(below: Order, last: Option<Sha>, now: Option<Sha>, rest: seq<Sha>)
    requires PartialOrder(below)
    requires now.Some? && last.Some? ==> Above(below, last.value, now.value)
    requires Ascends(below, if now.Some? then now else last, rest)
    ensures Ascends(below, last, if now.Some? then [now.value] + rest else rest)
  {
    if now.Some? && last.Some? {
      forall i | 0 <= i < |rest| ensures Above(below, last.value, rest[i]) {
        assert Above(below, now.value, rest[i]);
      }
    }
  }

  /* ----- attempts are bounded ----- */

  /** How many more attempts a revision can have without outside help. */
  function Left(s: State, sha: Sha): nat {
    if sha in Shas(s.attempts) then 0
    else 1 + FORGIVENESS_LIMIT - if CountFor(s, sha) < FORGIVENESS_LIMIT then CountFor(s, sha) else FORGIVENESS_LIMIT
  }

  /** Nobody retries the revision, its record does not age out, and a poll that attempts something
      else neither drops that record nor takes over its forgiveness. */
  ghost predicate Undisturbed(c: Config, s: State, t: Tick, sha: Sha) {
    && t.retry != Some(sha)
    && (sha in Shas(s.attempts) ==> sha in Shas(Pruned(s, t).attempts))
    && (Attempted(c, s, t) != Some(sha) ==>
          && (sha in Shas(s.attempts) ==> sha in Shas(Polled(c, s, t).attempts))
          && (CountFor(s, sha) > 0 ==> Polled(c, s, t).transient == s.transient))
  }

  ghost predicate UndisturbedRun(c: Config, s: State, ticks: seq<Tick>, sha: Sha)
    decreases |ticks|
  {
    ticks == [] || (Undisturbed(c, s, ticks[0], sha) && UndisturbedRun(c, Polled(c, s, ticks[0]), ticks[1..], sha))
  }

  function AttemptsOf(c: Config, s: State, ticks: seq<Tick>, sha: Sha): nat
    decreases |ticks|
  {
    if ticks == [] then 0
    else
      (if Attempted(c, s, ticks[0]) == Some(sha) then 1 else 0) +
      AttemptsOf(c, Polled(c, s, ticks[0]), ticks[1..], sha)
  }

  lemma EndedShas(s: State, sha: Sha, o: Outcome)
    requires sha in Shas(s.attempts)
    ensures var e := Ended(s, sha, o);
            && (sha in Shas(e.attempts) <==> !(o.Transient? && CountFor(s, sha) < FORGIVENESS_LIMIT))
            && (o.Transient? && CountFor(s, sha) < FORGIVENESS_LIMIT ==> CountFor(e, sha) == CountFor(s, sha) + 1)
  {
    WithoutIs(s.attempts, sha);
  }

  /** An attempt uses one up; unless it failed for passing reasons and was forgiven, it was the last. */
  lemma AttemptUses(c: Config, s: State, t: Tick, sha: Sha)
    requires Attempted(c, s, t) == Some(sha) && Undisturbed(c, s, t, sha)
    ensures Left(Polled(c, s, t), sha) < Left(s, sha)
    ensures !t.fate.outcome.Transient? ==> Left(Polled(c, s, t), sha) == 0
  {
    AttemptIsNew(c, s, t, sha);
    AttemptExactly(c, s, t, sha);
    var ready := Pruned(s, t);
    assert Readied(ready, t) == ready;
    RecordKept(ready.attempts, sha, t.now);
    EndedShas(ready.(attempts := Recorded(ready.attempts, sha, t.now)), sha, t.fate.outcome);
  }

  /** A poll that does not attempt the revision puts it on no record. */
  lemma OthersAdd(c: Config, s: State, t: Tick, sha: Sha)
    requires Attempted(c, s, t) != Some(sha) && Undisturbed(c, s, t, sha)
    ensures Left(Polled(c, s, t), sha) <= Left(s, sha)
  {
  }

  /** However polls die and whatever deployments do, an undisturbed revision is attempted at most
      once plus once per forgiveness left. */
  lemma {:induction false} AttemptBound(c: Config, s: State, ticks: seq<Tick>, sha: Sha)
    requires UndisturbedRun(c, s, ticks, sha)
    ensures AttemptsOf(c, s, ticks, sha) <= Left(s, sha) <= 1 + FORGIVENESS_LIMIT
    decreases |ticks|
  {
    if ticks != [] {
      AttemptBound(c, Polled(c, s, ticks[0]), ticks[1..], sha);
      if Attempted(c, s, ticks[0]) == Some(sha) {
        AttemptUses(c, s, ticks[0], sha);
      } else {
        OthersAdd(c, s, ticks[0], sha);
      }
    }
  }

  /** A success, a real failure, a crash or an unwritable counter ends a revision's attempts. */
  lemma OutcomeEnds(c: Config, s: State, ticks: seq<Tick>, sha: Sha)
    requires ticks != [] && UndisturbedRun(c, s, ticks, sha)
    requires Attempted(c, s, ticks[0]) == Some(sha) && !ticks[0].fate.outcome.Transient?
    ensures AttemptsOf(c, s, ticks, sha) == 1
  {
    AttemptUses(c, s, ticks[0], sha);
    AttemptBound(c, Polled(c, s, ticks[0]), ticks[1..], sha);
  }

  /** Polls without retries that attempt this revision or none leave it undisturbed while its
      record is fresh. */
  lemma QuietIsUndisturbed(c: Config, s: State, t: Tick, sha: Sha)
    requires t.retry.None? && (Attempted(c, s, t).None? || Attempted(c, s, t) == Some(sha))
    requires sha in Shas(s.attempts) ==> sha in Shas(Prune(s.attempts, t.now))
    ensures Undisturbed(c, s, t, sha)
  {
  }

  /* ----- the bound of any run ----- */

  /** How many polls of the run disturb the revision. */
  ghost function Disturbances(c: Config, s: State, ticks: seq<Tick>, sha: Sha): nat
    decreases |ticks|
  {
    if ticks == [] then 0
    else (if Undisturbed(c, s, ticks[0], sha) then 0 else 1) + Disturbances(c, Polled(c, s, ticks[0]), ticks[1..], sha)
  }

  /** Whatever came before, an attempt leaves no more of them than there are forgivenesses. */
  lemma AttemptLeaves(c: Config, s: State, t: Tick, sha: Sha)
    requires Attempted(c, s, t) == Some(sha)
    ensures Left(Polled(c, s, t), sha) <= FORGIVENESS_LIMIT
  {
    var ready := Readied(Pruned(s, t), t);
    RecordKept(ready.attempts, sha, t.now);
    EndedShas(ready.(attempts := Recorded(ready.attempts, sha, t.now)), sha, t.fate.outcome);
  }

  /** Every run: each poll that retries the revision, lets its record go or takes its slot is worth at
      most one round of attempts more. */
  lemma {:induction false} DisturbedBound(c: Config, s: State, ticks: seq<Tick>, sha: Sha)
    ensures AttemptsOf(c, s, ticks, sha) <= Left(s, sha) + (1 + FORGIVENESS_LIMIT) * Disturbances(c, s, ticks, sha)
    decreases |ticks|
  {
    if ticks != [] {
      DisturbedBound(c, Polled(c, s, ticks[0]), ticks[1..], sha);
      if Attempted(c, s, ticks[0]) == Some(sha) { AttemptLeaves(c, s, ticks[0], sha); }
      if Undisturbed(c, s, ticks[0], sha) {
        if Attempted(c, s, ticks[0]) == Some(sha) {
          AttemptUses(c, s, ticks[0], sha);
        } else {
          OthersAdd(c, s, ticks[0], sha);
        }
      }
    }
  }

  /* ----- what an attempt leaves ----- */

  /** A retry that got as far as clearing the slot starts the count over. */
  predicate StartsOver(t: Tick) {
    t.retry.Some? && match t.fate case Deploys(cleared,
                                               _) => cleared case StopsRecording(cleared) => cleared case _ => false
  }

  function CountBefore(s: State, t: Tick, sha: Sha): nat {
    if StartsOver(t) then 0
    else if s.transient.Some? && s.transient.value.sha == sha then s.transient.value.count
    else 0
  }

  function SlotBefore(s: State, t: Tick): Option<Forgiven> { if StartsOver(t) then None else s.transient }

  /** What an attempt leaves of the slot, by its outcome and the forgivenesses spent before it. */
  function SlotAfter(s: State, t: Tick, sha: Sha, o: Outcome): Option<Forgiven> {
    var n := CountBefore(s, t, sha);
    match o
    case Transient => if n < FORGIVENESS_LIMIT then Some(Forgiven(sha, n + 1)) else None
    case CrashesForgetting => if n < FORGIVENESS_LIMIT then Some(Forgiven(sha, n + 1)) else None
    case CounterLost => if n < FORGIVENESS_LIMIT then SlotBefore(s, t) else None
    case _ => SlotBefore(s, t)
  }

  lemma ReadiedIs(s: State, t: Tick, sha: Sha)
    requires Looks(t) && t.fate.Deploys?
    ensures var ready := Readied(Pruned(s, t), t);
            && ready.transient == SlotBefore(s, t) && CountFor(ready, sha) == CountBefore(s, t, sha)
            && ready.last == s.last
  {
  }

  lemma ReadiedEntries(s: State, t: Tick, a: Attempt)
    requires Looks(t) && t.fate.Deploys? && a in Readied(Pruned(s, t), t).attempts
    ensures a in s.attempts && Fresh(a, t.now)
  {
    if t.retry.Some? { WithoutIs(Pruned(s, t).attempts, t.retry.value); }
    FreshOnlyIs(Recent(s.attempts), t.now);
    assert a in Recent(s.attempts);
  }

  lemma EndedSlot(s: State, sha: Sha, o: Outcome)
    ensures Ended(s, sha, o).transient ==
              match o
              case Transient => (if CountFor(s, sha) < FORGIVENESS_LIMIT then Some(Forgiven(sha, CountFor(s, sha) + 1))
              else None)
              case CrashesForgetting =>
                (if CountFor(s, sha) < FORGIVENESS_LIMIT then Some(Forgiven(sha, CountFor(s, sha) + 1)) else None)
              case CounterLost => (if CountFor(s, sha) < FORGIVENESS_LIMIT then s.transient else None)
              case _ => s.transient
  {
  }

  lemma EndedEntries(s: State, sha: Sha, o: Outcome, a: Attempt)
    requires a in Ended(s, sha, o).attempts
    ensures a in s.attempts
  {
    WithoutIs(s.attempts, sha);
  }

  lemma PolledIs(c: Config, s: State, t: Tick, sha: Sha)
    requires Attempted(c, s, t) == Some(sha)
    ensures var ready := Readied(Pruned(s, t), t);
            Polled(c, s, t) == Ended(ready.(attempts := Recorded(ready.attempts, sha, t.now)), sha, t.fate.outcome)
  {
  }

  /** Every other entry was there before and is fresh. */
  lemma AttemptEntry(c: Config, s: State, t: Tick, sha: Sha, a: Attempt)
    requires Attempted(c, s, t) == Some(sha) && a in Polled(c, s, t).attempts
    ensures a == Attempt(sha, Some(t.now / SECOND)) || (a in s.attempts && a.sha != sha && Fresh(a, t.now))
  {
    var ready := Readied(Pruned(s, t), t);
    PolledIs(c, s, t, sha);
    EndedEntries(ready.(attempts := Recorded(ready.attempts, sha, t.now)), sha, t.fate.outcome, a);
    RecordKept(ready.attempts, sha, t.now);
    if a in ready.attempts { ReadiedEntries(s, t, a); }
  }

  lemma EndedSlotIs(s: State, t: Tick, sha: Sha, recorded: State, o: Outcome)
    requires recorded.transient == SlotBefore(s, t) && CountFor(recorded, sha) == CountBefore(s, t, sha)
    ensures Ended(recorded, sha, o).transient == SlotAfter(s, t, sha, o)
  {
    EndedSlot(recorded, sha, o);
  }

  lemma SameCount(s: State, r: State, sha: Sha)
    requires s.transient == r.transient
    ensures CountFor(s, sha) == CountFor(r, sha)
  {
  }

  /** What an attempt leaves of the slot. */
  lemma AttemptLeavesSlot(c: Config, s: State, t: Tick, sha: Sha)
    requires Attempted(c, s, t) == Some(sha)
    ensures Polled(c, s, t).transient == SlotAfter(s, t, sha, t.fate.outcome)
  {
    var ready := Readied(Pruned(s, t), t);
    var recorded := ready.(attempts := Recorded(ready.attempts, sha, t.now));
    PolledIs(c, s, t, sha);
    ReadiedIs(s, t, sha);
    SameCount(ready, recorded, sha);
    EndedSlotIs(s, t, sha, recorded, t.fate.outcome);
  }

  /** Of the last success. */
  lemma AttemptLeavesLast(c: Config, s: State, t: Tick, sha: Sha)
    requires Attempted(c, s, t) == Some(sha)
    ensures Polled(c, s, t).last == if t.fate.outcome == Succeeds(true) then Some(sha) else s.last
  {
    var ready := Readied(Pruned(s, t), t);
    PolledIs(c, s, t, sha);
    ReadiedIs(s, t, sha);
    EndedLast(ready.(attempts := Recorded(ready.attempts, sha, t.now)), sha, t.fate.outcome);
  }

  /** The attempt failed for passing reasons with forgiveness left. */
  predicate TakenBack(s: State, t: Tick, sha: Sha)
    requires t.fate.Deploys?
  {
    t.fate.outcome.Transient? && CountBefore(s, t, sha) < FORGIVENESS_LIMIT
  }

  /** And of the record: the revision stays on it, unless it failed for passing reasons with forgiveness
      left. */
  lemma AttemptLeavesRecord(c: Config, s: State, t: Tick, sha: Sha)
    requires Attempted(c, s, t) == Some(sha)
    ensures sha in Shas(Polled(c, s, t).attempts) <==> !TakenBack(s, t, sha)
  {
    var ready := Readied(Pruned(s, t), t);
    RecordedOnRecord(ready.attempts, sha, t.now);
    var recorded := ready.(attempts := Recorded(ready.attempts, sha, t.now));
    PolledIs(c, s, t, sha);
    ReadiedIs(s, t, sha);
    EndedShas(recorded, sha, t.fate.outcome);
  }

  lemma RecordedOnRecord(attempts: seq<Attempt>, sha: Sha, now: int)
    ensures sha in Shas(Recorded(attempts, sha, now))
  {
    RecordKept(attempts, sha, now);
  }

  /** A poll that attempts nothing leaves the last success, and the slot unless a retry cleared it; no
      entry is gained. */
  lemma NoAttemptLeaves(c: Config, s: State, t: Tick)
    requires Attempted(c, s, t) == None
    ensures var next := Polled(c, s, t);
            && next.last == s.last && (next.transient == s.transient || (StartsOver(t) && next.transient == None))
            && (t.retry.None? ==> next.transient == s.transient)
            && forall a :: a in next.attempts ==> a in s.attempts
  {
    var p := Pruned(s, t);
    FreshOnlyIs(Recent(s.attempts), t.now);
    assert forall a :: a in Recent(s.attempts) ==> a in s.attempts;
    if t.retry.Some? { WithoutIs(p.attempts, t.retry.value); }
  }

  /** The operator's retry cleared the slot and failed for passing reasons. */
  predicate RetriedInVain(t: Tick, sha: Sha) {
    t.retry == Some(sha) && t.fate.Deploys? && t.fate.cleared && t.fate.outcome.Transient?
  }

  lemma RetriedIsFirst(s: State, t: Tick, sha: Sha)
    requires RetriedInVain(t, sha)
    ensures TakenBack(s, t, sha) && SlotAfter(s, t, sha, t.fate.outcome) == Some(Forgiven(sha, 1))
  {
  }

  /** A poll that attempts nothing keeps the record as pruned, but for a revision whose retry got as far as
      forgetting it. */
  lemma NoAttemptKeeps(c: Config, s: State, t: Tick)
    requires Attempted(c, s, t) == None
    ensures !Looks(t) ==> Polled(c, s, t) == s
    ensures Looks(t) && t.retry.None? ==> Polled(c, s, t).attempts == Prune(s.attempts, t.now)
    ensures Looks(t) ==>
              forall a :: a in Prune(s.attempts, t.now) && Some(a.sha) != t.retry ==> a in Polled(c, s, t).attempts
    ensures Looks(t) && t.retry.Some? && !t.fate.StopsForgetting? && Eligible(c, Pruned(s, t), t).Some? ==>
              t.retry.value !in Shas(Polled(c, s, t).attempts)
  {
    if t.retry.Some? { WithoutIs(Pruned(s, t).attempts, t.retry.value); }
  }

  /** With room on the record an attempt keeps every other entry that is fresh. */
  lemma OthersKept(c: Config, s: State, t: Tick, sha: Sha, a: Attempt)
    requires Attempted(c, s, t) == Some(sha) && a in s.attempts && a.sha != sha && Fresh(a, t.now)
    requires |s.attempts| < RETENTION_COUNT
    ensures a in Polled(c, s, t).attempts
  {
    var p, ready := Pruned(s, t), Readied(Pruned(s, t), t);
    PrunedShas(s.attempts, t.now);
    FreshOnlyIs(s.attempts, t.now);
    AttemptExactly(c, s, t, sha);
    if t.retry.Some? {
      WithoutIs(p.attempts, t.retry.value);
      WithoutShorter(p.attempts, t.retry.value);
    }
    assert sha !in Shas(ready.attempts);
    RecordedKeepsFresh(ready.attempts, sha, t.now, a);
    PolledIs(c, s, t, sha);
    EndedKeeps(ready.(attempts := Recorded(ready.attempts, sha, t.now)), sha, t.fate.outcome, a);
  }

  lemma EndedKeeps(s: State, sha: Sha, o: Outcome, a: Attempt)
    requires a in s.attempts && a.sha != sha
    ensures a in Ended(s, sha, o).attempts
  {
    WithoutIs(s.attempts, sha);
  }

  /** After a retry that clears the slot a failure for passing reasons is the first again, whatever the
      slot held: the revision is off the record and counted once. */
  lemma RetryStartsOver(c: Config, s: State, t: Tick, sha: Sha)
    requires RetriedInVain(t, sha) && Attempted(c, s, t) == Some(sha)
    ensures sha !in Shas(Polled(c, s, t).attempts) && Polled(c, s, t).transient == Some(Forgiven(sha, 1))
  {
    RetriedIsFirst(s, t, sha);
    AttemptLeavesSlot(c, s, t, sha);
    AttemptLeavesRecord(c, s, t, sha);
  }

  /* ----- every forgiveness is used ----- */

  /** Undisturbed polls that attempt the revision whenever it is not on record, and fail for passing reasons. */
  ghost predicate KeepsFailing(c: Config, s: State, ticks: seq<Tick>, sha: Sha)
    decreases |ticks|
  {
    ticks == [] ||
    (&& Undisturbed(c, s, ticks[0], sha)
     && (sha !in Shas(s.attempts) ==> Attempted(c, s, ticks[0]) == Some(sha) && ticks[0].fate.outcome.Transient?)
     && KeepsFailing(c, Polled(c, s, ticks[0]), ticks[1..], sha))
  }

  lemma ForgivenUsesOne(c: Config, s: State, t: Tick, sha: Sha)
    requires Attempted(c, s, t) == Some(sha) && Undisturbed(c, s, t, sha) && t.fate.outcome.Transient?
    ensures Left(s, sha) > 0 && Left(Polled(c, s, t), sha) == Left(s, sha) - 1
  {
    AttemptUses(c, s, t, sha);
    AttemptExactly(c, s, t, sha);
    assert !StartsOver(t);
    AttemptLeavesSlot(c, s, t, sha);
    AttemptLeavesRecord(c, s, t, sha);
  }

  /** As long as it is released and fails for passing reasons a revision is attempted until none is left:
      the bound is reached. */
  lemma {:induction false} FailingUsesAll(c: Config, s: State, ticks: seq<Tick>, sha: Sha)
    requires KeepsFailing(c, s, ticks, sha)
    ensures AttemptsOf(c, s, ticks, sha) == if |ticks| < Left(s, sha) then |ticks| else Left(s, sha)
    decreases |ticks|
  {
    if ticks != [] {
      FailingUsesAll(c, Polled(c, s, ticks[0]), ticks[1..], sha);
      if sha in Shas(s.attempts) {
        if Attempted(c, s, ticks[0]) == Some(sha) { AttemptIsNew(c, s, ticks[0], sha); }
        OthersAdd(c, s, ticks[0], sha);
      } else {
        ForgivenUsesOne(c, s, ticks[0], sha);
      }
    }
  }

  /** A retry buys exactly the attempt itself and every forgiveness after it. */
  lemma RetryBuysAll(c: Config, s: State, t: Tick, rest: seq<Tick>, sha: Sha)
    requires RetriedInVain(t, sha) && Attempted(c, s, t) == Some(sha)
    requires KeepsFailing(c, Polled(c, s, t), rest, sha)
    ensures AttemptsOf(c, s, [t] + rest, sha) == 1 + if |rest| < FORGIVENESS_LIMIT then |rest| else FORGIVENESS_LIMIT
  {
    RetryStartsOver(c, s, t, sha);
    FailingUsesAll(c, Polled(c, s, t), rest, sha);
    FirstTick(c, s, t, rest, sha);
  }

  /* ----- the bound from what can be seen ----- */

  /** No poll of the run is a retry or attempts another revision, and all fall between two times. */
  predicate Quiet(c: Config, s: State, ticks: seq<Tick>, sha: Sha, from: int, until: int)
    decreases |ticks|
  {
    ticks == [] ||
    (&& ticks[0].retry.None? && from <= ticks[0].now <= until
     && (Attempted(c, s, ticks[0]).None? || Attempted(c, s, ticks[0]) == Some(sha))
     && Quiet(c, Polled(c, s, ticks[0]), ticks[1..], sha, from, until))
  }

  /** The record is within its bound, and what it says of this revision is fresh until then. */
  predicate FreshUntil(attempts: seq<Attempt>, sha: Sha, until: int) {
    |attempts| <= RETENTION_COUNT && forall a :: a in attempts && a.sha == sha ==> Fresh(a, until)
  }

  lemma PruneKeepsFresh(attempts: seq<Attempt>, sha: Sha, now: int, until: int)
    requires FreshUntil(attempts, sha, until) && now <= until
    ensures FreshUntil(Prune(attempts, now), sha, until)
    ensures sha in Shas(attempts) ==> sha in Shas(Prune(attempts, now))
  {
    FreshOnlyIs(attempts, now);
    if sha in Shas(attempts) {
      var a :| a in attempts && a.sha == sha;
      assert a in Prune(attempts, now);
    }
  }

  lemma RecordKeepsFresh(attempts: seq<Attempt>, sha: Sha, now: int, until: int)
    requires now - SECOND >= until - RETENTION
    ensures FreshUntil(Recorded(attempts, sha, now), sha, until)
  {
    var all := WithoutSha(attempts, sha) + [Attempt(sha, Some(now / SECOND))];
    RecordKept(attempts, sha, now);
    WithoutIs(attempts, sha);
    FreshOnlyIs(Recent(all), now);
    assert forall a :: a in Recent(all) ==> a in all;
  }

  lemma {:induction false} WithoutShorter(attempts: seq<Attempt>, sha: Sha)
    ensures |WithoutSha(attempts, sha)| <= |attempts|
  {
    if attempts != [] { WithoutShorter(attempts[1..], sha); }
  }

  lemma EndedKeepsFresh(s: State, sha: Sha, o: Outcome, until: int)
    requires FreshUntil(s.attempts, sha, until)
    ensures FreshUntil(Ended(s, sha, o).attempts, sha, until)
  {
    WithoutIs(s.attempts, sha);
    WithoutShorter(s.attempts, sha);
  }

  lemma QuietStep(c: Config, s: State, t: Tick, sha: Sha, from: int, until: int)
    requires t.retry.None? && from <= t.now <= until && until - from <= RETENTION - SECOND
    requires Attempted(c, s, t).None? || Attempted(c, s, t) == Some(sha)
    requires FreshUntil(s.attempts, sha, until)
    ensures FreshUntil(Polled(c, s, t).attempts, sha, until) && Undisturbed(c, s, t, sha)
  {
    var p := Pruned(s, t);
    PruneKeepsFresh(s.attempts, sha, t.now, until);
    QuietIsUndisturbed(c, s, t, sha);
    assert Readied(p, t) == p;
    if Attempted(c, s, t) == Some(sha) {
      RecordKeepsFresh(p.attempts, sha, t.now, until);
      EndedKeepsFresh(p.(attempts := Recorded(p.attempts, sha, t.now)), sha, t.fate.outcome, until);
    }
  }

  /** A quiet run shorter than the retention leaves the revision undisturbed, so it is attempted at
      most once plus once per forgiveness left, whatever crashes. */
  lemma {:induction false} QuietRunBound(c: Config, s: State, ticks: seq<Tick>, sha: Sha, from: int, until: int)
    requires Quiet(c, s, ticks, sha, from, until) && until - from <= RETENTION - SECOND
    requires FreshUntil(s.attempts, sha, until)
    ensures UndisturbedRun(c, s, ticks, sha)
    ensures AttemptsOf(c, s, ticks, sha) <= Left(s, sha) <= 1 + FORGIVENESS_LIMIT
    decreases |ticks|
  {
    if ticks != [] {
      QuietStep(c, s, ticks[0], sha, from, until);
      QuietRunBound(c, Polled(c, s, ticks[0]), ticks[1..], sha, from, until);
    }
    AttemptBound(c, s, ticks, sha);
  }

  /* ----- two revisions in turn ----- */

  function GreenRun(c: Config, sha: Sha): Run {
    Run(Some(sha), "completed", "push", c.branch, c.workflow, Some("success"), "")
  }

  /** A poll that sees one head with one green run, and whose deployment fails for passing reasons. */
  function HeadTick(c: Config, sha: Sha, now: int): Tick {
    Tick(true, now, Sees(sha, [GreenRun(c, sha)], Git({}, {})), None, Deploys(false, Transient))
  }

  /** Two polls in turn. */
  function InTurn(x: Tick, y: Tick, n: nat): seq<Tick> { if n == 0 then [] else [x] + ([y] + InTurn(x, y, n - 1)) }

  lemma HeadReleased(c: Config, s: State, sha: Sha, now: int)
    requires s.attempts == [] && s.last == None
    ensures Attempted(c, s, HeadTick(c, sha, now)) == Some(sha)
  {
    var t := HeadTick(c, sha, now);
    var v, run := ViewOf(c, s, t), GreenRun(c, sha);
    assert [run][..0] == [] && [run][1..] == [];
    assert Candidates(c, sha, []) == [sha];
    assert Candidates(c, sha, [run]) == [sha];
    assert GatingRuns(c, sha, [run]) == [run] + GatingRuns(c, sha, []) == [run];
    assert SuccessfulRuns([run]) == [run] + SuccessfulRuns([]) == [run];
    assert CiVerdict(c, sha, [run]).kind == Green;
    assert Selected(v, t.sight.git).value.candidate == Some(sha);
  }

  lemma OneRecorded(sha: Sha, now: int)
    ensures Prune([], now) == []
    ensures Recorded([], sha, now) == [Attempt(sha, Some(now / SECOND))]
    ensures WithoutSha(Recorded([], sha, now), sha) == []
  {
    var entry := Attempt(sha, Some(now / SECOND));
    assert WithoutSha([], sha) + [entry] == [entry] && [entry][..0] == [] && [entry][1..] == [];
    assert FreshOnly([entry], now) == FreshOnly([], now) + [entry] == [entry];
    assert WithoutSha([entry], sha) == [] + WithoutSha([], sha);
  }

  /** One such poll leaves the record empty and the slot counting this revision once. */
  lemma HeadForgiven(c: Config, s: State, sha: Sha, now: int)
    requires s.attempts == [] && s.last == None && CountFor(s, sha) == 0
    ensures Polled(c, s, HeadTick(c, sha, now)) == State([], Some(Forgiven(sha, 1)), None)
  {
    var t := HeadTick(c, sha, now);
    HeadReleased(c, s, sha, now);
    OneRecorded(sha, now);
    assert Pruned(s, t) == s && Readied(s, t) == s;
    var recorded := s.(attempts := Recorded([], sha, now));
    assert Polled(c, s, t) == Ended(recorded, sha, Transient);
  }

  lemma FirstTick(c: Config, s: State, t: Tick, rest: seq<Tick>, sha: Sha)
    ensures AttemptsOf(c, s, [t] + rest, sha) ==
              (if Attempted(c, s, t) == Some(sha) then 1 else 0) + AttemptsOf(c, Polled(c, s, t), rest, sha)
  {
    assert ([t] + rest)[1..] == rest;
  }

  /** One round: each of the two is attempted once, and the record is empty again. */
  lemma OneRound(c: Config, s: State, a: Sha, b: Sha, now: int, rest: seq<Tick>, sha: Sha)
    requires a != b && s.attempts == [] && s.last == None && CountFor(s, a) == 0 && sha in [a, b]
    ensures AttemptsOf(c, s, [HeadTick(c, a, now)] + ([HeadTick(c, b, now)] + rest), sha) ==
              1 + AttemptsOf(c, State([], Some(Forgiven(b, 1)), None), rest, sha)
  {
    var s1 := State([], Some(Forgiven(a, 1)), None);
    HeadReleased(c, s, a, now);
    HeadForgiven(c, s, a, now);
    FirstTick(c, s, HeadTick(c, a, now), [HeadTick(c, b, now)] + rest, sha);
    HeadReleased(c, s1, b, now);
    HeadForgiven(c, s1, b, now);
    FirstTick(c, s1, HeadTick(c, b, now), rest, sha);
  }

  lemma {:induction false} InTurnMember(x: Tick, y: Tick, n: nat, t: Tick)
    requires t in InTurn(x, y, n)
    ensures t == x || t == y
    decreases n
  {
    if t != x && t != y { InTurnMember(x, y, n - 1, t); }
  }

  /** Whatever follows, the two polls count once and lead from one state to the other. */
  ghost predicate Round(count: (State, seq<Tick>) -> nat, s: State, next: State, x: Tick, y: Tick) {
    forall rest: seq<Tick> {:trigger [x] + ([y] + rest)} :: count(s, [x] + ([y] + rest)) == 1 + count(next, rest)
  }

  lemma {:induction false} Rounds(count: (State, seq<Tick>) -> nat, s: State, next: State, x: Tick, y: Tick, n: nat)
    requires Round(count, s, next, x, y) && Round(count, next, next, x, y)
    requires count(s, []) == 0 && count(next, []) == 0
    ensures count(s, InTurn(x, y, n)) == n
    decreases n
  {
    if n > 0 {
      Rounds(count, next, next, x, y, n - 1);
      assert InTurn(x, y, n) == [x] + ([y] + InTurn(x, y, n - 1));
    }
  }

  function Counting(c: Config, sha: Sha): (State, seq<Tick>) -> nat {
    (s: State, ticks: seq<Tick>) => AttemptsOf(c, s, ticks, sha)
  }

  lemma HeadsRound(c: Config, s: State, a: Sha, b: Sha, now: int, sha: Sha)
    requires a != b && s.attempts == [] && s.last == None && CountFor(s, a) == 0 && sha in [a, b]
    ensures Round(Counting(c, sha), s, State([], Some(Forgiven(b, 1)), None), HeadTick(c, a, now), HeadTick(c, b, now))
  {
    forall rest: seq<Tick>
      ensures Counting(c, sha)(s, [HeadTick(c, a, now)] + ([HeadTick(c, b, now)] + rest)) ==
                1 + Counting(c, sha)(State([], Some(Forgiven(b, 1)), None), rest)
    {
      OneRound(c, s, a, b, now, rest, sha);
    }
  }

  lemma EachInTurn(c: Config, s: State, a: Sha, b: Sha, now: int, n: nat, sha: Sha)
    requires a != b && s.attempts == [] && s.last == None && CountFor(s, a) == 0 && sha in [a, b]
    ensures AttemptsOf(c, s, InTurn(HeadTick(c, a, now), HeadTick(c, b, now), n), sha) == n
  {
    var next := State([], Some(Forgiven(b, 1)), None);
    HeadsRound(c, s, a, b, now, sha);
    HeadsRound(c, next, a, b, now, sha);
    Rounds(Counting(c, sha), s, next, HeadTick(c, a, now), HeadTick(c, b, now), n);
  }

  /** Why another revision's attempts are excluded: polls without a retry whose heads alternate
      between two revisions attempt each of them once a round, for any number of rounds, since the
      one slot holds one count. */
  lemma SlotIsShared(c: Config, s: State, a: Sha, b: Sha, now: int, n: nat)
    requires a != b && s.attempts == [] && s.last == None && CountFor(s, a) == 0
    ensures var ticks := InTurn(HeadTick(c, a, now), HeadTick(c, b, now), n);
            && (forall t :: t in ticks ==> t.retry == None && t.now == now)
            && AttemptsOf(c, s, ticks, a) == n && AttemptsOf(c, s, ticks, b) == n
  {
    var x, y := HeadTick(c, a, now), HeadTick(c, b, now);
    forall t | t in InTurn(x, y, n) ensures t.retry == None && t.now == now { InTurnMember(x, y, n, t); }
    EachInTurn(c, s, a, b, now, n, a);
    EachInTurn(c, s, a, b, now, n, b);
  }
}
