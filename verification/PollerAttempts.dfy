/** The deployer's persistent state: what was attempted, which transient failure is being
    forgiven, and the last success; and what every run of polls keeps of it. */
module PollerAttempts {
  import opened Options
  import opened PollerSelection

  const FORGIVENESS_LIMIT := 3
  const RETENTION_COUNT := 50
  const SECOND := 1_000_000
  const RETENTION := 90 * 24 * 60 * 60 * SECOND

  /** One line of the attempted record. A stamp is in whole seconds; a bare SHA has none. */
  datatype Attempt = Attempt(sha: Sha, stamp: Option<int>)

  datatype Forgiven = Forgiven(sha: Sha, count: nat)

  datatype State = State(attempts: seq<Attempt>, transient: Option<Forgiven>, last: Option<Sha>)

  /* ----- the attempted record; times are in microseconds ----- */

  predicate Fresh(a: Attempt, now: int) { a.stamp.Some? && a.stamp.value * SECOND >= now - RETENTION }

  function Recent(attempts: seq<Attempt>): seq<Attempt> {
    if |attempts| <= RETENTION_COUNT then attempts else attempts[|attempts| - RETENTION_COUNT..]
  }

  function FreshOnly(attempts: seq<Attempt>, now: int): seq<Attempt> {
    if attempts == [] then []
    else
      FreshOnly(attempts[..|attempts| - 1], now) +
      if Fresh(attempts[|attempts| - 1], now) then [attempts[|attempts| - 1]] else []
  }

  /** `_prune_attempts`. */
  function Prune(attempts: seq<Attempt>, now: int): seq<Attempt> { FreshOnly(Recent(attempts), now) }

  function WithoutSha(attempts: seq<Attempt>, sha: Sha): seq<Attempt> {
    if attempts == [] then []
    else (if attempts[0].sha == sha then [] else [attempts[0]]) + WithoutSha(attempts[1..], sha)
  }

  function Recorded(attempts: seq<Attempt>, sha: Sha, now: int): seq<Attempt> {
    Prune(WithoutSha(attempts, sha) + [Attempt(sha, Some(now / SECOND))], now)
  }

  function Shas(attempts: seq<Attempt>): set<Sha> { set a | a in attempts :: a.sha }

  lemma {:induction false} FreshOnlyIs(attempts: seq<Attempt>, now: int)
    ensures |FreshOnly(attempts, now)| <= |attempts|
    ensures forall a :: a in FreshOnly(attempts, now) <==> a in attempts && Fresh(a, now)
  {
    if attempts != [] {
      FreshOnlyIs(attempts[..|attempts| - 1], now);
      assert attempts == attempts[..|attempts| - 1] + [attempts[|attempts| - 1]];
    }
  }

  lemma {:induction false} WithoutIs(attempts: seq<Attempt>, sha: Sha)
    ensures forall a :: a in WithoutSha(attempts, sha) <==> a in attempts && a.sha != sha
  {
    if attempts != [] {
      WithoutIs(attempts[1..], sha);
      assert attempts == [attempts[0]] + attempts[1..];
    }
  }

  /** Recording keeps the bound, always keeps the attempt just recorded, and adds no other. */
  lemma RecordKept(attempts: seq<Attempt>, sha: Sha, now: int)
    ensures var r := Recorded(attempts, sha, now);
            && |r| <= RETENTION_COUNT && sha in Shas(r) && Shas(r) <= Shas(attempts) + {sha}
            && r[|r| - 1] == Attempt(sha, Some(now / SECOND)) && |r| > 0
            && forall a :: a in r ==> a == Attempt(sha, Some(now / SECOND)) || (a in attempts && a.sha != sha)
  {
    var all := WithoutSha(attempts, sha) + [Attempt(sha, Some(now / SECOND))];
    var recent := Recent(all);
    WithoutIs(attempts, sha);
    FreshOnlyIs(recent, now);
    assert recent[|recent| - 1] == Attempt(sha, Some(now / SECOND));
    assert Fresh(recent[|recent| - 1], now);
    assert Attempt(sha, Some(now / SECOND)) in recent;
    assert forall a :: a in recent ==> a in all;
  }

  lemma PrunedShas(attempts: seq<Attempt>, now: int)
    ensures Shas(Prune(attempts, now)) <= Shas(attempts) && |Prune(attempts, now)| <= RETENTION_COUNT
  {
    FreshOnlyIs(Recent(attempts), now);
    assert forall a :: a in Recent(attempts) ==> a in attempts;
  }

  /** Pruning keeps exactly the entries among the newest fifty whose stamp is within the retention. */
  lemma PrunedExactly(attempts: seq<Attempt>, now: int, a: Attempt)
    ensures a in Prune(attempts, now) <==>
              exists i :: 0 <= i < |attempts| && |attempts| - i <= RETENTION_COUNT && attempts[i] == a &&
                          a.stamp.Some? && a.stamp.value * SECOND >= now - RETENTION
  {
    FreshOnlyIs(Recent(attempts), now);
    var from := if |attempts| <= RETENTION_COUNT then 0 else |attempts| - RETENTION_COUNT;
    assert Recent(attempts) == attempts[from..];
    if a in Recent(attempts) {
      var k :| 0 <= k < |Recent(attempts)| && Recent(attempts)[k] == a;
      assert attempts[from + k] == a;
    }
    if i :| 0 <= i < |attempts| && |attempts| - i <= RETENTION_COUNT && attempts[i] == a {
      assert attempts[from..][i - from] == a;
    }
  }

  lemma {:induction false} WithoutAll(attempts: seq<Attempt>, sha: Sha)
    requires sha !in Shas(attempts)
    ensures WithoutSha(attempts, sha) == attempts
  {
    if attempts != [] {
      assert attempts == [attempts[0]] + attempts[1..] && attempts[0] in attempts;
      assert forall a :: a in attempts[1..] ==> a in attempts;
      WithoutAll(attempts[1..], sha);
    }
  }

  /** Recording a new revision in a record with room keeps every fresh entry. */
  lemma RecordedKeepsFresh(attempts: seq<Attempt>, sha: Sha, now: int, a: Attempt)
    requires sha !in Shas(attempts) && |attempts| < RETENTION_COUNT && a in attempts && Fresh(a, now)
    ensures a in Recorded(attempts, sha, now)
  {
    WithoutAll(attempts, sha);
    FreshOnlyIs(attempts + [Attempt(sha, Some(now / SECOND))], now);
  }

  /* ----- one poll ----- */

  /** How an attempt goes once the record has landed. A write that raises stops it there. */
  datatype Outcome =
    | CrashesDeploying
    | Fails
    | Succeeds(recorded: bool)
    | CounterLost          // the transient counter cannot be written
    | CrashesForgetting    // the counter landed, the record was not taken back
    | Transient

  /** How far a poll gets. */
  datatype Fate =
    | StopsPruning
    | StopsForgetting
    | StopsClearing
    | StopsRecording(cleared: bool)
    | Deploys(cleared: bool, outcome: Outcome)

  /** What the poll can see of the branch. */
  datatype Sight = Blind | Sees(head: Sha, runs: seq<Run>, git: Git)

  datatype Tick = Tick(acquired: bool, now: int, sight: Sight, retry: Option<Sha>, fate: Fate)

  function CountFor(s: State, sha: Sha): nat {
    if s.transient.Some? && s.transient.value.sha == sha then s.transient.value.count else 0
  }

  /** The state after an attempt's outcome, the record having landed. */
  function Ended(s: State, sha: Sha, o: Outcome): State {
    match o
    case CrashesDeploying => s
    case Fails => s
    case Succeeds(recorded) => if recorded then s.(last := Some(sha)) else s
    case CounterLost => if CountFor(s, sha) + 1 > FORGIVENESS_LIMIT then s.(transient := None) else s
    case CrashesForgetting =>
      s.(transient := if CountFor(s, sha) + 1 > FORGIVENESS_LIMIT then None
                      else Some(Forgiven(sha, CountFor(s, sha) + 1)))
    case Transient =>
      if CountFor(s, sha) + 1 > FORGIVENESS_LIMIT then s.(transient := None)
      else s.(transient := Some(Forgiven(sha, CountFor(s, sha) + 1)), attempts := WithoutSha(s.attempts, sha))
  }

  function ViewOf(c: Config, s: State, t: Tick): View
    requires t.sight.Sees?
  {
    View(c, t.sight.head, t.sight.runs, Shas(s.attempts), s.last, t.retry)
  }

  /** `_eligible_revision`: the revision this poll may attempt. */
  function Eligible(c: Config, s: State, t: Tick): Option<Sha> {
    if t.sight.Blind? then None
    else
      var picked := Selected(ViewOf(c, s, t), t.sight.git);
      if picked.None? then None
      else if t.retry.Some? &&
              (picked.value.candidate != t.retry || t.retry.value !in Shas(s.attempts) || s.last == t.retry) then None
      else picked.value.candidate
  }

  /** The state a retry attempts from. */
  function Readied(s: State, t: Tick): State {
    if t.retry.None? then s
    else
      var cleared := match t.fate
        case StopsRecording(done) => done
        case Deploys(done, _) => done
        case _ => false;
      s.(attempts := if t.fate.StopsForgetting? then s.attempts else WithoutSha(s.attempts, t.retry.value),
         transient := if cleared then None else s.transient)
  }

  /** The poll examines the record. */
  predicate Looks(t: Tick) { t.acquired && !t.fate.StopsPruning? && (t.retry.None? || IsSha(t.retry.value)) }

  function Pruned(s: State, t: Tick): State { if Looks(t) then s.(attempts := Prune(s.attempts, t.now)) else s }

  /** What the poll attempts, a deployment having begun. */
  function Attempted(c: Config, s: State, t: Tick): Option<Sha> {
    if Looks(t) && t.fate.Deploys? then Eligible(c, Pruned(s, t), t) else None
  }

  /** The state after the poll. */
  function Polled(c: Config, s: State, t: Tick): State {
    var pruned := Pruned(s, t);
    if !Looks(t) || Eligible(c, pruned, t).None? then pruned
    else
      var sha, ready := Eligible(c, pruned, t).value, Readied(pruned, t);
      if t.fate.Deploys? then Ended(ready.(attempts := Recorded(ready.attempts, sha, t.now)), sha, t.fate.outcome)
      else ready
  }

  /* ----- the same, step by step ----- */

  /** The poller's state directory. */
  class Poller {
    const config: Config
    var attempts: seq<Attempt>
    var transient: Option<Forgiven>
    var last: Option<Sha>

    ghost function Contents(): State
      reads this
    {
      State(attempts, transient, last)
    }

    constructor (c: Config, s: State)
      ensures config == c && Contents() == s
    {
      config, attempts, transient, last := c, s.attempts, s.transient, s.last;
    }

    method PruneAttempts(now: int)
      modifies this`attempts
      ensures attempts == Prune(old(attempts), now)
    {
      if attempts == [] { return; }
      var recent := if |attempts| <= RETENTION_COUNT then attempts else attempts[|attempts| - RETENTION_COUNT..];
      var kept: seq<Attempt> := [];
      for i := 0 to |recent|
        invariant attempts == old(attempts) && recent == Recent(attempts)
        invariant kept == FreshOnly(recent[..i], now)
      {
        assert recent[..i + 1][..i] == recent[..i];
        if recent[i].stamp.Some? && recent[i].stamp.value * SECOND >= now - RETENTION { kept := kept + [recent[i]]; }
      }
      assert recent[..|recent|] == recent;
      attempts := kept;
    }

    method ForgetAttempt(sha: Sha)
      modifies this`attempts
      ensures attempts == WithoutSha(old(attempts), sha)
      ensures forall a :: a in attempts <==> a in old(attempts) && a.sha != sha
      ensures Shas(attempts) == Shas(old(attempts)) - {sha}
    {
      WithoutIs(attempts, sha);
      attempts := WithoutSha(attempts, sha);
    }

    method RecordAttempt(sha: Sha, now: int)
      modifies this`attempts
      ensures attempts == Recorded(old(attempts), sha, now)
      ensures 0 < |attempts| <= RETENTION_COUNT && attempts[|attempts| - 1] == Attempt(sha, Some(now / SECOND))
      ensures forall a :: a in attempts ==>
                a == Attempt(sha, Some(now / SECOND)) || (a in old(attempts) && a.sha != sha)
    {
      RecordKept(attempts, sha, now);
      attempts := WithoutSha(attempts, sha) + [Attempt(sha, Some(now / SECOND))];
      PruneAttempts(now);
    }

    /** Whether the next tick may try again, counting that it did; no when the counter cannot be written. */
    method MayRetry(sha: Sha, lands: bool) returns (again: bool)
      modifies this`transient
      ensures var n := CountFor(old(Contents()), sha) + 1;
              && again == (lands && n <= FORGIVENESS_LIMIT)
              && transient == if n > FORGIVENESS_LIMIT then None
                                else if lands then Some(Forgiven(sha, n)) else old(transient)
    {
      var count := if transient.Some? && transient.value.sha == sha then transient.value.count + 1 else 1;
      if count > FORGIVENESS_LIMIT {
        transient := None;
        return false;
      }
      if !lands { return false; }
      transient := Some(Forgiven(sha, count));
      again := true;
    }

    /** `_deploy_once` and what `_attempt` does after it. */
    method Deploy(sha: Sha, o: Outcome)
      modifies this
      ensures Contents() == Ended(old(Contents()), sha, o)
    {
      if o.Succeeds? {
        if o.recorded { last := Some(sha); }
      } else if o.CounterLost? || o.CrashesForgetting? || o.Transient? {
        var again := MayRetry(sha, !o.CounterLost?);
        if again && o.Transient? { ForgetAttempt(sha); }
      }
    }

    method EligibleRevision(t: Tick) returns (r: Option<Sha>)
      ensures r == Eligible(config, Contents(), t)
    {
      if t.sight.Blind? { return None; }
      var attempted := set a | a in attempts :: a.sha;
      var selection := SelectRevision(View(config, t.sight.head, t.sight.runs, attempted, last, t.retry), t.sight.git);
      if selection.None? { return None; }
      if t.retry.Some? {
        if selection.value.candidate != t.retry || t.retry.value !in attempted || last == t.retry { return None; }
      }
      r := selection.value.candidate;
    }

    /** `poll`: at most one revision is attempted; None when nothing was. */
    method Poll(t: Tick) returns (did: Option<Sha>)
      modifies this
      ensures Contents() == Polled(config, old(Contents()), t)
      ensures did == Attempted(config, old(Contents()), t)
    {
      if t.retry.Some? && !IsSha(t.retry.value) { return None; }
      if !t.acquired || t.fate.StopsPruning? { return None; }
      PruneAttempts(t.now);
      var candidate := EligibleRevision(t);
      if candidate.None? { return None; }
      if t.retry.Some? {
        if t.fate.StopsForgetting? { return None; }
        ForgetAttempt(t.retry.value);
        if (t.fate.StopsRecording? || t.fate.Deploys?) && t.fate.cleared { transient := None; }
      }
      if !t.fate.Deploys? { return None; }
      RecordAttempt(candidate.value, t.now);
      Deploy(candidate.value, t.fate.outcome);
      did := candidate;
    }
  }
}
