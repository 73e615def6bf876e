/** Which revision one poll of the deployer may attempt: CI verdicts, the walk back from the
    head of main, and git's word on what is newer. */
module PollerSelection {
  import opened Options

  type Sha = string

  predicate IsSha(s: string) { |s| == 40 && forall ch :: ch in s ==> '0' <= ch <= '9' || 'a' <= ch <= 'f' }

  /** A workflow run as listed, newest first. A field that is not a string is None. */
  datatype Run = Run(sha: Option<string>, status: string, event: string, branch: string, name: string,
                     conclusion: Option<string>, url: string)

  datatype Config = Config(branch: string, workflow: string)

  /** A completed push run of the gating workflow on the deployed branch. */
  predicate Gates(c: Config, r: Run) {
    r.status == "completed" && r.event == "push" && r.branch == c.branch && r.name == c.workflow
  }

  predicate GatesFor(c: Config, sha: Sha, r: Run) { r.sha == Some(sha) && Gates(c, r) }

  function Conclusion(r: Run): string {
    if r.conclusion.Some? && r.conclusion.value != "" then r.conclusion.value else "unknown"
  }

  /** A run that ended this way says nothing about its revision. */
  predicate Unjudged(r: Run) { Conclusion(r) in {"cancelled", "skipped", "stale", "neutral", "action_required"} }

  predicate Successful(r: Run) { r.conclusion == Some("success") }

  function GatingRuns(c: Config, sha: Sha, runs: seq<Run>): seq<Run> {
    if runs == [] then [] else (if GatesFor(c, sha, runs[0]) then [runs[0]] else []) + GatingRuns(c, sha, runs[1..])
  }

  function SuccessfulRuns(runs: seq<Run>): seq<Run> {
    if runs == [] then [] else (if Successful(runs[0]) then [runs[0]] else []) + SuccessfulRuns(runs[1..])
  }

  function JudgedRuns(runs: seq<Run>): seq<Run> {
    if runs == [] then [] else (if Unjudged(runs[0]) then [] else [runs[0]]) + JudgedRuns(runs[1..])
  }

  datatype Kind = Green | Pending | Superseded | Failed | Ambiguous

  /** The verdict and the run it is read from. */
  datatype Verdict = Verdict(kind: Kind, run: Option<Run>)

  /** `ci_verdict`. */
  function CiVerdict(c: Config, sha: Sha, runs: seq<Run>): Verdict {
    var gating := GatingRuns(c, sha, runs);
    var successful := SuccessfulRuns(gating);
    var judged := JudgedRuns(gating);
    if |successful| == 1 then Verdict(Green, Some(successful[0]))
    else if |successful| > 1 then Verdict(Ambiguous, Some(successful[0]))
    else if judged != [] then Verdict(Failed, Some(judged[0]))
    else if gating != [] then Verdict(Superseded, Some(gating[0]))
    else Verdict(Pending, None)
  }

  /* ----- what a verdict means ----- */

  predicate Passed(c: Config, sha: Sha, r: Run) { GatesFor(c, sha, r) && Successful(r) }

  predicate Judged(c: Config, sha: Sha, r: Run) { GatesFor(c, sha, r) && !Unjudged(r) }

  predicate NoneGates(c: Config, sha: Sha, runs: seq<Run>) { forall r :: r in runs ==> !GatesFor(c, sha, r) }
  predicate NonePassed(c: Config, sha: Sha, runs: seq<Run>) { forall r :: r in runs ==> !Passed(c, sha, r) }
  predicate NoneJudged(c: Config, sha: Sha, runs: seq<Run>) { forall r :: r in runs ==> !Judged(c, sha, r) }

  /** This run passed the revision and no other did. */
  ghost predicate PassedAt(c: Config, sha: Sha, runs: seq<Run>, i: int) {
    0 <= i < |runs| && Passed(c, sha, runs[i]) && NonePassed(c, sha, runs[..i]) && NonePassed(c, sha, runs[i + 1..])
  }

  /** Exactly one listed run passed the revision. */
  ghost predicate PassedOnce(c: Config, sha: Sha, runs: seq<Run>) {
    exists i :: PassedAt(c, sha, runs, i)
  }

  /** The newest run that judged the revision. */
  ghost predicate NewestJudged(c: Config, sha: Sha, runs: seq<Run>, r: Run) {
    Judged(c, sha, r) && exists i :: 0 <= i < |runs| && runs[i] == r && NoneJudged(c, sha, runs[..i])
  }

  lemma {:induction false} GatingIs(c: Config, sha: Sha, runs: seq<Run>)
    ensures GatingRuns(c, sha, runs) == [] <==> NoneGates(c, sha, runs)
  {
    if runs != [] {
      GatingIs(c, sha, runs[1..]);
      assert forall r :: r in runs <==> r == runs[0] || r in runs[1..];
    }
  }

  lemma FoundStep(c: Config, sha: Sha, runs: seq<Run>)
    requires runs != []
    ensures SuccessfulRuns(GatingRuns(c, sha, runs)) ==
              (if Passed(c, sha, runs[0]) then [runs[0]] else []) + SuccessfulRuns(GatingRuns(c, sha, runs[1..]))
    ensures JudgedRuns(GatingRuns(c, sha, runs)) ==
              (if Judged(c, sha, runs[0]) then [runs[0]] else []) + JudgedRuns(GatingRuns(c, sha, runs[1..]))
  {
    var rest := GatingRuns(c, sha, runs[1..]);
    if GatesFor(c, sha, runs[0]) {
      assert ([runs[0]] + rest)[1..] == rest;
    } else {
      assert [] + rest == rest;
    }
  }

  lemma NoneStep(c: Config, sha: Sha, runs: seq<Run>)
    requires runs != []
    ensures NonePassed(c, sha, runs) <==> !Passed(c, sha, runs[0]) && NonePassed(c, sha, runs[1..])
    ensures NoneJudged(c, sha, runs) <==> !Judged(c, sha, runs[0]) && NoneJudged(c, sha, runs[1..])
  {
    assert forall r :: r in runs <==> r == runs[0] || r in runs[1..];
  }

  lemma {:induction false} SuccessesAre(c: Config, sha: Sha, runs: seq<Run>)
    ensures SuccessfulRuns(GatingRuns(c, sha, runs)) == [] <==> NonePassed(c, sha, runs)
    ensures |SuccessfulRuns(GatingRuns(c, sha, runs))| == 1 <==> PassedOnce(c, sha, runs)
  {
    if runs != [] {
      SuccessesAre(c, sha, runs[1..]);
      FoundStep(c, sha, runs);
      NoneStep(c, sha, runs);
      OnceStep(c, sha, runs);
    }
  }

  lemma FirstInFront(c: Config, sha: Sha, runs: seq<Run>, i: int)
    requires 0 < i <= |runs| && Passed(c, sha, runs[0])
    ensures !NonePassed(c, sha, runs[..i])
  {
    assert runs[..i][0] == runs[0];
  }

  lemma PassedLater(c: Config, sha: Sha, runs: seq<Run>, i: int)
    requires 0 < i < |runs| && !Passed(c, sha, runs[0])
    ensures PassedAt(c, sha, runs, i) <==> PassedAt(c, sha, runs[1..], i - 1)
  {
    var rest := runs[1..];
    assert runs[..i] == [runs[0]] + rest[..i - 1] && runs[i + 1..] == rest[i..] && runs[i] == rest[i - 1];
    NoneStep(c, sha, runs[..i]);
    assert runs[..i][1..] == rest[..i - 1];
  }

  lemma OnceStep(c: Config, sha: Sha, runs: seq<Run>)
    requires runs != []
    ensures PassedOnce(c, sha, runs) <==>
              (if Passed(c, sha, runs[0]) then NonePassed(c, sha, runs[1..]) else PassedOnce(c, sha, runs[1..]))
  {
    if Passed(c, sha, runs[0]) {
      forall i | 0 < i < |runs| ensures !PassedAt(c, sha, runs, i) { FirstInFront(c, sha, runs, i); }
      assert runs[..0] == [];
      assert PassedAt(c, sha, runs, 0) <==> NonePassed(c, sha, runs[1..]);
    } else {
      if i :| PassedAt(c, sha, runs, i) { PassedLater(c, sha, runs, i); }
      if i :| PassedAt(c, sha, runs[1..], i) { PassedLater(c, sha, runs, i + 1); }
    }
  }

  lemma NewestStep(c: Config, sha: Sha, runs: seq<Run>, r: Run)
    requires runs != []
    ensures Judged(c, sha, runs[0]) ==> NewestJudged(c, sha, runs, runs[0])
    ensures !Judged(c, sha, runs[0]) && NewestJudged(c, sha, runs[1..], r) ==> NewestJudged(c, sha, runs, r)
  {
    assert runs[..0] == [];
    if !Judged(c, sha, runs[0]) && NewestJudged(c, sha, runs[1..], r) {
      var i :| 0 <= i < |runs| - 1 && runs[1..][i] == r && NoneJudged(c, sha, runs[1..][..i]);
      assert runs[..i + 1] == [runs[0]] + runs[1..][..i] && runs[i + 1] == r;
    }
  }

  lemma {:induction false} JudgementsAre(c: Config, sha: Sha, runs: seq<Run>)
    ensures var found := JudgedRuns(GatingRuns(c, sha, runs));
            && (found == [] <==> NoneJudged(c, sha, runs))
            && (found != [] ==> NewestJudged(c, sha, runs, found[0]))
  {
    if runs != [] {
      JudgementsAre(c, sha, runs[1..]);
      FoundStep(c, sha, runs);
      NoneStep(c, sha, runs);
      var below := JudgedRuns(GatingRuns(c, sha, runs[1..]));
      NewestStep(c, sha, runs, if below == [] then runs[0] else below[0]);
    }
  }

  /** Green is exactly one pass. Without any, the newest judgement refuses; gating runs none of
      which judged mean superseded, and no gating run means pending. */
  lemma VerdictMeans(c: Config, sha: Sha, runs: seq<Run>)
    ensures var v := CiVerdict(c, sha, runs);
            && (v.kind.Green? <==> PassedOnce(c, sha, runs))
            && (v.kind.Ambiguous? <==> !PassedOnce(c, sha, runs) && !NonePassed(c, sha, runs))
            && (v.kind.Failed? <==> NonePassed(c, sha, runs) && !NoneJudged(c, sha, runs))
            && (v.kind.Superseded? <==> NoneJudged(c, sha, runs) && !NoneGates(c, sha, runs))
            && (v.kind.Pending? <==> NoneGates(c, sha, runs))
            && (v.kind.Failed? ==> v.run.Some? && NewestJudged(c, sha, runs, v.run.value))
  {
    GatingIs(c, sha, runs);
    SuccessesAre(c, sha, runs);
    JudgementsAre(c, sha, runs);
  }

  /* ----- the walk ----- */

  predicate Walkable(c: Config, r: Run) { r.sha.Some? && IsSha(r.sha.value) && Gates(c, r) }

  function Candidates(c: Config, head: Sha, runs: seq<Run>): seq<Sha> {
    if runs == [] then [head]
    else
      var front, last := Candidates(c, head, runs[..|runs| - 1]), runs[|runs| - 1];
      if Walkable(c, last) && last.sha.value !in front then front + [last.sha.value] else front
  }

  /** `candidate_revisions`. */
  method CandidateRevisions(c: Config, head: Sha, runs: seq<Run>) returns (ordered: seq<Sha>)
    ensures ordered == Candidates(c, head, runs)
  {
    ordered := [head];
    for i := 0 to |runs|
      invariant ordered == Candidates(c, head, runs[..i])
    {
      assert runs[..i + 1][..i] == runs[..i];
      var r := runs[i];
      if r.sha.Some? && IsSha(r.sha.value) && r.sha.value !in ordered && Gates(c, r) {
        ordered := ordered + [r.sha.value];
      }
    }
    assert runs[..|runs|] == runs;
  }

  /** Position of the first run that puts a revision into the walk. */
  ghost predicate EntersAt(c: Config, runs: seq<Run>, sha: Sha, i: int) {
    && 0 <= i < |runs| && Walkable(c, runs[i]) && runs[i].sha.value == sha
    && forall j :: 0 <= j < i && Walkable(c, runs[j]) ==> runs[j].sha.value != sha
  }

  ghost predicate Enters(c: Config, runs: seq<Run>, sha: Sha) { exists i :: EntersAt(c, runs, sha, i) }

  lemma EntersKept(c: Config, runs: seq<Run>, s: Sha, i: int)
    requires runs != [] && i < |runs| - 1
    ensures EntersAt(c, runs, s, i) <==> EntersAt(c, runs[..|runs| - 1], s, i)
  {
    var front := runs[..|runs| - 1];
    assert forall j :: 0 <= j < |front| ==> front[j] == runs[j];
  }

  lemma {:induction false} FirstEntry(c: Config, runs: seq<Run>, k: nat) returns (i: nat)
    requires k < |runs| && Walkable(c, runs[k])
    ensures i <= k && EntersAt(c, runs, runs[k].sha.value, i)
  {
    i := 0;
    while !(Walkable(c, runs[i]) && runs[i].sha.value == runs[k].sha.value)
      invariant i <= k
      invariant forall j :: 0 <= j < i && Walkable(c, runs[j]) ==> runs[j].sha.value != runs[k].sha.value
      decreases k - i
    {
      i := i + 1;
    }
  }

  /** A revision enters within all the runs where it entered within all but the last, or at the last. */
  lemma EntersStep(c: Config, runs: seq<Run>, s: Sha)
    requires runs != []
    ensures var front, last := runs[..|runs| - 1], runs[|runs| - 1];
            && (Enters(c, runs, s) <==> Enters(c, front, s) || (Walkable(c, last) && last.sha.value == s))
            && (Enters(c, front, s) ==> !EntersAt(c, runs, s, |runs| - 1))
  {
    var front, last := runs[..|runs| - 1], runs[|runs| - 1];
    if i :| EntersAt(c, front, s, i) { EntersKept(c, runs, s, i); }
    if i :| EntersAt(c, runs, s, i) { if i < |front| { EntersKept(c, runs, s, i); } }
    if Walkable(c, last) && last.sha.value == s { var i := FirstEntry(c, runs, |runs| - 1); }
  }

  /** The walk: the head, then every other revision with a completed gating run, once each. */
  lemma {:induction false} CandidatesAre(c: Config, head: Sha, runs: seq<Run>)
    ensures var w := Candidates(c, head, runs);
            && |w| >= 1 && w[0] == head
            && (forall i, j :: 0 <= i < j < |w| ==> w[i] != w[j])
            && (forall s :: s in w <==> s == head || Enters(c, runs, s))
  {
    if runs != [] {
      CandidatesAre(c, head, runs[..|runs| - 1]);
      forall s ensures s in Candidates(c, head, runs) <==> s == head || Enters(c, runs, s) { EntersStep(c, runs, s); }
    }
  }

  /** Past the head, revisions stand in the order of their newest runs. */
  lemma {:induction false} NewestRunsFirst(c: Config, head: Sha, runs: seq<Run>, i: nat, j: nat, a: int, b: int)
    requires var w := Candidates(c, head, runs);
             1 <= i < j < |w| && EntersAt(c, runs, w[i], a) && EntersAt(c, runs, w[j], b)
    ensures a < b
  {
    var w, front := Candidates(c, head, runs), Candidates(c, head, runs[..|runs| - 1]);
    CandidatesAre(c, head, runs[..|runs| - 1]);
    assert w[i] == front[i] && w[i] in front;
    EntersStep(c, runs, w[i]);
    if j < |front| {
      assert w[j] in front;
      EntersStep(c, runs, w[j]);
      EntersKept(c, runs, w[i], a);
      EntersKept(c, runs, w[j], b);
      NewestRunsFirst(c, head, runs[..|runs| - 1], i, j, a, b);
    } else {
      EntersStep(c, runs, w[j]);
      if b < |runs| - 1 { EntersKept(c, runs, w[j], b); }
    }
  }

  /* ----- git's word ----- */

  /** What asking git "does the first precede the second" gives. */
  datatype Answer = Yes | No | Broken

  /** What git says to each question: the ancestries it knows, and the questions it breaks on. */
  datatype Git = Git(known: set<(Sha, Sha)>, broken: set<(Sha, Sha)>)

  /** `_is_ancestor`: any other answer than yes is no. */
  function Ask(git: Git, a: Sha, b: Sha): Answer {
    if (a, b) in git.broken then Broken else if (a, b) in git.known then Yes else No
  }

  function And(a: Answer, b: Answer): Answer { if a == Yes then b else a }

  /** `_newer_than_deployed`, asking in the same order. */
  function Newer(git: Git, sha: Sha, head: Sha, deployed: Sha): Answer {
    if sha == deployed then No else And(Ask(git, deployed, sha), if sha == head then Yes else Ask(git, sha, head))
  }

  function NewerThanLast(git: Git, sha: Sha, head: Sha, last: Option<Sha>): Answer {
    if last.Some? then Newer(git, sha, head, last.value) else Yes
  }

  /* ----- the selection ----- */

  datatype Selection = Selection(candidate: Option<Sha>, judged: Option<Sha>, verdict: Option<Verdict>,
                                 attempted: Option<Sha>)

  const NOTHING := Selection(None, None, None, None)

  /** What the walk reads and never changes. */
  datatype View = View(c: Config, head: Sha, runs: seq<Run>, attempted: set<Sha>, last: Option<Sha>, retry: Option<Sha>)

  /** The record stops this revision. */
  predicate Stopped(v: View, sha: Sha) { sha in v.attempted && Some(sha) != v.retry }

  predicate SteppedOver(v: View, sha: Sha) { CiVerdict(v.c, sha, v.runs).kind in {Pending, Superseded} }

  /** The rest of the walk, `unjudged` being the newest revision stepped over so far; None when git is broken. */
  function Walk(v: View, git: Git, shas: seq<Sha>, unjudged: Option<Selection>): Option<Selection> {
    if shas == [] then Some(unjudged.GetOr(NOTHING))
    else
      var sha := shas[0];
      var verdict := CiVerdict(v.c, sha, v.runs);
      if Stopped(v, sha) then Some(NOTHING.(attempted := Some(sha)))
      else if NewerThanLast(git, sha, v.head, v.last) == Broken then None
      else if NewerThanLast(git, sha, v.head, v.last) == No then Some(unjudged.GetOr(NOTHING))
      else if verdict.kind == Green then Some(Selection(Some(sha), Some(sha), Some(verdict), None))
      else if !SteppedOver(v, sha) then Some(Selection(None, Some(sha), Some(verdict), None))
      else
        Walk(v, git, shas[1..],
             if unjudged.Some? then unjudged else Some(Selection(None, Some(sha), Some(verdict), None)))
  }

  function Selected(v: View, git: Git): Option<Selection> { Walk(v, git, Candidates(v.c, v.head, v.runs), None) }

  /** `select_revision`: the loop over the walk. */
  method SelectRevision(v: View, git: Git) returns (r: Option<Selection>)
    ensures r == Selected(v, git)
  {
    var walk := CandidateRevisions(v.c, v.head, v.runs);
    var unjudged: Option<Selection> := None;
    for i := 0 to |walk|
      invariant Selected(v, git) == Walk(v, git, walk[i..], unjudged)
    {
      var sha := walk[i];
      assert walk[i..][0] == sha && walk[i..][1..] == walk[i + 1..];
      if sha in v.attempted && Some(sha) != v.retry { return Some(NOTHING.(attempted := Some(sha))); }
      if v.last.Some? {
        var newer := Newer(git, sha, v.head, v.last.value);
        if newer == Broken { return None; }
        if newer == No { return Some(unjudged.GetOr(NOTHING)); }
      }
      var verdict := CiVerdict(v.c, sha, v.runs);
      if verdict.kind == Green { return Some(Selection(Some(sha), Some(sha), Some(verdict), None)); }
      if verdict.kind != Pending && verdict.kind != Superseded {
        return Some(Selection(None, Some(sha), Some(verdict), None));
      }
      if unjudged.None? { unjudged := Some(Selection(None, Some(sha), Some(verdict), None)); }
    }
    r := Some(unjudged.GetOr(NOTHING));
  }

  /** Newer means that git knows the last success below the revision, another one, and the revision below
      the head unless it is the head. */
  lemma NewerExactly(git: Git, sha: Sha, head: Sha, deployed: Sha)
    ensures Newer(git, sha, head, deployed) == Yes <==>
              && sha != deployed && (deployed, sha) in git.known && (deployed, sha) !in git.broken
              && (sha == head || ((sha, head) in git.known && (sha, head) !in git.broken))
  {
  }

  /** Which runs gate a revision: those completed pushes of the workflow on the branch, in listing order. */
  lemma {:induction false} GatingRunsAre(c: Config, sha: Sha, runs: seq<Run>, r: Run)
    ensures r in GatingRuns(c, sha, runs) <==>
              && r in runs && r.sha == Some(sha) && r.status == "completed"
              && r.event == "push" && r.branch == c.branch && r.name == c.workflow
  {
    if runs != [] {
      GatingRunsAre(c, sha, runs[1..], r);
      assert runs == [runs[0]] + runs[1..];
    }
  }

  /** What is said of the newest revision that was stepped over, if any was. */
  function SteppedFirst(v: View, walk: seq<Sha>, k: nat): Selection {
    if k == 0 || walk == [] then NOTHING else Selection(None, Some(walk[0]), Some(CiVerdict(v.c, walk[0], v.runs)),
                                                        None)
  }

  /** The outcome of the walk at the revision it stops at. */
  function StopsAt(v: View, git: Git, sha: Sha, stepped: Selection): Option<Selection> {
    var verdict := CiVerdict(v.c, sha, v.runs);
    if sha in v.attempted && Some(sha) != v.retry then Some(Selection(None, None, None, Some(sha)))
    else if v.last.Some? && Newer(git, sha, v.head, v.last.value) == Broken then None
    else if v.last.Some? && Newer(git, sha, v.head, v.last.value) == No then Some(stepped)
    else Some(Selection(if verdict.kind == Green then Some(sha) else None, Some(sha), Some(verdict), None))
  }

  lemma WalkHere(v: View, git: Git, shas: seq<Sha>, unjudged: Option<Selection>)
    requires shas != [] && !Passes(v, git, shas[0])
    ensures Walk(v, git, shas, unjudged) == StopsAt(v, git, shas[0], unjudged.GetOr(NOTHING))
  {
  }

  lemma WalkOn(v: View, git: Git, shas: seq<Sha>, unjudged: Option<Selection>)
    requires shas != [] && Passes(v, git, shas[0])
    ensures Walk(v, git, shas, unjudged) ==
              Walk(v, git, shas[1..], Some(unjudged.GetOr(SteppedFirst(v, shas, 1))))
  {
  }

  /** The walk goes past the first k of these and no further. */
  ghost predicate GoesPast(v: View, git: Git, shas: seq<Sha>, k: nat) {
    && k <= |shas| && (forall j :: 0 <= j < k ==> Passes(v, git, shas[j]))
    && (k < |shas| ==> !Passes(v, git, shas[k]))
  }

  /** The outcome once it has gone past them. */
  function EndsAt(v: View, git: Git, shas: seq<Sha>, k: nat, stepped: Selection): Option<Selection>
    requires k <= |shas|
  {
    if k == |shas| then Some(stepped) else StopsAt(v, git, shas[k], stepped)
  }

  lemma OneFurther(v: View, git: Git, sha: Sha, rest: seq<Sha>, k: nat, stepped: Selection)
    requires Passes(v, git, sha) && GoesPast(v, git, rest, k)
    ensures GoesPast(v, git, [sha] + rest, k + 1)
    ensures EndsAt(v, git, [sha] + rest, k + 1, stepped) == EndsAt(v, git, rest, k, stepped)
  {
  }

  lemma {:induction false} WalkStops(v: View, git: Git, shas: seq<Sha>, unjudged: Option<Selection>) returns (k: nat)
    ensures GoesPast(v, git, shas, k)
    ensures Walk(v, git, shas, unjudged) == EndsAt(v, git, shas, k, unjudged.GetOr(SteppedFirst(v, shas, k)))
    decreases |shas|
  {
    if shas == [] {
      k := 0;
    } else if Passes(v, git, shas[0]) {
      WalkOn(v, git, shas, unjudged);
      var next := unjudged.GetOr(SteppedFirst(v, shas, 1));
      k := WalkStops(v, git, shas[1..], Some(next));
      OneFurther(v, git, shas[0], shas[1..], k, next);
      assert shas == [shas[0]] + shas[1..];
      k := k + 1;
    } else {
      WalkHere(v, git, shas, unjudged);
      k := 0;
    }
  }

  /** The whole outcome: the walk passes over what CI has not judged and git knows to be newer, and ends
      with the first other revision, or with what it stepped over first. */
  lemma SelectedExactly(v: View, git: Git) returns (k: nat)
    ensures var walk := Candidates(v.c, v.head, v.runs);
            GoesPast(v, git, walk, k) && Selected(v, git) == EndsAt(v, git, walk, k, SteppedFirst(v, walk, k))
  {
    k := WalkStops(v, git, Candidates(v.c, v.head, v.runs), None);
  }

  /** The walk goes past this revision. */
  predicate Passes(v: View, git: Git, sha: Sha) {
    !Stopped(v, sha) && NewerThanLast(git, sha, v.head, v.last) == Yes && SteppedOver(v, sha)
  }

  /** The walk stops here and releases the revision. */
  predicate Releases(v: View, git: Git, sha: Sha) {
    && !Stopped(v, sha) && NewerThanLast(git, sha, v.head, v.last) == Yes
    && CiVerdict(v.c, sha, v.runs).kind == Green
  }

  ghost predicate ReleasedAt(v: View, git: Git, walk: seq<Sha>, k: int) {
    0 <= k < |walk| && Releases(v, git, walk[k]) && forall j :: 0 <= j < k ==> Passes(v, git, walk[j])
  }

  /** The walk releases the revision somewhere. */
  ghost predicate ReleasesIn(v: View, git: Git, walk: seq<Sha>, sha: Sha) {
    exists k :: ReleasedAt(v, git, walk, k) && walk[k] == sha
  }

  lemma ReleasesStep(v: View, git: Git, walk: seq<Sha>, sha: Sha)
    requires walk != []
    ensures ReleasesIn(v, git, walk, sha) <==>
              (Releases(v, git, walk[0]) && walk[0] == sha) ||
                  (Passes(v, git, walk[0]) && ReleasesIn(v, git, walk[1..], sha))
  {
    var rest := walk[1..];
    assert forall j :: 0 < j < |walk| ==> walk[j] == rest[j - 1];
    if Releases(v, git, walk[0]) { assert ReleasedAt(v, git, walk, 0); }
    if k :| ReleasedAt(v, git, rest, k) && rest[k] == sha {
      if Passes(v, git, walk[0]) { assert ReleasedAt(v, git, walk, k + 1); }
    }
    if k :| ReleasedAt(v, git, walk, k) && walk[k] == sha {
      if k > 0 { assert ReleasedAt(v, git, rest, k - 1); }
    }
  }

  predicate Picks(r: Option<Selection>, sha: Sha) { r.Some? && r.value.candidate == Some(sha) }

  lemma {:induction false} WalkReleases(v: View, git: Git, walk: seq<Sha>, unjudged: Option<Selection>, sha: Sha)
    requires unjudged.Some? ==> unjudged.value.candidate.None?
    ensures Picks(Walk(v, git, walk, unjudged), sha) <==> ReleasesIn(v, git, walk, sha)
  {
    if walk != [] {
      ReleasesStep(v, git, walk, sha);
      if Passes(v, git, walk[0]) {
        var next := if unjudged.Some? then unjudged
                    else Some(Selection(None, Some(walk[0]), Some(CiVerdict(v.c, walk[0], v.runs)), None));
        WalkReleases(v, git, walk[1..], next, sha);
      }
    }
  }

  /** A revision is released exactly when it is the first of the walk that CI passed once, nothing
      before it was judged or recorded, and git puts each of them after the last success. */
  lemma CandidateExactly(v: View, git: Git, sha: Sha)
    ensures Picks(Selected(v, git), sha) <==> ReleasesIn(v, git, Candidates(v.c, v.head, v.runs), sha)
  {
    WalkReleases(v, git, Candidates(v.c, v.head, v.runs), None, sha);
  }

  /** A released revision is one CI passed once and git knows to be newer than the last success. */
  lemma ReleasedIsNewer(v: View, git: Git, walk: seq<Sha>, sha: Sha)
    requires ReleasesIn(v, git, walk, sha)
    ensures NewerThanLast(git, sha, v.head, v.last) == Yes && PassedOnce(v.c, sha, v.runs) && !Stopped(v, sha)
  {
    VerdictMeans(v.c, sha, v.runs);
  }
}
