/** Refresh runs end: every step uses up one of finitely many, and one that cannot go on is finished. */
module RefreshRuns {
  import opened ListRefresh
  import opened CartRefresh

  /** Steps a batch has before it. */
  function StepsLeft(stage: Stage): nat {
    match stage
    case Fetching => 4
    case Updating => 3
    case Processing => 2
    case Reading => 1
    case Ended => 0
  }

  function StagesLeft(stages: seq<Stage>): nat {
    if stages == [] then 0 else StagesLeft(stages[..|stages| - 1]) + StepsLeft(stages[|stages| - 1])
  }

  /** Steps a target has before it: its store's lookup, then those of its batches. */
  function ProgressLeft(target: Target, progress: Progress): nat {
    match progress
    case Looking => 1 + 4 * BatchCount(target)
    case StoreFailed => 0
    case Running(stages) => StagesLeft(stages)
  }

  function TargetsLeft(targets: seq<Target>, progress: seq<Progress>): nat
    requires |targets| == |progress|
  {
    if targets == [] then 0
    else TargetsLeft(targets[..|targets| - 1], progress[..|targets| - 1])
         + ProgressLeft(targets[|targets| - 1], progress[|targets| - 1])
  }

  /** A lookup for every target, and four steps for each of its batches of 250. */
  function StepsOf(targets: seq<Target>): nat {
    if targets == [] then 0
    else StepsOf(targets[..|targets| - 1]) + 1 + 4 * ((|targets[|targets| - 1].products| + 249) / 250)
  }

  lemma {:induction false} StagesLeftReplace(stages: seq<Stage>, b: nat, stage: Stage)
    requires b < |stages|
    ensures StagesLeft(stages[b := stage]) == StagesLeft(stages) - StepsLeft(stages[b]) + StepsLeft(stage)
  {
    var n := |stages| - 1;
    if b == n {
      assert stages[b := stage][..n] == stages[..n];
    } else {
      assert stages[b := stage][..n] == stages[..n][b := stage];
      StagesLeftReplace(stages[..n], b, stage);
    }
  }

  lemma {:induction false} FreshStagesLeft(stages: seq<Stage>)
    requires forall b :: 0 <= b < |stages| ==> stages[b] == Fetching
    ensures StagesLeft(stages) == 4 * |stages|
  {
    if stages != [] {
      FreshStagesLeft(stages[..|stages| - 1]);
    }
  }

  lemma {:induction false} TargetsLeftReplace(targets: seq<Target>, progress: seq<Progress>, t: nat, p: Progress)
    requires |targets| == |progress| && t < |targets|
    ensures TargetsLeft(targets, progress[t := p])
            == TargetsLeft(targets, progress) - ProgressLeft(targets[t], progress[t]) + ProgressLeft(targets[t], p)
  {
    var n := |targets| - 1;
    if t == n {
      assert progress[t := p][..n] == progress[..n];
    } else {
      assert progress[t := p][..n] == progress[..n][t := p];
      TargetsLeftReplace(targets[..n], progress[..n], t, p);
    }
  }

  /** Every step leaves fewer. */
  lemma StepDescends(job: Job, answers: seq<Answers>, s: State, e: Event)
    requires Answered(job, answers) && Shape(job, s) && Enabled(job, s, e)
    ensures TargetsLeft(job.targets, Next(job, answers, s, e).targets) < TargetsLeft(job.targets, s.targets)
  {
    match e {
      case Lookup(t) =>
        var stages := seq(BatchCount(job.targets[t]), b => Fetching);
        FreshStagesLeft(stages);
        TargetsLeftReplace(job.targets, s.targets, t, if answers[t].lookupError.Some? then StoreFailed else Running(stages));
      case Advance(t, b) =>
        var stages := s.targets[t].stages;
        var stage := After(stages[b], answers[t].replies[b]);
        StagesLeftReplace(stages, b, stage);
        TargetsLeftReplace(job.targets, s.targets, t, Running(stages[b := stage]));
    }
  }

  lemma {:induction false} StartLeaves(targets: seq<Target>)
    ensures TargetsLeft(targets, seq(|targets|, t => Looking)) == StepsOf(targets)
  {
    if targets != [] {
      var n := |targets| - 1;
      StartLeaves(targets[..n]);
      assert seq(|targets|, t => Looking)[..n] == seq(n, t => Looking);
    }
  }

  lemma {:induction false} RunDescends(job: Job, answers: seq<Answers>, states: seq<State>, events: seq<Event>, k: nat)
    requires Answered(job, answers) && IsRun(job, answers, states, events) && k <= |events|
    ensures Shape(job, states[k]) && k + TargetsLeft(job.targets, states[k].targets) <= StepsOf(job.targets)
  {
    if k == 0 {
      StartLeaves(job.targets);
    } else {
      RunDescends(job, answers, states, events, k - 1);
      StepDescends(job, answers, states[k - 1], events[k - 1]);
    }
  }

  /** A run takes at most one step for each target and four for each of its batches, whatever is answered. */
  lemma RunsAreBounded(job: Job, answers: seq<Answers>, states: seq<State>, events: seq<Event>)
    requires Answered(job, answers) && IsRun(job, answers, states, events)
    ensures |events| <= StepsOf(job.targets)
  {
    RunDescends(job, answers, states, events, |events|);
  }

  /** A run can go on exactly until it is finished. */
  lemma StuckMeansFinished(job: Job, s: State)
    requires Shape(job, s)
    ensures Finished(s) <==> forall e :: !Enabled(job, s, e)
  {
    if !Finished(s) {
      var t :| 0 <= t < |s.targets|
               && (s.targets[t].Looking? || (s.targets[t].Running? && exists b :: 0 <= b < |s.targets[t].stages| && !s.targets[t].stages[b].Ended?));
      if s.targets[t].Looking? {
        assert Enabled(job, s, Lookup(t));
      } else {
        var b :| 0 <= b < |s.targets[t].stages| && !s.targets[t].stages[b].Ended?;
        assert Enabled(job, s, Advance(t, b));
      }
    }
  }
}
