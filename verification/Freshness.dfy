/**
 The outbox with its producers and its drain taken apart into steps: a published balance change
 owes an Enqueue, which counts the pending jobs and inserts one in two statements; the drain claims
 a batch and, customer by customer, reads the balance, shows it and completes the customer's jobs.
 An update may also report success and show nothing: a provider's error is only logged, and a queue
 without an updater or with its providers disabled completes the jobs as well.
 */
module Freshness {
  import opened Outbox
  import opened Wrappers

  datatype Producer = Counting(customerId: string) | Inserting(customerId: string)

  datatype Drain =
    | Idle
    | Working(todo: seq<Job>, seen: set<string>)
    | Fetched(job: Job, balance: int, todo: seq<Job>, seen: set<string>)
    | Updated(job: Job, todo: seq<Job>, seen: set<string>)

  datatype Box = Box(
    stored: map<string, int>,
    shown: map<string, int>,
    jobs: seq<Job>,
    producers: multiset<Producer>,
    drain: Drain
  )

  datatype Step =
    | Issue(customerId: string)
    | Change(customerId: string, points: int)
    | CountJobs(customerId: string)
    | InsertJob(customerId: string)
    | Claim
    | Take
    | UpdateFails(error: string)
    | Show
    | ShowNothing
    | Complete
    | CompleteBreaks
    | Finish

  predicate Enabled(b: Box, step: Step) {
    match step
    case Issue(c) => c !in b.stored && c !in b.shown
    case Change(c, _) => c in b.stored
    case CountJobs(c) => Counting(c) in b.producers
    case InsertJob(c) => Inserting(c) in b.producers
    case Claim => b.drain.Idle?
    case Take =>
      && b.drain.Working? && b.drain.todo != []
      && (b.drain.todo[0].customerId in b.drain.seen || b.drain.todo[0].customerId in b.stored)
    case UpdateFails(_) =>
      b.drain.Fetched? || (b.drain.Working? && b.drain.todo != [] && b.drain.todo[0].customerId !in b.drain.seen)
    case Show => b.drain.Fetched?
    case ShowNothing => b.drain.Fetched?
    case Complete => b.drain.Updated?
    case CompleteBreaks => b.drain.Updated?
    case Finish => b.drain.Working? && b.drain.todo == []
  }

  function Next(b: Box, step: Step): Box
    requires Enabled(b, step)
  {
    match step
    case Issue(c) => b.(stored := b.stored[c := 0], shown := b.shown[c := 0])
    case Change(c, points) => b.(stored := b.stored[c := points], producers := b.producers + multiset{Counting(c)})
    case CountJobs(c) =>
      var others := b.producers - multiset{Counting(c)};
      b.(producers := if HasPending(b.jobs, c) then others else others + multiset{Inserting(c)})
    case InsertJob(c) => b.(jobs := Inserted(b.jobs, c), producers := b.producers - multiset{Inserting(c)})
    case Claim => b.(drain := Working(FirstPending(b.jobs, BATCH), {}))
    case Take =>
      var j, rest := b.drain.todo[0], b.drain.todo[1..];
      b.(drain := if j.customerId in b.drain.seen then Working(rest, b.drain.seen)
                  else Fetched(j, b.stored[j.customerId], rest, b.drain.seen + {j.customerId}))
    case UpdateFails(error) =>
      if b.drain.Fetched? then
        b.(jobs := FailedJob(b.jobs, b.drain.job.id, error), drain := Working(b.drain.todo, b.drain.seen))
      else
        var j := b.drain.todo[0];
        b.(jobs := FailedJob(b.jobs, j.id, error), drain := Working(b.drain.todo[1..], b.drain.seen + {j.customerId}))
    case Show =>
      b.(shown := b.shown[b.drain.job.customerId := b.drain.balance],
         drain := Updated(b.drain.job, b.drain.todo, b.drain.seen))
    case ShowNothing => b.(drain := Updated(b.drain.job, b.drain.todo, b.drain.seen))
    case Complete =>
      b.(jobs := CompletedFor(b.jobs, b.drain.job.customerId), drain := Working(b.drain.todo, b.drain.seen))
    case CompleteBreaks => b.(drain := Working(b.drain.todo, b.drain.seen))
    case Finish => b.(drain := Idle)
  }

  function Exec(b: Box, steps: seq<Step>): Option<Box> {
    if steps == [] then Some(b)
    else
      var before := Exec(b, steps[..|steps| - 1]);
      var step := steps[|steps| - 1];
      if before.Some? && Enabled(before.value, step) then Some(Next(before.value, step)) else None
  }

  // ---- what is owed -------------------------------------------------------------------------------

  predicate Current(b: Box, c: string) {
    c in b.stored ==> c in b.shown && b.shown[c] == b.stored[c]
  }

  /** An Enqueue for this customer is still to run or has not inserted yet. */
  predicate InFlight(b: Box, c: string) {
    Counting(c) in b.producers || Inserting(c) in b.producers
  }

  predicate Owed(b: Box, c: string) {
    HasPending(b.jobs, c) || InFlight(b, c)
  }

  /** Every customer whose shown balance is not the stored one has a job pending or an Enqueue to run. */
  ghost predicate Fresh(b: Box) {
    forall c :: Current(b, c) || Owed(b, c)
  }

  ghost predicate FreshThroughout(b: Box, steps: seq<Step>) {
    && (steps == [] || FreshThroughout(b, steps[..|steps| - 1]))
    && (Exec(b, steps).Some? ==> Fresh(Exec(b, steps).value))
  }

  // ---- what happened since the drain last read a balance ------------------------------------------

  /** Its update reached the pass. */
  predicate Showed(steps: seq<Step>) {
    steps != [] &&
    var front, last := steps[..|steps| - 1], steps[|steps| - 1];
    last.Show? || (!last.Take? && Showed(front))
  }

  /** The balance set by the last change of this customer, if there was one. */
  function LastPoints(steps: seq<Step>, c: string): Option<int> {
    if steps == [] then None
    else
      var front, last := steps[..|steps| - 1], steps[|steps| - 1];
      if last.Take? then None
      else if last.Change? && last.customerId == c then Some(last.points)
      else LastPoints(front, c)
  }

  /**
   The completion about to run loses nothing: an Enqueue is in flight, or the update reached the pass
   and the last change since the read, if any, set the balance it shows; or the update showed nothing
   and the pass was right already.
   */
  predicate Settles(u: Box, steps: seq<Step>)
    requires u.drain.Updated?
  {
    var c := u.drain.job.customerId;
    || InFlight(u, c)
    || (Showed(steps) && (LastPoints(steps, c).Some? ==> c in u.shown && u.shown[c] == LastPoints(steps, c).value))
    || (!Showed(steps) && Current(u, c))
  }

  /** Every completion of the run settles. */
  ghost predicate Settling(b: Box, steps: seq<Step>) {
    steps == [] ||
    var front, last := steps[..|steps| - 1], steps[|steps| - 1];
    && Settling(b, front)
    && (last.Complete? && Exec(b, front).Some? && Exec(b, front).value.drain.Updated? ==>
          Settles(Exec(b, front).value, front))
  }

  // ---- what the drain knows -----------------------------------------------------------------------

  predicate InWindow(b: Box) {
    b.drain.Fetched? || b.drain.Updated?
  }

  /** The customer at work has a pending job, and so has every claimed customer still to come. */
  ghost predicate DrainHolds(u: Box) {
    && (InWindow(u) ==> u.drain.job.customerId in u.drain.seen && HasPending(u.jobs, u.drain.job.customerId))
    && (!u.drain.Idle? ==> forall j :: j in u.drain.todo ==>
          j.customerId in u.drain.seen || HasPending(u.jobs, j.customerId))
  }

  /** What the schedule says of the customer at work. */
  predicate WindowKnown(u: Box, steps: seq<Step>) {
    InWindow(u) ==>
      var c := u.drain.job.customerId;
      && c in u.stored
      && (u.drain.Fetched? ==> !Showed(steps) && u.stored[c] == LastPoints(steps, c).UnwrapOr(u.drain.balance))
      && (u.drain.Updated? && Showed(steps) ==>
            c in u.shown && u.stored[c] == LastPoints(steps, c).UnwrapOr(u.shown[c]))
  }

  lemma PendingSurvives(jobs: seq<Job>, u: seq<Job>, c: string)
    requires |jobs| <= |u|
    requires forall i :: 0 <= i < |jobs| ==>
               && u[i].customerId == jobs[i].customerId
               && (jobs[i].customerId == c ==> u[i].processed == jobs[i].processed)
    ensures HasPending(jobs, c) ==> HasPending(u, c)
  {
    if HasPending(jobs, c) {
      var i :| 0 <= i < |jobs| && jobs[i].customerId == c && !jobs[i].processed;
      assert u[i].customerId == c;
    }
  }

  lemma StepKeepsJobs(b: Box, step: Step, c: string)
    requires Enabled(b, step) && !(step.Complete? && b.drain.job.customerId == c)
    ensures HasPending(b.jobs, c) ==> HasPending(Next(b, step).jobs, c)
    ensures step == InsertJob(c) ==> HasPending(Next(b, step).jobs, c)
  {
    var u := Next(b, step);
    PendingSurvives(b.jobs, u.jobs, c);
    if step == InsertJob(c) {
      assert u.jobs[|b.jobs|].customerId == c && !u.jobs[|b.jobs|].processed;
    }
  }

  lemma ClaimHolds(b: Box)
    requires Enabled(b, Claim)
    ensures DrainHolds(Next(b, Claim))
  {
    ClaimedArePending(b.jobs, BATCH);
    var claimed := FirstPending(b.jobs, BATCH);
    forall j | j in claimed ensures HasPending(b.jobs, j.customerId) {
      assert j in b.jobs && !j.processed;
    }
  }

  lemma StepKeepsDrain(b: Box, step: Step)
    requires Enabled(b, step) && DrainHolds(b)
    ensures DrainHolds(Next(b, step))
  {
    var u := Next(b, step);
    if step.Claim? {
      ClaimHolds(b);
    } else if !b.drain.Idle? {
      if InWindow(u) {
        StepKeepsJobs(b, step, u.drain.job.customerId);
      }
      forall j | !u.drain.Idle? && j in u.drain.todo
        ensures j.customerId in u.drain.seen || HasPending(u.jobs, j.customerId)
      {
        assert j in b.drain.todo;
        if j.customerId !in b.drain.seen {
          StepKeepsJobs(b, step, j.customerId);
        }
      }
    }
  }

  lemma OneMoreStep(steps: seq<Step>, step: Step, c: string)
    ensures Showed(steps + [step]) <==> step.Show? || (!step.Take? && Showed(steps))
    ensures LastPoints(steps + [step], c) ==
              if step.Take? then None
              else if step.Change? && step.customerId == c then Some(step.points)
              else LastPoints(steps, c)
  {
    assert (steps + [step])[..|steps|] == steps;
  }

  lemma StepKeepsWindow(b: Box, steps: seq<Step>, step: Step)
    requires Enabled(b, step) && WindowKnown(b, steps)
    ensures WindowKnown(Next(b, step), steps + [step])
  {
    var u := Next(b, step);
    if InWindow(u) {
      OneMoreStep(steps, step, u.drain.job.customerId);
    }
  }

  lemma {:induction false} RunKnows(b: Box, steps: seq<Step>)
    requires b.drain.Idle? && Exec(b, steps).Some?
    ensures DrainHolds(Exec(b, steps).value) && WindowKnown(Exec(b, steps).value, steps)
  {
    if steps != [] {
      var front, last := steps[..|steps| - 1], steps[|steps| - 1];
      RunKnows(b, front);
      StepKeepsDrain(Exec(b, front).value, last);
      StepKeepsWindow(Exec(b, front).value, front, last);
      assert steps == front + [last];
    }
  }

  // ---- no stale pass is forgotten -----------------------------------------------------------------

  lemma StepKeepsCustomerFresh(b: Box, step: Step, c: string)
    requires Enabled(b, step) && DrainHolds(b) && (Current(b, c) || Owed(b, c))
    requires step.Complete? && b.drain.job.customerId == c ==> Current(b, c) || InFlight(b, c)
    ensures Current(Next(b, step), c) || Owed(Next(b, step), c)
  {
    if !(step.Complete? && b.drain.job.customerId == c) {
      StepKeepsJobs(b, step, c);
    }
  }

  lemma StepKeepsFreshExactly(b: Box, step: Step)
    requires Fresh(b) && DrainHolds(b) && Enabled(b, step)
    ensures Fresh(Next(b, step)) <==>
              (step.Complete? ==> Current(b, b.drain.job.customerId) || InFlight(b, b.drain.job.customerId))
  {
    var u := Next(b, step);
    if step.Complete? && !Current(b, b.drain.job.customerId) && !InFlight(b, b.drain.job.customerId) {
      var c := b.drain.job.customerId;
      assert !HasPending(u.jobs, c);
      assert !(Current(u, c) || Owed(u, c));
    } else {
      forall c ensures Current(u, c) || Owed(u, c) {
        assert Current(b, c) || Owed(b, c);
        StepKeepsCustomerFresh(b, step, c);
      }
    }
  }

  /**
   Over every interleaving of producers and drain, with failed updates, updates that show nothing,
   coalesced enqueues and broken completions: no stale pass is forgotten at any point exactly when
   every completion settles.
   */
  lemma {:induction false} NoStalePassForgotten(b: Box, steps: seq<Step>)
    requires Fresh(b) && b.drain.Idle? && Exec(b, steps).Some?
    ensures FreshThroughout(b, steps) <==> Settling(b, steps)
  {
    if steps != [] {
      var front, last := steps[..|steps| - 1], steps[|steps| - 1];
      NoStalePassForgotten(b, front);
      RunKnows(b, front);
      if FreshThroughout(b, front) {
        FreshThroughoutIsFresh(b, front);
        StepKeepsFreshExactly(Exec(b, front).value, last);
      }
    }
  }

  lemma FreshThroughoutIsFresh(b: Box, steps: seq<Step>)
    requires FreshThroughout(b, steps) && Exec(b, steps).Some?
    ensures Fresh(Exec(b, steps).value)
  {
  }

  /**
   Every completed update reached the pass, and each change between the read and the completion has
   its Enqueue still in flight at the completion.
   */
  ghost predicate Undisturbed(b: Box, steps: seq<Step>) {
    steps == [] ||
    var front, last := steps[..|steps| - 1], steps[|steps| - 1];
    && Undisturbed(b, front)
    && (last.Complete? && Exec(b, front).Some? && Exec(b, front).value.drain.Updated? ==>
          var c := Exec(b, front).value.drain.job.customerId;
          Showed(front) && (LastPoints(front, c).Some? ==> InFlight(Exec(b, front).value, c)))
  }

  /** So a schedule alone can tell that nothing is forgotten. */
  lemma {:induction false} UndisturbedRunsSettle(b: Box, steps: seq<Step>)
    requires Undisturbed(b, steps)
    ensures Settling(b, steps)
  {
    if steps != [] {
      UndisturbedRunsSettle(b, steps[..|steps| - 1]);
    }
  }

  /** When every completion settles and nothing is pending or owed, every pass shows the stored balance. */
  lemma SettledMeansShown(b: Box, steps: seq<Step>)
    requires Fresh(b) && b.drain.Idle? && Exec(b, steps).Some? && Settling(b, steps)
    requires var u := Exec(b, steps).value;
             u.producers == multiset{} && forall i :: 0 <= i < |u.jobs| ==> u.jobs[i].processed
    ensures var u := Exec(b, steps).value;
            forall c :: c in u.stored ==> c in u.shown && u.shown[c] == u.stored[c]
  {
    NoStalePassForgotten(b, steps);
    FreshThroughoutIsFresh(b, steps);
    var u := Exec(b, steps).value;
    forall c | c in u.stored ensures c in u.shown && u.shown[c] == u.stored[c] {
      assert Current(u, c) || Owed(u, c);
    }
  }

  // ---- the two ways a pass is forgotten -----------------------------------------------------------

  /** The box after a customer's balance changes, before its Enqueue counts. */
  function Changed(b: Box, c: string, points: int): Box
    requires c in b.stored
  {
    Next(b, Change(c, points))
  }

  /**
   A change behind a current pass, after any run that has updated it and before the completion: when
   its Enqueue counts first, the pass is forgotten unless the balance stayed the same; when the
   completion runs first, it never is.
   */
  lemma {:induction false} CountBeforeCompletionLoses(b: Box, steps: seq<Step>, points: int)
    requires b.drain.Idle? && Exec(b, steps).Some? && Fresh(Exec(b, steps).value)
    requires var u := Exec(b, steps).value;
             u.drain.Updated? && Current(u, u.drain.job.customerId) && !InFlight(u, u.drain.job.customerId)
    ensures var u := Exec(b, steps).value;
            var c := u.drain.job.customerId;
            && c in u.stored
            && var changed := Changed(u, c, points);
            && Enabled(changed, CountJobs(c)) && Enabled(Next(changed, CountJobs(c)), Complete)
            && (Fresh(Next(Next(changed, CountJobs(c)), Complete)) <==> points == u.stored[c])
            && Enabled(changed, Complete) && Fresh(Next(changed, Complete))
  {
    RunKnows(b, steps);
    var u := Exec(b, steps).value;
    var c := u.drain.job.customerId;
    var changed := Changed(u, c, points);
    StepKeepsDrain(u, Change(c, points));
    StepKeepsFreshExactly(u, Change(c, points));
    StepKeepsFreshExactly(changed, Complete);
    var counted := Next(changed, CountJobs(c));
    assert HasPending(changed.jobs, c);
    StepKeepsDrain(changed, CountJobs(c));
    StepKeepsFreshExactly(changed, CountJobs(c));
    assert counted.producers == u.producers;
    StepKeepsFreshExactly(counted, Complete);
  }

  /** Nothing pending, nothing in flight, every pass current. */
  ghost predicate Quiet(b: Box) {
    && b.drain.Idle? && b.producers == multiset{}
    && (forall i :: 0 <= i < |b.jobs| ==> b.jobs[i].processed)
    && forall c :: Current(b, c)
  }

  lemma ExecSnoc(b: Box, steps: seq<Step>, step: Step)
    requires Exec(b, steps).Some? && Enabled(Exec(b, steps).value, step)
    ensures Exec(b, steps + [step]) == Some(Next(Exec(b, steps).value, step))
  {
    assert (steps + [step])[..|steps|] == steps;
  }

  lemma {:induction false} OnlyTheNewJobIsClaimed(jobs: seq<Job>, j: Job, n: nat)
    requires (forall i :: 0 <= i < |jobs| ==> jobs[i].processed) && !j.processed && n > 0
    ensures FirstPending(jobs + [j], n) == [j]
  {
    if jobs != [] {
      assert (jobs + [j])[1..] == jobs[1..] + [j];
      OnlyTheNewJobIsClaimed(jobs[1..], j, n);
    }
  }

  /** One customer's balance changes, its Enqueue runs, and the drain reads the new balance. */
  function TakenUp(c: string, points: int): seq<Step> {
    [] + [Change(c, points)] + [CountJobs(c)] + [InsertJob(c)] + [Claim] + [Take]
  }

  /** The box in which the drain has just read that balance. */
  function Reading(b: Box, c: string, points: int): Box {
    b.(stored := b.stored[c := points], jobs := Inserted(b.jobs, c),
       drain := Fetched(Job(|b.jobs|, c, 0, None, false), points, [], {c}))
  }

  lemma EnqueueRuns(b: Box, c: string, points: int)
    requires Quiet(b) && c in b.stored
    ensures Exec(b, [] + [Change(c, points)] + [CountJobs(c)] + [InsertJob(c)]) ==
              Some(b.(stored := b.stored[c := points], jobs := Inserted(b.jobs, c)))
  {
    var changed := b.(stored := b.stored[c := points], producers := multiset{Counting(c)});
    var counted := changed.(producers := multiset{Inserting(c)});
    assert Next(b, Change(c, points)) == changed;
    assert changed.producers - multiset{Counting(c)} == multiset{};
    assert Next(changed, CountJobs(c)) == counted;
    assert counted.producers - multiset{Inserting(c)} == multiset{};
    ExecSnoc(b, [], Change(c, points));
    ExecSnoc(b, [] + [Change(c, points)], CountJobs(c));
    ExecSnoc(b, [] + [Change(c, points)] + [CountJobs(c)], InsertJob(c));
  }

  lemma TakeOnly(b: Box, j: Job)
    requires b.drain == Working([j], {}) && j.customerId in b.stored
    ensures Enabled(b, Take)
    ensures Next(b, Take) == b.(drain := Fetched(j, b.stored[j.customerId], [], {j.customerId}))
  {
    assert b.drain.todo[1..] == [] && {} + {j.customerId} == {j.customerId};
  }

  lemma TakenUpRuns(b: Box, c: string, points: int)
    requires Quiet(b) && c in b.stored
    ensures Exec(b, TakenUp(c, points)) == Some(Reading(b, c, points))
  {
    var job := Job(|b.jobs|, c, 0, None, false);
    EnqueueRuns(b, c, points);
    var inserted := b.(stored := b.stored[c := points], jobs := Inserted(b.jobs, c));
    OnlyTheNewJobIsClaimed(b.jobs, job, BATCH);
    var claimed := inserted.(drain := Working([job], {}));
    assert Next(inserted, Claim) == claimed;
    TakeOnly(claimed, job);
    var steps := [] + [Change(c, points)] + [CountJobs(c)] + [InsertJob(c)];
    ExecSnoc(b, steps, Claim);
    ExecSnoc(b, steps + [Claim], Take);
  }

  /**
   From every quiet box: a second change behind the drain's back, counted before the completion, is
   coalesced into the job about to be completed, and the pass is forgotten unless the balance is the
   one just shown. Counted after the completion, it never is.
   */
  lemma {:induction false} ChangeInWindowIsLost(b: Box, c: string, first: int, second: int)
    requires Quiet(b) && c in b.stored
    ensures var lost := TakenUp(c, first) + [Show] + [Change(c, second)] + [CountJobs(c)] + [Complete];
            Exec(b, lost).Some? && (Fresh(Exec(b, lost).value) <==> second == first)
    ensures var kept := TakenUp(c, first) + [Show] + [Change(c, second)] + [Complete];
            Exec(b, kept).Some? && Fresh(Exec(b, kept).value)
  {
    var shown := TakenUp(c, first) + [Show];
    TakenUpRuns(b, c, first);
    ExecSnoc(b, TakenUp(c, first), Show);
    RunKnows(b, TakenUp(c, first));
    RunKnows(b, shown);
    var u := Exec(b, shown).value;
    forall d ensures Current(u, d) || Owed(u, d) {
      assert Current(b, d);
    }
    CountBeforeCompletionLoses(b, shown, second);
    ExecSnoc(b, shown, Change(c, second));
    ExecSnoc(b, shown + [Change(c, second)], Complete);
    ExecSnoc(b, shown + [Change(c, second)], CountJobs(c));
    ExecSnoc(b, shown + [Change(c, second)] + [CountJobs(c)], Complete);
  }

  /**
   From every quiet box: a change whose update reports success without reaching the pass is
   forgotten unless the balance is the one the pass shows.
   */
  lemma {:induction false} SilentUpdateIsLost(b: Box, c: string, points: int)
    requires Quiet(b) && c in b.stored
    ensures var run := TakenUp(c, points) + [ShowNothing] + [Complete];
            Exec(b, run).Some? && (Fresh(Exec(b, run).value) <==> points == b.stored[c])
  {
    var read := TakenUp(c, points);
    TakenUpRuns(b, c, points);
    ExecSnoc(b, read, ShowNothing);
    RunKnows(b, read + [ShowNothing]);
    var u := Exec(b, read + [ShowNothing]).value;
    assert HasPending(u.jobs, c);
    forall d ensures Current(u, d) || Owed(u, d) {
      assert Current(b, d);
    }
    assert Current(b, c);
    StepKeepsFreshExactly(u, Complete);
    ExecSnoc(b, read + [ShowNothing], Complete);
  }

  // ---- the drain's own steps are the drain ---------------------------------------------------------

  /** An Enqueue's two statements, with nothing in between, are the store's method. */
  lemma EnqueueStepsEnqueue(b: Box, c: string)
    requires Counting(c) in b.producers && Inserting(c) !in b.producers
    ensures var counted := Next(b, CountJobs(c));
            && (HasPending(b.jobs, c) ==> counted.jobs == Enqueued(b.jobs, c) && Inserting(c) !in counted.producers)
            && (!HasPending(b.jobs, c) ==>
                  && Enabled(counted, InsertJob(c)) && Next(counted, InsertJob(c)).jobs == Enqueued(b.jobs, c))
  {
  }

  /** The steps of one customer's turn. */
  function TurnSteps(j: Job, seen: set<string>, outcome: Outcome): seq<Step> {
    if j.customerId in seen then [Take]
    else
      match outcome(j.customerId)
      case Shows => [Take, Show, Complete]
      case ShowsNothing => [Take, ShowNothing, Complete]
      case Fails(error) => [Take, UpdateFails(error)]
  }

  /** A drain has had the turns of some of its claimed jobs. */
  ghost predicate AfterTurns(b: Box, u: Box, claimed: seq<Job>, k: nat, outcome: Outcome)
    requires k <= |claimed|
  {
    && u.drain == Working(claimed[k..], CustomersOf(claimed[..k]))
    && u.jobs == Drained(b.jobs, claimed[..k], outcome)
    && PassesAfter(u.shown, b.shown, b.stored, CustomersOf(claimed[..k]), outcome)
    && u.stored == b.stored && u.producers == b.producers
  }

  lemma TurnRuns(b: Box, u: Box, claimed: seq<Job>, k: nat, outcome: Outcome)
    requires k < |claimed| && Numbered(b.jobs) && PendingIn(claimed, b.jobs) && AfterTurns(b, u, claimed, k, outcome)
    requires claimed[k].customerId in b.stored
    ensures var run := Exec(u, TurnSteps(claimed[k], u.drain.seen, outcome));
            run.Some? && AfterTurns(b, run.value, claimed, k + 1, outcome)
  {
    var j, turns := claimed[k], claimed[..k];
    var c := j.customerId;
    assert claimed[k..][0] == j && claimed[k..][1..] == claimed[k + 1..];
    assert claimed[..k + 1] == turns + [j];
    CustomersGrow(turns, j);
    var taken := Next(u, Take);
    if c in u.drain.seen {
      SeenCustomerAddsNothing(b.jobs, turns, j, outcome);
      assert CustomersOf(turns + [j]) == CustomersOf(turns);
      ExecSnoc(u, [], Take);
      assert [] + [Take] == [Take];
    } else {
      NewCustomerIsSettled(b.jobs, turns, j, outcome);
      TurnShows(u.shown, b.shown, b.stored, CustomersOf(turns), outcome, c);
      match outcome(c)
      case Shows => ThreeSteps(u, Take, Show, Complete);
      case ShowsNothing => ThreeSteps(u, Take, ShowNothing, Complete);
      case Fails(error) => TwoSteps(u, Take, UpdateFails(error));
    }
  }

  lemma TwoSteps(b: Box, x: Step, y: Step)
    requires Enabled(b, x) && Enabled(Next(b, x), y)
    ensures Exec(b, [x, y]) == Some(Next(Next(b, x), y))
  {
    ExecSnoc(b, [], x);
    ExecSnoc(b, [] + [x], y);
    assert [] + [x] + [y] == [x, y];
  }

  lemma ThreeSteps(b: Box, x: Step, y: Step, z: Step)
    requires Enabled(b, x) && Enabled(Next(b, x), y) && Enabled(Next(Next(b, x), y), z)
    ensures Exec(b, [x, y, z]) == Some(Next(Next(Next(b, x), y), z))
  {
    TwoSteps(b, x, y);
    ExecSnoc(b, [x, y], z);
    assert [x, y] + [z] == [x, y, z];
  }

  /** All turns from the k-th on, and the end of the drain. */
  ghost function TurnsFrom(u: Box, claimed: seq<Job>, k: nat, outcome: Outcome): Option<Box>
    requires k <= |claimed|
    decreases |claimed| - k
  {
    if k == |claimed| then Exec(u, [Finish])
    else if !u.drain.Working? then None
    else
      var run := Exec(u, TurnSteps(claimed[k], u.drain.seen, outcome));
      if run.Some? then TurnsFrom(run.value, claimed, k + 1, outcome) else None
  }

  lemma {:induction false} TurnsRun(b: Box, u: Box, claimed: seq<Job>, k: nat, outcome: Outcome)
    requires k <= |claimed| && Numbered(b.jobs) && PendingIn(claimed, b.jobs) && AfterTurns(b, u, claimed, k, outcome)
    requires forall j :: j in claimed ==> j.customerId in b.stored
    ensures var end := TurnsFrom(u, claimed, k, outcome);
            && end.Some? && end.value.drain.Idle?
            && end.value.jobs == Drained(b.jobs, claimed, outcome)
            && PassesAfter(end.value.shown, b.shown, b.stored, CustomersOf(claimed), outcome)
    decreases |claimed| - k
  {
    if k == |claimed| {
      assert claimed[k..] == [] && claimed[..k] == claimed;
      ExecSnoc(u, [], Finish);
      assert [] + [Finish] == [Finish];
    } else {
      TurnRuns(b, u, claimed, k, outcome);
      var run := Exec(u, TurnSteps(claimed[k], u.drain.seen, outcome));
      TurnsRun(b, run.value, claimed, k + 1, outcome);
    }
  }

  /** Left alone, the drain's steps settle the jobs and the passes as the drain of the queue does. */
  lemma StepsAreTheDrain(b: Box, outcome: Outcome)
    requires b.drain.Idle? && Numbered(b.jobs)
    requires forall j :: j in FirstPending(b.jobs, BATCH) ==> j.customerId in b.stored
    ensures var claimed := FirstPending(b.jobs, 50);
            var end := TurnsFrom(Next(b, Claim), claimed, 0, outcome);
            && end.Some? && end.value.drain.Idle?
            && end.value.jobs == Drained(b.jobs, claimed, outcome)
            && PassesAfter(end.value.shown, b.shown, b.stored, CustomersOf(claimed), outcome)
  {
    var claimed := FirstPending(b.jobs, BATCH);
    ClaimedArePending(b.jobs, BATCH);
    NothingSettledYet(b.jobs, b.shown, b.stored, outcome);
    assert claimed[0..] == claimed && claimed[..0] == [];
    TurnsRun(b, Next(b, Claim), claimed, 0, outcome);
  }
}
