/**
 The wallet outbox: the wallet_jobs table of apple_jobs.go and the drain of queue.go, as objects
 proved against functions on the job list, and what repeated drains achieve.
 */
module Outbox {
  import opened Wrappers

  /** Jobs stand in created_at order; a job's id is its place. */
  datatype Job = Job(id: nat, customerId: string, attempts: nat, lastError: Option<string>, processed: bool)

  const BATCH := 50

  /**
   What an update does for a customer: it shows the balance; it reports success and shows nothing,
   since a provider's error is only logged; or it fails.
   */
  datatype Update = Shows | ShowsNothing | Fails(error: string)

  type Outcome = string -> Update

  predicate HasPending(jobs: seq<Job>, c: string) {
    exists i :: 0 <= i < |jobs| && jobs[i].customerId == c && !jobs[i].processed
  }

  function Enqueued(jobs: seq<Job>, c: string): seq<Job> {
    if HasPending(jobs, c) then jobs else Inserted(jobs, c)
  }

  function Inserted(jobs: seq<Job>, c: string): seq<Job> {
    jobs + [Job(|jobs|, c, 0, None, false)]
  }

  /** The oldest n pending jobs, oldest first. */
  function FirstPending(jobs: seq<Job>, n: nat): seq<Job> {
    if jobs == [] || n == 0 then []
    else if jobs[0].processed then FirstPending(jobs[1..], n)
    else [jobs[0]] + FirstPending(jobs[1..], n - 1)
  }

  ghost predicate PendingIn(claimed: seq<Job>, jobs: seq<Job>) {
    forall j :: j in claimed ==> j in jobs && !j.processed
  }

  function CompletedFor(jobs: seq<Job>, c: string): (r: seq<Job>)
    ensures |r| == |jobs|
    ensures forall i :: 0 <= i < |jobs| ==>
              r[i] == if jobs[i].customerId == c then jobs[i].(processed := true) else jobs[i]
  {
    seq(|jobs|, i requires 0 <= i < |jobs| => if jobs[i].customerId == c then jobs[i].(processed := true) else jobs[i])
  }

  function FailedJob(jobs: seq<Job>, id: nat, error: string): (r: seq<Job>)
    ensures |r| == |jobs|
  {
    if id < |jobs| then jobs[id := jobs[id].(attempts := jobs[id].attempts + 1, lastError := Some(error))] else jobs
  }

  /** The same jobs, pending or processed as before. */
  ghost predicate SameJobs(jobs: seq<Job>, u: seq<Job>) {
    |u| == |jobs| && forall i :: 0 <= i < |jobs| ==>
      u[i].id == jobs[i].id && u[i].customerId == jobs[i].customerId && u[i].processed == jobs[i].processed
  }

  lemma SameJobsPending(jobs: seq<Job>, u: seq<Job>)
    requires SameJobs(jobs, u)
    ensures forall c :: HasPending(u, c) <==> HasPending(jobs, c)
  {
    forall c ensures HasPending(u, c) <==> HasPending(jobs, c) {
      if i :| 0 <= i < |jobs| && jobs[i].customerId == c && !jobs[i].processed {
        assert u[i].customerId == c;
      }
      if i :| 0 <= i < |u| && u[i].customerId == c && !u[i].processed {
        assert jobs[i].customerId == c;
      }
    }
  }

  lemma {:induction false} SameJobsClaimed(jobs: seq<Job>, u: seq<Job>, n: nat)
    requires SameJobs(jobs, u)
    ensures SameJobs(FirstPending(jobs, n), FirstPending(u, n))
  {
    if jobs != [] && n > 0 {
      SameJobsClaimed(jobs[1..], u[1..], if jobs[0].processed then n else n - 1);
    }
  }

  /** A failed job stays pending in its place: the next claim, of any size, is of the same jobs. */
  lemma FailedJobIsClaimedAgain(jobs: seq<Job>, id: nat, error: string, n: nat)
    ensures SameJobs(FirstPending(jobs, n), FirstPending(FailedJob(jobs, id, error), n))
  {
    SameJobsClaimed(jobs, FailedJob(jobs, id, error), n);
  }

  predicate Numbered(jobs: seq<Job>) {
    forall i :: 0 <= i < |jobs| ==> jobs[i].id == i
  }

  function CustomersOf(jobs: seq<Job>): set<string> {
    set j | j in jobs :: j.customerId
  }

  // ---- one whole drain, job by job --------------------------------------------------------------

  /** This job is the first claimed one of its customer. */
  predicate LeadsItsCustomer(claimed: seq<Job>, id: nat) {
    exists k :: 0 <= k < |claimed| && claimed[k].id == id
      && forall m :: 0 <= m < k ==> claimed[m].customerId != claimed[k].customerId
  }

  /**
   A pending job of a claimed customer is processed when the customer's update succeeds; when it
   fails only the customer's first claimed job is marked with the attempt. Other jobs stay.
   */
  function AfterDrain(job: Job, claimed: seq<Job>, outcome: Outcome): Job {
    if job.processed || job.customerId !in CustomersOf(claimed) then job
    else if !outcome(job.customerId).Fails? then job.(processed := true)
    else if LeadsItsCustomer(claimed, job.id) then
      job.(attempts := job.attempts + 1, lastError := Some(outcome(job.customerId).error))
    else job
  }

  function Drained(jobs: seq<Job>, claimed: seq<Job>, outcome: Outcome): (r: seq<Job>)
    ensures |r| == |jobs| && forall i :: 0 <= i < |jobs| ==> r[i] == AfterDrain(jobs[i], claimed, outcome)
  {
    seq(|jobs|, i requires 0 <= i < |jobs| => AfterDrain(jobs[i], claimed, outcome))
  }

  /** The passes after the turns of some customers: an update that shows makes the pass current. */
  ghost predicate PassesAfter(now: map<string, int>, was: map<string, int>, balances: map<string, int>,
                              customers: set<string>, outcome: Outcome) {
    forall c :: PassAfter(now, was, balances, customers, outcome, c)
  }

  predicate PassAfter(now: map<string, int>, was: map<string, int>, balances: map<string, int>,
                      customers: set<string>, outcome: Outcome, c: string) {
    if c in customers && outcome(c).Shows? then c in now && c in balances && now[c] == balances[c]
    else (c in now <==> c in was) && (c in was ==> c in now && now[c] == was[c])
  }

  lemma TurnShows(now: map<string, int>, was: map<string, int>, balances: map<string, int>,
                  customers: set<string>, outcome: Outcome, c: string)
    requires PassesAfter(now, was, balances, customers, outcome) && c !in customers
    requires outcome(c).Shows? ==> c in balances
    ensures var after := if outcome(c).Shows? then now[c := balances[c]] else now;
            PassesAfter(after, was, balances, customers + {c}, outcome)
  {
    var after := if outcome(c).Shows? then now[c := balances[c]] else now;
    forall d ensures PassAfter(after, was, balances, customers + {c}, outcome, d) {
      assert PassAfter(now, was, balances, customers, outcome, d);
    }
  }

  // ---- the objects ------------------------------------------------------------------------------

  class JobStore {
    var jobs: seq<Job>
    /** customers.points, as GetCustomerByID reads it. */
    var balances: map<string, int>

    constructor (balances: map<string, int>)
      ensures jobs == [] && this.balances == balances
    {
      jobs := [];
      this.balances := balances;
    }

    method EnqueueWalletJob(c: string)
      requires Numbered(jobs)
      modifies this`jobs
      ensures jobs == Enqueued(old(jobs), c) && Numbered(jobs)
    {
      var pending := 0;
      for i := 0 to |jobs|
        invariant pending > 0 <==> exists k :: 0 <= k < i && jobs[k].customerId == c && !jobs[k].processed
      {
        if jobs[i].customerId == c && !jobs[i].processed {
          pending := pending + 1;
        }
      }
      if pending > 0 {
        return;
      }
      jobs := jobs + [Job(|jobs|, c, 0, None, false)];
    }

    method ClaimWalletJobs(limit: int) returns (out: seq<Job>)
      ensures out == FirstPending(jobs, if limit <= 0 then 20 else limit)
    {
      var max := if limit <= 0 then 20 else limit;
      out := [];
      var i := 0;
      while i < |jobs| && |out| < max
        invariant 0 <= i <= |jobs| && |out| <= max
        invariant out + FirstPending(jobs[i..], max - |out|) == FirstPending(jobs, max)
      {
        assert jobs[i..][1..] == jobs[i + 1..];
        if !jobs[i].processed {
          out := out + [jobs[i]];
        }
        i := i + 1;
      }
    }

    method CompleteWalletJobsForCustomer(c: string)
      modifies this`jobs
      ensures |jobs| == |old(jobs)|
      ensures forall i :: 0 <= i < |jobs| ==>
                jobs[i] == if old(jobs)[i].customerId == c then old(jobs)[i].(processed := true) else old(jobs)[i]
    {
      jobs := CompletedFor(jobs, c);
    }

    method FailWalletJob(id: nat, error: string)
      modifies this`jobs
      ensures |jobs| == |old(jobs)|
      ensures forall i :: 0 <= i < |jobs| ==>
                jobs[i] == if i != id then old(jobs)[i]
                           else old(jobs)[i].(attempts := old(jobs)[i].attempts + 1, lastError := Some(error))
      ensures forall c :: HasPending(jobs, c) <==> HasPending(old(jobs), c)
    {
      ghost var was := jobs;
      if id < |jobs| {
        jobs := jobs[id := jobs[id].(attempts := jobs[id].attempts + 1, lastError := Some(error))];
      }
      SameJobsPending(was, jobs);
    }
  }

  class Queue {
    const store: JobStore
    /** Whether an updater is configured. */
    const updates: bool
    /** The balance each wallet pass shows. */
    var shown: map<string, int>
    /** The wake channel holds at most one signal. */
    var wake: bool

    constructor (store: JobStore, updates: bool)
      ensures this.store == store && this.updates == updates && shown == map[] && !wake
    {
      this.store := store;
      this.updates := updates;
      shown := map[];
      wake := false;
    }

    /** A write that fails is only logged: nothing is stored and nobody is woken. */
    method Enqueue(c: string, fails: bool)
      requires Numbered(store.jobs)
      modifies this`wake, store`jobs
      ensures Numbered(store.jobs)
      ensures store.jobs == if fails then old(store.jobs) else Enqueued(old(store.jobs), c)
      ensures wake == (old(wake) || !fails)
    {
      if fails {
        return;
      }
      store.EnqueueWalletJob(c);
      wake := true;
    }

    /** Without an updater every customer's turn succeeds and shows nothing. */
    function Effective(outcome: Outcome): Outcome {
      c => if updates then outcome(c) else ShowsNothing
    }

    /** Updates that do not fail have read their customer. */
    ghost predicate Readable(outcome: Outcome)
      reads store
    {
      updates ==> forall c :: outcome(c).Fails? || c in store.balances
    }

    /** Shows the stored balance, or shows nothing new although it reports success, or fails. */
    method UpdateWallet(c: string, outcome: Outcome) returns (error: Option<string>)
      requires outcome(c).Fails? || c in store.balances
      modifies this`shown
      ensures error == if outcome(c).Fails? then Some(outcome(c).error) else None
      ensures shown == if outcome(c).Shows? then old(shown)[c := store.balances[c]] else old(shown)
    {
      match outcome(c)
      case Fails(text) => return Some(text);
      case ShowsNothing => return None;
      case Shows =>
        shown := shown[c := store.balances[c]];
        return None;
    }

    /** What a drain has done to jobs and passes when it has had the turns of these claimed jobs. */
    ghost predicate Settled(before: seq<Job>, was: map<string, int>, turns: seq<Job>, outcome: Outcome)
      reads this, store
    {
      && store.jobs == Drained(before, turns, outcome)
      && PassesAfter(shown, was, store.balances, CustomersOf(turns), outcome)
    }

    /** One customer's turn: update the wallet, then mark the claimed job or complete all the customer's jobs. */
    method Settle(j: Job, outcome: Outcome)
      requires Readable(outcome)
      modifies this`shown, store`jobs
      ensures var update := Effective(outcome)(j.customerId);
              && store.jobs == (if update.Fails? then FailedJob(old(store.jobs), j.id, update.error)
                                else CompletedFor(old(store.jobs), j.customerId))
              && shown == (if update.Shows? then old(shown)[j.customerId := store.balances[j.customerId]]
                           else old(shown))
    {
      var error: Option<string> := None;
      if updates {
        error := UpdateWallet(j.customerId, outcome);
      }
      if error.Some? {
        store.FailWalletJob(j.id, error.value);
        assert store.jobs == FailedJob(old(store.jobs), j.id, error.value);
      } else {
        store.CompleteWalletJobsForCustomer(j.customerId);
      }
    }

    /** The turn of the k-th claimed job: skipped when its customer has had one. */
    method Turn(ghost before: seq<Job>, ghost was: map<string, int>, claimed: seq<Job>, k: nat, seen: set<string>,
                outcome: Outcome)
      returns (seen': set<string>)
      requires Numbered(before) && k < |claimed| && PendingIn(claimed, before)
      requires seen == CustomersOf(claimed[..k]) && Readable(outcome)
      requires Settled(before, was, claimed[..k], Effective(outcome))
      modifies this`shown, store`jobs
      ensures seen' == CustomersOf(claimed[..k + 1])
      ensures Settled(before, was, claimed[..k + 1], Effective(outcome))
    {
      var j := claimed[k];
      ghost var turns := claimed[..k];
      assert claimed[..k + 1] == turns + [j];
      CustomersGrow(turns, j);
      if j.customerId in seen {
        SeenCustomerAddsNothing(before, turns, j, Effective(outcome));
        assert CustomersOf(turns + [j]) == seen;
        return seen;
      }
      TurnShows(shown, was, store.balances, seen, Effective(outcome), j.customerId);
      Settle(j, outcome);
      NewCustomerIsSettled(before, turns, j, Effective(outcome));
      return seen + {j.customerId};
    }

    /** An uninterrupted drain: which jobs it settles, and which passes then show the stored balance. */
    method Drain(outcome: Outcome)
      requires Numbered(store.jobs) && Readable(outcome)
      modifies this`shown, store`jobs
      ensures Settled(old(store.jobs), old(shown), FirstPending(old(store.jobs), BATCH), Effective(outcome))
    {
      ghost var before, was := store.jobs, shown;
      var claimed := store.ClaimWalletJobs(BATCH);
      ClaimedArePending(before, BATCH);
      NothingSettledYet(before, was, store.balances, Effective(outcome));
      var seen: set<string> := {};
      var k := 0;
      assert claimed[..0] == [];
      while k < |claimed|
        invariant k <= |claimed|
        invariant seen == CustomersOf(claimed[..k])
        invariant Settled(before, was, claimed[..k], Effective(outcome))
      {
        seen := Turn(before, was, claimed, k, seen, outcome);
        k := k + 1;
      }
      assert claimed[..k] == claimed;
    }
  }

  lemma NothingSettledYet(jobs: seq<Job>, was: map<string, int>, balances: map<string, int>, outcome: Outcome)
    ensures Drained(jobs, [], outcome) == jobs && CustomersOf([]) == {}
    ensures PassesAfter(was, was, balances, {}, outcome)
  {
  }

  // ---- the drain loop, one claimed job at a time --------------------------------------------------

  lemma {:induction false} ClaimedArePending(jobs: seq<Job>, n: nat)
    ensures PendingIn(FirstPending(jobs, n), jobs)
  {
    if jobs != [] && n > 0 {
      ClaimedArePending(jobs[1..], if jobs[0].processed then n else n - 1);
    }
  }

  lemma CustomersGrow(claimed: seq<Job>, j: Job)
    ensures CustomersOf(claimed + [j]) == CustomersOf(claimed) + {j.customerId}
  {
    assert forall x :: x in claimed + [j] <==> x in claimed || x == j;
    assert j in claimed + [j];
    forall c | c in CustomersOf(claimed) + {j.customerId} ensures c in CustomersOf(claimed + [j]) {
      if c != j.customerId {
        var x :| x in claimed && x.customerId == c;
        assert x in claimed + [j];
      }
    }
  }

  lemma LeadersGrow(claimed: seq<Job>, j: Job, id: nat)
    ensures LeadsItsCustomer(claimed + [j], id) <==>
              LeadsItsCustomer(claimed, id) || (j.id == id && j.customerId !in CustomersOf(claimed))
  {
    var more := claimed + [j];
    if LeadsItsCustomer(claimed, id) {
      var k :| 0 <= k < |claimed| && claimed[k].id == id
        && forall m :: 0 <= m < k ==> claimed[m].customerId != claimed[k].customerId;
      assert more[k] == claimed[k];
      assert forall m :: 0 <= m < k ==> more[m] == claimed[m];
    }
    if j.id == id && j.customerId !in CustomersOf(claimed) {
      assert more[|claimed|] == j;
      forall m | 0 <= m < |claimed| ensures more[m].customerId != j.customerId {
        assert claimed[m] in claimed;
      }
    }
    if LeadsItsCustomer(more, id) {
      var k :| 0 <= k < |more| && more[k].id == id
        && forall m :: 0 <= m < k ==> more[m].customerId != more[k].customerId;
      if k < |claimed| {
        assert claimed[k] == more[k];
        assert forall m :: 0 <= m < k ==> claimed[m] == more[m];
      } else {
        forall x | x in claimed ensures x.customerId != j.customerId {
          var m :| 0 <= m < |claimed| && claimed[m] == x;
          assert more[m] == x;
        }
      }
    }
  }

  lemma SeenCustomerAddsNothing(before: seq<Job>, claimed: seq<Job>, j: Job, outcome: Outcome)
    requires j.customerId in CustomersOf(claimed)
    ensures Drained(before, claimed + [j], outcome) == Drained(before, claimed, outcome)
  {
    CustomersGrow(claimed, j);
    forall i | 0 <= i < |before|
      ensures AfterDrain(before[i], claimed + [j], outcome) == AfterDrain(before[i], claimed, outcome)
    {
      LeadersGrow(claimed, j, before[i].id);
    }
  }

  /** Settling one more customer: completing all its jobs, or marking the claimed one. */
  lemma NewCustomerIsSettled(before: seq<Job>, claimed: seq<Job>, j: Job, outcome: Outcome)
    requires Numbered(before) && j in before && !j.processed && j.customerId !in CustomersOf(claimed)
    requires forall x :: x in claimed ==> x in before
    ensures !outcome(j.customerId).Fails? ==>
              CompletedFor(Drained(before, claimed, outcome), j.customerId) == Drained(before, claimed + [j], outcome)
    ensures outcome(j.customerId).Fails? ==>
              FailedJob(Drained(before, claimed, outcome), j.id, outcome(j.customerId).error)
                == Drained(before, claimed + [j], outcome)
  {
    forall i | 0 <= i < |before| {
      SettledJob(before, claimed, j, outcome, i);
    }
  }

  lemma SettledJob(before: seq<Job>, claimed: seq<Job>, j: Job, outcome: Outcome, i: nat)
    requires Numbered(before) && j in before && !j.processed && j.customerId !in CustomersOf(claimed)
    requires (forall x :: x in claimed ==> x in before) && i < |before|
    ensures !outcome(j.customerId).Fails? ==>
              AfterDrain(before[i], claimed + [j], outcome)
                  == CompletedFor(Drained(before, claimed, outcome), j.customerId)[i]
    ensures outcome(j.customerId).Fails? ==>
              AfterDrain(before[i], claimed + [j], outcome)
                == FailedJob(Drained(before, claimed, outcome), j.id, outcome(j.customerId).error)[i]
  {
    CustomersGrow(claimed, j);
    LeadersGrow(claimed, j, i);
    assert before[j.id] == j && before[i].id == i;
    var now := Drained(before, claimed, outcome);
    assert now[i] == AfterDrain(before[i], claimed, outcome);
    if before[i].customerId == j.customerId {
      assert now[i] == before[i];
      NotClaimedNotLeading(claimed, before[i]);
      forall k | 0 <= k < |claimed| ensures claimed[k].id != i {
        assert claimed[k] in claimed;
        var m :| 0 <= m < |before| && before[m] == claimed[k];
      }
    } else {
      assert i != j.id;
    }
  }

  lemma NotClaimedNotLeading(claimed: seq<Job>, job: Job)
    requires job.customerId !in CustomersOf(claimed)
    ensures forall k :: 0 <= k < |claimed| ==> claimed[k].customerId != job.customerId
  {
    forall k | 0 <= k < |claimed| ensures claimed[k].customerId != job.customerId {
      assert claimed[k] in claimed;
    }
  }

  // ---- progress -----------------------------------------------------------------------------------

  /** Pending jobs of customers outside a set. */
  function PendingOutside(jobs: seq<Job>, cs: set<string>): nat {
    if jobs == [] then 0
    else (if !jobs[0].processed && jobs[0].customerId !in cs then 1 else 0) + PendingOutside(jobs[1..], cs)
  }

  function PendingInside(jobs: seq<Job>, cs: set<string>): nat {
    if jobs == [] then 0
    else (if !jobs[0].processed && jobs[0].customerId in cs then 1 else 0) + PendingInside(jobs[1..], cs)
  }

  /** Drains in a row, nothing enqueued in between; the k-th one gets the k-th outcome. */
  function Drains(jobs: seq<Job>, outcomes: seq<Outcome>): seq<Job> {
    if outcomes == [] then jobs
    else
      var before := Drains(jobs, outcomes[..|outcomes| - 1]);
      Drained(before, FirstPending(before, BATCH), outcomes[|outcomes| - 1])
  }

  /** Exactly the customers of the set fail, at every drain. */
  ghost predicate AlwaysFailing(outcomes: seq<Outcome>, failing: set<string>) {
    forall k, c :: 0 <= k < |outcomes| ==> (outcomes[k](c).Fails? <==> c in failing)
  }

  /** The claim takes the oldest jobs: how many of them belong to others, and what that leaves. */
  lemma {:induction false} ClaimReachesOthers(jobs: seq<Job>, n: nat, failing: set<string>, settled: set<string>)
    requires CustomersOf(FirstPending(jobs, n)) <= settled
    ensures PendingOutside(jobs, failing + settled) + PendingOutside(FirstPending(jobs, n), failing)
         <= PendingOutside(jobs, failing)
    ensures |FirstPending(jobs, n)|
        == PendingOutside(FirstPending(jobs, n), failing) + PendingInside(FirstPending(jobs, n), failing)
    ensures PendingInside(FirstPending(jobs, n), failing) <= PendingInside(jobs, failing)
    ensures |FirstPending(jobs, n)| == n
        || PendingOutside(FirstPending(jobs, n), failing) == PendingOutside(jobs, failing)
  {
    if jobs != [] {
      if n == 0 {
        ClaimReachesOthers(jobs[1..], 0, failing, settled);
      } else if jobs[0].processed {
        ClaimReachesOthers(jobs[1..], n, failing, settled);
      } else {
        var rest := FirstPending(jobs[1..], n - 1);
        assert FirstPending(jobs, n) == [jobs[0]] + rest;
        assert jobs[0] in FirstPending(jobs, n);
        assert forall x :: x in rest ==> x in FirstPending(jobs, n);
        ClaimReachesOthers(jobs[1..], n - 1, failing, settled);
        assert ([jobs[0]] + rest)[1..] == rest;
      }
    }
  }

  /** A settled job list counts like the old one with the settled customers taken out. */
  lemma {:induction false} CountsAfter(before: seq<Job>, after: seq<Job>, failing: set<string>, settled: set<string>)
    requires |after| == |before|
    requires forall i :: 0 <= i < |before| ==>
               && after[i].customerId == before[i].customerId
               && (after[i].processed <==>
                     (before[i].processed || (before[i].customerId in settled && before[i].customerId !in failing)))
    ensures PendingOutside(after, failing) == PendingOutside(before, failing + settled)
    ensures PendingInside(after, failing) == PendingInside(before, failing)
  {
    if before != [] {
      assert forall i :: 0 <= i < |before| - 1 ==> after[1..][i] == after[i + 1] && before[1..][i] == before[i + 1];
      CountsAfter(before[1..], after[1..], failing, settled);
    }
  }

  lemma OneDrainProgresses(jobs: seq<Job>, outcome: Outcome, failing: set<string>)
    requires forall c :: outcome(c).Fails? <==> c in failing
    ensures var after := Drained(jobs, FirstPending(jobs, BATCH), outcome);
            && PendingInside(after, failing) == PendingInside(jobs, failing)
            && (PendingInside(jobs, failing) < BATCH ==>
                  PendingOutside(after, failing)
                    <= Max0(PendingOutside(jobs, failing) - (BATCH - PendingInside(jobs, failing))))
  {
    var claimed := FirstPending(jobs, BATCH);
    ClaimReachesOthers(jobs, BATCH, failing, CustomersOf(claimed));
    CountsAfter(jobs, Drained(jobs, claimed, outcome), failing, CustomersOf(claimed));
  }

  /** What k drains leave of n jobs when each settles d of them. */
  function Left(n: nat, k: nat, d: nat): nat {
    if k == 0 then n else Max0(Left(n, k - 1, d) - d)
  }

  lemma {:induction false} LeftIs(n: nat, k: nat, d: nat)
    ensures Left(n, k, d) == Max0(n - k * d)
  {
    if k > 0 {
      LeftIs(n, k - 1, d);
      assert k * d == (k - 1) * d + d;
    }
  }

  lemma LeftStep(n: nat, k: nat, d: nat, before: nat, after: nat)
    requires before <= Left(n, k, d) && after <= Max0(before - d)
    ensures after <= Left(n, k + 1, d)
  {
  }

  lemma LastDrain(jobs: seq<Job>, outcomes: seq<Outcome>, failing: set<string>)
    requires outcomes != [] && AlwaysFailing(outcomes, failing)
    ensures var before := Drains(jobs, outcomes[..|outcomes| - 1]);
            && PendingInside(Drains(jobs, outcomes), failing) == PendingInside(before, failing)
            && (PendingInside(before, failing) < BATCH ==>
                  PendingOutside(Drains(jobs, outcomes), failing)
                    <= Max0(PendingOutside(before, failing) - (BATCH - PendingInside(before, failing))))
  {
    OneDrainProgresses(Drains(jobs, outcomes[..|outcomes| - 1]), outcomes[|outcomes| - 1], failing);
  }

  lemma {:induction false} DrainsLeave(jobs: seq<Job>, outcomes: seq<Outcome>, failing: set<string>, n: nat, f: nat)
    requires AlwaysFailing(outcomes, failing)
    requires n == PendingOutside(jobs, failing) && f == PendingInside(jobs, failing) < BATCH
    ensures PendingInside(Drains(jobs, outcomes), failing) == f
    ensures PendingOutside(Drains(jobs, outcomes), failing) <= Left(n, |outcomes|, BATCH - f)
  {
    if outcomes == [] {
      assert Drains(jobs, outcomes) == jobs;
    } else {
      var front := outcomes[..|outcomes| - 1];
      DrainsLeave(jobs, front, failing, n, f);
      LastDrain(jobs, outcomes, failing);
      LeftStep(n, |front|, BATCH - f, PendingOutside(Drains(jobs, front), failing),
               PendingOutside(Drains(jobs, outcomes), failing));
    }
  }

  /**
   With nothing new enqueued and the same customers failing every time, fewer than a batch of pending
   jobs among them: each drain settles at least the rest of a batch of the others' jobs, so k drains
   leave at most n - k * (50 - f) of their n, and the others strictly decrease until none is left.
   */
  lemma DrainsProgress(jobs: seq<Job>, outcomes: seq<Outcome>, failing: set<string>)
    requires AlwaysFailing(outcomes, failing) && PendingInside(jobs, failing) < BATCH
    ensures PendingInside(Drains(jobs, outcomes), failing) == PendingInside(jobs, failing)
    ensures PendingOutside(Drains(jobs, outcomes), failing)
         <= Max0(PendingOutside(jobs, failing) - |outcomes| * (BATCH - PendingInside(jobs, failing)))
  {
    DrainsLeave(jobs, outcomes, failing, PendingOutside(jobs, failing), PendingInside(jobs, failing));
    LeftIs(PendingOutside(jobs, failing), |outcomes|, BATCH - PendingInside(jobs, failing));
  }

  /** While others have pending jobs, every drain leaves strictly fewer of them. */
  lemma OthersStrictlyDecrease(jobs: seq<Job>, outcome: Outcome, failing: set<string>)
    requires forall c :: outcome(c).Fails? <==> c in failing
    requires PendingInside(jobs, failing) < BATCH && PendingOutside(jobs, failing) > 0
    ensures PendingOutside(Drained(jobs, FirstPending(jobs, BATCH), outcome), failing) < PendingOutside(jobs, failing)
  {
    OneDrainProgresses(jobs, outcome, failing);
  }

  /** When every update succeeds, k drains leave at most n - 50k of n pending jobs. */
  lemma DrainsEmptyTheQueue(jobs: seq<Job>, outcomes: seq<Outcome>)
    requires AlwaysFailing(outcomes, {})
    ensures PendingOutside(Drains(jobs, outcomes), {}) <= Max0(PendingOutside(jobs, {}) - 50 * |outcomes|)
  {
    NothingInsideNone(jobs);
    DrainsProgress(jobs, outcomes, {});
  }

  lemma {:induction false} NothingInsideNone(jobs: seq<Job>)
    ensures PendingInside(jobs, {}) == 0
  {
    if jobs != [] {
      NothingInsideNone(jobs[1..]);
    }
  }
}
