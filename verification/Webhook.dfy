/** The webhook dispatcher: a bounded queue, two workers and retries with growing pauses. No job is lost track of,
    none is tried too often, nothing blocks, and the queue drains. */
module Webhook {
  import opened Prelude

  const CAPACITY: nat := 256

  datatype Target = Target(url: string, events: seq<string>)

  datatype Config = Config(enabled: bool, targets: seq<Target>, maxAttempts: int, backoffSecs: int)

  /** A delivery job. The model numbers jobs in the order of their emission. */
  datatype Job = Job(id: nat, target: Target, attempt: int)

  /** Where a worker stands: waiting for work, posting, pausing before a retry, or gone after a stop. */
  datatype Worker = Idle | Delivering(job: Job) | Sleeping(job: Job) | Exited

  /** How a job ended: answered, given up by a worker, or never queued because the queue was full. */
  datatype Outcome = Delivered | GivenUp | Dropped

  /** What posting came to. */
  datatype Result = Accepted | Rejected | BadUrl

  /** The dispatcher, with the matching targets that each emit still has to offer its job to, and the number of posts
      and the seconds of pause spent on every job so far. */
  datatype State = State(queue: seq<Job>, first: Worker, second: Worker, emits: seq<seq<Target>>,
                         outcomes: map<nat, Outcome>, stopped: bool,
                         next: nat, tries: map<nat, nat>, waited: map<nat, nat>)

  const INITIAL: State := State([], Idle, Idle, [], map[], false, 0, map[], map[])

  function WithDefaults(c: Config): Config {
    c.(maxAttempts := if c.maxAttempts == 0 then 3 else c.maxAttempts,
       backoffSecs := if c.backoffSecs == 0 then 5 else c.backoffSecs)
  }

  predicate Matches(events: seq<string>, eventType: string) {
    events == [] || eventType in events
  }

  /** The targets an emit is for, in their order. */
  function Matching(targets: seq<Target>, eventType: string): seq<Target> {
    if targets == [] then [] else
      var last := targets[|targets| - 1];
      Matching(targets[..|targets| - 1], eventType) + if Matches(last.events, eventType) then [last] else []
  }

  /** They are the targets without a filter and those whose filter lists the type, each as often as configured. */
  lemma {:induction false} MatchingMeaning(targets: seq<Target>, eventType: string)
    ensures Matching(targets, eventType) ==
            Filter(targets, (t: Target) =>
              |t.events| == 0 || exists j :: 0 <= j < |t.events| && t.events[j] == eventType)
  {
    if targets != [] {
      MatchingMeaning(targets[..|targets| - 1], eventType);
    }
  }

  // ---- The steps ----

  /** An emit begins, and later offers its job to its targets one by one; any number of emits may be under way, and
      workers may move between two offers. */
  datatype Event =
    | Emit(eventType: string)
    | Offer(i: nat)
    | Take(w: bool)
    | Finish(w: bool, result: Result)
    | Wake(w: bool)
    | Stop
    | Exit(w: bool)

  function WorkerOf(s: State, w: bool): Worker {
    if w then s.first else s.second
  }

  function WithWorker(s: State, w: bool, worker: Worker): State {
    if w then s.(first := worker) else s.(second := worker)
  }

  predicate Enabled(s: State, e: Event) {
    match e
    case Emit(_) => true
    case Offer(i) => i < |s.emits| && s.emits[i] != []
    case Take(w) => WorkerOf(s, w).Idle? && s.queue != []
    case Finish(w, _) => WorkerOf(s, w).Delivering?
    case Wake(w) => WorkerOf(s, w).Sleeping?
    case Stop => true
    case Exit(w) => WorkerOf(s, w).Idle? && s.stopped
  }

  /** One matching target: its job is queued, or dropped when the queue is full. */
  function Enqueue(s: State, target: Target): State {
    var id := s.next;
    var counted := s.(next := id + 1, tries := s.tries[id := 0], waited := s.waited[id := 0]);
    if |s.queue| < CAPACITY then counted.(queue := s.queue + [Job(id, target, 1)])
    else counted.(outcomes := s.outcomes[id := Dropped])
  }

  function OfferStep(s: State, i: nat): State
    requires Enabled(s, Offer(i))
  {
    Enqueue(s, s.emits[i][0]).(emits := s.emits[i := s.emits[i][1..]])
  }

  function Pause(c: Config, attempt: int): nat {
    Max(0, attempt * c.backoffSecs)
  }

  function Settle(s: State, id: nat, o: Outcome): State {
    s.(outcomes := s.outcomes[id := o])
  }

  function Post(s: State, id: nat): State {
    s.(tries := s.tries[id := (if id in s.tries then s.tries[id] else 0) + 1])
  }

  function Wait(s: State, id: nat, pause: nat): State {
    s.(waited := s.waited[id := (if id in s.waited then s.waited[id] else 0) + pause])
  }

  function FinishStep(c: Config, s: State, w: bool, result: Result): State
    requires WorkerOf(s, w).Delivering?
  {
    var job := WorkerOf(s, w).job;
    match result
    case BadUrl => WithWorker(Settle(s, job.id, GivenUp), w, Idle)
    case Accepted => WithWorker(Settle(Post(s, job.id), job.id, Delivered), w, Idle)
    case Rejected =>
      var posted := Post(s, job.id);
      if job.attempt < c.maxAttempts then WithWorker(Wait(posted, job.id, Pause(c, job.attempt)), w, Sleeping(job))
      else WithWorker(Settle(posted, job.id, GivenUp), w, Idle)
  }

  function WakeStep(s: State, w: bool): State
    requires WorkerOf(s, w).Sleeping?
  {
    var job := WorkerOf(s, w).job;
    var idle := WithWorker(s, w, Idle);
    if |s.queue| < CAPACITY then idle.(queue := s.queue + [job.(attempt := job.attempt + 1)])
    else idle.(outcomes := s.outcomes[job.id := GivenUp])
  }

  function Next(c: Config, s: State, e: Event): State
    requires Enabled(s, e)
  {
    match e
    case Emit(eventType) => s.(emits := s.emits + [if c.enabled then Matching(c.targets, eventType) else []])
    case Offer(i) => OfferStep(s, i)
    case Take(w) => WithWorker(s, w, Delivering(s.queue[0])).(queue := s.queue[1..])
    case Finish(w, result) => FinishStep(c, s, w, result)
    case Wake(w) => WakeStep(s, w)
    case Stop => s.(stopped := true)
    case Exit(w) => WithWorker(s, w, Exited)
  }

  // ---- Every job is in one place ----

  function QueueCount(queue: seq<Job>, id: nat): nat {
    if queue == [] then 0 else (if queue[0].id == id then 1 else 0) + QueueCount(queue[1..], id)
  }

  predicate Holds(w: Worker, id: nat) {
    (w.Delivering? || w.Sleeping?) && w.job.id == id
  }

  /** In how many places a job is: queued, with a worker, or settled. */
  function Places(s: State, id: nat): nat {
    QueueCount(s.queue, id) + (if Holds(s.first, id) then 1 else 0) + (if Holds(s.second, id) then 1 else 0) +
    if id in s.outcomes then 1 else 0
  }

  /** Each emitted job is exactly once queued, with a worker, or settled; there are no other jobs. */
  ghost predicate Partitioned(s: State) {
    forall id: nat :: Places(s, id) == if id < s.next then 1 else 0
  }

  lemma {:induction false} QueueCountAppend(queue: seq<Job>, job: Job, id: nat)
    ensures QueueCount(queue + [job], id) == QueueCount(queue, id) + if job.id == id then 1 else 0
  {
    if queue == [] {
      assert queue + [job] == [job];
      assert QueueCount([job], id) == (if job.id == id then 1 else 0) + QueueCount([], id);
    } else {
      assert (queue + [job])[1..] == queue[1..] + [job];
      QueueCountAppend(queue[1..], job, id);
    }
  }

  lemma {:induction false} QueueCounts(queue: seq<Job>, i: nat)
    requires i < |queue|
    ensures QueueCount(queue, queue[i].id) >= 1
  {
    if i > 0 {
      QueueCounts(queue[1..], i - 1);
    }
  }

  ghost predicate Safe(s: State) {
    Partitioned(s) && |s.queue| <= CAPACITY
  }

  lemma EnqueueSafe(s: State, target: Target)
    requires Safe(s)
    ensures Safe(Enqueue(s, target)) && Enqueue(s, target).next == s.next + 1
  {
    var t := Enqueue(s, target);
    forall id: nat
      ensures Places(t, id) == if id < t.next then 1 else 0
    {
      assert Places(s, id) == if id < s.next then 1 else 0;
      QueueCountAppend(s.queue, Job(s.next, target, 1), id);
    }
  }

  lemma SamePlaces(s: State, t: State)
    requires Safe(s) && t.queue == s.queue && t.outcomes == s.outcomes && t.next == s.next
    requires forall id: nat :: Holds(t.first, id) <==> Holds(s.first, id)
    requires forall id: nat :: Holds(t.second, id) <==> Holds(s.second, id)
    ensures Safe(t)
  {
    forall id: nat
      ensures Places(t, id) == if id < t.next then 1 else 0
    {
      assert Places(s, id) == if id < s.next then 1 else 0;
    }
  }

  lemma TakeSafe(s: State, w: bool)
    requires Safe(s) && WorkerOf(s, w).Idle? && s.queue != []
    ensures Safe(WithWorker(s, w, Delivering(s.queue[0])).(queue := s.queue[1..]))
  {
    var t := WithWorker(s, w, Delivering(s.queue[0])).(queue := s.queue[1..]);
    forall id: nat
      ensures Places(t, id) == if id < t.next then 1 else 0
    {
      assert Places(s, id) == if id < s.next then 1 else 0;
    }
  }

  lemma FinishSafe(c: Config, s: State, w: bool, result: Result)
    requires Safe(s) && WorkerOf(s, w).Delivering?
    ensures Safe(FinishStep(c, s, w, result))
  {
    hide QueueCount, Pause;
    var t := FinishStep(c, s, w, result);
    forall id: nat
      ensures Places(t, id) == if id < t.next then 1 else 0
    {
      assert Places(s, id) == if id < s.next then 1 else 0;
    }
  }

  lemma WakeSafe(s: State, w: bool)
    requires Safe(s) && WorkerOf(s, w).Sleeping?
    ensures Safe(WakeStep(s, w))
  {
    hide QueueCount;
    var job, t := WorkerOf(s, w).job, WakeStep(s, w);
    forall id: nat
      ensures Places(t, id) == if id < t.next then 1 else 0
    {
      assert Places(s, id) == if id < s.next then 1 else 0;
      QueueCountAppend(s.queue, job.(attempt := job.attempt + 1), id);
    }
  }

  lemma StepSafe(c: Config, s: State, e: Event)
    requires Safe(s) && Enabled(s, e)
    ensures Safe(Next(c, s, e))
  {
    match e
    case Emit(_) => SamePlaces(s, Next(c, s, e));
    case Offer(i) =>
      EnqueueSafe(s, s.emits[i][0]);
      SamePlaces(Enqueue(s, s.emits[i][0]), OfferStep(s, i));
    case Take(w) => TakeSafe(s, w);
    case Finish(w, result) => FinishSafe(c, s, w, result);
    case Wake(w) => WakeSafe(s, w);
    case Stop => SamePlaces(s, s.(stopped := true));
    case Exit(w) => SamePlaces(s, WithWorker(s, w, Exited));
  }

  // ---- Retries are bounded ----

  /** 0 + 1 + ... + (n - 1). */
  function Triangle(n: nat): nat {
    if n == 0 then 0 else Triangle(n - 1) + (n - 1)
  }

  lemma {:induction false} TriangleFormula(n: nat)
    ensures 2 * Triangle(n) == n * (n - 1)
  {
    if n > 0 {
      TriangleFormula(n - 1);
      assert n * (n - 1) == (n - 1) * (n - 2) + 2 * (n - 1);
    }
  }

  lemma {:induction false} TriangleMonotone(a: nat, b: nat)
    requires a <= b
    ensures Triangle(a) <= Triangle(b)
    decreases b
  {
    if a < b {
      TriangleMonotone(a, b - 1);
    }
  }

  function AttemptLimit(c: Config): nat {
    Max(1, c.maxAttempts)
  }

  function BackoffUnit(c: Config): nat {
    Max(0, c.backoffSecs)
  }

  /** A job about to be posted for the `attempt`-th time has been posted and has paused for all earlier ones. */
  ghost predicate Ready(c: Config, s: State, job: Job) {
    && 1 <= job.attempt <= AttemptLimit(c)
    && job.id in s.tries && s.tries[job.id] == job.attempt - 1
    && job.id in s.waited && s.waited[job.id] == BackoffUnit(c) * Triangle(job.attempt)
  }

  ghost predicate Pausing(c: Config, s: State, job: Job) {
    && 1 <= job.attempt < AttemptLimit(c)
    && job.id in s.tries && s.tries[job.id] == job.attempt
    && job.id in s.waited && s.waited[job.id] == BackoffUnit(c) * Triangle(job.attempt + 1)
  }

  ghost predicate WorkerReady(c: Config, s: State, w: Worker) {
    match w
    case Delivering(job) => Ready(c, s, job)
    case Sleeping(job) => Pausing(c, s, job)
    case _ => true
  }

  ghost predicate Bounded(c: Config, s: State) {
    && (forall i | 0 <= i < |s.queue| :: Ready(c, s, s.queue[i]))
    && WorkerReady(c, s, s.first) && WorkerReady(c, s, s.second)
    && (forall id | id in s.tries :: s.tries[id] <= AttemptLimit(c))
    && (forall id | id in s.waited :: s.waited[id] <= BackoffUnit(c) * Triangle(AttemptLimit(c)))
  }

  predicate HasJob(w: Worker) {
    w.Delivering? || w.Sleeping?
  }

  /** A job with a worker is nowhere else. */
  lemma NumbersApart(s: State, w: bool)
    requires Partitioned(s) && HasJob(WorkerOf(s, w))
    ensures forall i | 0 <= i < |s.queue| :: s.queue[i].id != WorkerOf(s, w).job.id
    ensures HasJob(WorkerOf(s, !w)) ==> WorkerOf(s, !w).job.id != WorkerOf(s, w).job.id
  {
    var id := WorkerOf(s, w).job.id;
    assert Places(s, id) <= 1;
    forall i | 0 <= i < |s.queue|
      ensures s.queue[i].id != id
    {
      QueueCounts(s.queue, i);
    }
  }

  lemma AllNumbered(s: State)
    requires Partitioned(s)
    ensures forall i | 0 <= i < |s.queue| :: s.queue[i].id < s.next
    ensures HasJob(s.first) ==> s.first.job.id < s.next
    ensures HasJob(s.second) ==> s.second.job.id < s.next
  {
    forall i | 0 <= i < |s.queue|
      ensures s.queue[i].id < s.next
    {
      QueueCounts(s.queue, i);
      assert Places(s, s.queue[i].id) >= 1;
    }
    if HasJob(s.first) {
      assert Places(s, s.first.job.id) >= 1;
    }
    if HasJob(s.second) {
      assert Places(s, s.second.job.id) >= 1;
    }
  }

  /** Both kinds of progress survive when the records of the job in question do. */
  lemma ReadyKept(c: Config, s: State, t: State, job: Job)
    requires job.id in s.tries ==> job.id in t.tries && t.tries[job.id] == s.tries[job.id]
    requires job.id in s.waited ==> job.id in t.waited && t.waited[job.id] == s.waited[job.id]
    ensures Ready(c, s, job) ==> Ready(c, t, job)
    ensures Pausing(c, s, job) ==> Pausing(c, t, job)
  {
    hide Triangle, BackoffUnit, AttemptLimit;
  }

  lemma WorkerKept(c: Config, s: State, t: State, w: Worker)
    requires WorkerReady(c, s, w)
    requires HasJob(w) ==> (w.job.id in s.tries ==> w.job.id in t.tries && t.tries[w.job.id] == s.tries[w.job.id])
    requires HasJob(w) ==> (w.job.id in s.waited ==> w.job.id in t.waited && t.waited[w.job.id] == s.waited[w.job.id])
    ensures WorkerReady(c, t, w)
  {
    hide Ready, Pausing;
    if HasJob(w) {
      ReadyKept(c, s, t, w.job);
    }
  }

  lemma MulMonotone(a: nat, x: nat, y: nat)
    requires x <= y
    ensures a * x <= a * y
  {
  }

  lemma EnqueueBounded(c: Config, s: State, target: Target)
    requires Safe(s) && Bounded(c, s)
    ensures Bounded(c, Enqueue(s, target))
  {
    AllNumbered(s);
    var t, job := Enqueue(s, target), Job(s.next, target, 1);
    assert Triangle(1) == 0;
    assert Ready(c, t, job);
    MulMonotone(BackoffUnit(c), 0, Triangle(AttemptLimit(c)));
    hide Partitioned, Triangle, BackoffUnit, AttemptLimit, Ready, Pausing;
    forall i | 0 <= i < |s.queue|
      ensures Ready(c, t, s.queue[i])
    {
      ReadyKept(c, s, t, s.queue[i]);
    }
    WorkerKept(c, s, t, s.first);
    WorkerKept(c, s, t, s.second);
  }

  lemma PauseAdds(c: Config, attempt: nat)
    requires attempt >= 1
    ensures BackoffUnit(c) * Triangle(attempt) + Pause(c, attempt) == BackoffUnit(c) * Triangle(attempt + 1)
  {
    var unit := BackoffUnit(c);
    assert Pause(c, attempt) == unit * attempt by {
      if c.backoffSecs < 0 {
        assert attempt * c.backoffSecs <= 0;
      } else {
        assert attempt * c.backoffSecs == unit * attempt;
      }
    }
    assert unit * (Triangle(attempt) + attempt) == unit * Triangle(attempt) + unit * attempt;
  }

  /** The finishing worker's own job: its new records are right and within the bounds. */
  lemma FinishedWorkerReady(c: Config, s: State, w: bool, result: Result)
    requires Bounded(c, s) && WorkerOf(s, w).Delivering?
    ensures var t, id := FinishStep(c, s, w, result), WorkerOf(s, w).job.id;
            && WorkerReady(c, t, WorkerOf(t, w))
            && id in t.tries && t.tries[id] <= AttemptLimit(c)
            && id in t.waited && t.waited[id] <= BackoffUnit(c) * Triangle(AttemptLimit(c))
  {
    var job := WorkerOf(s, w).job;
    assert Ready(c, s, job);
    PauseAdds(c, job.attempt);
    if job.attempt < c.maxAttempts {
      TriangleMonotone(job.attempt + 1, AttemptLimit(c));
      MulMonotone(BackoffUnit(c), Triangle(job.attempt + 1), Triangle(AttemptLimit(c)));
    }
    hide Triangle, Pause, BackoffUnit;
  }

  lemma FinishBounded(c: Config, s: State, w: bool, result: Result)
    requires Safe(s) && Bounded(c, s) && WorkerOf(s, w).Delivering?
    ensures Bounded(c, FinishStep(c, s, w, result))
  {
    NumbersApart(s, w);
    FinishedWorkerReady(c, s, w, result);
    hide Partitioned, Triangle, BackoffUnit, AttemptLimit, Ready, Pausing, Pause;
    var t := FinishStep(c, s, w, result);
    forall i | 0 <= i < |s.queue|
      ensures Ready(c, t, s.queue[i])
    {
      ReadyKept(c, s, t, s.queue[i]);
    }
    WorkerKept(c, s, t, WorkerOf(s, !w));
  }

  lemma WakeBounded(c: Config, s: State, w: bool)
    requires Safe(s) && Bounded(c, s) && WorkerOf(s, w).Sleeping?
    ensures Bounded(c, WakeStep(s, w))
  {
    hide Partitioned, Triangle, BackoffUnit;
    var job, t := WorkerOf(s, w).job, WakeStep(s, w);
    assert Pausing(c, s, job);
    assert Ready(c, s, job.(attempt := job.attempt + 1));
    assert forall j: Job | Ready(c, s, j) :: Ready(c, t, j);
    assert forall j: Job | Pausing(c, s, j) :: Pausing(c, t, j);
  }

  lemma TakeBounded(c: Config, s: State, w: bool)
    requires Bounded(c, s) && WorkerOf(s, w).Idle? && s.queue != []
    ensures Bounded(c, WithWorker(s, w, Delivering(s.queue[0])).(queue := s.queue[1..]))
  {
    hide Triangle, BackoffUnit;
    var t := WithWorker(s, w, Delivering(s.queue[0])).(queue := s.queue[1..]);
    assert Ready(c, s, s.queue[0]);
    assert forall j: Job | Ready(c, s, j) :: Ready(c, t, j);
    assert forall j: Job | Pausing(c, s, j) :: Pausing(c, t, j);
  }

  lemma RestBounded(c: Config, s: State, t: State)
    requires Bounded(c, s) && t.queue == s.queue && t.tries == s.tries && t.waited == s.waited
    requires t.first == s.first || t.first.Exited?
    requires t.second == s.second || t.second.Exited?
    ensures Bounded(c, t)
  {
    hide Triangle, BackoffUnit;
    assert forall j: Job | Ready(c, s, j) :: Ready(c, t, j);
    assert forall j: Job | Pausing(c, s, j) :: Pausing(c, t, j);
  }

  lemma StepBounded(c: Config, s: State, e: Event)
    requires Safe(s) && Bounded(c, s) && Enabled(s, e)
    ensures Bounded(c, Next(c, s, e))
  {
    hide Bounded, Safe;
    match e
    case Emit(_) => RestBounded(c, s, Next(c, s, e));
    case Offer(i) =>
      EnqueueBounded(c, s, s.emits[i][0]);
      RestBounded(c, Enqueue(s, s.emits[i][0]), OfferStep(s, i));
    case Take(w) => TakeBounded(c, s, w);
    case Finish(w, result) => FinishBounded(c, s, w, result);
    case Wake(w) => WakeBounded(c, s, w);
    case Stop => RestBounded(c, s, s.(stopped := true));
    case Exit(w) => RestBounded(c, s, WithWorker(s, w, Exited));
  }

  // ---- Runs ----

  /** The states a sequence of events leads through, as far as each is enabled. */
  ghost predicate IsRun(c: Config, s: State, events: seq<Event>, t: State)
    decreases |events|
  {
    if events == [] then s == t
    else Enabled(s, events[0]) && IsRun(c, Next(c, s, events[0]), events[1..], t)
  }

  lemma {:induction false} RunSafe(c: Config, s: State, events: seq<Event>, t: State)
    requires Safe(s) && Bounded(c, s) && IsRun(c, s, events, t)
    ensures Safe(t) && Bounded(c, t)
    decreases |events|
  {
    hide Safe, Bounded, Next;
    if events != [] {
      StepSafe(c, s, events[0]);
      StepBounded(c, s, events[0]);
      RunSafe(c, Next(c, s, events[0]), events[1..], t);
    }
  }

  lemma StartsSafe(c: Config)
    ensures Safe(INITIAL) && Bounded(c, INITIAL)
  {
    assert forall id: nat :: Places(INITIAL, id) == 0;
  }

  lemma PausesFormula(unit: nat, k: nat)
    ensures 2 * (unit * Triangle(k)) == unit * (k * (k - 1))
  {
    TriangleFormula(k);
    assert 2 * (unit * Triangle(k)) == unit * (2 * Triangle(k));
  }

  /** In every interleaving of any number of emits, their single offers, both workers, and a stop: each offered job
      is in exactly one place, the queue stays within its capacity, no job is posted more often than allowed, and no
      job's pauses add up to more than the backoff unit times M(M - 1) / 2. */
  lemma DispatcherSafe(c: Config, events: seq<Event>, t: State)
    requires IsRun(c, INITIAL, events, t)
    ensures Partitioned(t) && |t.queue| <= 256
    ensures forall id | id in t.tries :: t.tries[id] <= Max(1, c.maxAttempts)
    ensures var m := Max(1, c.maxAttempts);
            forall id | id in t.waited :: 2 * t.waited[id] <= Max(0, c.backoffSecs) * (m * (m - 1))
  {
    StartsSafe(c);
    RunSafe(c, INITIAL, events, t);
    var m, unit := AttemptLimit(c), BackoffUnit(c);
    PausesFormula(unit, m);
    hide Triangle;
  }

  /** What a worker has behind it with a job: posting it for the k-th time, k - 1 posts and the pauses after them;
      pausing after the k-th post, that pause too. The pause after the k-th post is k backoff units. */
  lemma RetriesExact(c: Config, events: seq<Event>, t: State, w: bool)
    requires IsRun(c, INITIAL, events, t) && HasJob(WorkerOf(t, w))
    ensures var job := WorkerOf(t, w).job;
            var posts := if WorkerOf(t, w).Delivering? then job.attempt - 1 else job.attempt;
            && job.id in t.tries && t.tries[job.id] == posts
            && job.id in t.waited && 2 * t.waited[job.id] == Max(0, c.backoffSecs) * ((posts + 1) * posts)
  {
    StartsSafe(c);
    RunSafe(c, INITIAL, events, t);
    var worker := WorkerOf(t, w);
    assert WorkerReady(c, t, worker);
    var k := if worker.Delivering? then worker.job.attempt else worker.job.attempt + 1;
    PausesFormula(BackoffUnit(c), k);
    hide Triangle, Partitioned, IsRun;
  }

  // ---- Jobs leave the queue in the order in which they entered ----

  /** The job that a step puts into the queue, if any. */
  function Entering(s: State, e: Event): seq<Job>
    requires Enabled(s, e)
  {
    match e
    case Offer(i) => if |s.queue| < 256 then [Job(s.next, s.emits[i][0], 1)] else []
    case Wake(w) =>
      var job := WorkerOf(s, w).job;
      if |s.queue| < 256 then [job.(attempt := job.attempt + 1)] else []
    case _ => []
  }

  function Entered(c: Config, s: State, events: seq<Event>): seq<Job>
    decreases |events|
  {
    if events == [] || !Enabled(s, events[0]) then []
    else Entering(s, events[0]) + Entered(c, Next(c, s, events[0]), events[1..])
  }

  /** The jobs that workers get during a run, in order. */
  function Taken(c: Config, s: State, events: seq<Event>): seq<Job>
    decreases |events|
  {
    if events == [] || !Enabled(s, events[0]) then [] else
      var t := Next(c, s, events[0]);
      (if events[0].Take? then [WorkerOf(t, events[0].w).job] else []) + Taken(c, t, events[1..])
  }

  lemma FinishQueue(c: Config, s: State, w: bool, result: Result)
    requires WorkerOf(s, w).Delivering?
    ensures FinishStep(c, s, w, result).queue == s.queue
  {
    hide Pause;
  }

  lemma StepFifo(c: Config, s: State, e: Event)
    requires Enabled(s, e)
    ensures e.Take? ==> WorkerOf(Next(c, s, e), e.w).Delivering?
    ensures s.queue + Entering(s, e) ==
            (if e.Take? then [WorkerOf(Next(c, s, e), e.w).job] else []) + Next(c, s, e).queue
  {
    hide Pause, Matching;
    match e
    case Finish(w, result) => FinishQueue(c, s, w, result);
    case _ =>
  }

  lemma {:induction false} RunFifo(c: Config, s: State, events: seq<Event>, t: State)
    requires IsRun(c, s, events, t)
    ensures s.queue + Entered(c, s, events) == Taken(c, s, events) + t.queue
    decreases |events|
  {
    hide Next, Entering;
    if events == [] {
      assert s.queue + [] == [] + t.queue;
    } else {
      var e, u := events[0], Next(c, s, events[0]);
      StepFifo(c, s, e);
      RunFifo(c, u, events[1..], t);
      var got := if e.Take? then [WorkerOf(u, e.w).job] else [];
      calc {
        s.queue + Entered(c, s, events);
        s.queue + Entering(s, e) + Entered(c, u, events[1..]);
        got + (u.queue + Entered(c, u, events[1..]));
        got + Taken(c, u, events[1..]) + t.queue;
        Taken(c, s, events) + t.queue;
      }
    }
  }

  /** What has entered the queue is what workers have got, in that order, followed by what is still queued. */
  lemma QueueIsFifo(c: Config, events: seq<Event>, t: State)
    requires IsRun(c, INITIAL, events, t)
    ensures Entered(c, INITIAL, events) == Taken(c, INITIAL, events) + t.queue
  {
    RunFifo(c, INITIAL, events, t);
    assert [] + Entered(c, INITIAL, events) == Entered(c, INITIAL, events);
  }

  // ---- Outcomes tell the truth ----

  predicate Ended(s: State, id: nat, o: Outcome) {
    id in s.outcomes && s.outcomes[id] == o
  }

  /** The step in which a job comes to its outcome: its post is accepted; its address is bad, its last allowed post is
      rejected, or the queue is full when it wants to be tried again; or the queue is full when it is offered. */
  predicate Settles(c: Config, s: State, e: Event, id: nat, o: Outcome)
    requires Enabled(s, e)
  {
    match o
    case Delivered => e.Finish? && e.result.Accepted? && WorkerOf(s, e.w).job.id == id
    case GivenUp =>
      || (e.Finish? && WorkerOf(s, e.w).job.id == id &&
          (e.result.BadUrl? || (e.result.Rejected? && id in s.tries && s.tries[id] + 1 == Max(1, c.maxAttempts))))
      || (e.Wake? && WorkerOf(s, e.w).job.id == id && |s.queue| == 256)
    case Dropped => e.Offer? && id == s.next && |s.queue| == 256
  }

  predicate SettledIn(c: Config, s: State, events: seq<Event>, id: nat, o: Outcome)
    decreases |events|
  {
    events != [] && Enabled(s, events[0]) &&
    (Settles(c, s, events[0], id, o) || SettledIn(c, Next(c, s, events[0]), events[1..], id, o))
  }

  /** A job that is being posted has no outcome yet and was posted once less than its attempt says. */
  lemma PostedJob(c: Config, s: State, w: bool)
    requires Safe(s) && Bounded(c, s) && WorkerOf(s, w).Delivering?
    ensures var job := WorkerOf(s, w).job;
            && job.id !in s.outcomes && job.id in s.tries && s.tries[job.id] == job.attempt - 1
            && 1 <= job.attempt <= AttemptLimit(c)
  {
    assert Places(s, WorkerOf(s, w).job.id) == 1;
    assert Ready(c, s, WorkerOf(s, w).job);
  }

  lemma FinishOutcomes(c: Config, s: State, w: bool, result: Result, id: nat, o: Outcome)
    requires Safe(s) && Bounded(c, s) && WorkerOf(s, w).Delivering?
    ensures Ended(FinishStep(c, s, w, result), id, o) <==> Ended(s, id, o) || Settles(c, s, Finish(w, result), id, o)
  {
    PostedJob(c, s, w);
    hide Pause, Safe, Bounded;
  }

  lemma WakeOutcomes(c: Config, s: State, w: bool, id: nat, o: Outcome)
    requires Safe(s) && WorkerOf(s, w).Sleeping?
    ensures Ended(WakeStep(s, w), id, o) <==> Ended(s, id, o) || Settles(c, s, Wake(w), id, o)
  {
    assert Places(s, WorkerOf(s, w).job.id) == 1;
    hide QueueCount, Partitioned;
  }

  /** A step settles exactly the job it should, with the right outcome, and never revises an outcome. */
  lemma StepOutcomes(c: Config, s: State, e: Event, id: nat, o: Outcome)
    requires Safe(s) && Bounded(c, s) && Enabled(s, e)
    ensures Ended(Next(c, s, e), id, o) <==> Ended(s, id, o) || Settles(c, s, e, id, o)
  {
    hide QueueCount, Bounded, FinishStep, WakeStep;
    match e
    case Offer(i) => assert Places(s, s.next) == 0;
    case Finish(w, result) => FinishOutcomes(c, s, w, result, id, o);
    case Wake(w) => WakeOutcomes(c, s, w, id, o);
    case _ =>
  }

  lemma {:induction false} RunOutcomes(c: Config, s: State, events: seq<Event>, t: State, id: nat, o: Outcome)
    requires Safe(s) && Bounded(c, s) && IsRun(c, s, events, t)
    ensures Ended(t, id, o) <==> Ended(s, id, o) || SettledIn(c, s, events, id, o)
    decreases |events|
  {
    hide Safe, Bounded, Ended, Next, Settles;
    if events != [] {
      StepSafe(c, s, events[0]);
      StepBounded(c, s, events[0]);
      StepOutcomes(c, s, events[0], id, o);
      RunOutcomes(c, Next(c, s, events[0]), events[1..], t, id, o);
    }
  }

  /** In every run from the start, a job has an outcome exactly when some step of the run settled it that way, and once
      it is settled its outcome stands. */
  lemma OutcomesExplained(c: Config, events: seq<Event>, more: seq<Event>, s: State, t: State, id: nat, o: Outcome)
    requires IsRun(c, INITIAL, events, s) && IsRun(c, s, more, t)
    ensures Ended(s, id, o) <==> SettledIn(c, INITIAL, events, id, o)
    ensures Ended(s, id, o) ==> Ended(t, id, o)
  {
    StartsSafe(c);
    RunSafe(c, INITIAL, events, s);
    RunOutcomes(c, INITIAL, events, s, id, o);
    RunOutcomes(c, s, more, t, id, o);
  }

  // ---- Every matching target is offered its job ----

  /** How many offers are still to be made. */
  function Pending(emits: seq<seq<Target>>): nat {
    if emits == [] then 0 else Pending(emits[..|emits| - 1]) + |emits[|emits| - 1]|
  }

  lemma {:induction false} PendingLess(emits: seq<seq<Target>>, i: nat)
    requires i < |emits| && emits[i] != []
    ensures Pending(emits[i := emits[i][1..]]) == Pending(emits) - 1
  {
    var k := |emits| - 1;
    var after := emits[i := emits[i][1..]];
    if i < k {
      PendingLess(emits[..k], i);
      assert after[..k] == emits[..k][i := emits[i][1..]];
    } else {
      assert after[..k] == emits[..k];
    }
  }

  /** The targets offered during a run, in order: the job numbers of the model. */
  function Offered(c: Config, s: State, events: seq<Event>): seq<Target>
    decreases |events|
  {
    if events == [] || !Enabled(s, events[0]) then [] else
      (if events[0].Offer? then [s.emits[events[0].i][0]] else []) + Offered(c, Next(c, s, events[0]), events[1..])
  }

  lemma FinishNumbers(c: Config, s: State, w: bool, result: Result)
    requires WorkerOf(s, w).Delivering?
    ensures FinishStep(c, s, w, result).emits == s.emits
  {
    hide Pause;
  }

  lemma WakeNumbers(s: State, w: bool)
    requires WorkerOf(s, w).Sleeping?
    ensures WakeStep(s, w).emits == s.emits
  {
  }

  /** The targets that still wait for their offers, each as often as it waits. */
  ghost function Waiting(emits: seq<seq<Target>>): multiset<Target> {
    if emits == [] then multiset{} else Waiting(emits[..|emits| - 1]) + multiset(emits[|emits| - 1])
  }

  lemma {:induction false} WaitingLess(emits: seq<seq<Target>>, i: nat)
    requires i < |emits| && emits[i] != []
    ensures Waiting(emits) == Waiting(emits[i := emits[i][1..]]) + multiset{emits[i][0]}
  {
    var k := |emits| - 1;
    var after := emits[i := emits[i][1..]];
    if i < k {
      WaitingLess(emits[..k], i);
      assert after[..k] == emits[..k][i := emits[i][1..]];
    } else {
      assert after[..k] == emits[..k];
      assert emits[k] == [emits[k][0]] + emits[k][1..];
    }
  }

  /** The types of the events emitted during a run. */
  function Emitted(events: seq<Event>): seq<string>
    decreases |events|
  {
    if events == [] then []
    else (if events[0].Emit? then [events[0].eventType] else []) + Emitted(events[1..])
  }

  /** The emits of a run that a target is due for: without a filter all of them, otherwise those of its listed types. */
  ghost function DueEmits(events: seq<Event>, target: Target): nat {
    |Filter(Emitted(events), (eventType: string) => target.events == [] || eventType in target.events)|
  }

  /** How often a target is due in a run: at each of those emits as often as it is configured. */
  ghost function DueFor(c: Config, events: seq<Event>, target: Target): nat {
    if c.enabled then multiset(c.targets)[target] * DueEmits(events, target) else 0
  }

  lemma MatchingCounts(targets: seq<Target>, eventType: string, target: Target)
    ensures multiset(Matching(targets, eventType))[target] ==
            if target.events == [] || eventType in target.events then multiset(targets)[target] else 0
  {
    var wanted := (t: Target) => |t.events| == 0 || exists j :: 0 <= j < |t.events| && t.events[j] == eventType;
    MatchingMeaning(targets, eventType);
    FilterCounts(targets, wanted, target);
    hide Filter, Matching;
  }

  lemma OneMoreType(eventType: string, rest: seq<string>, due: string -> bool)
    ensures |Filter([eventType] + rest, due)| == (if due(eventType) then 1 else 0) + |Filter(rest, due)|
  {
    FilterAppend([eventType], rest, due);
    FilterSnoc([], eventType, due);
    assert [] + [eventType] == [eventType];
  }

  lemma DueEmitsStep(events: seq<Event>, target: Target)
    requires events != []
    ensures DueEmits(events, target) ==
            DueEmits(events[1..], target) +
            if events[0].Emit? && (target.events == [] || events[0].eventType in target.events) then 1 else 0
  {
    var rest := Emitted(events[1..]);
    if events[0].Emit? {
      OneMoreType(events[0].eventType, rest,
                  (eventType: string) => target.events == [] || eventType in target.events);
      assert Emitted(events) == [events[0].eventType] + rest;
    } else {
      assert Emitted(events) == rest;
    }
    hide Filter, Emitted;
  }

  lemma OneMoreDue(times: nat, emits: nat)
    ensures times * (1 + emits) == times * emits + times
  {
  }

  lemma DueStep(c: Config, events: seq<Event>, target: Target)
    requires events != []
    ensures DueFor(c, events, target) ==
            DueFor(c, events[1..], target) +
            if events[0].Emit? && c.enabled then multiset(Matching(c.targets, events[0].eventType))[target] else 0
  {
    DueEmitsStep(events, target);
    if events[0].Emit? {
      MatchingCounts(c.targets, events[0].eventType, target);
    }
    hide DueEmits, Matching;
    OneMoreDue(multiset(c.targets)[target], DueEmits(events[1..], target));
  }

  lemma StepWaiting(c: Config, s: State, e: Event)
    requires Enabled(s, e)
    ensures (if e.Offer? then multiset{s.emits[e.i][0]} else multiset{}) + Waiting(Next(c, s, e).emits) ==
            Waiting(s.emits) + if e.Emit? && c.enabled then multiset(Matching(c.targets, e.eventType)) else multiset{}
  {
    hide FinishStep, WakeStep, Matching;
    match e
    case Emit(eventType) => assert Next(c, s, e).emits[..|s.emits|] == s.emits;
    case Offer(i) => WaitingLess(s.emits, i);
    case Finish(w, result) => FinishNumbers(c, s, w, result);
    case Wake(w) => WakeNumbers(s, w);
    case _ =>
  }

  lemma {:induction false} RunWaiting(c: Config, s: State, events: seq<Event>, t: State, target: Target)
    requires IsRun(c, s, events, t)
    ensures multiset(Offered(c, s, events))[target] + Waiting(t.emits)[target] ==
            Waiting(s.emits)[target] + DueFor(c, events, target)
    decreases |events|
  {
    hide Next, Waiting, Matching;
    if events == [] {
      assert Emitted(events) == [];
    } else {
      var e, u := events[0], Next(c, s, events[0]);
      StepWaiting(c, s, e);
      RunWaiting(c, u, events[1..], t, target);
      DueStep(c, events, target);
      hide DueFor;
      var now := if e.Offer? then multiset{s.emits[e.i][0]} else multiset{};
      var due := if e.Emit? && c.enabled then multiset(Matching(c.targets, e.eventType)) else multiset{};
      assert multiset(Offered(c, s, events)) == now + multiset(Offered(c, u, events[1..]));
      assert (now + Waiting(u.emits))[target] == (Waiting(s.emits) + due)[target];
    }
  }

  ghost predicate JobFor(job: Job, offered: seq<Target>) {
    job.id < |offered| && job.target == offered[job.id]
  }

  /** Every job under way is for the target it was offered with. */
  ghost predicate TargetsKept(s: State, offered: seq<Target>) {
    && s.next == |offered|
    && (forall i | 0 <= i < |s.queue| :: JobFor(s.queue[i], offered))
    && (HasJob(s.first) ==> JobFor(s.first.job, offered))
    && (HasJob(s.second) ==> JobFor(s.second.job, offered))
  }

  lemma FinishTargets(c: Config, s: State, w: bool, result: Result, offered: seq<Target>)
    requires WorkerOf(s, w).Delivering? && TargetsKept(s, offered)
    ensures TargetsKept(FinishStep(c, s, w, result), offered)
  {
    hide JobFor, Pause;
  }

  lemma OfferTargets(s: State, i: nat, offered: seq<Target>)
    requires Enabled(s, Offer(i)) && TargetsKept(s, offered)
    ensures TargetsKept(OfferStep(s, i), offered + [s.emits[i][0]])
  {
    assert forall job | JobFor(job, offered) :: JobFor(job, offered + [s.emits[i][0]]);
    assert JobFor(Job(s.next, s.emits[i][0], 1), offered + [s.emits[i][0]]);
    hide JobFor;
  }

  lemma WakeTargets(s: State, w: bool, offered: seq<Target>)
    requires WorkerOf(s, w).Sleeping? && TargetsKept(s, offered)
    ensures TargetsKept(WakeStep(s, w), offered)
  {
    var job := WorkerOf(s, w).job;
    assert JobFor(job.(attempt := job.attempt + 1), offered);
    hide JobFor;
  }

  lemma StepTargets(c: Config, s: State, e: Event, offered: seq<Target>)
    requires Enabled(s, e) && TargetsKept(s, offered)
    ensures TargetsKept(Next(c, s, e), offered + if e.Offer? then [s.emits[e.i][0]] else [])
  {
    hide FinishStep, WakeStep, OfferStep, JobFor;
    assert offered + [] == offered;
    match e
    case Offer(i) => OfferTargets(s, i, offered);
    case Finish(w, result) => FinishTargets(c, s, w, result, offered);
    case Wake(w) => WakeTargets(s, w, offered);
    case _ =>
  }

  lemma {:induction false} RunTargets(c: Config, s: State, events: seq<Event>, t: State, offered: seq<Target>)
    requires TargetsKept(s, offered) && IsRun(c, s, events, t)
    ensures TargetsKept(t, offered + Offered(c, s, events))
    decreases |events|
  {
    if events == [] {
      assert offered + Offered(c, s, events) == offered;
    } else {
      var e := events[0];
      var now := if e.Offer? then [s.emits[e.i][0]] else [];
      StepTargets(c, s, e, offered);
      RunTargets(c, Next(c, s, e), events[1..], t, offered + now);
      assert offered + Offered(c, s, events) == offered + now + Offered(c, Next(c, s, e), events[1..]);
    }
  }

  /** In every run from the start, a target has been offered one job, or still waits for its offer, once for every emit
      that it is for: without a filter every emit, otherwise those of its listed types, times how often it is
      configured. And whatever happens to a job later, it stays a job for that target. */
  lemma OneJobPerMatch(c: Config, events: seq<Event>, t: State)
    requires IsRun(c, INITIAL, events, t)
    ensures forall target: Target ::
              multiset(Offered(c, INITIAL, events))[target] + Waiting(t.emits)[target] ==
              if !c.enabled then 0
              else multiset(c.targets)[target] *
                   |Filter(Emitted(events), (eventType: string) => target.events == [] || eventType in target.events)|
    ensures TargetsKept(t, Offered(c, INITIAL, events))
  {
    forall target: Target
      ensures multiset(Offered(c, INITIAL, events))[target] + Waiting(t.emits)[target] == DueFor(c, events, target)
    {
      RunWaiting(c, INITIAL, events, t, target);
    }
    RunTargets(c, INITIAL, events, t, []);
    assert [] + Offered(c, INITIAL, events) == Offered(c, INITIAL, events);
  }

  // ---- An emit that nothing interrupts ----

  /** All the offers of one emit, one right after the other. */
  function OfferAll(s: State, i: nat): State
    requires i < |s.emits|
    decreases |s.emits[i]|
  {
    if s.emits[i] == [] then s else OfferAll(OfferStep(s, i), i)
  }

  function Offers(i: nat, n: nat): seq<Event> {
    seq(n, _ => Offer(i))
  }

  lemma EnqueueNumbers(s: State, target: Target)
    ensures Enqueue(s, target).next == s.next + 1 && Enqueue(s, target).emits == s.emits
  {
  }

  /** That is one of the runs, and it numbers one job for each target left. */
  lemma {:induction false} EmitSafe(c: Config, s: State, i: nat)
    requires Safe(s) && i < |s.emits|
    ensures var t := OfferAll(s, i);
            && Safe(t) && IsRun(c, s, Offers(i, |s.emits[i]|), t)
            && t.next == s.next + |s.emits[i]| && t.emits == s.emits[i := []]
    decreases |s.emits[i]|
  {
    hide Safe, Enqueue;
    var n := |s.emits[i]|;
    if n > 0 {
      StepSafe(c, s, Offer(i));
      EnqueueNumbers(s, s.emits[i][0]);
      EmitSafe(c, OfferStep(s, i), i);
      assert Offers(i, n)[1..] == Offers(i, n - 1);
    }
  }

  lemma OfferOutcome(s: State, i: nat)
    requires i < |s.emits| && s.emits[i] != [] && |s.queue| <= 256
    ensures var u := OfferStep(s, i);
            && u.next == s.next + 1 && u.emits == s.emits[i := s.emits[i][1..]] && OfferAll(s, i) == OfferAll(u, i)
            && u.queue == s.queue + (if |s.queue| < 256 then [Job(s.next, s.emits[i][0], 1)] else [])
            && (|s.queue| == 256 ==> s.next in u.outcomes && u.outcomes[s.next] == Dropped)
            && forall id | id < s.next && id in s.outcomes :: id in u.outcomes && u.outcomes[id] == s.outcomes[id]
  {
  }

  /** The jobs for the first `room` targets. */
  function FirstJobs(next: nat, targets: seq<Target>, room: nat): seq<Job>
    requires room <= |targets|
  {
    seq(room, k requires 0 <= k < |targets| => Job(next + k, targets[k], 1))
  }

  lemma OneMoreJob(next: nat, targets: seq<Target>, room: nat)
    requires 0 < room <= |targets|
    ensures FirstJobs(next, targets, room) == [Job(next, targets[0], 1)] + FirstJobs(next + 1, targets[1..], room - 1)
  {
  }

  /** Its jobs stand in the queue in the order of the targets as far as there is room, and the rest is dropped. */
  lemma {:induction false} EmitQueues(s: State, i: nat)
    requires i < |s.emits| && |s.queue| <= 256
    ensures var t, n := OfferAll(s, i), |s.emits[i]|;
            var room := Min(n, 256 - |s.queue|);
            && t.queue == s.queue + FirstJobs(s.next, s.emits[i], room)
            && (forall id | s.next + room <= id < s.next + n :: id in t.outcomes && t.outcomes[id] == Dropped)
            && forall id | id < s.next && id in s.outcomes :: id in t.outcomes && t.outcomes[id] == s.outcomes[id]
    decreases |s.emits[i]|
  {
    if s.emits[i] != [] {
      OfferOutcome(s, i);
      EmitQueues(OfferStep(s, i), i);
      if |s.queue| < 256 {
        OneMoreJob(s.next, s.emits[i], Min(|s.emits[i]|, 256 - |s.queue|));
      }
      hide FirstJobs;
    }
  }

  // ---- Draining ----

  predicate Internal(e: Event) {
    e.Offer? || e.Take? || e.Finish? || e.Wake?
  }

  ghost function JobWeight(c: Config, job: Job): int {
    4 * (AttemptLimit(c) - job.attempt)
  }

  ghost function QueueWeight(c: Config, queue: seq<Job>): int {
    if queue == [] then 0 else JobWeight(c, queue[0]) + 3 + QueueWeight(c, queue[1..])
  }

  ghost function WorkerWeight(c: Config, w: Worker): int {
    match w
    case Delivering(job) => JobWeight(c, job) + 2
    case Sleeping(job) => JobWeight(c, job) + 1
    case _ => 0
  }

  /** How much work is left at most. An offer still to be made weighs more than the job it may queue. */
  ghost function Measure(c: Config, s: State): int {
    4 * AttemptLimit(c) * Pending(s.emits) + QueueWeight(c, s.queue) +
    WorkerWeight(c, s.first) + WorkerWeight(c, s.second)
  }

  lemma {:induction false} QueueWeightAppend(c: Config, queue: seq<Job>, job: Job)
    ensures QueueWeight(c, queue + [job]) == QueueWeight(c, queue) + JobWeight(c, job) + 3
  {
    if queue == [] {
      assert queue + [job] == [job];
      assert QueueWeight(c, [job]) == JobWeight(c, job) + 3 + QueueWeight(c, []);
    } else {
      assert (queue + [job])[1..] == queue[1..] + [job];
      QueueWeightAppend(c, queue[1..], job);
    }
  }

  lemma {:induction false} QueueWeightNonNegative(c: Config, queue: seq<Job>)
    requires forall i | 0 <= i < |queue| :: queue[i].attempt <= AttemptLimit(c)
    ensures QueueWeight(c, queue) >= 3 * |queue|
  {
    if queue != [] {
      QueueWeightNonNegative(c, queue[1..]);
    }
  }

  lemma MeasureNonNegative(c: Config, s: State)
    requires Bounded(c, s)
    ensures Measure(c, s) >= 0
  {
    hide Triangle, BackoffUnit;
    assert forall i | 0 <= i < |s.queue| :: Ready(c, s, s.queue[i]);
    QueueWeightNonNegative(c, s.queue);
  }

  lemma FinishDecreases(c: Config, s: State, w: bool, result: Result)
    requires Bounded(c, s) && WorkerOf(s, w).Delivering?
    ensures Measure(c, FinishStep(c, s, w, result)) < Measure(c, s)
  {
    assert Ready(c, s, WorkerOf(s, w).job);
    hide Triangle, BackoffUnit, QueueWeight, Bounded;
  }

  lemma WakeDecreases(c: Config, s: State, w: bool)
    requires Bounded(c, s) && WorkerOf(s, w).Sleeping?
    ensures Measure(c, WakeStep(s, w)) < Measure(c, s)
  {
    var job := WorkerOf(s, w).job;
    assert Pausing(c, s, job);
    hide Triangle, BackoffUnit, QueueWeight, Bounded;
    QueueWeightAppend(c, s.queue, job.(attempt := job.attempt + 1));
  }

  lemma TakeDecreases(c: Config, s: State, w: bool)
    requires WorkerOf(s, w).Idle? && s.queue != []
    ensures Measure(c, WithWorker(s, w, Delivering(s.queue[0])).(queue := s.queue[1..])) < Measure(c, s)
  {
    hide JobWeight;
  }

  lemma OfferDecreases(c: Config, s: State, i: nat)
    requires Enabled(s, Offer(i))
    ensures Measure(c, OfferStep(s, i)) < Measure(c, s)
  {
    var target, limit := s.emits[i][0], AttemptLimit(c);
    PendingLess(s.emits, i);
    QueueWeightAppend(c, s.queue, Job(s.next, target, 1));
    assert 4 * limit * (Pending(s.emits) - 1) == 4 * limit * Pending(s.emits) - 4 * limit;
    hide Pending, QueueWeight, WorkerWeight;
  }

  /** Offering, taking, finishing and waking each use up some of the remaining work. */
  lemma InternalDecreases(c: Config, s: State, e: Event)
    requires Bounded(c, s) && Enabled(s, e) && Internal(e)
    ensures Measure(c, Next(c, s, e)) < Measure(c, s)
  {
    hide Measure, Bounded;
    match e
    case Offer(i) => OfferDecreases(c, s, i);
    case Take(w) => TakeDecreases(c, s, w);
    case Finish(w, result) => FinishDecreases(c, s, w, result);
    case Wake(w) => WakeDecreases(c, s, w);
  }

  /** Once no new emit begins, only boundedly many steps remain. */
  lemma {:induction false} DrainBounded(c: Config, s: State, events: seq<Event>, t: State)
    requires Safe(s) && Bounded(c, s) && IsRun(c, s, events, t) && forall e | e in events :: Internal(e)
    ensures |events| <= Measure(c, s) - Measure(c, t)
    ensures Measure(c, t) >= 0
    decreases |events|
  {
    hide Safe, Bounded, Next, Measure;
    if events == [] {
      MeasureNonNegative(c, s);
    } else {
      assert Internal(events[0]);
      StepSafe(c, s, events[0]);
      StepBounded(c, s, events[0]);
      InternalDecreases(c, s, events[0]);
      assert forall e | e in events[1..] :: e in events;
      DrainBounded(c, Next(c, s, events[0]), events[1..], t);
    }
  }

  /** What a step keeps, and what an internal one uses up. */
  lemma StepKeeps(c: Config, s: State, e: Event)
    requires Safe(s) && Bounded(c, s) && Enabled(s, e)
    ensures Safe(Next(c, s, e)) && Bounded(c, Next(c, s, e))
    ensures Internal(e) ==> Measure(c, Next(c, s, e)) < Measure(c, s)
  {
    hide Safe, Bounded, Measure, Next;
    StepSafe(c, s, e);
    StepBounded(c, s, e);
    if Internal(e) {
      InternalDecreases(c, s, e);
    }
  }

  /** Without a stop nothing blocks: while an offer is to be made or a job is queued or with a worker some internal step
      is enabled, so when none is, every offer has been made and every job has been settled. */
  lemma DrainedWhenStuck(c: Config, s: State)
    requires Safe(s) && !s.first.Exited? && !s.second.Exited?
    requires forall e | Internal(e) :: !Enabled(s, e)
    ensures s.queue == [] && s.first.Idle? && s.second.Idle? && forall id: nat :: id in s.outcomes <==> id < s.next
    ensures forall i | 0 <= i < |s.emits| :: s.emits[i] == []
  {
    forall i | 0 <= i < |s.emits|
      ensures s.emits[i] == []
    {
      assert !Enabled(s, Offer(i));
    }
    assert !Enabled(s, Take(true)) && !Enabled(s, Take(false));
    assert !Enabled(s, Wake(true)) && !Enabled(s, Wake(false));
    assert !Enabled(s, Finish(true, Accepted)) && !Enabled(s, Finish(false, Accepted));
    forall id: nat
      ensures id in s.outcomes <==> id < s.next
    {
      assert Places(s, id) == if id < s.next then 1 else 0;
    }
  }

  // ---- The dispatcher ----

  lemma BeginStep(c: Config, s: State, eventType: string)
    ensures |Next(c, s, Emit(eventType)).emits| == |s.emits| + 1
  {
  }

  lemma OfferStepEmits(c: Config, s: State, i: nat)
    requires Enabled(s, Offer(i))
    ensures Next(c, s, Offer(i)) == OfferStep(s, i) && OfferStep(s, i).emits == s.emits[i := s.emits[i][1..]]
  {
  }

  class Dispatcher {
    const config: Config
    var queue: seq<Job>
    var first: Worker
    var second: Worker
    var emits: seq<seq<Target>>
    ghost var outcomes: map<nat, Outcome>
    ghost var tries: map<nat, nat>
    ghost var waited: map<nat, nat>
    var next: nat
    var stopped: bool

    ghost function Value(): State
      reads this
    {
      State(queue, first, second, emits, outcomes, stopped, next, tries, waited)
    }

    /** Every job in one place, the queue within its capacity, retries and pauses within their bounds. */
    ghost predicate Valid()
      reads this
    {
      Safe(Value()) && Bounded(config, Value())
    }

    constructor (config: Config)
      ensures Valid()
      ensures Value() == INITIAL && this.config == WithDefaults(config)
      ensures this.config == config.(maxAttempts := if config.maxAttempts == 0 then 3 else config.maxAttempts,
                                     backoffSecs := if config.backoffSecs == 0 then 5 else config.backoffSecs)
    {
      var c := config;
      if c.maxAttempts == 0 {
        c := c.(maxAttempts := 3);
      }
      if c.backoffSecs == 0 {
        c := c.(backoffSecs := 5);
      }
      this.config := c;
      queue, first, second, emits, next, stopped := [], Idle, Idle, [], 0, false;
      outcomes, tries, waited := map[], map[], map[];
      new;
      StartsSafe(this.config);
    }

    static method MatchesFilter(events: seq<string>, eventType: string) returns (r: bool)
      ensures r == Matches(events, eventType)
      ensures r <==> |events| == 0 || exists j :: 0 <= j < |events| && events[j] == eventType
    {
      if events == [] {
        return true;
      }
      for i := 0 to |events|
        invariant eventType !in events[..i]
      {
        if events[i] == eventType {
          return true;
        }
      }
      return false;
    }

    /** The start of an emit: which targets it is for. The filter reads the configuration only, so it may as well be
        applied to all targets before the first send. */
    method BeginEmit(eventType: string)
      modifies this
      ensures Value() == Next(config, old(Value()), Emit(eventType))
      ensures emits == old(emits) + [if !config.enabled then [] else
                Filter(config.targets, (t: Target) =>
                  |t.events| == 0 || exists j :: 0 <= j < |t.events| && t.events[j] == eventType)]
      ensures queue == old(queue) && outcomes == old(outcomes) && next == old(next)
      ensures old(Valid()) ==> Valid()
    {
      if old(Valid()) {
        StepKeeps(config, Value(), Emit(eventType));
      }
      MatchingMeaning(config.targets, eventType);
      hide Safe, Bounded, Measure;
      var matching: seq<Target> := [];
      if config.enabled && config.targets != [] {
        for i := 0 to |config.targets|
          invariant Value() == old(Value()) && matching == Matching(config.targets[..i], eventType)
        {
          var target := config.targets[i];
          assert config.targets[..i + 1][..i] == config.targets[..i];
          var ok := MatchesFilter(target.events, eventType);
          if !ok {
            continue;
          }
          matching := matching + [target];
        }
        assert config.targets[..|config.targets|] == config.targets;
      }
      emits := emits + [matching];
    }

    /** A non-blocking send: the job is queued, or dropped when the queue is full. */
    method Send(target: Target)
      modifies this`queue, this`outcomes, this`tries, this`waited, this`next
      ensures Value() == Enqueue(old(Value()), target)
    {
      if |queue| < CAPACITY {
        queue := queue + [Job(next, target, 1)];
      } else {
        outcomes := outcomes[next := Dropped];
      }
      tries, waited, next := tries[next := 0], waited[next := 0], next + 1;
    }

    /** One send of an emit under way. */
    method OfferNext(i: nat)
      requires Enabled(Value(), Offer(i))
      modifies this
      ensures Value() == Next(config, old(Value()), Offer(i))
      ensures old(Valid()) ==> Valid() && Measure(config, Value()) < old(Measure(config, Value()))
    {
      if old(Valid()) {
        StepKeeps(config, Value(), Offer(i));
      }
      hide Safe, Bounded, Measure, Enqueue;
      Send(emits[i][0]);
      emits := emits[i := emits[i][1..]];
    }

    /** A whole emit that nothing interrupts. */
    method EmitEvent(eventType: string)
      modifies this
      ensures Value() == OfferAll(Next(config, old(Value()), Emit(eventType)), |old(emits)|)
      ensures old(|queue|) <= 256 ==>
                var due := if !config.enabled then [] else
                  Filter(config.targets, (t: Target) =>
                    |t.events| == 0 || exists j :: 0 <= j < |t.events| && t.events[j] == eventType);
                var room := Min(|due|, 256 - old(|queue|));
                && queue == old(queue) + seq(room, k requires 0 <= k < |due| => Job(old(next) + k, due[k], 1))
                && forall id | old(next) + room <= id < old(next) + |due| :: id in outcomes && outcomes[id] == Dropped
      ensures old(Valid()) ==> Valid()
    {
      hide Next, Safe, Bounded, Measure, Filter;
      BeginStep(config, Value(), eventType);
      BeginEmit(eventType);
      ghost var begun, i := Value(), |old(emits)|;
      if |queue| <= 256 {
        EmitQueues(begun, i);
      }
      while emits[|emits| - 1] != []
        invariant |emits| == i + 1
        invariant OfferAll(Value(), i) == OfferAll(begun, i)
        invariant old(Valid()) ==> Valid()
        decreases |emits[|emits| - 1]|
      {
        OfferStepEmits(config, Value(), i);
        OfferNext(|emits| - 1);
      }
    }

    method SetWorker(w: bool, worker: Worker)
      modifies this`first, this`second
      ensures Value() == WithWorker(old(Value()), w, worker)
    {
      if w {
        first := worker;
      } else {
        second := worker;
      }
    }

    /** A worker receives from the queue. */
    method TakeJob(w: bool)
      requires Enabled(Value(), Take(w))
      modifies this
      ensures Value() == Next(config, old(Value()), Take(w))
      ensures old(Valid()) ==> Valid() && Measure(config, Value()) < old(Measure(config, Value()))
    {
      if old(Valid()) {
        StepKeeps(config, Value(), Take(w));
      }
      hide Safe, Bounded, Measure;
      var job := queue[0];
      queue := queue[1..];
      SetWorker(w, Delivering(job));
    }

    /** deliver up to the pause, given what posting came to; the result says how the worker goes on. */
    method Conclude(w: bool, result: Result) returns (after: Worker)
      requires Enabled(Value(), Finish(w, result))
      modifies this`outcomes, this`tries, this`waited
      ensures WithWorker(Value(), w, after) == FinishStep(config, old(Value()), w, result)
    {
      hide Pause, WithWorker;
      var job := if w then first.job else second.job;
      if result.BadUrl? {
        outcomes := outcomes[job.id := GivenUp];
        return Idle;
      }
      tries := tries[job.id := (if job.id in tries then tries[job.id] else 0) + 1];
      if result.Rejected? {
        if job.attempt < config.maxAttempts {
          waited := waited[job.id := (if job.id in waited then waited[job.id] else 0) + Pause(config, job.attempt)];
          return Sleeping(job);
        }
        outcomes := outcomes[job.id := GivenUp];
        return Idle;
      }
      outcomes := outcomes[job.id := Delivered];
      return Idle;
    }

    method Deliver(w: bool, result: Result)
      requires Enabled(Value(), Finish(w, result))
      modifies this
      ensures Value() == Next(config, old(Value()), Finish(w, result))
      ensures old(Valid()) ==> Valid() && Measure(config, Value()) < old(Measure(config, Value()))
    {
      if old(Valid()) {
        StepKeeps(config, Value(), Finish(w, result));
      }
      hide Safe, Bounded, Measure, FinishStep, WithWorker;
      var after := Conclude(w, result);
      SetWorker(w, after);
    }

    /** deliver after the pause: the job is queued again, or given up when the queue is full. */
    method Retry(w: bool)
      requires Enabled(Value(), Wake(w))
      modifies this
      ensures Value() == Next(config, old(Value()), Wake(w))
      ensures old(Valid()) ==> Valid() && Measure(config, Value()) < old(Measure(config, Value()))
    {
      if old(Valid()) {
        StepKeeps(config, Value(), Wake(w));
      }
      hide Safe, Bounded, Measure;
      var job := if w then first.job else second.job;
      job := job.(attempt := job.attempt + 1);
      if |queue| < CAPACITY {
        queue := queue + [job];
      } else {
        outcomes := outcomes[job.id := GivenUp];
      }
      SetWorker(w, Idle);
    }
  }
}
