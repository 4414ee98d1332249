/**
 * Running a group of tasks that shut down together. Each task gets a child of the group's cancellation
 * token; the group joins the tasks as they end and cancels its token at the first join.
 */
module TaskGroup {
  import opened Common

  /** How a task ends. */
  datatype Ended = Finished | Failed(error: nat) | Panicked

  /** A task of the group, with the way it is going to end (which the group learns by joining it). */
  datatype Task = Task(name: nat, ended: Ended)

  /** Adds an error to a result, keeping those already there. */
  function ExtendErr(r: Result<(), seq<Task>>, t: Task): Result<(), seq<Task>> {
    if r.Err? then Err(r.error + [t]) else Err([t])
  }

  /** The tasks that failed or panicked, in order of completion. */
  function Failures(completed: seq<Task>): seq<Task> {
    if completed == [] then []
    else
      var t := completed[|completed| - 1];
      Failures(completed[..|completed| - 1]) + if t.ended.Finished? then [] else [t]
  }

  /** An error exactly when some task failed or panicked, holding one entry for each of them. */
  function Summary(completed: seq<Task>): Result<(), seq<Task>> {
    if Failures(completed) == [] then Ok(()) else Err(Failures(completed))
  }

  /** Each task that did not finish is reported exactly as often as it ended; no other task is. */
  lemma {:induction false} FailuresCount(completed: seq<Task>, t: Task)
    ensures multiset(Failures(completed))[t] == if t.ended.Finished? then 0 else multiset(completed)[t]
  {
    if completed != [] {
      FailuresCount(completed[..|completed| - 1], t);
      assert completed == completed[..|completed| - 1] + [completed[|completed| - 1]];
    }
  }

  /** The order of completion makes no difference to what is reported. */
  lemma OrderIsIrrelevant(one: seq<Task>, other: seq<Task>)
    requires multiset(one) == multiset(other)
    ensures multiset(Failures(one)) == multiset(Failures(other))
    ensures Failures(one) == [] <==> Failures(other) == []
  {
    forall t: Task
      ensures multiset(Failures(one))[t] == multiset(Failures(other))[t]
    {
      FailuresCount(one, t);
      FailuresCount(other, t);
    }
    var a, b := Failures(one), Failures(other);
    assert a != [] ==> multiset(b)[a[0]] == multiset(a)[a[0]] > 0;
    assert b != [] ==> multiset(a)[b[0]] == multiset(b)[b[0]] > 0;
  }

  lemma SummarySnoc(completed: seq<Task>, t: Task)
    ensures Summary(completed + [t]) == if t.ended.Finished? then Summary(completed) else ExtendErr(Summary(completed), t)
  {
    assert (completed + [t])[..|completed|] == completed;
    assert Failures(completed) + [] == Failures(completed) && [] + [t] == [t];
  }

  // ---------------------------------------------------------------------------------------
  // The group and its surroundings.

  /** A spawned task: whether its token is cancelled, and whether it cancelled that token itself. */
  datatype Spawned = Spawned(task: Task, cancelled: bool, byItself: bool)

  /** What a task saw of its token when it ran, and what had happened by then. */
  datatype Sight = Sight(cancelled: bool, byItself: bool, fromOutside: bool, joins: nat)

  datatype Group = Group(
    cancelled: bool,         // the group's own token
    fromOutside: bool,       // it was cancelled by somebody else
    running: seq<Spawned>,   // tasks in the join set that have not ended
    ended: seq<Task>,        // tasks in the join set that have ended
    joined: seq<Task>,       // tasks taken out of the join set, in order
    sights: seq<Sight>)

  datatype Step =
    | Work(i: nat)           // the i-th running task runs and looks at its token
    | CancelOwn(i: nat)      // it cancels its own token
    | End(i: nat)            // it ends
    | CancelFromOutside      // somebody else cancels the token the group was given
    | Join(k: nat)           // `join_next` returns a task that has ended

  function CancelEach(ts: seq<Spawned>): (r: seq<Spawned>)
    ensures |r| == |ts| && forall i :: 0 <= i < |ts| ==> r[i] == ts[i].(cancelled := true)
  {
    if ts == [] then [] else CancelEach(ts[..|ts| - 1]) + [ts[|ts| - 1].(cancelled := true)]
  }

  /** Cancelling a token cancels its children; cancelling a child does not affect anything else. */
  function Cancel(g: Group): Group {
    g.(cancelled := true, running := CancelEach(g.running))
  }

  function Without<T>(xs: seq<T>, i: nat): seq<T>
    requires i < |xs|
  {
    xs[..i] + xs[i + 1..]
  }

  /** The join set is empty: `join_next` returns nothing and `run` returns. */
  predicate Done(g: Group) {
    g.running == [] && g.ended == []
  }

  predicate Enabled(g: Group, step: Step) {
    && !Done(g)
    && match step
       case Work(i) => i < |g.running|
       case CancelOwn(i) => i < |g.running|
       case End(i) => i < |g.running|
       case CancelFromOutside => true
       case Join(k) => k < |g.ended|
  }

  function Next(g: Group, step: Step): Group
    requires Enabled(g, step)
  {
    match step
    case Work(i) =>
      var t := g.running[i];
      g.(sights := g.sights + [Sight(t.cancelled, t.byItself, g.fromOutside, |g.joined|)])
    case CancelOwn(i) => g.(running := g.running[i := g.running[i].(cancelled := true, byItself := true)])
    case End(i) => g.(running := Without(g.running, i), ended := g.ended + [g.running[i].task])
    case CancelFromOutside => Cancel(g).(fromOutside := true)
    case Join(k) => Cancel(g).(ended := Without(g.ended, k), joined := g.joined + [g.ended[k]])
  }

  function Attempted(g: Group, step: Step): Group {
    if Enabled(g, step) then Next(g, step) else g
  }

  /** Any schedule of the tasks, the outside and the joins; steps that are not enabled are skipped. */
  function Run(g: Group, steps: seq<Step>): Group {
    if steps == [] then g else Attempted(Run(g, steps[..|steps| - 1]), steps[|steps| - 1])
  }

  function SpawnAll(tasks: seq<Task>, cancelled: bool): (r: seq<Spawned>)
    ensures |r| == |tasks| && forall i :: 0 <= i < |tasks| ==> r[i] == Spawned(tasks[i], cancelled, false)
  {
    if tasks == [] then [] else SpawnAll(tasks[..|tasks| - 1], cancelled) + [Spawned(tasks[|tasks| - 1], cancelled, false)]
  }

  function Started(tasks: seq<Task>, cancelled: bool): Group {
    Group(cancelled, cancelled, SpawnAll(tasks, cancelled), [], [], [])
  }

  // ---------------------------------------------------------------------------------------
  // Shutdown: what the tasks get to see.

  /** A token is cancelled for one of three reasons, and each of them cancels it. */
  predicate Explained(cancelled: bool, byItself: bool, fromOutside: bool, joins: nat) {
    cancelled <==> byItself || fromOutside || joins > 0
  }

  ghost predicate ShutsDown(g: Group) {
    && Explained(g.cancelled, false, g.fromOutside, |g.joined|)
    && (forall t <- g.running :: Explained(t.cancelled, t.byItself, g.fromOutside, |g.joined|))
    && (forall s <- g.sights :: Explained(s.cancelled, s.byItself, s.fromOutside, s.joins))
  }

  lemma StepShutsDown(g: Group, step: Step)
    requires ShutsDown(g) && Enabled(g, step)
    ensures ShutsDown(Next(g, step))
  {
  }

  /**
   * At every moment of every run: a task sees its token cancelled exactly if it cancelled the token
   * itself, the group was cancelled from outside, or some task has been joined. So after the first join
   * every task that runs sees the cancellation, and no task can cancel another one directly.
   */
  lemma {:induction false} EveryTaskSeesShutdown(tasks: seq<Task>, cancelled: bool, steps: seq<Step>)
    ensures ShutsDown(Run(Started(tasks, cancelled), steps))
  {
    if steps != [] {
      EveryTaskSeesShutdown(tasks, cancelled, steps[..|steps| - 1]);
      var g := Run(Started(tasks, cancelled), steps[..|steps| - 1]);
      if Enabled(g, steps[|steps| - 1]) {
        StepShutsDown(g, steps[|steps| - 1]);
      }
    }
  }

  // ---------------------------------------------------------------------------------------
  // Conservation: what the group reports.

  function Tasks(ts: seq<Spawned>): (r: seq<Task>)
    ensures |r| == |ts| && forall i :: 0 <= i < |ts| ==> r[i] == ts[i].task
  {
    if ts == [] then [] else Tasks(ts[..|ts| - 1]) + [ts[|ts| - 1].task]
  }

  /** Every started task is running, ended or joined, as often as it was started. */
  ghost predicate Accounts(g: Group, tasks: seq<Task>) {
    multiset(Tasks(g.running)) + multiset(g.ended) + multiset(g.joined) == multiset(tasks)
  }

  lemma MovesOne<T>(xs: seq<T>, i: nat, ys: seq<T>)
    requires i < |xs|
    ensures multiset(Without(xs, i)) + multiset(ys + [xs[i]]) == multiset(xs) + multiset(ys)
  {
    assert xs == xs[..i] + [xs[i]] + xs[i + 1..];
  }

  lemma {:induction false} SameTasks(a: seq<Spawned>, b: seq<Spawned>)
    requires |a| == |b| && forall i :: 0 <= i < |a| ==> a[i].task == b[i].task
    ensures Tasks(a) == Tasks(b)
  {
  }

  lemma EndAccounts(g: Group, tasks: seq<Task>, i: nat)
    requires Accounts(g, tasks) && Enabled(g, End(i))
    ensures Accounts(Next(g, End(i)), tasks)
  {
    var g' := Next(g, End(i));
    assert Tasks(g'.running) == Without(Tasks(g.running), i);
    MovesOne(Tasks(g.running), i, g.ended);
    assert multiset(Tasks(g'.running)) + multiset(g'.ended) == multiset(Tasks(g.running)) + multiset(g.ended);
  }

  lemma JoinAccounts(g: Group, tasks: seq<Task>, k: nat)
    requires Accounts(g, tasks) && Enabled(g, Join(k))
    ensures Accounts(Next(g, Join(k)), tasks)
  {
    var g' := Next(g, Join(k));
    SameTasks(g.running, g'.running);
    MovesOne(g.ended, k, g.joined);
    Regroup(multiset(Tasks(g.running)), multiset(g.ended), multiset(g.joined), multiset(g'.ended), multiset(g'.joined));
  }

  lemma Regroup(a: multiset<Task>, b: multiset<Task>, c: multiset<Task>, b': multiset<Task>, c': multiset<Task>)
    requires b' + c' == b + c
    ensures a + b' + c' == a + b + c
  {
    assert a + b' + c' == a + (b' + c');
  }

  lemma StepAccounts(g: Group, tasks: seq<Task>, step: Step)
    requires Accounts(g, tasks) && Enabled(g, step)
    ensures Accounts(Next(g, step), tasks)
  {
    match step
    case Work(_) =>
    case CancelOwn(i) => SameTasks(g.running, Next(g, step).running);
    case CancelFromOutside => SameTasks(g.running, Next(g, step).running);
    case End(i) => EndAccounts(g, tasks, i);
    case Join(k) => JoinAccounts(g, tasks, k);
  }

  lemma {:induction false} NoTaskIsLost(tasks: seq<Task>, cancelled: bool, steps: seq<Step>)
    ensures Accounts(Run(Started(tasks, cancelled), steps), tasks)
  {
    if steps == [] {
      assert Tasks(SpawnAll(tasks, cancelled)) == tasks;
    } else {
      NoTaskIsLost(tasks, cancelled, steps[..|steps| - 1]);
      var g, step := Run(Started(tasks, cancelled), steps[..|steps| - 1]), steps[|steps| - 1];
      if Enabled(g, step) {
        StepAccounts(g, tasks, step);
      }
    }
  }

  /**
   * When `run` returns, every started task has ended and was joined once, and whatever the schedule the
   * errors reported are those of the started tasks that fail or panic.
   */
  lemma ReportsTheStarted(tasks: seq<Task>, cancelled: bool, steps: seq<Step>)
    requires Done(Run(Started(tasks, cancelled), steps))
    ensures var joined := Run(Started(tasks, cancelled), steps).joined;
            && multiset(joined) == multiset(tasks)
            && multiset(Failures(joined)) == multiset(Failures(tasks))
            && (Summary(joined).Ok? <==> forall t <- tasks :: t.ended.Finished?)
  {
    var g := Run(Started(tasks, cancelled), steps);
    NoTaskIsLost(tasks, cancelled, steps);
    assert multiset(Tasks(g.running)) + multiset(g.ended) + multiset(g.joined) == multiset(g.joined);
    OrderIsIrrelevant(g.joined, tasks);
    NoFailures(tasks);
  }

  lemma {:induction false} NoFailures(tasks: seq<Task>)
    ensures Failures(tasks) == [] <==> forall t <- tasks :: t.ended.Finished?
  {
    if tasks != [] {
      NoFailures(tasks[..|tasks| - 1]);
    }
  }

  /** Ends and joins still to come; every other step leaves the number alone. */
  function Outstanding(g: Group): nat {
    2 * |g.running| + |g.ended|
  }

  /** Steps that end or join a task bring the group closer to its return, and one is always possible. */
  lemma ShutdownAdvances(g: Group, step: Step)
    requires Enabled(g, step)
    ensures Outstanding(Next(g, step)) == if step.End? || step.Join? then Outstanding(g) - 1 else Outstanding(g)
    ensures Enabled(g, End(0)) || Enabled(g, Join(0))
    ensures Done(g) <==> Outstanding(g) == 0
  {
  }

  // ---------------------------------------------------------------------------------------
  // The code.

  /** Every task starts with a token of its own, a child of the group's. */
  method StartTasks(tasks: seq<Task>, cancelled: bool) returns (g: Group)
    ensures g == Started(tasks, cancelled)
  {
    var spawned: seq<Spawned> := [];
    for n := 0 to |tasks|
      invariant spawned == SpawnAll(tasks[..n], cancelled)
    {
      assert tasks[..n + 1][..n] == tasks[..n];
      spawned := spawned + [Spawned(tasks[n], cancelled, false)];
    }
    assert tasks[..|tasks|] == tasks;
    g := Group(cancelled, cancelled, spawned, [], [], []);
  }

  lemma RunSnoc(g: Group, steps: seq<Step>, n: nat)
    requires n < |steps|
    ensures Run(g, steps[..n + 1]) == Attempted(Run(g, steps[..n]), steps[n])
  {
    assert steps[..n + 1][..n] == steps[..n];
  }

  /** `join_next` hands over the k-th ended task; the loop cancels the token and looks at the outcome. */
  method OnJoin(before: Group, k: nat, result: Result<(), seq<Task>>) returns (g: Group, r: Result<(), seq<Task>>)
    requires Enabled(before, Join(k)) && result == Summary(before.joined)
    ensures g == Next(before, Join(k)) && r == Summary(g.joined)
  {
    var t := before.ended[k];
    g := before.(ended := Without(before.ended, k), joined := before.joined + [t]);
    g := Cancel(g);
    SummarySnoc(before.joined, t);
    r := result;
    match t.ended
    case Finished =>
    case Failed(_) => r := ExtendErr(r, t);
    case Panicked => r := ExtendErr(r, t);
  }

  /**
   * `run` under a schedule: it returns exactly when every started task has ended and been joined, with an
   * error exactly if one of them fails or panics, one entry for each of those.
   */
  method RunGroup(tasks: seq<Task>, cancelled: bool, steps: seq<Step>)
    returns (r: Option<Result<(), seq<Task>>>, g: Group)
    ensures g == Run(Started(tasks, cancelled), steps)
    ensures r.Some? <==> Done(g)
    ensures r.Some? ==> r.value == Summary(g.joined)
    ensures r.Some? ==> (r.value.Ok? <==> forall t <- tasks :: t.ended.Finished?)
    ensures r.Some? && r.value.Err? ==> multiset(r.value.error) == multiset(Failures(tasks))
  {
    g := StartTasks(tasks, cancelled);
    var result: Result<(), seq<Task>> := Ok(());
    for n := 0 to |steps|
      invariant g == Run(Started(tasks, cancelled), steps[..n])
      invariant result == Summary(g.joined)
    {
      RunSnoc(Started(tasks, cancelled), steps, n);
      if Enabled(g, steps[n]) {
        if steps[n].Join? {
          g, result := OnJoin(g, steps[n].k, result);
        } else {
          g := Next(g, steps[n]);
        }
      }
    }
    assert steps[..|steps|] == steps;
    if Done(g) {
      ReportsTheStarted(tasks, cancelled, steps);
    }
    r := if Done(g) then Some(result) else None;
  }
}
