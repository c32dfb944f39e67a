/** The test scheduler's bookkeeping (`ResourceManager` in
    src/core/resource_manager.py): how many workers to start, which counter each
    finished launch script moves, where its log goes, and the closing summary.
    Worker threads and the shared queue are modelled as one worker draining the
    queue in order; process outcomes are inputs. */
module ResourceManager {
  import opened Strings
  import Paths
  import Builder

  /** The memory the scheduler budgets per worker: 512 MiB. */
  const WorkerMemory: nat := 512 * 1024 * 1024

  /** Seconds a launch script may run before it is killed. */
  const Timeout: nat := 90

  const RunsDir: string := "../runs/"

  /** What the log of a timed-out script is replaced by. */
  const TimeoutNotice: string := "\n---Script execution timed out---\n"

  /** The worker count: as many as there are logical cores, but no more than
      three quarters of the available memory allows at `WorkerMemory` each.
      The program scales by the floating-point factor 0.75 and truncates. While
      3 * available stays below 2^53 every float step is exact, so that is the
      integer quotient taken here; above that bound the product can round up. */
  function MaxWorkers(cores: nat, available: nat): (r: nat)
    ensures r <= cores
    ensures r * (4 * WorkerMemory) <= 3 * available
    ensures forall k: nat {:trigger k * (4 * WorkerMemory)} ::
              k <= cores && k * (4 * WorkerMemory) <= 3 * available ==> k <= r
  {
    var byMemory := (3 * available) / (4 * WorkerMemory);
    if cores <= byMemory then cores else byMemory
  }

  /** Four cores and 4 GiB give four workers; less than 2/3 GiB gives none. */
  lemma MaxWorkersExamples(cores: nat, available: nat)
    ensures MaxWorkers(4, 4 * 1024 * 1024 * 1024) == 4
    ensures 3 * available < 4 * WorkerMemory ==> MaxWorkers(cores, available) == 0
  {
    assert 1 * (4 * WorkerMemory) <= 3 * (4 * 1024 * 1024 * 1024);
    assert 4 * (4 * WorkerMemory) <= 3 * (4 * 1024 * 1024 * 1024);
  }

  datatype Counters = Counters(passed: nat, failed: nat, timedOut: nat)
  {
    function Total(): nat
    {
      passed + failed + timedOut
    }
  }

  /** Every counter starts at zero. */
  const Initial: Counters := Counters(0, 0, 0)

  /** How one launch script ended: it exited with a status after writing its
      output, or it was still running when the timeout struck. */
  datatype Outcome = Exited(code: int, output: string) | TimedOut(partial: string)

  datatype Task = Task(script: string, outcome: Outcome)

  /** The scheduler's state: the counters and the text of every log it has
      produced. */
  datatype Manager = Manager(counters: Counters, logs: map<string, string>)

  /** The log file of a script: its last path component under `../runs/`, with
      every `.sh` turned into `.txt`. */
  function LogFile(script: string): string
  {
    RunsDir + ReplaceAll(LastPiece(script, '/'), ".sh", ".txt")
  }

  /** The counter a task's outcome belongs to. */
  datatype Verdict = Passed | Failed | TimedOutVerdict

  function VerdictOf(t: Task): Verdict
  {
    match t.outcome
    case Exited(code, _) => if code == 0 then Passed else Failed
    case TimedOut(_) => TimedOutVerdict
  }

  /** The counter update for one task. */
  function Tally(c: Counters, t: Task): (r: Counters)
    ensures r.passed == c.passed + (if VerdictOf(t) == Passed then 1 else 0)
    ensures r.failed == c.failed + (if VerdictOf(t) == Failed then 1 else 0)
    ensures r.timedOut == c.timedOut + (if VerdictOf(t) == TimedOutVerdict then 1 else 0)
  {
    match VerdictOf(t)
    case Passed => c.(passed := c.passed + 1)
    case Failed => c.(failed := c.failed + 1)
    case TimedOutVerdict => c.(timedOut := c.timedOut + 1)
  }

  /** One dequeued task, as the program intends it: exit status 0 passes, any other
      fails, a timeout counts as a timeout and replaces the log by the notice. */
  function Consume(m: Manager, t: Task): (r: Manager)
    ensures r.counters.passed == m.counters.passed + (if t.outcome.Exited? && t.outcome.code == 0 then 1 else 0)
    ensures r.counters.failed == m.counters.failed + (if t.outcome.Exited? && t.outcome.code != 0 then 1 else 0)
    ensures r.counters.timedOut == m.counters.timedOut + (if t.outcome.TimedOut? then 1 else 0)
    ensures LogFile(t.script) in r.logs
    ensures r.logs[LogFile(t.script)] == if t.outcome.TimedOut? then TimeoutNotice else t.outcome.output
    ensures forall f :: f in m.logs && f != LogFile(t.script) ==> f in r.logs && r.logs[f] == m.logs[f]
  {
    var log := LogFile(t.script);
    match t.outcome
    case Exited(_, output) => Manager(Tally(m.counters, t), m.logs[log := output])
    case TimedOut(_) => Manager(Tally(m.counters, t), m.logs[log := TimeoutNotice])
  }

  /** The queue drained in order, until it is empty. */
  function ConsumeAll(m: Manager, tasks: seq<Task>): Manager
    decreases |tasks|
  {
    if |tasks| == 0 then m else ConsumeAll(Consume(m, tasks[0]), tasks[1..])
  }

  /** How many tasks have a given verdict, counted directly. */
  function CountIf(tasks: seq<Task>, v: Verdict): nat
    decreases |tasks|
  {
    if |tasks| == 0 then 0 else (if VerdictOf(tasks[0]) == v then 1 else 0) + CountIf(tasks[1..], v)
  }

  lemma {:induction false} CountIfAppend(a: seq<Task>, b: seq<Task>, v: Verdict)
    ensures CountIf(a + b, v) == CountIf(a, v) + CountIf(b, v)
    decreases |a|
  {
    if |a| == 0 {
      assert a + b == b;
    } else {
      assert (a + b)[0] == a[0];
      assert (a + b)[1..] == a[1..] + b;
      CountIfAppend(a[1..], b, v);
    }
  }

  /** Draining a queue adds to each counter exactly the number of tasks with that
      outcome, so the counters grow by the queue's length in total. */
  lemma {:induction false} ConsumeAllCounts(m: Manager, tasks: seq<Task>)
    ensures var c := ConsumeAll(m, tasks).counters;
            && c.passed == m.counters.passed + CountIf(tasks, Passed)
            && c.failed == m.counters.failed + CountIf(tasks, Failed)
            && c.timedOut == m.counters.timedOut + CountIf(tasks, TimedOutVerdict)
    decreases |tasks|
  {
    if |tasks| > 0 {
      ConsumeAllCounts(Consume(m, tasks[0]), tasks[1..]);
    }
  }

  lemma CountIfOne(t: Task, v: Verdict)
    ensures CountIf([t], v) == if VerdictOf(t) == v then 1 else 0
  {
    assert [t][1..] == [];
  }

  /** The counters do not depend on the order the tasks are dequeued in. */
  lemma OrderIrrelevant(m: Manager, a: seq<Task>, b: seq<Task>)
    ensures ConsumeAll(m, a + b).counters == ConsumeAll(m, b + a).counters
  {
    ConsumeAllCounts(m, a + b);
    ConsumeAllCounts(m, b + a);
    CountIfAppend(a, b, Passed);
    CountIfAppend(b, a, Passed);
    CountIfAppend(a, b, Failed);
    CountIfAppend(b, a, Failed);
    CountIfAppend(a, b, TimedOutVerdict);
    CountIfAppend(b, a, TimedOutVerdict);
  }

  /** Every task has exactly one verdict. */
  lemma {:induction false} VerdictsPartition(tasks: seq<Task>)
    ensures CountIf(tasks, Passed) + CountIf(tasks, Failed) + CountIf(tasks, TimedOutVerdict) == |tasks|
    decreases |tasks|
  {
    if |tasks| > 0 {
      VerdictsPartition(tasks[1..]);
    }
  }

  /** The run from empty counters, one task at a time. */
  method RunQueue(tasks: seq<Task>) returns (c: Counters)
    ensures c.passed == CountIf(tasks, Passed)
    ensures c.failed == CountIf(tasks, Failed)
    ensures c.timedOut == CountIf(tasks, TimedOutVerdict)
    ensures c.Total() == |tasks|
  {
    c := Initial;
    var i := 0;
    while i < |tasks|
      invariant 0 <= i <= |tasks|
      invariant c.passed == CountIf(tasks[..i], Passed)
      invariant c.failed == CountIf(tasks[..i], Failed)
      invariant c.timedOut == CountIf(tasks[..i], TimedOutVerdict)
    {
      var t := tasks[i];
      assert tasks[..i + 1] == tasks[..i] + [t];
      CountIfAppend(tasks[..i], [t], Passed);
      CountIfAppend(tasks[..i], [t], Failed);
      CountIfAppend(tasks[..i], [t], TimedOutVerdict);
      CountIfOne(t, Passed);
      CountIfOne(t, Failed);
      CountIfOne(t, TimedOutVerdict);
      c := Tally(c, t);
      i := i + 1;
    }
    assert tasks[..|tasks|] == tasks;
    VerdictsPartition(tasks);
  }

  /** The closing summary: the passed count, and everything else as failed. */
  function Summary(c: Counters): (nat, nat)
  {
    (c.passed, c.failed + c.timedOut)
  }

  /** Every task of a drained queue appears in exactly one of the summary's two
      figures, and a task is reported passed exactly when it exited with 0. */
  lemma SummaryAccounts(m: Manager, tasks: seq<Task>)
    requires m.counters == Initial
    ensures var s := Summary(ConsumeAll(m, tasks).counters);
            && s.0 + s.1 == |tasks|
            && s.0 == CountIf(tasks, Passed)
  {
    ConsumeAllCounts(m, tasks);
    VerdictsPartition(tasks);
  }

  /** The log of a launch script named `<identifier>.sh` in any directory is
      `../runs/<identifier>.txt`, provided the identifier itself has no `.sh`. */
  lemma LogFileOfScript(dir: string, id: string)
    requires '/' !in id && !Contains(id, ".sh")
    ensures LogFile(dir + "/" + id + ".sh") == RunsDir + id + ".txt"
  {
    assert '/' !in id + ".sh";
    assert dir + "/" + id + ".sh" == dir + ['/'] + (id + ".sh");
    LastPieceAfter(dir, id + ".sh", '/');
    ReplaceAtEnd(id, ".sh", ".txt");
  }

  /** The script the builder writes for a configuration is logged under the
      configuration's identifier, so configurations with distinct identifiers
      never share a log. */
  lemma BuiltScriptLog(combo: string, id: string)
    requires Paths.Component(combo) && '/' !in id && !Contains(id, ".sh")
    ensures LogFile(Builder.ScriptPath(combo, id)) == RunsDir + id + ".txt"
  {
    Builder.ScriptLayout(combo, id);
    ReplaceAtEnd(id, ".sh", ".txt");
  }

  // ---------------------------------------------------------------------------
  // The consumer as written

  /** The consumer as the program has it. Its timeout handler calls
      `self.recursive_kill(process)`, but `recursive_kill` is declared without
      `self`, so the call raises and the worker ends right there. The timeout is
      not counted. The kill is the call that raises, so the script is never killed:
      its log holds whatever the still-running script writes (the outcome's text
      stands for it), never the notice. The worker takes no further task. Returns
      the state and how many tasks it took. */
  function ConsumeAsWritten(m: Manager, tasks: seq<Task>): (Manager, nat)
    decreases |tasks|
  {
    if |tasks| == 0 then (m, 0)
    else
      var t := tasks[0];
      match t.outcome
      case TimedOut(partial) =>
        (m.(logs := m.logs[LogFile(t.script) := partial]), 1)
      case Exited(_, _) =>
        var (r, n) := ConsumeAsWritten(Consume(m, t), tasks[1..]);
        (r, n + 1)
  }

  /** As written, the timeout counter never moves, and a queue holding a timeout
      is not drained: the counters fall short of the queue's length. */
  lemma {:induction false} AsWrittenLosesTimeouts(m: Manager, tasks: seq<Task>)
    ensures ConsumeAsWritten(m, tasks).0.counters.timedOut == m.counters.timedOut
    ensures CountIf(tasks, TimedOutVerdict) > 0 ==>
              ConsumeAsWritten(m, tasks).0.counters.Total() < m.counters.Total() + |tasks|
    decreases |tasks|
  {
    if |tasks| > 0 {
      var t := tasks[0];
      if !t.outcome.TimedOut? {
        AsWrittenLosesTimeouts(Consume(m, t), tasks[1..]);
      } else {
        assert ConsumeAsWritten(m, tasks).0.counters == m.counters;
      }
    }
  }

  /** As written, a worker whose next script times out takes that one task,
      counts nothing for it, leaves the script's partial output as its log, and
      stops. */
  lemma FirstTimeoutStops(m: Manager, tasks: seq<Task>)
    requires |tasks| > 0 && tasks[0].outcome.TimedOut?
    ensures ConsumeAsWritten(m, tasks).0.counters == m.counters
    ensures ConsumeAsWritten(m, tasks).1 == 1
    ensures LogFile(tasks[0].script) in ConsumeAsWritten(m, tasks).0.logs
    ensures ConsumeAsWritten(m, tasks).0.logs[LogFile(tasks[0].script)] == tasks[0].outcome.partial
  {
  }

  /** A single script that outlives the timeout, as written: nothing is counted
      and its log keeps the partial output rather than the timeout notice. */
  lemma TimeoutCounterexample(start: Manager, tasks: seq<Task>)
    requires start.counters == Initial
    requires |tasks| == 1 && tasks[0].outcome.TimedOut? && tasks[0].outcome.partial != TimeoutNotice
    ensures ConsumeAsWritten(start, tasks).0.counters.Total() == 0 < |tasks|
    ensures LogFile(tasks[0].script) in ConsumeAsWritten(start, tasks).0.logs
    ensures ConsumeAsWritten(start, tasks).0.logs[LogFile(tasks[0].script)] != TimeoutNotice
  {
    FirstTimeoutStops(start, tasks);
  }

  /** The same script with the timeout handler corrected: it counts as one
      timeout and its log is the notice. */
  lemma TimeoutCountedWhenCorrected(start: Manager, script: string, partial: string)
    requires start.counters == Initial
    ensures var tasks := [Task(script, TimedOut(partial))];
            && ConsumeAll(start, tasks).counters == Counters(0, 0, 1)
            && LogFile(script) in ConsumeAll(start, tasks).logs
            && ConsumeAll(start, tasks).logs[LogFile(script)] == TimeoutNotice
  {
    var tasks := [Task(script, TimedOut(partial))];
    var r := Consume(start, tasks[0]);
    assert tasks[1..] == [];
    assert ConsumeAll(start, tasks) == ConsumeAll(r, []) == r;
  }
}
