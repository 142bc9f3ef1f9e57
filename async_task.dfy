/**
 * The generational task runner of crates/review/src/async_task.rs. Each started operation takes
 * a ticket, the new value of a counter; when the operation finishes, it checks whether its ticket
 * is still the counter's value and, if so, writes its outcome to the status.
 *
 * The source takes the counter's lock for the check and the status's lock for the write, so a
 * start can fall between the two. The first half of this module models completion as one
 * critical section (`Completed`, `AsyncTaskRunner.Complete`), where a superseded operation can
 * never overwrite the status; the second half (`SplitStep`) models the two locks as written and
 * shows the stale write that the window lets through. The spawned future is not modelled: its
 * completion is a sequence of calls, and interleavings are arbitrary orders of those calls.
 */
module AsyncTask {
  import opened Results

  datatype AsyncTaskStatus<T> = Idle | Loading | Loaded(value: T) | Error(message: string)

  /** The two shared cells of the runner: the counter `task_id` and the `status`. */
  datatype RunnerState<T> = RunnerState(taskId: nat, status: AsyncTaskStatus<T>)

  /** The status a finished operation publishes. */
  function Outcome<T>(result: Result<T, string>): AsyncTaskStatus<T> {
    match result
    case Ok(v) => Loaded(v)
    case Err(message) => Error(message)
  }

  /** `start_operation` up to spawning: bump the counter and show `Loading`. */
  function Started<T>(s: RunnerState<T>): RunnerState<T> {
    RunnerState(s.taskId + 1, Loading)
  }

  /**
   * The tail of the spawned task with the check and the write in one critical section: publish
   * the result only if the ticket is still current.
   */
  function Completed<T>(s: RunnerState<T>, ticket: nat, result: Result<T, string>): RunnerState<T> {
    if ticket == s.taskId then s.(status := Outcome(result)) else s
  }

  /** One operation finishing, with the ticket it captured when it was started. */
  datatype Completion<T> = Completion(ticket: nat, result: Result<T, string>)

  /** A run of completions, applied in the order they happen to finish. */
  function CompleteAll<T>(s: RunnerState<T>, cs: seq<Completion<T>>): RunnerState<T>
    decreases |cs|
  {
    if cs == [] then s else CompleteAll(Completed(s, cs[0].ticket, cs[0].result), cs[1..])
  }

  predicate DistinctTickets<T>(cs: seq<Completion<T>>) {
    forall i, j :: 0 <= i < j < |cs| ==> cs[i].ticket != cs[j].ticket
  }

  /** Completions never move the counter. */
  lemma {:induction false} CompleteAllKeepsCounter<T>(s: RunnerState<T>, cs: seq<Completion<T>>)
    ensures CompleteAll(s, cs).taskId == s.taskId
    decreases |cs|
  {
    if cs != [] {
      CompleteAllKeepsCounter(Completed(s, cs[0].ticket, cs[0].result), cs[1..]);
    }
  }

  lemma {:induction false} CompleteAllAppend<T>(s: RunnerState<T>, a: seq<Completion<T>>, b: seq<Completion<T>>)
    ensures CompleteAll(s, a + b) == CompleteAll(CompleteAll(s, a), b)
    decreases |a|
  {
    if a == [] {
      assert a + b == b;
    } else {
      assert (a + b)[0] == a[0];
      assert (a + b)[1..] == a[1..] + b;
      CompleteAllAppend(Completed(s, a[0].ticket, a[0].result), a[1..], b);
    }
  }

  /** Completions of superseded operations leave the whole state as it was. */
  lemma {:induction false} StaleCompletionsIgnored<T>(s: RunnerState<T>, cs: seq<Completion<T>>)
    requires forall i :: 0 <= i < |cs| ==> cs[i].ticket != s.taskId
    ensures CompleteAll(s, cs) == s
  {
    if cs != [] {
      StaleCompletionsIgnored(s, cs[1..]);
    }
  }

  /**
   * Whatever the order, the visible status is either the one before the completions or the
   * outcome of an operation holding the current ticket: nothing else can become visible.
   */
  lemma {:induction false} OnlyCurrentVisible<T>(s: RunnerState<T>, cs: seq<Completion<T>>)
    ensures var f := CompleteAll(s, cs);
            f.status == s.status ||
            exists i :: 0 <= i < |cs| && cs[i].ticket == s.taskId && f.status == Outcome(cs[i].result)
    decreases |cs|
  {
    if cs != [] {
      var s' := Completed(s, cs[0].ticket, cs[0].result);
      OnlyCurrentVisible(s', cs[1..]);
      var f := CompleteAll(s, cs);
      if f.status != s'.status {
        var i :| 0 <= i < |cs[1..]| && cs[1..][i].ticket == s'.taskId && f.status == Outcome(cs[1..][i].result);
        assert cs[i + 1] == cs[1..][i];
      }
    }
  }

  /**
   * With distinct tickets, if the operation holding the current ticket is among the completions,
   * its outcome is the final status, in every completion order.
   */
  lemma CurrentCompletionWins<T>(s: RunnerState<T>, cs: seq<Completion<T>>, i: nat)
    requires DistinctTickets(cs) && i < |cs| && cs[i].ticket == s.taskId
    ensures CompleteAll(s, cs) == RunnerState(s.taskId, Outcome(cs[i].result))
  {
    assert cs == cs[..i] + [cs[i]] + cs[i + 1..];
    CompleteAllAppend(s, cs[..i] + [cs[i]], cs[i + 1..]);
    CompleteAllAppend(s, cs[..i], [cs[i]]);
    StaleCompletionsIgnored(s, cs[..i]);
    var t := RunnerState(s.taskId, Outcome(cs[i].result));
    assert CompleteAll(s, cs[..i] + [cs[i]]) == t;
    StaleCompletionsIgnored(t, cs[i + 1..]);
  }

  /**
   * Operation A started, then B, each finishing in one critical section: B's outcome is final
   * whether A finishes before or after B, and A's outcome is never visible once B has been
   * started. Under the source's two locks this holds only when A's check did not pass before B
   * started (`StartWithoutPendingCheckWins`, `StaleOutcomeOverwrites`).
   */
  lemma LaterStartWins<T>(s: RunnerState<T>, a: Result<T, string>, b: Result<T, string>)
    ensures var afterA := Started(s);
            var afterB := Started(afterA);
            var ca := Completion(afterA.taskId, a);
            var cb := Completion(afterB.taskId, b);
            CompleteAll(afterB, [ca, cb]).status == Outcome(b) &&
            CompleteAll(afterB, [cb, ca]).status == Outcome(b) &&
            CompleteAll(afterB, [ca]).status == Loading
  {
    var afterA := Started(s);
    var afterB := Started(afterA);
    var ca := Completion(afterA.taskId, a);
    var cb := Completion(afterB.taskId, b);
    CurrentCompletionWins(afterB, [ca, cb], 1);
    CurrentCompletionWins(afterB, [cb, ca], 0);
    StaleCompletionsIgnored(afterB, [ca]);
  }

  /** `AsyncTaskRunner`: the counter and the status cell it shares with its spawned tasks. */
  class AsyncTaskRunner<T> {
    var taskId: nat
    var status: AsyncTaskStatus<T>
    /** The tickets handed out so far. */
    ghost var issued: set<nat>
    /** The spawned tasks' local `is_current_task`: tickets whose check passed, write still to come. */
    ghost var passed: set<nat>

    ghost predicate Valid()
      reads this
    {
      forall t :: t in issued ==> 0 < t <= taskId
    }

    function State(): RunnerState<T>
      reads this
    {
      RunnerState(taskId, status)
    }

    /** The runner seen as the two-lock model of `SplitStep`. */
    ghost function SplitView(): SplitState<T>
      reads this
    {
      SplitState(taskId, status, passed)
    }

    /** `new`: idle, counter 0, no ticket issued. */
    constructor ()
      ensures Valid()
      ensures State() == RunnerState(0, Idle) && issued == {}
      ensures SplitView() == SplitState(0, Idle, {})
    {
      taskId := 0;
      status := Idle;
      issued := {};
      passed := {};
    }

    /**
     * `start_operation`: bumps the counter and shows `Loading`, notifying subscribers; the
     * returned ticket is larger than every ticket handed out before, which supersedes all of them.
     */
    method StartOperation() returns (ticket: nat, notified: bool)
      requires Valid()
      modifies this
      ensures Valid()
      ensures State() == Started(old(State()))
      ensures ticket == taskId && ticket !in old(issued)
      ensures forall t :: t in old(issued) ==> t < ticket
      ensures issued == old(issued) + {ticket}
      ensures SplitView() == SplitStep(old(SplitView()), Start)
      ensures notified
    {
      taskId := taskId + 1;
      ticket := taskId;
      status := Loading;
      issued := issued + {ticket};
      notified := true;
    }

    /**
     * The spawned task finishing with its check and its write in one critical section: the
     * result is published, and subscribers notified, exactly when the ticket is still current;
     * the counter never changes.
     */
    method Complete(ticket: nat, result: Result<T, string>) returns (notified: bool)
      requires Valid()
      modifies this
      ensures Valid() && issued == old(issued)
      ensures State() == Completed(old(State()), ticket, result)
      ensures passed == old(passed)
      ensures notified <==> ticket == old(taskId)
    {
      notified := ticket == taskId;
      if notified {
        status := Outcome(result);
      }
    }

    /**
     * The spawned task's check, under the counter's lock alone: is `ticket` still current? The
     * answer is remembered by the task, as a `Check` event of the two-lock model.
     */
    method IsCurrent(ticket: nat) returns (current: bool)
      requires Valid()
      modifies this
      ensures Valid() && issued == old(issued) && State() == old(State())
      ensures current <==> ticket == taskId
      ensures SplitView() == SplitStep(old(SplitView()), Check(ticket))
    {
      current := ticket == taskId;
      if current {
        passed := passed + {ticket};
      }
    }

    /**
     * The spawned task's write, under the status's lock alone, once its check has passed: the
     * outcome replaces the status whatever the counter is by now, and subscribers are notified.
     */
    method Publish(ticket: nat, result: Result<T, string>) returns (notified: bool)
      requires Valid() && ticket in passed
      modifies this
      ensures Valid() && issued == old(issued)
      ensures State() == old(State()).(status := Outcome(result))
      ensures SplitView() == SplitStep(old(SplitView()), Event.Publish(ticket, result))
      ensures notified
    {
      status := Outcome(result);
      passed := passed - {ticket};
      notified := true;
    }

    /** `status`: the current status, nothing changed. */
    method Status() returns (s: AsyncTaskStatus<T>)
      ensures s == State().status
    {
      s := status;
    }
  }

  /**
   * Two operations in rapid succession, each finishing in one critical section, in either
   * order: the status ends as the second operation's outcome.
   */
  method RapidSuccession<T>(first: Result<T, string>, second: Result<T, string>, secondFinishesFirst: bool)
    returns (final: AsyncTaskStatus<T>)
    ensures final == Outcome(second)
  {
    var runner := new AsyncTaskRunner<T>();
    var a, notifiedA := runner.StartOperation();
    var b, notifiedB := runner.StartOperation();
    var notified;
    if secondFinishesFirst {
      notified := runner.Complete(b, second);
      notified := runner.Complete(a, first);
    } else {
      notified := runner.Complete(a, first);
      notified := runner.Complete(b, second);
    }
    final := runner.Status();
  }

  /** A fresh runner reports `Idle`. */
  method InitialStatus<T>() returns (s: AsyncTaskStatus<T>)
    ensures s == Idle
  {
    var runner := new AsyncTaskRunner<T>();
    s := runner.Status();
  }

  // ---------------------------------------------------------------------------
  // The completion as written: two locks

  /** What the threads do: a start, a task's check of its ticket, and a task's write. */
  datatype Event<T> = Start | Check(ticket: nat) | Publish(ticket: nat, result: Result<T, string>)

  /**
   * The two shared cells and the tickets whose check has passed and whose write is still to
   * come (the spawned tasks' local `is_current_task`).
   */
  datatype SplitState<T> = SplitState(taskId: nat, status: AsyncTaskStatus<T>, passed: set<nat>)

  /**
   * One step under the source's locking: a check reads the counter and remembers the answer;
   * a write goes ahead on that answer alone. A write whose check failed is the task returning.
   */
  function SplitStep<T>(s: SplitState<T>, e: Event<T>): SplitState<T> {
    match e
    case Start => s.(taskId := s.taskId + 1, status := Loading)
    case Check(t) => if t == s.taskId then s.(passed := s.passed + {t}) else s
    case Publish(t, r) => if t in s.passed then s.(status := Outcome(r), passed := s.passed - {t}) else s
  }

  function SplitRun<T>(s: SplitState<T>, evs: seq<Event<T>>): SplitState<T>
    decreases |evs|
  {
    if evs == [] then s else SplitRun(SplitStep(s, evs[0]), evs[1..])
  }

  lemma {:induction false} SplitRunAppend<T>(s: SplitState<T>, a: seq<Event<T>>, b: seq<Event<T>>)
    ensures SplitRun(s, a + b) == SplitRun(SplitRun(s, a), b)
    decreases |a|
  {
    if a == [] {
      assert a + b == b;
    } else {
      assert (a + b)[0] == a[0];
      assert (a + b)[1..] == a[1..] + b;
      SplitRunAppend(SplitStep(s, a[0]), a[1..], b);
    }
  }

  /** Two events in a row are two steps. */
  lemma SplitRunPair<T>(s: SplitState<T>, e1: Event<T>, e2: Event<T>)
    ensures SplitRun(s, [e1, e2]) == SplitStep(SplitStep(s, e1), e2)
  {
    var s1 := SplitStep(s, e1);
    assert [e1, e2][1..] == [e2];
    assert SplitRun(s, [e1, e2]) == SplitRun(s1, [e2]);
    assert [e2][1..] == [];
    assert SplitRun(s1, [e2]) == SplitRun(SplitStep(s1, e2), []);
  }

  /**
   * A stale write: A (ticket 1) passes its check, B starts and completes, then A writes. B is
   * current, yet A's outcome is the final status.
   */
  lemma StaleOutcomeOverwrites<T>(a: Result<T, string>, b: Result<T, string>)
    ensures var f := SplitRun(SplitState(0, Idle, {}), [Start, Check(1), Start, Check(2), Publish(2, b), Publish(1, a)]);
            f.taskId == 2 && f.status == Outcome(a)
  {
    var p1: seq<Event<T>> := [Start, Check(1)];
    var p2: seq<Event<T>> := [Start, Check(2)];
    var p3: seq<Event<T>> := [Publish(2, b), Publish(1, a)];
    var s0 := SplitState(0, Idle, {});
    SplitRunPair(s0, Start, Check(1));
    var s2 := SplitRun(s0, p1);
    assert s2 == SplitState(1, Loading, {1});
    SplitRunPair(s2, Start, Check(2));
    var s4 := SplitRun(s2, p2);
    assert s4 == SplitState(2, Loading, {1, 2});
    SplitRunPair(s4, Publish(2, b), Publish(1, a));
    assert SplitRun(s4, p3).status == Outcome(a);
    SplitRunAppend(s0, p1, p2 + p3);
    SplitRunAppend(s2, p2, p3);
    assert p1 + (p2 + p3) == [Start, Check(1), Start, Check(2), Publish(2, b), Publish(1, a)];
  }

  /**
   * What the two locks do guarantee: between starts, only an operation holding the current
   * ticket, or one whose check had already passed, can make its outcome visible.
   */
  lemma {:induction false} OnlyCurrentOrPendingPublish<T>(s: SplitState<T>, evs: seq<Event<T>>)
    requires forall i :: 0 <= i < |evs| ==> !evs[i].Start?
    ensures var f := SplitRun(s, evs);
            f.taskId == s.taskId &&
            (f.status == s.status ||
             exists i :: 0 <= i < |evs| && evs[i].Publish? &&
                         (evs[i].ticket == s.taskId || evs[i].ticket in s.passed) &&
                         f.status == Outcome(evs[i].result))
    decreases |evs|
  {
    if evs != [] {
      var s' := SplitStep(s, evs[0]);
      assert s'.passed <= s.passed + {s.taskId};
      OnlyCurrentOrPendingPublish(s', evs[1..]);
      var f := SplitRun(s, evs);
      if f.status != s'.status {
        var i :| 0 <= i < |evs[1..]| && evs[1..][i].Publish? &&
                 (evs[1..][i].ticket == s'.taskId || evs[1..][i].ticket in s'.passed) &&
                 f.status == Outcome(evs[1..][i].result);
        assert evs[i + 1] == evs[1..][i];
      } else if s'.status != s.status {
        assert evs[0].Publish? && f.status == Outcome(evs[0].result);
      }
    }
  }

  /**
   * A stale outcome becomes visible only if its check passed before the later start: when no
   * check is pending at a start, only the new operation's outcome can follow `Loading`.
   */
  lemma StartWithoutPendingCheckWins<T>(s: SplitState<T>, evs: seq<Event<T>>)
    requires s.passed == {}
    requires forall i :: 0 <= i < |evs| ==> !evs[i].Start?
    ensures var f := SplitRun(SplitStep(s, Start), evs);
            f.status == Loading ||
            exists i :: 0 <= i < |evs| && evs[i].Publish? && evs[i].ticket == s.taskId + 1 &&
                        f.status == Outcome(evs[i].result)
  {
    OnlyCurrentOrPendingPublish(SplitStep(s, Start), evs);
  }

  /** Each completion's check immediately followed by its write. */
  function Windows<T>(cs: seq<Completion<T>>): seq<Event<T>>
    decreases |cs|
  {
    if cs == [] then [] else [Check(cs[0].ticket), Publish(cs[0].ticket, cs[0].result)] + Windows(cs[1..])
  }

  /**
   * When nothing falls between a check and its write, the two-lock runner is the
   * single-critical-section one, and no check is left pending.
   */
  lemma {:induction false} ClosedWindowsAreAtomic<T>(s: RunnerState<T>, cs: seq<Completion<T>>)
    ensures SplitRun(SplitState(s.taskId, s.status, {}), Windows(cs))
         == SplitState(CompleteAll(s, cs).taskId, CompleteAll(s, cs).status, {})
    decreases |cs|
  {
    if cs != [] {
      var w: seq<Event<T>> := [Check(cs[0].ticket), Publish(cs[0].ticket, cs[0].result)];
      var s' := Completed(s, cs[0].ticket, cs[0].result);
      SplitRunAppend(SplitState(s.taskId, s.status, {}), w, Windows(cs[1..]));
      SplitRunPair(SplitState(s.taskId, s.status, {}), Check(cs[0].ticket), Publish(cs[0].ticket, cs[0].result));
      ClosedWindowsAreAtomic(s', cs[1..]);
    }
  }

  /**
   * The stale write with the runner's own steps: A checks and passes, B starts inside A's
   * window, checks and writes, then A writes. The status ends as A's outcome although B holds
   * the current ticket.
   */
  method StaleOverwrite<T>(first: Result<T, string>, second: Result<T, string>)
    returns (final: AsyncTaskStatus<T>, firstTicket: nat, currentTicket: nat)
    ensures final == Outcome(first) && firstTicket < currentTicket
  {
    var runner := new AsyncTaskRunner<T>();
    var a, notifiedA := runner.StartOperation();
    var aCurrent := runner.IsCurrent(a);
    var b, notifiedB := runner.StartOperation();
    var bCurrent := runner.IsCurrent(b);
    var notified;
    if bCurrent {
      notified := runner.Publish(b, second);
    }
    if aCurrent {
      notified := runner.Publish(a, first);
    }
    final := runner.Status();
    firstTicket, currentTicket := a, runner.taskId;
  }
}
