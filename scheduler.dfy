/**
 * The task list of VideoScraper and its run loop: a stack of pending stage
 * tasks, drained newest first, where a task that raises is dropped and the loop
 * goes on.
 */
module Scheduler {
  import opened Basics
  import opened Documents
  import opened Stages

  /** The scraper's mutable state: its task list and the files under vids/, as far as the model knows them. */
  datatype State = State(tasks: seq<StageTask>, disk: map<string, seq<byte>>)

  /** Writing a file replaces whatever was stored under its path. */
  function Save(disk: map<string, seq<byte>>, written: Option<(string, seq<byte>)>): (r: map<string, seq<byte>>)
    ensures written.None? ==> r == disk
    ensures written.Some? ==> r.Keys == disk.Keys + {written.value.0} && r[written.value.0] == written.value.1
    ensures forall q :: q in disk && (written.None? || q != written.value.0) ==> q in r && r[q] == disk[q]
  {
    match written
    case None => disk
    case Some((path, data)) => disk[path := data]
  }

  /**
   * What awaiting a popped task does. The loop itself does not look inside a
   * stage, so its lemmas hold for any runner; the scraper's is Execute(server).
   */
  type Runner = StageTask -> StageRun

  /** The scraper's runner: each task runs its stage against the services. */
  function Execute(server: Server): Runner {
    t => RunStage(t, server)
  }

  /**
   * One iteration of run: pop the newest task, run it, and keep everything it
   * appended, whether it returned or raised; with no task pending nothing changes.
   */
  function Next(s: State, exec: Runner): State {
    if s.tasks == [] then s
    else
      var run := exec(s.tasks[|s.tasks| - 1]);
      State(s.tasks[..|s.tasks| - 1] + run.pushed, Save(s.disk, run.written))
  }

  /** The state after n iterations of run. */
  function Iterate(s: State, exec: Runner, n: nat): State
    decreases n
  {
    if n == 0 then s else Next(Iterate(s, exec, n - 1), exec)
  }

  /** The tasks the first n iterations ran, in the order they ran. */
  function Trace(s: State, exec: Runner, n: nat): seq<StageTask>
    decreases n
  {
    if n == 0 then []
    else
      var before := Iterate(s, exec, n - 1);
      Trace(s, exec, n - 1) + (if before.tasks == [] then [] else [before.tasks[|before.tasks| - 1]])
  }

  /** With no task pending, run changes nothing and runs nothing, however long it spins. */
  lemma {:induction false} IdleStaysIdle(s: State, exec: Runner, n: nat)
    requires s.tasks == []
    ensures Iterate(s, exec, n) == s && Trace(s, exec, n) == []
    decreases n
  {
    if n > 0 {
      IdleStaysIdle(s, exec, n - 1);
    }
  }

  /** An iteration keeps every file already written. */
  lemma NextKeepsFiles(s: State, exec: Runner)
    ensures s.disk.Keys <= Next(s, exec).disk.Keys
  {
  }

  /** The loop only ever adds or overwrites files under vids/; it never removes one. */
  lemma {:induction false} FilesNeverRemoved(s: State, exec: Runner, n: nat)
    ensures s.disk.Keys <= Iterate(s, exec, n).disk.Keys
    decreases n
  {
    if n > 0 {
      FilesNeverRemoved(s, exec, n - 1);
      var before := Iterate(s, exec, n - 1);
      NextKeepsFiles(before, exec);
      assert Iterate(s, exec, n) == Next(before, exec);
    }
  }

  /** Each iteration runs at most one task. */
  lemma {:induction false} TraceBounded(s: State, exec: Runner, n: nat)
    ensures |Trace(s, exec, n)| <= n
    decreases n
  {
    if n > 0 {
      TraceBounded(s, exec, n - 1);
    }
  }

  /**
   * LIFO: an iteration runs the most recently appended task; the tasks below it are
   * left as they were, and what it appended goes on top of them.
   */
  lemma NextPopsNewest(pending: seq<StageTask>, t: StageTask, disk: map<string, seq<byte>>, exec: Runner)
    ensures Next(State(pending + [t], disk), exec) ==
      State(pending + exec(t).pushed, Save(disk, exec(t).written))
  {
    assert (pending + [t])[..|pending|] == pending;
  }

  /**
   * A task of a later stage that raises is dropped without being re-enqueued:
   * exactly the tasks below it remain pending (a broken download still leaves its file).
   */
  lemma FailedTaskDiscarded(pending: seq<StageTask>, t: StageTask, disk: map<string, seq<byte>>, server: Server)
    requires !t.PlayByPlay? && RunStage(t, server).outcome.Raised?
    ensures Next(State(pending + [t], disk), Execute(server)).tasks == pending
  {
    NextPopsNewest(pending, t, disk, Execute(server));
    SuccessorsFollowPipeline(t, server);
  }

  /** The task an iteration appended last is the one the next iteration runs. */
  lemma AppendedRunsNext(s: State, exec: Runner)
    requires s.tasks != [] && exec(s.tasks[|s.tasks| - 1]).pushed != []
    ensures var run := exec(s.tasks[|s.tasks| - 1]);
            Trace(s, exec, 2) == [s.tasks[|s.tasks| - 1], run.pushed[|run.pushed| - 1]]
  {
    var run := exec(s.tasks[|s.tasks| - 1]);
    var after := Iterate(s, exec, 1);
    assert after == Next(s, exec);
    assert after.tasks[|after.tasks| - 1] == run.pushed[|run.pushed| - 1];
  }

  /**
   * Fault isolation: when the newest task raises and appends nothing, the loop goes
   * on with the task submitted before it, which runs in the next iteration.
   */
  lemma FaultIsolation(pending: seq<StageTask>, good: StageTask, bad: StageTask,
                       disk: map<string, seq<byte>>, server: Server)
    requires !bad.PlayByPlay? && RunStage(bad, server).outcome.Raised?
    ensures Iterate(State(pending + [good, bad], disk), Execute(server), 1).tasks == pending + [good]
    ensures Trace(State(pending + [good, bad], disk), Execute(server), 2) == [bad, good]
  {
    var s := State(pending + [good, bad], disk);
    assert pending + [good, bad] == (pending + [good]) + [bad];
    FailedTaskDiscarded(pending + [good], bad, disk, server);
    assert Iterate(s, Execute(server), 1).tasks == pending + [good];
  }

  /** An iteration on top of other pending tasks acts on its own part of the list only. */
  lemma NextOnTop(below: seq<StageTask>, top: seq<StageTask>, disk: map<string, seq<byte>>, exec: Runner)
    requires top != []
    ensures Next(State(below + top, disk), exec) ==
      State(below + Next(State(top, disk), exec).tasks, Next(State(top, disk), exec).disk)
  {
    var rest, t := top[..|top| - 1], top[|top| - 1];
    assert top == rest + [t];
    assert below + top == (below + rest) + [t];
    NextPopsNewest(rest, t, disk, exec);
    NextPopsNewest(below + rest, t, disk, exec);
    assert (below + rest) + exec(t).pushed == below + (rest + exec(t).pushed);
  }

  /**
   * Depth first: as long as the tasks on top (and everything they discover) have not
   * drained, the tasks submitted before them are neither run nor changed.
   */
  lemma {:induction false} DrainsDeepestFirst(below: seq<StageTask>, top: seq<StageTask>,
                                              disk: map<string, seq<byte>>, exec: Runner, n: nat)
    requires forall k :: 0 <= k < n ==> Iterate(State(top, disk), exec, k).tasks != []
    ensures Iterate(State(below + top, disk), exec, n) ==
      State(below + Iterate(State(top, disk), exec, n).tasks, Iterate(State(top, disk), exec, n).disk)
    ensures Trace(State(below + top, disk), exec, n) == Trace(State(top, disk), exec, n)
    decreases n
  {
    if n > 0 {
      DrainsDeepestFirst(below, top, disk, exec, n - 1);
      var inner := Iterate(State(top, disk), exec, n - 1);
      NextOnTop(below, inner.tasks, inner.disk, exec);
      var outer := Iterate(State(below + top, disk), exec, n - 1);
      assert outer.tasks == below + inner.tasks;
      assert outer.tasks[|outer.tasks| - 1] == inner.tasks[|inner.tasks| - 1];
    }
  }

  /**
   * A failure never ends the loop: while tasks are pending, every iteration runs
   * one. This holds because Next is total: a stage that raises is an ordinary
   * outcome of RunStage, and FaultIsolation shows what the loop does with it.
   */
  lemma {:induction false} EveryBusyIterationRuns(s: State, exec: Runner, n: nat)
    requires forall k :: 0 <= k < n ==> Iterate(s, exec, k).tasks != []
    ensures |Trace(s, exec, n)| == n
    decreases n
  {
    if n > 0 {
      EveryBusyIterationRuns(s, exec, n - 1);
    }
  }

  /** While the list has stayed busy, the k-th task run is the newest one pending after k iterations. */
  lemma {:induction false} TraceRunsNewest(s: State, exec: Runner, n: nat, k: nat)
    requires k < n
    requires forall j :: 0 <= j <= k ==> Iterate(s, exec, j).tasks != []
    ensures k < |Trace(s, exec, n)|
    ensures Trace(s, exec, n)[k] == Iterate(s, exec, k).tasks[|Iterate(s, exec, k).tasks| - 1]
    decreases n
  {
    if k < n - 1 {
      TraceRunsNewest(s, exec, n - 1, k);
    } else {
      EveryBusyIterationRuns(s, exec, k);
    }
  }

  /**
   * Two downloads of the same uuid write the same path: the later one wins, and
   * every other file is left as it was.
   */
  lemma SameUuidLastWriterWins(first: StageTask, second: StageTask, disk: map<string, seq<byte>>, server: Server)
    requires first.VideoMp4? && second.VideoMp4? && first.videoUuid == second.videoUuid
    requires server.video(second.videoUrl).Streamed?
    ensures var after := Save(Save(disk, RunStage(first, server).written), RunStage(second, server).written);
            var path := VIDEO_DIR + second.videoUuid + ".mp4";
            path in after && after[path] == server.video(second.videoUrl).data &&
            forall q :: q in disk && q != path ==> q in after && after[q] == disk[q]
  {
    DownloadStage(first, server);
    DownloadStage(second, server);
  }

  /**
   * The scraper object: its task list (self.tasks) and the vids/ directory it writes.
   * The directory is not part of the Python object; the constructor takes what it
   * holds when the scraper is created.
   */
  class VideoScraper {
    var tasks: seq<StageTask>
    var disk: map<string, seq<byte>>

    function Snapshot(): State
      reads this
    {
      State(tasks, disk)
    }

    /** A new scraper has no pending task; creating it leaves vids/ as it was. */
    constructor (files: map<string, seq<byte>>)
      ensures tasks == [] && disk == files
    {
      tasks := [];
      disk := files;
    }

    /** self.tasks.append(task) */
    method Submit(t: StageTask)
      modifies this
      ensures tasks == old(tasks) + [t] && disk == old(disk)
    {
      tasks := tasks + [t];
    }

    /**
     * One iteration of run: pop the newest task and run it; whatever it appended
     * stays, whether it returned or raised. Returns the run, or None when idle.
     */
    method Step(server: Server) returns (run: Option<StageRun>)
      modifies this
      ensures Snapshot() == Next(old(Snapshot()), Execute(server))
      ensures old(tasks) == [] <==> run.None?
      ensures run.Some? ==> run.value == RunStage(old(tasks)[|old(tasks)| - 1], server)
    {
      if tasks == [] {
        return None;
      }
      var task := tasks[|tasks| - 1];
      tasks := tasks[..|tasks| - 1];
      var r := RunTask(task, server);
      tasks := tasks + r.pushed;
      disk := Save(disk, r.written);
      run := Some(r);
    }

    /** run, for `fuel` iterations: the log holds every task's run, failed ones included. */
    method Run(server: Server, fuel: nat) returns (log: seq<StageRun>)
      modifies this
      ensures Snapshot() == Iterate(old(Snapshot()), Execute(server), fuel)
      ensures |log| == |Trace(old(Snapshot()), Execute(server), fuel)|
      ensures forall i :: 0 <= i < |log| ==> log[i] == RunStage(Trace(old(Snapshot()), Execute(server), fuel)[i], server)
    {
      ghost var start := Snapshot();
      log := [];
      for i := 0 to fuel
        invariant Snapshot() == Iterate(start, Execute(server), i)
        invariant |log| == |Trace(start, Execute(server), i)|
        invariant forall j :: 0 <= j < |log| ==> log[j] == RunStage(Trace(start, Execute(server), i)[j], server)
      {
        var r := Step(server);
        if r.Some? {
          log := log + [r.value];
        }
      }
    }
  }
}
