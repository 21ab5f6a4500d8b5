/** The lives of a DAG run on the thread's log: each is a call of `resume_dag`. */
module WaveReplay {
  import opened Types
  import opened Executor
  import opened Checkpoints
  import opened Dags
  import opened Waves
  import opened WaveRun
  import opened WaveRestart
  import WaveDurability
  import Sequential
  import SequentialRestart
  import Resume

  /** A record from which `resume_dag` continues as from its point: it has a DAG and its run
      was not cut off. */
  predicate Resumable(save: Snapshot) { save.dag.Some? && !save.status.Running? }

  predicate ResumableLog(log: Log) { log != [] && Resumable(Last(log).body) }

  /** The thread's log after one life that calls `resume_dag` and writes what its cut lets it. */
  function LogAfter(g: Graph, log: Log, firstId: Id, life: Life): (after: Log)
    requires log != []
    ensures |log| <= |after|
  {
    var loaded := Last(log).body;
    if loaded.dag.None? then log
    else match ResumeNodes(g.Under(life.interrupts), life.copy, loaded)
      case Err(_) => log
      case Ok(nodes) =>
        var t := DagOutcome(g.Under(life.interrupts), life.clock, nodes, loaded.state, life.sched, life.depth);
        Sequential.Appended(log, firstId, SequentialRestart.Written(t.saves, life.cut))
  }

  /** A thread's log and the next fresh id of its store. */
  datatype Thread = Thread(log: Log, nextId: Id)

  function ThreadAfter(g: Graph, t: Thread, life: Life): Thread
    requires t.log != []
    ensures ThreadAfter(g, t, life).log != []
  {
    var after := LogAfter(g, t.log, t.nextId, life);
    Thread(after, t.nextId + |after| - |t.log|)
  }

  /** The thread after the lives. */
  function ReplayLog(g: Graph, t: Thread, lives: seq<Life>): Thread
    requires t.log != []
    decreases |lives|
  {
    if lives == [] then t else ReplayLog(g, ThreadAfter(g, t, lives[0]), lives[1..])
  }

  /** Whatever a run records can be resumed from. */
  lemma RunsAreResumable(g: Graph, clock: Clock, nodes: Nodes, state: State, sched: Schedule, depth: u8, k: nat)
    requires k < |DagOutcome(g, clock, nodes, state, sched, depth).saves|
    ensures Resumable(DagOutcome(g, clock, nodes, state, sched, depth).saves[k])
  {
    var t := DagOutcome(g, clock, nodes, state, sched, depth);
    var bs := WaveDurability.WritesOnlyBoundaries(g, clock, Cfg(nodes, state, 0.0, 0), sched);
    assert WaveDurability.RecordFits(g, clock, bs, t.saves, k);
  }

  /** What one life from point `from` writes. */
  function WrittenBy(g: Graph, from: WavePoint, life: Life): seq<Snapshot> {
    SequentialRestart.Written(Resumed(g, from, life).saves, life.cut)
  }

  lemma LogAfterIs(g: Graph, log: Log, firstId: Id, life: Life)
    requires ResumableLog(log)
    ensures LogAfter(g, log, firstId, life) ==
            Sequential.Appended(log, firstId, WrittenBy(g, PointOf(Last(log).body), life))
  {
  }

  lemma WritesResumable(g: Graph, from: WavePoint, life: Life)
    ensures var written := WrittenBy(g, from, life); written != [] ==> Resumable(written[|written| - 1])
  {
    var saves, written := Resumed(g, from, life).saves, WrittenBy(g, from, life);
    if written != [] {
      assert written[|written| - 1] == saves[|written| - 1];
      RunsAreResumable(g.Under(life.interrupts), life.clock, Restored(life.copy, from.nodes), from.state, life.sched,
                       life.depth, |written| - 1);
    }
  }

  /** A life that writes `written` from log `log` leaves the log `after`. */
  predicate Leaves(log: Log, written: seq<Snapshot>, after: Log) {
    && ResumableLog(log) && ResumableLog(after)
    && PointOf(Last(after).body) == LatestAfter(PointOf(Last(log).body), written)
  }

  lemma AppendedLeaves(log: Log, firstId: Id, written: seq<Snapshot>)
    requires ResumableLog(log) && (written != [] ==> Resumable(written[|written| - 1]))
    ensures Leaves(log, written, Sequential.Appended(log, firstId, written))
  {
    Resume.LastAppended(log, firstId, written);
  }

  lemma LifeOnLog(g: Graph, log: Log, firstId: Id, life: Life)
    requires ResumableLog(log)
    ensures Leaves(log, WrittenBy(g, PointOf(Last(log).body), life), LogAfter(g, log, firstId, life))
  {
    var from := PointOf(Last(log).body);
    LogAfterIs(g, log, firstId, life);
    WritesResumable(g, from, life);
    AppendedLeaves(log, firstId, WrittenBy(g, from, life));
  }

  lemma ThreadOnLog(g: Graph, t: Thread, life: Life)
    requires ResumableLog(t.log)
    ensures Leaves(t.log, WrittenBy(g, PointOf(Last(t.log).body), life), ThreadAfter(g, t, life).log)
  {
    LifeOnLog(g, t.log, t.nextId, life);
  }

  /** The lives are calls of `resume_dag` on the thread's log: after them the latest record has
      a DAG, was not cut off, and stands at exactly the point of `Replay`, whatever the graph,
      the interrupts, the copies and the cuts. */
  lemma {:induction false} ReplayIsOnLog(g: Graph, t: Thread, lives: seq<Life>)
    returns (after: Log, point: WavePoint)
    requires ResumableLog(t.log)
    ensures after == ReplayLog(g, t, lives).log && point == Replay(g, PointOf(Last(t.log).body), lives)
    ensures ResumableLog(after) && PointOf(Last(after).body) == point
    decreases |lives|
  {
    if lives == [] {
      after, point := t.log, PointOf(Last(t.log).body);
    } else {
      var next := ThreadAfter(g, t, lives[0]);
      ThreadOnLog(g, t, lives[0]);
      ReplayUnfolds(g, PointOf(Last(t.log).body), lives, PointOf(Last(next.log).body));
      after, point := ReplayIsOnLog(g, next, lives[1..]);
    }
  }

  /** A life that returns is one call of `resume_dag`. */
  method ResumeOnce(g: Graph, clock: Clock, thread: Name, dag: Dag, store: Checkpointer, sched: Schedule, depth: u8)
    returns (r: Result<Option<State>, Error>, ghost life: Life)
    requires store.Valid()
    modifies store, dag
    ensures store.Valid()
    ensures life == Life(SequentialRestart.Return, Interrupts(g.interruptBefore, g.interruptAfter), old(dag.nodes),
                         clock, sched, depth)
    ensures old(store.LogOf(thread)) == [] ==> r == Ok(None) && unchanged(store) && unchanged(dag)
    ensures old(store.LogOf(thread)) != [] ==>
              Thread(store.LogOf(thread), store.nextId) ==
              ThreadAfter(g, Thread(old(store.LogOf(thread)), old(store.nextId)), life)
    ensures forall t :: t != thread ==> store.LogOf(t) == old(store.LogOf(t))
  {
    life := Life(SequentialRestart.Return, Interrupts(g.interruptBefore, g.interruptAfter), dag.nodes, clock, sched,
                 depth);
    assert g.Under(Interrupts(g.interruptBefore, g.interruptAfter)) == g;
    r := ResumeDag(g, clock, thread, dag, store, sched, depth);
  }
}
