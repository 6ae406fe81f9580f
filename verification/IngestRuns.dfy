/**
 Runs of concurrent ingests, workers and deletions (module IngestRace) that end with a job
 without its file or a file without its job, each built up step by step from nothing.
 */
module IngestRuns {
  import opened Bytes
  import opened Jobs
  import opened Pipeline
  import WorkFiles
  import opened IngestRace

  /** The steps lead from nothing to the world. */
  ghost predicate Reaches(sha: Hash, contents: set<seq<Byte>>, steps: seq<Step>, w: World) {
    Legal(sha, contents, NOTHING, steps) && Exec(sha, NOTHING, steps) == w
  }

  lemma {:induction false} OneMore(sha: Hash, contents: set<seq<Byte>>, w: World, steps: seq<Step>, step: Step)
    requires Legal(sha, contents, w, steps) && Enabled(sha, Exec(sha, w, steps), step)
    requires step.Start? ==> step.content in contents
    ensures Legal(sha, contents, w, steps + [step])
    ensures Exec(sha, w, steps + [step]) == Apply(sha, Exec(sha, w, steps), step)
    decreases |steps|
  {
    if steps == [] {
      assert steps + [step] == [step];
      assert Exec(sha, Apply(sha, w, step), [step][1..]) == Apply(sha, w, step);
    } else {
      assert (steps + [step])[1..] == steps[1..] + [step];
      OneMore(sha, contents, Apply(sha, w, steps[0]), steps[1..], step);
    }
  }

  lemma Goes(
      sha: Hash, contents: set<seq<Byte>>, steps: seq<Step>, w: World, step: Step, v: World)
      returns (longer: seq<Step>)
    requires Reaches(sha, contents, steps, w) && Enabled(sha, w, step) && (step.Start? ==> step.content in contents)
    requires v == Apply(sha, w, step)
    ensures longer == steps + [step] && Reaches(sha, contents, longer, v)
  {
    OneMore(sha, contents, NOTHING, steps, step);
    longer := steps + [step];
  }

  lemma MoveOne(rest: Disk, source: Path, target: Path, v: seq<Byte>)
    requires source !in rest && source != target
    ensures source in rest[source := v] && Move(rest[source := v], source, target) == rest[target := v]
  {
    assert Remove(rest[source := v], source) == rest;
  }

  // ---------- Two ingests of one file ----------

  lemma BothStarted(sha: Hash, c: seq<Byte>, n: string) returns (steps: seq<Step>)
    ensures Reaches(sha, {c}, steps,
      Plain(map[], map[Staging(0) := c, Staging(1) := c], map[0 := Staged(c, n), 1 := Staged(c, n)], map[]))
  {
    var one := Plain(map[], map[Staging(0) := c], map[0 := Staged(c, n)], map[]);
    steps := Goes(sha, {c}, [], NOTHING, Start(0, c, n), one);
    var both := Plain(map[], map[Staging(0) := c, Staging(1) := c], map[0 := Staged(c, n), 1 := Staged(c, n)], map[]);
    steps := Goes(sha, {c}, steps, one, Start(1, c, n), both);
  }

  lemma BothLooked(sha: Hash, c: seq<Byte>, n: string) returns (steps: seq<Step>)
    ensures Reaches(sha, {c}, steps,
      Plain(map[], map[Staging(0) := c, Staging(1) := c], map[0 := Looked(c, n), 1 := Looked(c, n)], map[]))
  {
    var files := map[Staging(0) := c, Staging(1) := c];
    steps := BothStarted(sha, c, n);
    var started := Plain(map[], files, map[0 := Staged(c, n), 1 := Staged(c, n)], map[]);
    var one := Plain(map[], files, map[0 := Looked(c, n), 1 := Staged(c, n)], map[]);
    steps := Goes(sha, {c}, steps, started, LookUp(0), one);
    var both := Plain(map[], files, map[0 := Looked(c, n), 1 := Looked(c, n)], map[]);
    steps := Goes(sha, {c}, steps, one, LookUp(1), both);
  }

  /** The first ingest has placed its file, the second one is about to. */
  function Twins(sha: Hash, c: seq<Byte>, n: string): World {
    Plain(map[], map[Staging(1) := c, Inbox(Prefix(sha(c)), n) := c], map[0 := InInbox(c, n), 1 := Looked(c, n)], map[])
  }

  lemma OnePlaced(sha: Hash, c: seq<Byte>, n: string) returns (steps: seq<Step>)
    ensures Reaches(sha, {c}, steps, Twins(sha, c, n))
  {
    steps := BothLooked(sha, c, n);
    var looked := Plain(map[], map[Staging(0) := c, Staging(1) := c], map[0 := Looked(c, n), 1 := Looked(c, n)], map[]);
    assert map[Staging(0) := c, Staging(1) := c] == map[Staging(1) := c][Staging(0) := c];
    MoveOne(map[Staging(1) := c], Staging(0), Inbox(Prefix(sha(c)), n), c);
    steps := Goes(sha, {c}, steps, looked, Place(0), Twins(sha, c, n));
  }

  // ---------- A raised insert ----------

  function FirstJob(sha: Hash, c: seq<Byte>, n: string): Job {
    NewJob("a", n, c, sha, 0.0)
  }

  lemma BothPlaced(sha: Hash, c: seq<Byte>, n: string) returns (steps: seq<Step>)
    ensures Reaches(sha, {c}, steps,
      Plain(map[], map[Inbox(Prefix(sha(c)), n) := c], map[0 := InInbox(c, n), 1 := InInbox(c, n)], map[]))
  {
    var f := Inbox(Prefix(sha(c)), n);
    steps := OnePlaced(sha, c, n);
    assert Twins(sha, c, n).files == map[f := c][Staging(1) := c];
    MoveOne(map[f := c], Staging(1), f, c);
    var both := Plain(map[], map[f := c], map[0 := InInbox(c, n), 1 := InInbox(c, n)], map[]);
    steps := Goes(sha, {c}, steps, Twins(sha, c, n), Place(1), both);
  }

  lemma OneUnreferenced(sha: Hash, c: seq<Byte>, n: string) returns (steps: seq<Step>)
    ensures Reaches(sha, {c}, steps,
      Plain(map[], map[Inbox(Prefix(sha(c)), n) := c], map[0 := InInbox(c, n), 1 := Unreferenced(c, n)], map[]))
  {
    var files := map[Inbox(Prefix(sha(c)), n) := c];
    steps := BothPlaced(sha, c, n);
    var both := Plain(map[], files, map[0 := InInbox(c, n), 1 := InInbox(c, n)], map[]);
    var raised := Plain(map[], files, map[0 := InInbox(c, n), 1 := At.Raised(c, n)], map[]);
    steps := Goes(sha, {c}, steps, both, InsertRaises(1), raised);
    var unreferenced := Plain(map[], files, map[0 := InInbox(c, n), 1 := Unreferenced(c, n)], map[]);
    steps := Goes(sha, {c}, steps, raised, Check(1), unreferenced);
  }

  lemma LateUnlink(sha: Hash, c: seq<Byte>, n: string) returns (steps: seq<Step>)
    ensures steps != [] && steps[|steps| - 1] == Unlink(1)
    ensures Reaches(sha, {c}, steps, Plain(map["a" := FirstJob(sha, c, n)], map[], map[], map[]))
  {
    var files, rows := map[Inbox(Prefix(sha(c)), n) := c], map["a" := FirstJob(sha, c, n)];
    steps := OneUnreferenced(sha, c, n);
    var start := Plain(map[], files, map[0 := InInbox(c, n), 1 := Unreferenced(c, n)], map[]);
    var inserted := Plain(rows, files, map[1 := Unreferenced(c, n)], map[]);
    Inserts(sha, start, 0, "a", map[1 := Unreferenced(c, n)]);
    steps := Goes(sha, {c}, steps, start, Insert(0, "a", 0.0), inserted);
    steps := Goes(sha, {c}, steps, inserted, Unlink(1), Plain(rows, map[], map[], map[]));
  }

  /** An insert into a table without the content. */
  lemma Inserts(sha: Hash, w: World, p: int, id: string, others: map<int, At>)
    requires p in w.procs && w.procs[p].InInbox? && w.rows == map[] && FreshId(w, id)
    requires w.procs == others[p := w.procs[p]] && p !in others
    ensures Enabled(sha, w, Insert(p, id, 0.0))
    ensures Apply(sha, w, Insert(p, id, 0.0))
      == w.(rows := map[id := NewJob(id, w.procs[p].name, w.procs[p].content, sha, 0.0)], procs := others)
  {
    assert Without(w.procs, p) == others;
  }

  lemma EarlyUnlink(sha: Hash, c: seq<Byte>, n: string) returns (steps: seq<Step>)
    ensures steps != [] && steps[|steps| - 1] == Insert(0, "a", 0.0)
    ensures Reaches(sha, {c}, steps, Plain(map["a" := FirstJob(sha, c, n)], map[], map[], map[]))
  {
    var files := map[Inbox(Prefix(sha(c)), n) := c];
    steps := OneUnreferenced(sha, c, n);
    var start := Plain(map[], files, map[0 := InInbox(c, n), 1 := Unreferenced(c, n)], map[]);
    var unlinked := Plain(map[], map[], map[0 := InInbox(c, n)], map[]);
    steps := Goes(sha, {c}, steps, start, Unlink(1), unlinked);
    Inserts(sha, unlinked, 0, "a", map[]);
    var end := Plain(map["a" := FirstJob(sha, c, n)], map[], map[], map[]);
    steps := Goes(sha, {c}, steps, unlinked, Insert(0, "a", 0.0), end);
  }

  /**
   One ingest raises and cleans up, after the other has inserted its row or before. All have ended,
   and the other's job has no file.
   */
  lemma RaisedInsertLosesFile(sha: Hash, c: seq<Byte>, n: string, late: bool) returns (steps: seq<Step>)
    ensures steps != [] && steps[|steps| - 1] == if late then Unlink(1) else Insert(0, "a", 0.0)
    ensures Reaches(sha, {c}, steps, Plain(map["a" := FirstJob(sha, c, n)], map[], map[], map[]))
  {
    if late { steps := LateUnlink(sha, c, n); } else { steps := EarlyUnlink(sha, c, n); }
  }

  // ---------- A file that a worker moves ----------

  function Held(sha: Hash, c: seq<Byte>, n: string, status: Status): Job {
    FirstJob(sha, c, n).(status := status)
  }

  lemma OneHeld(sha: Hash, c: seq<Byte>, n: string) returns (steps: seq<Step>)
    ensures Reaches(sha, {c}, steps,
      Plain(map["a" := Held(sha, c, n, Processing)], Twins(sha, c, n).files, map[1 := Looked(c, n)], map[]))
  {
    steps := OnePlaced(sha, c, n);
    var files, procs := Twins(sha, c, n).files, map[1 := Looked(c, n)];
    var inserted := Plain(map["a" := FirstJob(sha, c, n)], files, procs, map[]);
    Inserts(sha, Twins(sha, c, n), 0, "a", procs);
    steps := Goes(sha, {c}, steps, Twins(sha, c, n), Insert(0, "a", 0.0), inserted);
    var held := Plain(map["a" := Held(sha, c, n, Processing)], files, procs, map[]);
    steps := Goes(sha, {c}, steps, inserted, Restate("a", Processing), held);
  }

  lemma OneMoved(sha: Hash, c: seq<Byte>, n: string) returns (steps: seq<Step>)
    ensures var q := Quarantine("a", n);
      Reaches(sha, {c}, steps,
        Plain(map["a" := Held(sha, c, n, Processing)], map[Staging(1) := c, q := c],
          map[1 := Looked(c, n)], map["a" := q]))
  {
    var f, q, rows := Inbox(Prefix(sha(c)), n), Quarantine("a", n), map["a" := Held(sha, c, n, Processing)];
    steps := OneHeld(sha, c, n);
    var held := Plain(rows, Twins(sha, c, n).files, map[1 := Looked(c, n)], map[]);
    MoveOne(map[Staging(1) := c], f, q, c);
    var moved := Plain(rows, map[Staging(1) := c, q := c], map[1 := Looked(c, n)], map["a" := q]);
    steps := Goes(sha, {c}, steps, held, Moves("a", q), moved);
  }

  lemma PlacedAgain(sha: Hash, c: seq<Byte>, n: string) returns (steps: seq<Step>)
    ensures var f, q := Inbox(Prefix(sha(c)), n), Quarantine("a", n);
      Reaches(sha, {c}, steps,
        Plain(map["a" := Held(sha, c, n, Processing)], map[f := c, q := c], map[1 := InInbox(c, n)], map["a" := q]))
  {
    var f, q, rows := Inbox(Prefix(sha(c)), n), Quarantine("a", n), map["a" := Held(sha, c, n, Processing)];
    steps := OneMoved(sha, c, n);
    var moved := Plain(rows, map[Staging(1) := c, q := c], map[1 := Looked(c, n)], map["a" := q]);
    assert moved.files == map[q := c][Staging(1) := c];
    MoveOne(map[q := c], Staging(1), f, c);
    var again := Plain(rows, map[f := c, q := c], map[1 := InInbox(c, n)], map["a" := q]);
    assert again.files == map[q := c][f := c];
    steps := Goes(sha, {c}, steps, moved, Place(1), again);
  }

  lemma BeatenLeaves(sha: Hash, c: seq<Byte>, n: string) returns (steps: seq<Step>)
    ensures var f, q := Inbox(Prefix(sha(c)), n), Quarantine("a", n);
      Reaches(sha, {c}, steps,
        Plain(map["a" := Held(sha, c, n, Processing)], map[f := c, q := c], map[], map["a" := q]))
  {
    var f, q, rows := Inbox(Prefix(sha(c)), n), Quarantine("a", n), map["a" := Held(sha, c, n, Processing)];
    steps := PlacedAgain(sha, c, n);
    var files := map[f := c, q := c];
    var again := Plain(rows, files, map[1 := InInbox(c, n)], map["a" := q]);
    var beaten := Plain(rows, files, map[1 := Beaten(c, n, f)], map["a" := q]);
    steps := Goes(sha, {c}, steps, again, Conflict(1, "a"), beaten);
    assert Without(beaten.procs, 1) == map[];
    steps := Goes(sha, {c}, steps, beaten, Settle(1), Plain(rows, files, map[], map["a" := q]));
  }

  /**
   A worker moves the new job's file; the other ingest puts the same file there again, is beaten, and
   leaves it to that job. All have ended, and the inbox holds a file of no job.
   */
  lemma MovedFileComesBack(sha: Hash, c: seq<Byte>, n: string) returns (steps: seq<Step>)
    ensures var f, q := Inbox(Prefix(sha(c)), n), Quarantine("a", n);
      var rows := map["a" := Held(sha, c, n, Quarantined).(path := q)];
      Reaches(sha, {c}, steps, Plain(rows, map[f := c, q := c], map[], map[])) && !WorkFiles.HasOwner(rows, f)
  {
    var f, q, rows := Inbox(Prefix(sha(c)), n), Quarantine("a", n), map["a" := Held(sha, c, n, Processing)];
    steps := BeatenLeaves(sha, c, n);
    var left := Plain(rows, map[f := c, q := c], map[], map["a" := q]);
    var end := Plain(map["a" := Held(sha, c, n, Quarantined).(path := q)], map[f := c, q := c], map[], map[]);
    assert Without(left.moving, "a") == map[];
    steps := Goes(sha, {c}, steps, left, Saves("a", Quarantined), end);
  }

  // ---------- A deletion overtaken by an ingest ----------

  lemma OneStarted(sha: Hash, c: seq<Byte>, n: string) returns (steps: seq<Step>)
    ensures Reaches(sha, {c}, steps, Plain(map[], map[Inbox(Prefix(sha(c)), n) := c], map[0 := InInbox(c, n)], map[]))
  {
    var f, started := Inbox(Prefix(sha(c)), n), Plain(map[], map[Staging(0) := c], map[0 := Staged(c, n)], map[]);
    steps := Goes(sha, {c}, [], NOTHING, Start(0, c, n), started);
    var looked := Plain(map[], map[Staging(0) := c], map[0 := Looked(c, n)], map[]);
    steps := Goes(sha, {c}, steps, started, LookUp(0), looked);
    MoveOne(map[], Staging(0), f, c);
    steps := Goes(sha, {c}, steps, looked, Place(0), Plain(map[], map[f := c], map[0 := InInbox(c, n)], map[]));
  }

  lemma OneFailed(sha: Hash, c: seq<Byte>, n: string) returns (steps: seq<Step>)
    ensures Reaches(sha, {c}, steps,
      Plain(map["a" := Held(sha, c, n, Failed)], map[Inbox(Prefix(sha(c)), n) := c], map[], map[]))
  {
    var files := map[Inbox(Prefix(sha(c)), n) := c];
    steps := OneStarted(sha, c, n);
    var placed := Plain(map[], files, map[0 := InInbox(c, n)], map[]);
    Inserts(sha, placed, 0, "a", map[]);
    var inserted := Plain(map["a" := FirstJob(sha, c, n)], files, map[], map[]);
    steps := Goes(sha, {c}, steps, placed, Insert(0, "a", 0.0), inserted);
    var held := Plain(map["a" := Held(sha, c, n, Processing)], files, map[], map[]);
    steps := Goes(sha, {c}, steps, inserted, Restate("a", Processing), held);
    var failed := Plain(map["a" := Held(sha, c, n, Failed)], files, map[], map[]);
    steps := Goes(sha, {c}, steps, held, Restate("a", Failed), failed);
  }

  /** A state in which the row of job a is gone and its files are still to be unlinked. */
  function Deletes(rows: Table, files: Disk, procs: map<int, At>, doom: Doom): World {
    World(rows, files, procs, map[], {}, map["a" := doom], map[])
  }

  function FirstDoom(sha: Hash, c: seq<Byte>, n: string): Doom {
    Doom(Inbox(Prefix(sha(c)), n), Quarantine("a", n), false)
  }

  lemma RowGone(sha: Hash, c: seq<Byte>, n: string) returns (steps: seq<Step>)
    ensures Reaches(sha, {c}, steps, Deletes(map[], map[Inbox(Prefix(sha(c)), n) := c], map[], FirstDoom(sha, c, n)))
  {
    var files := map[Inbox(Prefix(sha(c)), n) := c];
    steps := OneFailed(sha, c, n);
    var failed := Plain(map["a" := Held(sha, c, n, Failed)], files, map[], map[]);
    assert Without(failed.rows, "a") == map[] && Without(failed.moving, "a") == map[];
    steps := Goes(sha, {c}, steps, failed, DeleteRow("a"), Deletes(map[], files, map[], FirstDoom(sha, c, n)));
  }

  lemma SecondLooked(sha: Hash, c: seq<Byte>, n: string) returns (steps: seq<Step>)
    ensures var files := map[Inbox(Prefix(sha(c)), n) := c][Staging(0) := c];
      Reaches(sha, {c}, steps, Deletes(map[], files, map[0 := Looked(c, n)], FirstDoom(sha, c, n)))
  {
    var files, doom := map[Inbox(Prefix(sha(c)), n) := c], FirstDoom(sha, c, n);
    steps := RowGone(sha, c, n);
    var started := Deletes(map[], files[Staging(0) := c], map[0 := Staged(c, n)], doom);
    steps := Goes(sha, {c}, steps, Deletes(map[], files, map[], doom), Start(0, c, n), started);
    var looked := Deletes(map[], files[Staging(0) := c], map[0 := Looked(c, n)], doom);
    steps := Goes(sha, {c}, steps, started, LookUp(0), looked);
  }

  lemma SecondInserted(sha: Hash, c: seq<Byte>, n: string) returns (steps: seq<Step>)
    ensures var rows := map["b" := NewJob("b", n, c, sha, 0.0)];
      Reaches(sha, {c}, steps, Deletes(rows, map[Inbox(Prefix(sha(c)), n) := c], map[], FirstDoom(sha, c, n)))
  {
    var f, doom := Inbox(Prefix(sha(c)), n), FirstDoom(sha, c, n);
    var files := map[f := c];
    steps := SecondLooked(sha, c, n);
    var looked := Deletes(map[], files[Staging(0) := c], map[0 := Looked(c, n)], doom);
    var placed := Deletes(map[], files, map[0 := InInbox(c, n)], doom);
    MoveOne(files, Staging(0), f, c);
    assert files[f := c] == files;
    steps := Goes(sha, {c}, steps, looked, Place(0), placed);
    Inserts(sha, placed, 0, "b", map[]);
    var rows := map["b" := NewJob("b", n, c, sha, 0.0)];
    steps := Goes(sha, {c}, steps, placed, Insert(0, "b", 0.0), Deletes(rows, files, map[], doom));
  }

  /**
   A failed job is deleted; before the deletion unlinks its file, the same document is ingested again
   under the same name. All have ended, and the new job has no file.
   */
  lemma DeletionTakesNewFile(sha: Hash, c: seq<Byte>, n: string) returns (steps: seq<Step>)
    ensures Reaches(sha, {c}, steps, Plain(map["b" := NewJob("b", n, c, sha, 0.0)], map[], map[], map[]))
  {
    var files, doom := map[Inbox(Prefix(sha(c)), n) := c], FirstDoom(sha, c, n);
    var rows := map["b" := NewJob("b", n, c, sha, 0.0)];
    steps := SecondInserted(sha, c, n);
    var unlinked := Deletes(rows, map[], map[], doom.(storedDone := true));
    assert Remove(files, doom.stored) == map[];
    steps := Goes(sha, {c}, steps, Deletes(rows, files, map[], doom), UnlinkStored("a"), unlinked);
    assert Without(unlinked.deleting, "a") == map[];
    assert Remove(map[], doom.quarantine) == map[];
    steps := Goes(sha, {c}, steps, unlinked, UnlinkQuarantine("a"), Plain(rows, map[], map[], map[]));
  }
}
