/**
 Concurrent ingests (ingest in pipeline.py), one file operation or transaction at a time. The
 staging file, the lookup, the move into the inbox, the insert and the clean-up of each ingest
 may interleave with those of any number of others, some with the same content, with workers
 and releases that move or drop the file of a job and then save its row, and with deletions
 (delete_job in api.py), whose row removal and two unlinks are three steps.
 */
module IngestRace {
  import opened Bytes
  import opened Jobs
  import opened Pipeline
  import opened WorkFiles

  /** An ingest between two of its effects. */
  datatype At =
    | Staged(content: seq<Byte>, name: string)                    // about to look the hash up
    | Looked(content: seq<Byte>, name: string)                    // not found; about to move the file
    | InInbox(content: seq<Byte>, name: string)                   // about to insert the row
    | Beaten(content: seq<Byte>, name: string, persisted: Path)   // another job has the hash
    | Raised(content: seq<Byte>, name: string)                    // the insert raised; about to look up
    | Unreferenced(content: seq<Byte>, name: string)              // no job refers to the file; about to unlink

  /** A deletion whose row is gone: what it has still to unlink. */
  datatype Doom = Doom(stored: Path, quarantine: Path, storedDone: bool)

  /**
   moving: jobs whose file is already at its new place while their row names the old one.
   dropped: jobs whose file the delete policy removed. stray: deleted jobs whose worker goes on.
   */
  datatype World = World(
    rows: Table, files: Disk, procs: map<int, At>, moving: map<string, Path>, dropped: set<string>,
    deleting: map<string, Doom>, stray: map<string, Job>)

  datatype Step =
    | Start(p: int, content: seq<Byte>, name: string)
    | LookUp(p: int)
    | Place(p: int)
    | Insert(p: int, id: string, now: real)
    | Conflict(p: int, found: string)           // the insert fails on the job with the same hash
    | InsertRaises(p: int)                      // another exception, nothing committed
    | Settle(p: int)                            // the beaten ingest tidies up
    | Check(p: int)
    | Unlink(p: int)
    | Restate(id: string, status: Status)       // a claim, failure, retry or delivery that leaves the file
    | Moves(id: string, target: Path)           // process or release moves the job's file
    | Drops(id: string)                         // or deletes it after delivery
    | Saves(id: string, status: Status)         // and then saves the row
    | DeleteRow(id: string)
    | UnlinkStored(id: string)
    | UnlinkQuarantine(id: string)
    | LateMove(id: string, target: Path)        // the worker of a deleted job moves what it finds
    | LateDrop(id: string)

  predicate OfIngest(step: Step) {
    || step.Start? || step.LookUp? || step.Place? || step.Insert? || step.Conflict? || step.InsertRaises?
    || step.Settle? || step.Check? || step.Unlink?
  }

  predicate ActedOn(step: Step, q: int) {
    OfIngest(step) && step.p == q
  }

  function Final(sha: Hash, at: At): Path {
    Inbox(Prefix(sha(at.content)), at.name)
  }

  predicate Refers(t: Table, sha256: string, path: Path) {
    exists id :: id in t && t[id].sha256 == sha256 && t[id].path == path
  }

  predicate InWork(status: Status) {
    status == Processing || status == Delivering
  }

  /** Where process or release may move a file. */
  predicate IsTarget(job: Job, id: string, target: Path) {
    target != job.path && (target == Quarantine(id, job.filename) || target == Completed(id, job.filename))
  }

  /** An id never used before. */
  predicate FreshId(w: World, id: string) {
    id !in w.rows && id !in w.deleting && id !in w.stray
  }

  predicate Enabled(sha: Hash, w: World, step: Step) {
    match step
    case Start(p, _, _) => p !in w.procs
    case LookUp(p) => p in w.procs && w.procs[p].Staged?
    case Place(p) => p in w.procs && w.procs[p].Looked? && Staging(p) in w.files
    case Insert(p, id, _) =>
      p in w.procs && w.procs[p].InInbox? && FreshId(w, id) && !HasHash(w.rows, sha(w.procs[p].content))
    case Conflict(p, found) =>
      p in w.procs && w.procs[p].InInbox? && found in w.rows && w.rows[found].sha256 == sha(w.procs[p].content)
    case InsertRaises(p) => p in w.procs && w.procs[p].InInbox?
    case Settle(p) => p in w.procs && w.procs[p].Beaten?
    case Check(p) => p in w.procs && w.procs[p].Raised?
    case Unlink(p) => p in w.procs && w.procs[p].Unreferenced?
    case Restate(id, status) =>
      id in w.rows && id !in w.moving && (id in w.dropped ==> status == Delivered)
    case Moves(id, target) =>
      && id in w.rows && id !in w.moving && id !in w.dropped && InWork(w.rows[id].status)
      && w.rows[id].path in w.files && IsTarget(w.rows[id], id, target)
    case Drops(id) => id in w.rows && id !in w.moving && InWork(w.rows[id].status)
    case Saves(id, _) => id in w.rows && id in w.moving
    case DeleteRow(id) => id in w.rows && Deletable(w.rows[id].status)
    case UnlinkStored(id) => id in w.deleting && !w.deleting[id].storedDone
    case UnlinkQuarantine(id) => id in w.deleting && w.deleting[id].storedDone
    case LateMove(id, target) => id in w.stray && w.stray[id].path in w.files && IsTarget(w.stray[id], id, target)
    case LateDrop(id) => id in w.stray
  }

  function Without<K, V>(m: map<K, V>, key: K): map<K, V> {
    map k | k in m && k != key :: m[k]
  }

  function Rows(sha: Hash, w: World, step: Step): Table
    requires Enabled(sha, w, step)
  {
    match step
    case Insert(p, id, now) => w.rows[id := NewJob(id, w.procs[p].name, w.procs[p].content, sha, now)]
    case Restate(id, status) => w.rows[id := w.rows[id].(status := status)]
    case Saves(id, status) => w.rows[id := w.rows[id].(path := w.moving[id], status := status)]
    case DeleteRow(id) => Without(w.rows, id)
    case _ => w.rows
  }

  /** The path a step unlinks, or takes a file from. */
  datatype Taken = Nothing | Takes(path: Path)

  function Taking(sha: Hash, w: World, step: Step): Taken
    requires Enabled(sha, w, step)
  {
    match step
    case Settle(p) =>
      if Final(sha, w.procs[p]) != w.procs[p].persisted then Takes(Final(sha, w.procs[p])) else Nothing
    case Unlink(p) => Takes(Final(sha, w.procs[p]))
    case UnlinkStored(id) => Takes(w.deleting[id].stored)
    case UnlinkQuarantine(id) => Takes(w.deleting[id].quarantine)
    case LateMove(id, _) => Takes(w.stray[id].path)
    case LateDrop(id) => Takes(w.stray[id].path)
    case _ => Nothing
  }

  function Files(sha: Hash, w: World, step: Step): Disk
    requires Enabled(sha, w, step)
  {
    match step
    case Start(p, content, _) => w.files[Staging(p) := content]
    case LookUp(p) => if HasHash(w.rows, sha(w.procs[p].content)) then Remove(w.files, Staging(p)) else w.files
    case Place(p) => Move(w.files, Staging(p), Final(sha, w.procs[p]))
    case Moves(id, target) => Move(w.files, w.rows[id].path, target)
    case Drops(id) => Remove(w.files, w.rows[id].path)
    case LateMove(id, target) => Move(w.files, w.stray[id].path, target)
    case _ => var taken := Taking(sha, w, step); if taken == Nothing then w.files else Remove(w.files, taken.path)
  }

  function Procs(sha: Hash, w: World, step: Step): map<int, At>
    requires Enabled(sha, w, step)
  {
    match step
    case Start(p, content, name) => w.procs[p := Staged(content, name)]
    case LookUp(p) =>
      if HasHash(w.rows, sha(w.procs[p].content)) then Without(w.procs, p)
      else w.procs[p := Looked(w.procs[p].content, w.procs[p].name)]
    case Place(p) => w.procs[p := InInbox(w.procs[p].content, w.procs[p].name)]
    case Conflict(p, found) => w.procs[p := Beaten(w.procs[p].content, w.procs[p].name, w.rows[found].path)]
    case InsertRaises(p) => w.procs[p := At.Raised(w.procs[p].content, w.procs[p].name)]
    case Check(p) =>
      if Refers(w.rows, sha(w.procs[p].content), Final(sha, w.procs[p])) then Without(w.procs, p)
      else w.procs[p := Unreferenced(w.procs[p].content, w.procs[p].name)]
    case Insert(p, _, _) => Without(w.procs, p)
    case Settle(p) => Without(w.procs, p)
    case Unlink(p) => Without(w.procs, p)
    case _ => w.procs
  }

  function Moving(w: World, step: Step): map<string, Path> {
    match step
    case Moves(id, target) => w.moving[id := target]
    case Saves(id, _) => Without(w.moving, id)
    case DeleteRow(id) => Without(w.moving, id)
    case _ => w.moving
  }

  function Dropped(w: World, step: Step): set<string> {
    match step
    case Drops(id) => w.dropped + {id}
    case DeleteRow(id) => w.dropped - {id}
    case _ => w.dropped
  }

  function Deleting(sha: Hash, w: World, step: Step): map<string, Doom>
    requires Enabled(sha, w, step)
  {
    match step
    case DeleteRow(id) => w.deleting[id := Doom(w.rows[id].path, Quarantine(id, w.rows[id].filename), false)]
    case UnlinkStored(id) => w.deleting[id := w.deleting[id].(storedDone := true)]
    case UnlinkQuarantine(id) => Without(w.deleting, id)
    case _ => w.deleting
  }

  function Stray(sha: Hash, w: World, step: Step): map<string, Job>
    requires Enabled(sha, w, step)
  {
    match step
    case DeleteRow(id) =>
      if w.rows[id].status == Processing && id !in w.moving && id !in w.dropped then w.stray[id := w.rows[id]]
      else w.stray
    case LateMove(id, _) => Without(w.stray, id)
    case LateDrop(id) => Without(w.stray, id)
    case _ => w.stray
  }

  function Apply(sha: Hash, w: World, step: Step): World
    requires Enabled(sha, w, step)
  {
    World(Rows(sha, w, step), Files(sha, w, step), Procs(sha, w, step), Moving(w, step), Dropped(w, step),
      Deleting(sha, w, step), Stray(sha, w, step))
  }

  // ---------- Alone, the effects make up the ingest ----------

  /** A legal step to the given state. */
  predicate Leads(sha: Hash, w: World, step: Step, after: World) {
    Enabled(sha, w, step) && Apply(sha, w, step) == after
  }

  function WithProc(w: World, files: Disk, p: int, at: At): World {
    w.(files := files, procs := w.procs[p := at])
  }

  lemma StartAlone(sha: Hash, w: World, p: int, content: seq<Byte>, name: string)
    requires p !in w.procs
    ensures var staged := WithProc(w, w.files[Staging(p) := content], p, Staged(content, name));
      Leads(sha, w, Start(p, content, name), staged)
  {
  }

  /** A known hash ends the ingest. */
  lemma DuplicateAlone(
    config: Config, sha: Hash, w: World, p: int, content: seq<Byte>, name: string, id: string, insert: Insert,
    now: real)
    requires p !in w.procs && |content| <= config.maxFileSize && HasHash(w.rows, sha(content))
    ensures var (rows, files) := Ingested(config, sha, w.rows, w.files, content, name, id, p, true, insert, now);
      Leads(sha, WithProc(w, w.files[Staging(p) := content], p, Staged(content, name)), LookUp(p),
        w.(rows := rows, files := files))
  {
    var staged := WithProc(w, w.files[Staging(p) := content], p, Staged(content, name));
    assert Without(staged.procs, p) == w.procs;
    assert Remove(staged.files, Staging(p)) == Remove(w.files, Staging(p));
  }

  lemma LookUpAlone(sha: Hash, w: World, p: int, content: seq<Byte>, name: string)
    requires p !in w.procs && !HasHash(w.rows, sha(content))
    ensures var files := w.files[Staging(p) := content];
      Leads(sha, WithProc(w, files, p, Staged(content, name)), LookUp(p), WithProc(w, files, p, Looked(content, name)))
  {
    var staged := WithProc(w, w.files[Staging(p) := content], p, Staged(content, name));
    assert staged.procs[p := Looked(content, name)] == w.procs[p := Looked(content, name)];
  }

  lemma PlaceAlone(sha: Hash, w: World, p: int, content: seq<Byte>, name: string)
    requires p !in w.procs
    ensures var path := Inbox(Prefix(sha(content)), name);
      Leads(sha, WithProc(w, w.files[Staging(p) := content], p, Looked(content, name)), Place(p),
        WithProc(w, Remove(w.files, Staging(p))[path := content], p, InInbox(content, name)))
  {
    var looked := WithProc(w, w.files[Staging(p) := content], p, Looked(content, name));
    assert Remove(looked.files, Staging(p)) == Remove(w.files, Staging(p));
    assert looked.procs[p := InInbox(content, name)] == w.procs[p := InInbox(content, name)];
  }

  /** With a new hash the insert ends the ingest. */
  lemma InsertAlone(
    config: Config, sha: Hash, w: World, p: int, content: seq<Byte>, name: string, id: string, now: real)
    requires p !in w.procs && |content| <= config.maxFileSize && !HasHash(w.rows, sha(content)) && FreshId(w, id)
    ensures var moved := Remove(w.files, Staging(p))[Inbox(Prefix(sha(content)), name) := content];
      var (rows, files) := Ingested(config, sha, w.rows, w.files, content, name, id, p, true, Inserts, now);
      Leads(sha, WithProc(w, moved, p, InInbox(content, name)), Insert(p, id, now), w.(rows := rows, files := files))
  {
    var moved := Remove(w.files, Staging(p))[Inbox(Prefix(sha(content)), name) := content];
    assert Without(WithProc(w, moved, p, InInbox(content, name)).procs, p) == w.procs;
  }

  lemma RaiseAlone(sha: Hash, w: World, p: int, content: seq<Byte>, name: string)
    requires p !in w.procs && !HasHash(w.rows, sha(content))
    ensures var raised := WithProc(w, w.files, p, At.Raised(content, name));
      && Leads(sha, WithProc(w, w.files, p, InInbox(content, name)), InsertRaises(p), raised)
      && Leads(sha, raised, Check(p), WithProc(w, w.files, p, Unreferenced(content, name)))
  {
    var raised := w.procs[p := At.Raised(content, name)];
    assert w.procs[p := InInbox(content, name)][p := At.Raised(content, name)] == raised;
    assert raised[p := Unreferenced(content, name)] == w.procs[p := Unreferenced(content, name)];
  }

  lemma UnlinkAlone(
    config: Config, sha: Hash, w: World, p: int, content: seq<Byte>, name: string, id: string, now: real)
    requires p !in w.procs && |content| <= config.maxFileSize && !HasHash(w.rows, sha(content))
    ensures var moved := Remove(w.files, Staging(p))[Inbox(Prefix(sha(content)), name) := content];
      var (rows, files) := Ingested(config, sha, w.rows, w.files, content, name, id, p, true, RaisesUncommitted, now);
      Leads(sha, WithProc(w, moved, p, Unreferenced(content, name)), Unlink(p), w.(rows := rows, files := files))
  {
    var moved := Remove(w.files, Staging(p))[Inbox(Prefix(sha(content)), name) := content];
    assert Without(WithProc(w, moved, p, Unreferenced(content, name)).procs, p) == w.procs;
  }

  // ---------- What a state must satisfy ----------

  function InboxPlace(job: Job): Path {
    Inbox(Prefix(job.sha256), job.filename)
  }

  /** Where the job's file is: the row is behind while somebody is between the move and the save. */
  function Location(w: World, id: string): Path
    requires id in w.rows
  {
    if id in w.moving then w.moving[id] else w.rows[id].path
  }

  predicate OwnPlace(id: string, filename: string, path: Path) {
    path == Quarantine(id, filename) || path == Completed(id, filename)
  }

  ghost predicate GoodRow(sha: Hash, contents: set<seq<Byte>>, w: World, id: string)
    requires id in w.rows
  {
    var job := w.rows[id];
    && (job.path == InboxPlace(job) || OwnPlace(id, job.filename, job.path))
    && (id in w.moving ==> IsTarget(job, id, w.moving[id]) && id !in w.dropped)
    && (id in w.dropped || (Location(w, id) in w.files && sha(w.files[Location(w, id)]) == job.sha256))
    && Holds(sha, contents, job)
  }

  ghost predicate GoodRows(sha: Hash, contents: set<seq<Byte>>, w: World) {
    && OneHashEach(w.rows) && w.moving.Keys <= w.rows.Keys && w.dropped <= w.rows.Keys
    && forall id :: id in w.rows ==> GoodRow(sha, contents, w, id)
  }

  ghost predicate GoodProc(sha: Hash, contents: set<seq<Byte>>, w: World, p: int)
    requires p in w.procs
  {
    var at := w.procs[p];
    && at.content in contents
    && match at
       case Staged(content, _) => Staging(p) in w.files && w.files[Staging(p)] == content
       case Looked(content, _) => Staging(p) in w.files && w.files[Staging(p)] == content
       case InInbox(content, _) => HasHash(w.rows, sha(content)) || Final(sha, at) in w.files
       case _ => true
  }

  ghost predicate GoodProcs(sha: Hash, contents: set<seq<Byte>>, w: World) {
    forall p :: p in w.procs ==> GoodProc(sha, contents, w, p)
  }

  predicate OfDeleted(id: string, path: Path) {
    path.Inbox? || (path.Quarantine? && path.id == id) || (path.Completed? && path.id == id)
  }

  /** Deleted jobs have no row, and their paths are the inbox's or their own. */
  predicate GoodDeletions(w: World) {
    && (forall id :: id in w.deleting ==>
          && id !in w.rows && OfDeleted(id, w.deleting[id].stored)
          && w.deleting[id].quarantine.Quarantine? && w.deleting[id].quarantine.id == id)
    && (forall id :: id in w.stray ==> id !in w.rows && OfDeleted(id, w.stray[id].path))
  }

  /** The name of an inbox file tells its content. */
  ghost predicate HonestInbox(sha: Hash, contents: set<seq<Byte>>, files: Disk) {
    forall path :: path in files && path.Inbox? ==>
      files[path] in contents && path.prefix == Prefix(sha(files[path]))
  }

  /** The ingest still answers for the file. */
  predicate Answers(sha: Hash, w: World, p: int, path: Path)
    requires p in w.procs
  {
    var at := w.procs[p];
    if at.Staged? || at.Looked? then path == Staging(p) else path == Final(sha, at)
  }

  predicate Located(w: World, path: Path) {
    exists id :: id in w.rows && Location(w, id) == path
  }

  predicate Dooms(doom: Doom, path: Path) {
    path == doom.quarantine || (!doom.storedDone && path == doom.stored)
  }

  predicate Doomed(deleting: map<string, Doom>, path: Path) {
    exists id :: id in deleting && Dooms(deleting[id], path)
  }

  /** A job, an ingest or a deletion will see to the file. */
  ghost predicate Accounted(sha: Hash, w: World, path: Path) {
    || Located(w, path)
    || Doomed(w.deleting, path)
    || exists p :: p in w.procs && Answers(sha, w, p, path)
  }

  ghost predicate AllAccounted(sha: Hash, w: World) {
    forall path :: path in w.files ==> Accounted(sha, w, path)
  }

  ghost predicate Inv(sha: Hash, contents: set<seq<Byte>>, w: World) {
    && GoodRows(sha, contents, w) && GoodProcs(sha, contents, w) && GoodDeletions(w)
    && HonestInbox(sha, contents, w.files) && AllAccounted(sha, w)
  }

  // ---------- The ways a step can go wrong ----------

  predicate NeededByJob(w: World, path: Path) {
    exists id :: id in w.rows && id !in w.dropped && Location(w, id) == path
  }

  /** An ingest has placed the very file and counts on it for its insert. */
  predicate Counted(sha: Hash, w: World, path: Path) {
    exists q :: q in w.procs && w.procs[q].InInbox? && Final(sha, w.procs[q]) == path
      && !HasHash(w.rows, sha(w.procs[q].content))
  }

  /** The step takes the file of a job, or of an ingest about to insert one. */
  predicate Robs(sha: Hash, w: World, step: Step)
    requires Enabled(sha, w, step)
  {
    var taken := Taking(sha, w, step);
    taken != Nothing && (NeededByJob(w, taken.path) || Counted(sha, w, taken.path))
  }

  predicate Strands(sha: Hash, w: World, id: string, q: int)
    requires id in w.rows && q in w.procs
  {
    var at := w.procs[q];
    at.InInbox? && sha(at.content) == w.rows[id].sha256 && Final(sha, at) !in w.files
  }

  /** The step deletes a row whose loss lets another ingest insert one without having its file. */
  predicate StrandsIngest(sha: Hash, w: World, step: Step)
    requires Enabled(sha, w, step)
  {
    step.DeleteRow? && exists q :: q in w.procs && Strands(sha, w, step.id, q)
  }

  /** The ingest ends and leaves its file to the job whose row named it. */
  predicate LeavesFile(sha: Hash, w: World, step: Step)
    requires Enabled(sha, w, step)
  {
    || (step.Settle? && w.procs[step.p].persisted == Final(sha, w.procs[step.p]))
    || (step.Check? && Refers(w.rows, sha(w.procs[step.p].content), Final(sha, w.procs[step.p])))
  }

  predicate AnsweredByOther(sha: Hash, w: World, p: int, path: Path) {
    exists q :: q in w.procs && q != p && Answers(sha, w, q, path)
  }

  /** Nobody cares for the file an ingest leaves: its job has moved on or was deleted. */
  predicate Abandons(sha: Hash, w: World, step: Step)
    requires Enabled(sha, w, step)
  {
    && LeavesFile(sha, w, step)
    && var path := Final(sha, w.procs[step.p]);
    path in w.files && !Located(w, path) && !Doomed(w.deleting, path) && !AnsweredByOther(sha, w, step.p, path)
  }

  /** The file ends in an archive or quarantine where no row and no deletion will look for it. */
  predicate Litters(sha: Hash, w: World, step: Step)
    requires Enabled(sha, w, step)
  {
    match step
    case DeleteRow(id) => id in w.moving && w.moving[id].Completed?
    case LateMove(id, target) => id !in w.deleting || !Dooms(w.deleting[id], target)
    case _ => false
  }

  predicate Tidy(sha: Hash, w: World, step: Step)
    requires Enabled(sha, w, step)
  {
    && !Robs(sha, w, step) && !StrandsIngest(sha, w, step)
    && !Abandons(sha, w, step) && !Litters(sha, w, step)
  }

  // ---------- Places ----------

  /** Jobs with one inbox place have one content. */
  lemma PlaceTellsHash(sha: Hash, contents: set<seq<Byte>>, w: World, id: string, at: At)
    requires PrefixesDiffer(sha, contents) && id in w.rows && Holds(sha, contents, w.rows[id]) && at.content in contents
    ensures InboxPlace(w.rows[id]) == Final(sha, at) ==> w.rows[id].sha256 == sha(at.content)
  {
    var x :| x in contents && sha(x) == w.rows[id].sha256;
    assert Prefix(sha(x)) == Prefix(sha(at.content)) ==> x == at.content;
  }

  lemma PlacesDiffer(sha: Hash, contents: set<seq<Byte>>, w: World, a: string, b: string)
    requires PrefixesDiffer(sha, contents) && a in w.rows && b in w.rows && OneHashEach(w.rows) && a != b
    requires Holds(sha, contents, w.rows[a]) && Holds(sha, contents, w.rows[b])
    ensures InboxPlace(w.rows[a]) != InboxPlace(w.rows[b])
  {
    var x :| x in contents && sha(x) == w.rows[a].sha256;
    var y :| y in contents && sha(y) == w.rows[b].sha256;
    assert Prefix(sha(x)) == Prefix(sha(y)) ==> x == y;
  }

  lemma LocationInbox(sha: Hash, contents: set<seq<Byte>>, w: World, id: string)
    requires id in w.rows && GoodRow(sha, contents, w, id)
    ensures Location(w, id).Inbox? ==>
      id !in w.moving && w.rows[id].path == InboxPlace(w.rows[id]) == Location(w, id)
    ensures !Location(w, id).Inbox? ==> OwnPlace(id, w.rows[id].filename, Location(w, id))
  {
  }

  /** No other job is where this one is, nor where its file may move. */
  lemma LocationsDiffer(sha: Hash, contents: set<seq<Byte>>, w: World, a: string, b: string)
    requires PrefixesDiffer(sha, contents) && GoodRows(sha, contents, w) && a in w.rows && b in w.rows && a != b
    ensures Location(w, a) != Location(w, b) && Location(w, a) != w.rows[b].path
    ensures forall target :: IsTarget(w.rows[b], b, target) ==> Location(w, a) != target
  {
    assert GoodRow(sha, contents, w, a) && GoodRow(sha, contents, w, b);
    LocationInbox(sha, contents, w, a);
    LocationInbox(sha, contents, w, b);
    PlacesDiffer(sha, contents, w, a, b);
  }

  // ---------- Rows keep their files ----------

  /** What a step does to a row that stays. */
  lemma RowAfter(sha: Hash, w: World, step: Step, id: string)
    requires Enabled(sha, w, step) && id in w.rows && step != DeleteRow(id)
    ensures id in Rows(sha, w, step)
    ensures var job, after := w.rows[id], Rows(sha, w, step)[id];
      after.sha256 == job.sha256 && after.filename == job.filename
      && after.path == if step.Saves? && step.id == id then w.moving[id] else job.path
    ensures Location(Apply(sha, w, step), id) == if step.Moves? && step.id == id then step.target else Location(w, id)
    ensures id in Dropped(w, step) <==> id in w.dropped || step == Drops(id)
    ensures id in Moving(w, step) <==>
      (step.Moves? && step.id == id) || (id in w.moving && !(step.Saves? && step.id == id))
  {
  }

  /** A file moved into the inbox overwrites at most the same bytes. */
  lemma PlaceSpares(sha: Hash, contents: set<seq<Byte>>, w: World, p: int, path: Path)
    requires PrefixesDiffer(sha, contents) && HonestInbox(sha, contents, w.files)
    requires p in w.procs && w.procs[p].Looked? && GoodProc(sha, contents, w, p)
    requires path == Final(sha, w.procs[p]) && path in w.files
    ensures w.files[path] == w.files[Staging(p)]
  {
    assert Prefix(sha(w.files[path])) == Prefix(sha(w.procs[p].content));
  }

  /** A file that is not taken, moved or dropped stays as it is. */
  lemma FileUntouched(sha: Hash, contents: set<seq<Byte>>, w: World, step: Step, path: Path)
    requires PrefixesDiffer(sha, contents) && HonestInbox(sha, contents, w.files) && GoodProcs(sha, contents, w)
    requires Enabled(sha, w, step) && path in w.files && !path.Staging? && Taking(sha, w, step) != Takes(path)
    requires step.Moves? ==> path != w.rows[step.id].path && path != step.target
    requires step.Drops? ==> path != w.rows[step.id].path
    requires step.LateMove? ==> path != step.target
    ensures path in Files(sha, w, step) && Files(sha, w, step)[path] == w.files[path]
  {
    if step.Place? && path == Final(sha, w.procs[step.p]) {
      assert GoodProc(sha, contents, w, step.p);
      PlaceSpares(sha, contents, w, step.p, path);
    }
  }

  /** A deleted job's paths in quarantine and archive are no row's. */
  lemma NotOfDeleted(sha: Hash, contents: set<seq<Byte>>, w: World, id: string, gone: string, path: Path)
    requires GoodRows(sha, contents, w) && id in w.rows && gone !in w.rows
    requires OfDeleted(gone, path) && !path.Inbox?
    ensures Location(w, id) != path
  {
    assert GoodRow(sha, contents, w, id);
    LocationInbox(sha, contents, w, id);
  }

  /** Moving or dropping one job's file, deleted or not, concerns no other job's. */
  lemma ElsewhereMoved(sha: Hash, contents: set<seq<Byte>>, w: World, step: Step, id: string)
    requires PrefixesDiffer(sha, contents) && GoodRows(sha, contents, w) && GoodDeletions(w) && Enabled(sha, w, step)
    requires id in w.rows && !((step.Moves? || step.Drops?) && step.id == id)
    ensures step.Moves? ==> Location(w, id) != w.rows[step.id].path && Location(w, id) != step.target
    ensures step.Drops? ==> Location(w, id) != w.rows[step.id].path
    ensures step.LateMove? ==> Location(w, id) != step.target
  {
    if step.Moves? || step.Drops? {
      LocationsDiffer(sha, contents, w, id, step.id);
    } else if step.LateMove? {
      NotOfDeleted(sha, contents, w, id, step.id, step.target);
    }
  }

  /** A job's file that nobody takes or moves is where it was. */
  lemma OtherFileStays(sha: Hash, contents: set<seq<Byte>>, w: World, step: Step, id: string)
    requires PrefixesDiffer(sha, contents) && Inv(sha, contents, w) && Enabled(sha, w, step) && !Robs(sha, w, step)
    requires id in w.rows && id !in w.dropped && Location(w, id) in w.files
    requires !((step.Moves? || step.Drops?) && step.id == id)
    ensures Location(w, id) in Files(sha, w, step) && Files(sha, w, step)[Location(w, id)] == w.files[Location(w, id)]
  {
    assert GoodRow(sha, contents, w, id);
    LocationInbox(sha, contents, w, id);
    assert NeededByJob(w, Location(w, id));
    ElsewhereMoved(sha, contents, w, step, id);
    FileUntouched(sha, contents, w, step, Location(w, id));
  }

  lemma FileStays(sha: Hash, contents: set<seq<Byte>>, w: World, step: Step, id: string)
    requires PrefixesDiffer(sha, contents) && Inv(sha, contents, w) && Enabled(sha, w, step) && !Robs(sha, w, step)
    requires id in w.rows && id !in w.dropped && step != DeleteRow(id) && step != Drops(id)
    ensures var place := Location(Apply(sha, w, step), id);
      place in Files(sha, w, step) && sha(Files(sha, w, step)[place]) == w.rows[id].sha256
  {
    assert GoodRow(sha, contents, w, id);
    RowAfter(sha, w, step, id);
    if !(step.Moves? && step.id == id) {
      OtherFileStays(sha, contents, w, step, id);
    }
  }

  lemma RowKept(sha: Hash, contents: set<seq<Byte>>, w: World, step: Step, id: string)
    requires PrefixesDiffer(sha, contents) && Inv(sha, contents, w) && Enabled(sha, w, step) && !Robs(sha, w, step)
    requires id in w.rows && step != DeleteRow(id)
    ensures id in Rows(sha, w, step) && GoodRow(sha, contents, Apply(sha, w, step), id)
  {
    assert GoodRow(sha, contents, w, id);
    RowAfter(sha, w, step, id);
    if id !in w.dropped && step != Drops(id) {
      FileStays(sha, contents, w, step, id);
    }
    var after := Apply(sha, w, step);
    assert Holds(sha, contents, w.rows[id]) ==> Holds(sha, contents, after.rows[id]);
  }

  lemma RowInserted(sha: Hash, contents: set<seq<Byte>>, w: World, step: Step)
    requires PrefixesDiffer(sha, contents) && Inv(sha, contents, w) && Enabled(sha, w, step) && step.Insert?
    ensures GoodRow(sha, contents, Apply(sha, w, step), step.id)
  {
    assert GoodProc(sha, contents, w, step.p);
    var at := w.procs[step.p];
    assert Prefix(sha(w.files[Final(sha, at)])) == Prefix(sha(at.content));
    assert Holds(sha, contents, Rows(sha, w, step)[step.id]);
  }

  lemma HashesStayApart(sha: Hash, w: World, step: Step)
    requires OneHashEach(w.rows) && Enabled(sha, w, step)
    ensures OneHashEach(Rows(sha, w, step))
  {
  }

  lemma RowsBefore(sha: Hash, w: World, step: Step, id: string)
    requires Enabled(sha, w, step) && id in Rows(sha, w, step)
    ensures step != DeleteRow(id)
    ensures id in w.rows || (step.Insert? && step.id == id)
  {
  }

  lemma KeysStay(sha: Hash, w: World, step: Step)
    requires Enabled(sha, w, step) && w.moving.Keys <= w.rows.Keys && w.dropped <= w.rows.Keys
    ensures Moving(w, step).Keys <= Rows(sha, w, step).Keys && Dropped(w, step) <= Rows(sha, w, step).Keys
  {
  }

  lemma RowsKept(sha: Hash, contents: set<seq<Byte>>, w: World, step: Step)
    requires PrefixesDiffer(sha, contents) && Inv(sha, contents, w) && Enabled(sha, w, step) && !Robs(sha, w, step)
    ensures GoodRows(sha, contents, Apply(sha, w, step))
  {
    var after := Apply(sha, w, step);
    HashesStayApart(sha, w, step);
    KeysStay(sha, w, step);
    forall id | id in after.rows
      ensures GoodRow(sha, contents, after, id)
    {
      RowsBefore(sha, w, step, id);
      if id in w.rows {
        RowKept(sha, contents, w, step, id);
      } else {
        RowInserted(sha, contents, w, step);
      }
    }
  }

  // ---------- Ingests keep what they count on ----------

  lemma OwnProcKept(sha: Hash, contents: set<seq<Byte>>, w: World, step: Step)
    requires Inv(sha, contents, w) && Enabled(sha, w, step) && OfIngest(step)
    requires step.Start? ==> step.content in contents
    ensures step.p in Procs(sha, w, step) ==> GoodProc(sha, contents, Apply(sha, w, step), step.p)
  {
    if !step.Start? {
      assert GoodProc(sha, contents, w, step.p);
    }
  }

  lemma OthersStay(sha: Hash, w: World, step: Step, q: int)
    requires Enabled(sha, w, step) && q in w.procs && !ActedOn(step, q)
    ensures q in Procs(sha, w, step) && Procs(sha, w, step)[q] == w.procs[q]
  {
  }

  lemma OthersStayIn(sha: Hash, w: World, step: Step, q: int)
    requires Enabled(sha, w, step) && !ActedOn(step, q) && q in Procs(sha, w, step)
    ensures q in w.procs
  {
  }

  /** Nobody touches another ingest's staging file. */
  lemma StagingStays(sha: Hash, contents: set<seq<Byte>>, w: World, step: Step, q: int)
    requires GoodDeletions(w) && GoodRows(sha, contents, w) && Enabled(sha, w, step) && !ActedOn(step, q)
    requires Staging(q) in w.files
    ensures Staging(q) in Files(sha, w, step) && Files(sha, w, step)[Staging(q)] == w.files[Staging(q)]
  {
    if step.Moves? || step.Drops? {
      assert GoodRow(sha, contents, w, step.id);
    }
  }

  lemma HashKept(sha: Hash, w: World, step: Step, sha256: string)
    requires Enabled(sha, w, step) && HasHash(w.rows, sha256)
    requires step.DeleteRow? ==> w.rows[step.id].sha256 != sha256
    ensures HasHash(Rows(sha, w, step), sha256)
  {
    var k :| k in w.rows && w.rows[k].sha256 == sha256;
    RowAfter(sha, w, step, k);
  }

  /** A placed file stays for an ingest that counts on it. */
  lemma InboxStays(sha: Hash, contents: set<seq<Byte>>, w: World, step: Step, q: int)
    requires PrefixesDiffer(sha, contents) && Inv(sha, contents, w) && Enabled(sha, w, step) && !Robs(sha, w, step)
    requires q in w.procs && !ActedOn(step, q) && w.procs[q].InInbox? && !HasHash(w.rows, sha(w.procs[q].content))
    ensures Final(sha, w.procs[q]) in Files(sha, w, step)
  {
    var final := Final(sha, w.procs[q]);
    assert GoodProc(sha, contents, w, q);
    assert Counted(sha, w, final);
    if step.Moves? || step.Drops? {
      assert GoodRow(sha, contents, w, step.id);
      PlaceTellsHash(sha, contents, w, step.id, w.procs[q]);
    }
    FileUntouched(sha, contents, w, step, final);
  }

  lemma InboxKept(sha: Hash, contents: set<seq<Byte>>, w: World, step: Step, q: int)
    requires PrefixesDiffer(sha, contents) && Inv(sha, contents, w) && Enabled(sha, w, step)
    requires !Robs(sha, w, step) && !StrandsIngest(sha, w, step)
    requires q in w.procs && !ActedOn(step, q) && w.procs[q].InInbox?
    ensures HasHash(Rows(sha, w, step), sha(w.procs[q].content)) || Final(sha, w.procs[q]) in Files(sha, w, step)
  {
    var at := w.procs[q];
    if !HasHash(w.rows, sha(at.content)) {
      InboxStays(sha, contents, w, step, q);
    } else if step.DeleteRow? && w.rows[step.id].sha256 == sha(at.content) {
      assert !Strands(sha, w, step.id, q);
    } else {
      HashKept(sha, w, step, sha(at.content));
    }
  }

  lemma OtherProcKept(sha: Hash, contents: set<seq<Byte>>, w: World, step: Step, q: int)
    requires PrefixesDiffer(sha, contents) && Inv(sha, contents, w) && Enabled(sha, w, step)
    requires !Robs(sha, w, step) && !StrandsIngest(sha, w, step)
    requires q in w.procs && !ActedOn(step, q)
    ensures q in Procs(sha, w, step) && GoodProc(sha, contents, Apply(sha, w, step), q)
  {
    assert GoodProc(sha, contents, w, q);
    OthersStay(sha, w, step, q);
    if w.procs[q].Staged? || w.procs[q].Looked? {
      StagingStays(sha, contents, w, step, q);
    } else if w.procs[q].InInbox? {
      InboxKept(sha, contents, w, step, q);
    }
  }

  lemma ProcsKept(sha: Hash, contents: set<seq<Byte>>, w: World, step: Step)
    requires PrefixesDiffer(sha, contents) && Inv(sha, contents, w) && Enabled(sha, w, step)
    requires !Robs(sha, w, step) && !StrandsIngest(sha, w, step)
    requires step.Start? ==> step.content in contents
    ensures GoodProcs(sha, contents, Apply(sha, w, step))
  {
    forall q | q in Procs(sha, w, step)
      ensures GoodProc(sha, contents, Apply(sha, w, step), q)
    {
      if ActedOn(step, q) {
        OwnProcKept(sha, contents, w, step);
      } else {
        OthersStayIn(sha, w, step, q);
        OtherProcKept(sha, contents, w, step, q);
      }
    }
  }

  // ---------- Deletions and the inbox ----------

  lemma DoomBefore(sha: Hash, contents: set<seq<Byte>>, w: World, step: Step, id: string)
    requires GoodRows(sha, contents, w) && GoodDeletions(w) && Enabled(sha, w, step) && id in Deleting(sha, w, step)
    ensures var doom := Deleting(sha, w, step)[id];
      OfDeleted(id, doom.stored) && doom.quarantine.Quarantine? && doom.quarantine.id == id
    ensures id in w.deleting || step == DeleteRow(id)
  {
    if step == DeleteRow(id) {
      assert GoodRow(sha, contents, w, id);
    }
  }

  lemma StrayBefore(sha: Hash, contents: set<seq<Byte>>, w: World, step: Step, id: string)
    requires GoodRows(sha, contents, w) && GoodDeletions(w) && Enabled(sha, w, step) && id in Stray(sha, w, step)
    ensures OfDeleted(id, Stray(sha, w, step)[id].path)
    ensures id in w.stray || step == DeleteRow(id)
  {
    if step == DeleteRow(id) {
      assert GoodRow(sha, contents, w, id);
    }
  }

  lemma GoneStaysGone(sha: Hash, w: World, step: Step, id: string)
    requires Enabled(sha, w, step) && (id in w.deleting || id in w.stray || step == DeleteRow(id))
    requires id in w.rows ==> step == DeleteRow(id)
    ensures id !in Rows(sha, w, step)
  {
  }

  lemma DeletionsKept(sha: Hash, contents: set<seq<Byte>>, w: World, step: Step)
    requires GoodRows(sha, contents, w) && GoodDeletions(w) && Enabled(sha, w, step)
    ensures GoodDeletions(Apply(sha, w, step))
  {
    var after := Apply(sha, w, step);
    forall id | id in after.deleting
      ensures id !in after.rows && OfDeleted(id, after.deleting[id].stored)
      ensures after.deleting[id].quarantine.Quarantine? && after.deleting[id].quarantine.id == id
    {
      DoomBefore(sha, contents, w, step, id);
      GoneStaysGone(sha, w, step, id);
    }
    forall id | id in after.stray
      ensures id !in after.rows && OfDeleted(id, after.stray[id].path)
    {
      StrayBefore(sha, contents, w, step, id);
      GoneStaysGone(sha, w, step, id);
    }
  }

  /** Only ingests put files into the inbox. */
  lemma InboxStaysHonest(sha: Hash, contents: set<seq<Byte>>, w: World, step: Step)
    requires HonestInbox(sha, contents, w.files) && GoodProcs(sha, contents, w) && Enabled(sha, w, step)
    ensures HonestInbox(sha, contents, Files(sha, w, step))
  {
    if step.Place? {
      assert GoodProc(sha, contents, w, step.p);
    }
  }

  // ---------- Files keep their owners ----------

  lemma AnswersKept(sha: Hash, w: World, step: Step, q: int, path: Path)
    requires Enabled(sha, w, step) && q in w.procs && q in Procs(sha, w, step) && Answers(sha, w, q, path)
    requires path in Files(sha, w, step)
    ensures Answers(sha, Apply(sha, w, step), q, path)
  {
  }

  lemma NewFile(sha: Hash, w: World, step: Step, path: Path)
    requires Enabled(sha, w, step) && path in Files(sha, w, step) && path !in w.files && !Litters(sha, w, step)
    ensures Accounted(sha, Apply(sha, w, step), path)
  {
    var after := Apply(sha, w, step);
    if step.Moves? {
      RowAfter(sha, w, step, step.id);
      assert Location(after, step.id) == path;
    } else if step.LateMove? {
      assert Dooms(after.deleting[step.id], path);
    } else {
      assert Answers(sha, after, step.p, path);
    }
  }

  lemma DoomKept(sha: Hash, w: World, step: Step, id: string, path: Path)
    requires Enabled(sha, w, step) && id in w.deleting && Dooms(w.deleting[id], path) && path in Files(sha, w, step)
    requires step != DeleteRow(id)
    ensures Doomed(Deleting(sha, w, step), path)
  {
    assert id in Deleting(sha, w, step) && Dooms(Deleting(sha, w, step)[id], path);
  }

  lemma LocatedKept(sha: Hash, contents: set<seq<Byte>>, w: World, step: Step, id: string)
    requires Inv(sha, contents, w) && Enabled(sha, w, step) && !Litters(sha, w, step)
    requires id in w.rows && Location(w, id) in Files(sha, w, step)
    ensures Accounted(sha, Apply(sha, w, step), Location(w, id))
  {
    var after := Apply(sha, w, step);
    assert GoodRow(sha, contents, w, id);
    if step == DeleteRow(id) {
      LocationInbox(sha, contents, w, id);
      assert Dooms(after.deleting[id], Location(w, id));
    } else {
      RowAfter(sha, w, step, id);
      assert id in after.rows;
      assert Location(after, id) == Location(w, id);
    }
  }

  /** An ingest that ends without abandoning its file leaves it to somebody. */
  lemma LeftFile(sha: Hash, contents: set<seq<Byte>>, w: World, step: Step, path: Path)
    requires Inv(sha, contents, w) && Enabled(sha, w, step) && OfIngest(step) && !step.Start?
    requires path in Files(sha, w, step)
    requires Answers(sha, w, step.p, path) && step.p !in Procs(sha, w, step) && !Abandons(sha, w, step)
    requires !Located(w, path) && !Doomed(w.deleting, path)
    ensures Located(Apply(sha, w, step), path) || AnsweredByOther(sha, w, step.p, path)
  {
    if step.Insert? {
      assert Location(Apply(sha, w, step), step.id) == path;
    }
  }

  lemma FileKept(sha: Hash, contents: set<seq<Byte>>, w: World, step: Step, path: Path)
    requires PrefixesDiffer(sha, contents) && Inv(sha, contents, w) && Enabled(sha, w, step)
    requires path in Files(sha, w, step) && !Abandons(sha, w, step) && !Litters(sha, w, step)
    ensures Accounted(sha, Apply(sha, w, step), path)
  {
    if path !in w.files {
      NewFile(sha, w, step, path);
    } else if Located(w, path) {
      var id :| id in w.rows && Location(w, id) == path;
      LocatedKept(sha, contents, w, step, id);
    } else if Doomed(w.deleting, path) {
      var id :| id in w.deleting && Dooms(w.deleting[id], path);
      DoomKept(sha, w, step, id, path);
    } else {
      var q :| q in w.procs && Answers(sha, w, q, path);
      AnsweredKept(sha, contents, w, step, path, q);
    }
  }

  lemma AnsweredKept(sha: Hash, contents: set<seq<Byte>>, w: World, step: Step, path: Path, q: int)
    requires Inv(sha, contents, w) && Enabled(sha, w, step) && path in Files(sha, w, step) && !Abandons(sha, w, step)
    requires q in w.procs && Answers(sha, w, q, path) && !Located(w, path) && !Doomed(w.deleting, path)
    ensures Accounted(sha, Apply(sha, w, step), path)
  {
    if q in Procs(sha, w, step) {
      AnswersKept(sha, w, step, q, path);
    } else {
      assert ActedOn(step, q) by {
        if !ActedOn(step, q) { OthersStay(sha, w, step, q); }
      }
      LeftFile(sha, contents, w, step, path);
      if AnsweredByOther(sha, w, step.p, path) {
        var o :| o in w.procs && o != step.p && Answers(sha, w, o, path);
        OthersStay(sha, w, step, o);
        AnswersKept(sha, w, step, o, path);
      }
    }
  }

  // ---------- Exactly when a step goes wrong ----------

  lemma TidyStepKeeps(sha: Hash, contents: set<seq<Byte>>, w: World, step: Step)
    requires PrefixesDiffer(sha, contents) && Inv(sha, contents, w) && Enabled(sha, w, step) && Tidy(sha, w, step)
    requires step.Start? ==> step.content in contents
    ensures Inv(sha, contents, Apply(sha, w, step))
  {
    RowsKept(sha, contents, w, step);
    ProcsKept(sha, contents, w, step);
    DeletionsKept(sha, contents, w, step);
    InboxStaysHonest(sha, contents, w, step);
    var after := Apply(sha, w, step);
    forall path | path in after.files
      ensures Accounted(sha, after, path)
    {
      FileKept(sha, contents, w, step, path);
    }
  }

  lemma RobbedJob(sha: Hash, contents: set<seq<Byte>>, w: World, step: Step, id: string)
    requires Inv(sha, contents, w) && Enabled(sha, w, step) && id in w.rows && id !in w.dropped
    requires Taking(sha, w, step) == Takes(Location(w, id))
    ensures !GoodRows(sha, contents, Apply(sha, w, step))
  {
    var after := Apply(sha, w, step);
    RowAfter(sha, w, step, id);
    assert Location(after, id) !in after.files;
    assert !GoodRow(sha, contents, after, id);
  }

  lemma RobbedIngest(sha: Hash, contents: set<seq<Byte>>, w: World, step: Step, q: int)
    requires Enabled(sha, w, step) && q in w.procs && w.procs[q].InInbox? && !HasHash(w.rows, sha(w.procs[q].content))
    requires Taking(sha, w, step) == Takes(Final(sha, w.procs[q]))
    ensures !GoodProcs(sha, contents, Apply(sha, w, step))
  {
    var after := Apply(sha, w, step);
    OthersStay(sha, w, step, q);
    assert after.rows == w.rows && Final(sha, w.procs[q]) !in after.files;
    assert !GoodProc(sha, contents, after, q);
  }

  lemma RobbingBreaks(sha: Hash, contents: set<seq<Byte>>, w: World, step: Step)
    requires Inv(sha, contents, w) && Enabled(sha, w, step) && Robs(sha, w, step)
    ensures !Inv(sha, contents, Apply(sha, w, step))
  {
    var path := Taking(sha, w, step).path;
    if NeededByJob(w, path) {
      var id :| id in w.rows && id !in w.dropped && Location(w, id) == path;
      RobbedJob(sha, contents, w, step, id);
    } else {
      var q :| q in w.procs && w.procs[q].InInbox? && Final(sha, w.procs[q]) == path
        && !HasHash(w.rows, sha(w.procs[q].content));
      RobbedIngest(sha, contents, w, step, q);
    }
  }

  lemma StrandingBreaks(sha: Hash, contents: set<seq<Byte>>, w: World, step: Step)
    requires Inv(sha, contents, w) && Enabled(sha, w, step) && StrandsIngest(sha, w, step)
    ensures !Inv(sha, contents, Apply(sha, w, step))
  {
    var q :| q in w.procs && Strands(sha, w, step.id, q);
    var after := Apply(sha, w, step);
    assert !HasHash(after.rows, sha(w.procs[q].content));
    assert !GoodProc(sha, contents, after, q);
  }

  lemma AbandoningBreaks(sha: Hash, contents: set<seq<Byte>>, w: World, step: Step)
    requires Enabled(sha, w, step) && Abandons(sha, w, step)
    ensures !Inv(sha, contents, Apply(sha, w, step))
  {
    var after, final := Apply(sha, w, step), Final(sha, w.procs[step.p]);
    assert final in after.files && after.rows == w.rows && after.moving == w.moving && after.deleting == w.deleting;
    forall id | id in after.rows
      ensures Location(after, id) != final
    {
      assert Location(w, id) != final;
    }
    forall q | q in after.procs
      ensures !Answers(sha, after, q, final)
    {
      assert q != step.p && q in w.procs && !Answers(sha, w, q, final);
    }
    assert !Accounted(sha, after, final);
  }

  /** Nobody looks for a file in another's archive or quarantine. */
  lemma Unsought(sha: Hash, contents: set<seq<Byte>>, w: World, id: string, path: Path)
    requires GoodRows(sha, contents, w) && GoodDeletions(w) && GoodProcs(sha, contents, w) && id !in w.rows
    requires OfDeleted(id, path) && !path.Inbox? && (id in w.deleting ==> !Dooms(w.deleting[id], path))
    ensures !Accounted(sha, w, path)
  {
    forall k | k in w.rows
      ensures Location(w, k) != path
    {
      NotOfDeleted(sha, contents, w, k, id, path);
    }
    forall k | k in w.deleting
      ensures !Dooms(w.deleting[k], path)
    {
    }
  }

  lemma LitteringBreaks(sha: Hash, contents: set<seq<Byte>>, w: World, step: Step)
    requires Inv(sha, contents, w) && Enabled(sha, w, step) && Litters(sha, w, step)
    ensures !Inv(sha, contents, Apply(sha, w, step))
  {
    var after := Apply(sha, w, step);
    var path := if step.DeleteRow? then w.moving[step.id] else step.target;
    if step.DeleteRow? {
      assert GoodRow(sha, contents, w, step.id);
    }
    assert path in after.files && step.id !in after.rows;
    assert step.id in after.deleting ==> !Dooms(after.deleting[step.id], path);
    if GoodRows(sha, contents, after) && GoodDeletions(after) && GoodProcs(sha, contents, after) {
      Unsought(sha, contents, after, step.id, path);
    }
  }

  /**
   One step of any ingest, worker, release or deletion keeps every job its bytes and every file
   somebody who sees to it, exactly when it takes no file that a job or another ingest needs,
   deletes no row another ingest relies on instead of its own file, and leaves no file whose
   job has moved on or is gone.
   */
  lemma StepExactly(sha: Hash, contents: set<seq<Byte>>, w: World, step: Step)
    requires PrefixesDiffer(sha, contents) && Inv(sha, contents, w) && Enabled(sha, w, step)
    requires step.Start? ==> step.content in contents
    ensures Inv(sha, contents, Apply(sha, w, step)) <==> Tidy(sha, w, step)
  {
    if Robs(sha, w, step) {
      RobbingBreaks(sha, contents, w, step);
    } else if StrandsIngest(sha, w, step) {
      StrandingBreaks(sha, contents, w, step);
    } else if Abandons(sha, w, step) {
      AbandoningBreaks(sha, contents, w, step);
    } else if Litters(sha, w, step) {
      LitteringBreaks(sha, contents, w, step);
    } else {
      TidyStepKeeps(sha, contents, w, step);
    }
  }

  /** The unlink after a raised insert is harmless exactly when no job or other ingest needs the file. */
  lemma UnlinkExactly(sha: Hash, contents: set<seq<Byte>>, w: World, p: int)
    requires PrefixesDiffer(sha, contents) && Inv(sha, contents, w) && p in w.procs && w.procs[p].Unreferenced?
    ensures var final := Final(sha, w.procs[p]);
      Inv(sha, contents, Apply(sha, w, Unlink(p))) <==> !NeededByJob(w, final) && !Counted(sha, w, final)
  {
    StepExactly(sha, contents, w, Unlink(p));
  }

  /** So is the first unlink of a deletion. */
  lemma DeleteUnlinkExactly(sha: Hash, contents: set<seq<Byte>>, w: World, id: string)
    requires PrefixesDiffer(sha, contents) && Inv(sha, contents, w) && id in w.deleting && !w.deleting[id].storedDone
    ensures var stored := w.deleting[id].stored;
      Inv(sha, contents, Apply(sha, w, UnlinkStored(id))) <==> !NeededByJob(w, stored) && !Counted(sha, w, stored)
  {
    StepExactly(sha, contents, w, UnlinkStored(id));
  }

  /** The second one is always harmless. */
  lemma QuarantineUnlinkHarmless(sha: Hash, contents: set<seq<Byte>>, w: World, id: string)
    requires PrefixesDiffer(sha, contents) && Inv(sha, contents, w) && id in w.deleting && w.deleting[id].storedDone
    ensures Inv(sha, contents, Apply(sha, w, UnlinkQuarantine(id)))
  {
    QuarantineUnneeded(sha, contents, w, id);
    StepExactly(sha, contents, w, UnlinkQuarantine(id));
  }

  lemma QuarantineUnneeded(sha: Hash, contents: set<seq<Byte>>, w: World, id: string)
    requires GoodRows(sha, contents, w) && GoodDeletions(w) && id in w.deleting
    ensures !NeededByJob(w, w.deleting[id].quarantine) && !Counted(sha, w, w.deleting[id].quarantine)
  {
    var path := w.deleting[id].quarantine;
    forall k | k in w.rows
      ensures Location(w, k) != path
    {
      NotOfDeleted(sha, contents, w, k, id, path);
    }
  }

  // ---------- Runs ----------

  ghost predicate Legal(sha: Hash, contents: set<seq<Byte>>, w: World, steps: seq<Step>)
    decreases |steps|
  {
    steps != [] ==>
      && Enabled(sha, w, steps[0]) && (steps[0].Start? ==> steps[0].content in contents)
      && Legal(sha, contents, Apply(sha, w, steps[0]), steps[1..])
  }

  function Exec(sha: Hash, w: World, steps: seq<Step>): World
    decreases |steps|
  {
    if steps == [] || !Enabled(sha, w, steps[0]) then w else Exec(sha, Apply(sha, w, steps[0]), steps[1..])
  }

  /** Every state of the run is good. */
  ghost predicate AlwaysGood(sha: Hash, contents: set<seq<Byte>>, w: World, steps: seq<Step>)
    decreases |steps|
  {
    && Inv(sha, contents, w)
    && (steps != [] && Enabled(sha, w, steps[0]) ==>
          AlwaysGood(sha, contents, Apply(sha, w, steps[0]), steps[1..]))
  }

  ghost predicate AlwaysTidy(sha: Hash, w: World, steps: seq<Step>)
    decreases |steps|
  {
    steps != [] && Enabled(sha, w, steps[0]) ==>
      Tidy(sha, w, steps[0]) && AlwaysTidy(sha, Apply(sha, w, steps[0]), steps[1..])
  }

  /** A run of any ingests, workers, releases and deletions is good throughout exactly when each step is tidy. */
  lemma {:induction false} RunExactly(sha: Hash, contents: set<seq<Byte>>, w: World, steps: seq<Step>)
    requires PrefixesDiffer(sha, contents) && Inv(sha, contents, w) && Legal(sha, contents, w, steps)
    ensures AlwaysGood(sha, contents, w, steps) <==> AlwaysTidy(sha, w, steps)
    decreases |steps|
  {
    if steps != [] {
      StepExactly(sha, contents, w, steps[0]);
      if Inv(sha, contents, Apply(sha, w, steps[0])) {
        RunExactly(sha, contents, Apply(sha, w, steps[0]), steps[1..]);
      }
    }
  }

  lemma {:induction false} GoodAtEnd(sha: Hash, contents: set<seq<Byte>>, w: World, steps: seq<Step>)
    requires AlwaysGood(sha, contents, w, steps)
    ensures Inv(sha, contents, Exec(sha, w, steps))
    decreases |steps|
  {
    if steps != [] && Enabled(sha, w, steps[0]) {
      GoodAtEnd(sha, contents, Apply(sha, w, steps[0]), steps[1..]);
    }
  }

  // ---------- When all steps are tidy ----------

  predicate CleansUp(at: At) {
    at.Raised? || at.Unreferenced?
  }

  /** While an ingest cleans up after a raised insert, no other ingest of its content is under way. */
  ghost predicate Solo(w: World) {
    forall p, q :: p in w.procs && q in w.procs && CleansUp(w.procs[p]) && w.procs[q].content == w.procs[p].content
      ==> p == q
  }

  /** No job is deleted, and no file moved, while another ingest of its content is past the lookup. */
  ghost predicate Calm(sha: Hash, w: World, step: Step) {
    && !step.DeleteRow?
    && (step.Moves? && step.id in w.rows ==>
          forall p :: p in w.procs && sha(w.procs[p].content) == w.rows[step.id].sha256 ==> w.procs[p].Staged?)
  }

  ghost predicate AlwaysCalm(sha: Hash, w: World, steps: seq<Step>)
    decreases |steps|
  {
    && Solo(w)
    && (steps != [] && Enabled(sha, w, steps[0]) ==>
          Calm(sha, w, steps[0]) && AlwaysCalm(sha, Apply(sha, w, steps[0]), steps[1..]))
  }

  predicate MovedTwin(sha: Hash, w: World, k: string, p: int)
    requires k in w.rows && p in w.procs
  {
    Location(w, k) != InboxPlace(w.rows[k]) && sha(w.procs[p].content) == w.rows[k].sha256
  }

  /** Nobody past the lookup has the content of a job whose file has moved. */
  ghost predicate MovedAlone(sha: Hash, w: World) {
    forall k, p :: k in w.rows && p in w.procs && MovedTwin(sha, w, k, p) ==> w.procs[p].Staged?
  }

  /** What no job referred to when it was looked up, no job refers to now. */
  ghost predicate StillUnreferenced(sha: Hash, w: World) {
    forall p :: p in w.procs && w.procs[p].Unreferenced? ==>
      !Refers(w.rows, sha(w.procs[p].content), Final(sha, w.procs[p]))
  }

  /** Who was beaten knows where the winner's file is. */
  ghost predicate BeatenByJob(sha: Hash, w: World) {
    forall p :: p in w.procs && w.procs[p].Beaten? ==> Refers(w.rows, sha(w.procs[p].content), w.procs[p].persisted)
  }

  ghost predicate CalmState(sha: Hash, w: World) {
    && w.deleting == map[] && w.stray == map[]
    && MovedAlone(sha, w) && StillUnreferenced(sha, w) && BeatenByJob(sha, w)
  }

  /** The one job with the content of an ingest past the lookup is in the inbox, where its row says. */
  lemma TwinInInbox(sha: Hash, contents: set<seq<Byte>>, w: World, p: int, path: Path) returns (k: string)
    requires GoodRows(sha, contents, w) && MovedAlone(sha, w) && p in w.procs && !w.procs[p].Staged?
    requires Refers(w.rows, sha(w.procs[p].content), path)
    ensures k in w.rows && w.rows[k].sha256 == sha(w.procs[p].content)
    ensures w.rows[k].path == Location(w, k) == path == InboxPlace(w.rows[k])
  {
    k :| k in w.rows && w.rows[k].sha256 == sha(w.procs[p].content) && w.rows[k].path == path;
    assert GoodRow(sha, contents, w, k);
    assert !MovedTwin(sha, w, k, p);
    LocationInbox(sha, contents, w, k);
  }

  lemma CalmLeaves(sha: Hash, contents: set<seq<Byte>>, w: World, step: Step)
    requires Inv(sha, contents, w) && Enabled(sha, w, step) && CalmState(sha, w)
    ensures !Abandons(sha, w, step)
  {
    if LeavesFile(sha, w, step) {
      var k := TwinInInbox(sha, contents, w, step.p, Final(sha, w.procs[step.p]));
    }
  }

  lemma CalmSettle(sha: Hash, contents: set<seq<Byte>>, w: World, step: Step)
    requires PrefixesDiffer(sha, contents) && Inv(sha, contents, w) && Enabled(sha, w, step)
    requires step.Settle? && CalmState(sha, w) && Final(sha, w.procs[step.p]) != w.procs[step.p].persisted
    ensures !Robs(sha, w, step)
  {
    var at := w.procs[step.p];
    var k := TwinInInbox(sha, contents, w, step.p, at.persisted);
    assert GoodProc(sha, contents, w, step.p);
    forall id | id in w.rows
      ensures Location(w, id) != Final(sha, at)
    {
      assert GoodRow(sha, contents, w, id);
      LocationInbox(sha, contents, w, id);
      PlaceTellsHash(sha, contents, w, id, at);
    }
    forall q | q in w.procs && Final(sha, w.procs[q]) == Final(sha, at)
      ensures HasHash(w.rows, sha(w.procs[q].content))
    {
      assert GoodProc(sha, contents, w, q);
    }
  }

  lemma CalmUnlink(sha: Hash, contents: set<seq<Byte>>, w: World, step: Step)
    requires PrefixesDiffer(sha, contents) && Inv(sha, contents, w) && Enabled(sha, w, step)
    requires step.Unlink? && Solo(w) && StillUnreferenced(sha, w)
    ensures !Robs(sha, w, step)
  {
    var at := w.procs[step.p];
    assert GoodProc(sha, contents, w, step.p);
    forall id | id in w.rows
      ensures Location(w, id) != Final(sha, at)
    {
      assert GoodRow(sha, contents, w, id);
      PlaceTellsHash(sha, contents, w, id, at);
      LocationInbox(sha, contents, w, id);
    }
    forall q | q in w.procs && w.procs[q].InInbox?
      ensures Final(sha, w.procs[q]) != Final(sha, at)
    {
      assert GoodProc(sha, contents, w, q);
    }
  }

  lemma CalmTidy(sha: Hash, contents: set<seq<Byte>>, w: World, step: Step)
    requires PrefixesDiffer(sha, contents) && Inv(sha, contents, w) && Enabled(sha, w, step)
    requires Solo(w) && CalmState(sha, w) && Calm(sha, w, step)
    ensures Tidy(sha, w, step)
  {
    CalmLeaves(sha, contents, w, step);
    if step.Unlink? {
      CalmUnlink(sha, contents, w, step);
    } else if step.Settle? && Final(sha, w.procs[step.p]) != w.procs[step.p].persisted {
      CalmSettle(sha, contents, w, step);
    }
  }

  /** Only its own ingest has the content of a file about to be unlinked. */
  lemma InsertsOther(sha: Hash, contents: set<seq<Byte>>, w: World, step: Step, q: int)
    requires PrefixesDiffer(sha, contents) && GoodProcs(sha, contents, w) && Enabled(sha, w, step) && step.Insert?
    requires Solo(w) && q in w.procs && w.procs[q].Unreferenced?
    ensures sha(w.procs[step.p].content) != sha(w.procs[q].content)
  {
    assert GoodProc(sha, contents, w, step.p) && GoodProc(sha, contents, w, q);
    assert w.procs[step.p].content != w.procs[q].content;
  }

  lemma UnreferencedKept(sha: Hash, contents: set<seq<Byte>>, w: World, step: Step, q: int)
    requires PrefixesDiffer(sha, contents) && Inv(sha, contents, w) && Enabled(sha, w, step)
    requires Solo(w) && StillUnreferenced(sha, w)
    requires q in Procs(sha, w, step) && Procs(sha, w, step)[q].Unreferenced?
    ensures var at := Procs(sha, w, step)[q]; !Refers(Rows(sha, w, step), sha(at.content), Final(sha, at))
  {
    var at := Procs(sha, w, step)[q];
    if step.Insert? {
      OthersStayIn(sha, w, step, q);
      InsertsOther(sha, contents, w, step, q);
    }
    forall k | k in Rows(sha, w, step) && Rows(sha, w, step)[k].sha256 == sha(at.content)
      ensures Rows(sha, w, step)[k].path != Final(sha, at)
    {
      RowsBefore(sha, w, step, k);
      if k in w.rows {
        assert GoodRow(sha, contents, w, k);
        RowAfter(sha, w, step, k);
      }
    }
  }

  lemma MovedBefore(sha: Hash, contents: set<seq<Byte>>, w: World, step: Step, k: string)
    requires GoodRows(sha, contents, w) && Enabled(sha, w, step) && k in Rows(sha, w, step)
    requires Location(Apply(sha, w, step), k) != InboxPlace(Rows(sha, w, step)[k])
    ensures k in w.rows && w.rows[k].sha256 == Rows(sha, w, step)[k].sha256
    ensures (step.Moves? && step.id == k) || Location(w, k) != InboxPlace(w.rows[k])
  {
    RowsBefore(sha, w, step, k);
    if k in w.rows {
      RowAfter(sha, w, step, k);
    }
  }

  /** Who is past the lookup after the step was so before, or has just found no job with its hash. */
  lemma PastLookup(sha: Hash, w: World, step: Step, q: int)
    requires Enabled(sha, w, step) && q in Procs(sha, w, step)
    ensures !Procs(sha, w, step)[q].Staged? ==>
      && q in w.procs && w.procs[q].content == Procs(sha, w, step)[q].content
      && (w.procs[q].Staged? ==> step == LookUp(q) && !HasHash(w.rows, sha(w.procs[q].content)))
  {
  }

  lemma MovedAloneKept(sha: Hash, contents: set<seq<Byte>>, w: World, step: Step, k: string, q: int)
    requires GoodRows(sha, contents, w) && Enabled(sha, w, step) && MovedAlone(sha, w) && Calm(sha, w, step)
    requires k in Rows(sha, w, step) && q in Procs(sha, w, step)
    requires MovedTwin(sha, Apply(sha, w, step), k, q)
    ensures Procs(sha, w, step)[q].Staged?
  {
    MovedBefore(sha, contents, w, step, k);
    PastLookup(sha, w, step, q);
    assert HasHash(w.rows, w.rows[k].sha256);
    assert q in w.procs && w.procs[q].content == Procs(sha, w, step)[q].content && !(step.Moves? && step.id == k)
      ==> MovedTwin(sha, w, k, q);
  }

  lemma BeatenKept(sha: Hash, contents: set<seq<Byte>>, w: World, step: Step, q: int)
    requires GoodRows(sha, contents, w) && Enabled(sha, w, step) && CalmState(sha, w) && Calm(sha, w, step)
    requires q in Procs(sha, w, step) && Procs(sha, w, step)[q].Beaten?
    ensures Refers(Rows(sha, w, step), sha(Procs(sha, w, step)[q].content), Procs(sha, w, step)[q].persisted)
  {
    if step.Conflict? && step.p == q {
      assert w.rows[step.found].sha256 == sha(w.procs[q].content);
    } else {
      assert q in w.procs && Procs(sha, w, step)[q] == w.procs[q];
      var k := TwinInInbox(sha, contents, w, q, w.procs[q].persisted);
      RowAfter(sha, w, step, k);
      assert GoodRow(sha, contents, w, k);
    }
  }

  lemma CalmStateKept(sha: Hash, contents: set<seq<Byte>>, w: World, step: Step)
    requires PrefixesDiffer(sha, contents) && Inv(sha, contents, w) && Enabled(sha, w, step)
    requires Solo(w) && CalmState(sha, w) && Calm(sha, w, step)
    ensures CalmState(sha, Apply(sha, w, step))
  {
    var after := Apply(sha, w, step);
    forall q | q in after.procs && after.procs[q].Unreferenced?
      ensures !Refers(after.rows, sha(after.procs[q].content), Final(sha, after.procs[q]))
    {
      UnreferencedKept(sha, contents, w, step, q);
    }
    forall q | q in after.procs && after.procs[q].Beaten?
      ensures Refers(after.rows, sha(after.procs[q].content), after.procs[q].persisted)
    {
      BeatenKept(sha, contents, w, step, q);
    }
    forall k, q | k in after.rows && q in after.procs && MovedTwin(sha, after, k, q)
      ensures after.procs[q].Staged?
    {
      MovedAloneKept(sha, contents, w, step, k, q);
    }
  }

  lemma {:induction false} CalmRunTidy(sha: Hash, contents: set<seq<Byte>>, w: World, steps: seq<Step>)
    requires PrefixesDiffer(sha, contents) && Inv(sha, contents, w) && Legal(sha, contents, w, steps)
    requires AlwaysCalm(sha, w, steps) && CalmState(sha, w)
    ensures AlwaysTidy(sha, w, steps)
    decreases |steps|
  {
    if steps != [] {
      CalmTidy(sha, contents, w, steps[0]);
      TidyStepKeeps(sha, contents, w, steps[0]);
      CalmStateKept(sha, contents, w, steps[0]);
      CalmRunTidy(sha, contents, Apply(sha, w, steps[0]), steps[1..]);
    }
  }

  ghost predicate IngestsOnly(steps: seq<Step>) {
    forall i :: 0 <= i < |steps| ==> OfIngest(steps[i]) && !steps[i].InsertRaises?
  }

  lemma {:induction false} IngestsAreCalm(sha: Hash, contents: set<seq<Byte>>, w: World, steps: seq<Step>)
    requires Legal(sha, contents, w, steps) && IngestsOnly(steps)
    requires forall p :: p in w.procs ==> !CleansUp(w.procs[p])
    ensures AlwaysCalm(sha, w, steps)
    decreases |steps|
  {
    if steps != [] {
      assert OfIngest(steps[0]) && !steps[0].InsertRaises?;
      IngestsAreCalm(sha, contents, Apply(sha, w, steps[0]), steps[1..]);
    }
  }

  /** A state without deletions. */
  function Plain(rows: Table, files: Disk, procs: map<int, At>, moving: map<string, Path>): World {
    World(rows, files, procs, moving, {}, map[], map[])
  }

  const NOTHING := Plain(map[], map[], map[], map[])

  /**
   Any number of ingests, workers and releases in any interleaving, from an empty store: every job
   whose file was not dropped has its bytes where it is, and once all ingests have ended every file
   has its job, if nobody else interferes and no insert raises, or if every ingest whose insert
   raises is the only one of its content until it has cleaned up, nothing is deleted, and no
   file is moved of which another ingest is past the lookup.
   */
  lemma ConcurrentIngests(sha: Hash, contents: set<seq<Byte>>, steps: seq<Step>)
    requires PrefixesDiffer(sha, contents) && Legal(sha, contents, NOTHING, steps)
    requires IngestsOnly(steps) || AlwaysCalm(sha, NOTHING, steps)
    ensures AlwaysGood(sha, contents, NOTHING, steps)
    ensures var end := Exec(sha, NOTHING, steps);
      && OneHashEach(end.rows)
      && (forall id :: id in end.rows && id !in end.dropped ==>
            Location(end, id) in end.files && sha(end.files[Location(end, id)]) == end.rows[id].sha256)
      && (end.procs == map[] && end.deleting == map[] ==> forall path :: path in end.files ==> Located(end, path))
  {
    if IngestsOnly(steps) {
      IngestsAreCalm(sha, contents, NOTHING, steps);
    }
    CalmRunTidy(sha, contents, NOTHING, steps);
    RunExactly(sha, contents, NOTHING, steps);
    GoodAtEnd(sha, contents, NOTHING, steps);
    EndsGood(sha, contents, Exec(sha, NOTHING, steps));
  }

  lemma EndsGood(sha: Hash, contents: set<seq<Byte>>, end: World)
    requires Inv(sha, contents, end)
    ensures forall id :: id in end.rows && id !in end.dropped ==>
      Location(end, id) in end.files && sha(end.files[Location(end, id)]) == end.rows[id].sha256
    ensures end.procs == map[] && end.deleting == map[] ==> forall path :: path in end.files ==> Located(end, path)
  {
    forall id | id in end.rows && id !in end.dropped
      ensures Location(end, id) in end.files && sha(end.files[Location(end, id)]) == end.rows[id].sha256
    {
      assert GoodRow(sha, contents, end, id);
    }
    forall path | path in end.files && end.procs == map[] && end.deleting == map[]
      ensures Located(end, path)
    {
      assert Accounted(sha, end, path);
    }
  }
}
