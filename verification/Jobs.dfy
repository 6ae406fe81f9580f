/**
 Jobs and the job table (store.py). Every store method is one transaction; the functions
 below give its effect on the table and the class is the store itself.
 Times are seconds.
 */
module Jobs {
  import opened Wrappers
  import opened Orderings

  datatype Status = Received | Processing | Delivering | Delivered | Quarantined | Failed

  /**
   Where a work copy can live: a temporary staging file, f"{sha256[:12]}-{name}" in the inbox
   and f"{id}-{name}" elsewhere. The fixed-width first part makes the constructors injective,
   and staging names start with a dot.
   */
  datatype Path =
    | Staging(token: int)
    | Inbox(prefix: string, name: string)
    | Quarantine(id: string, name: string)
    | Completed(id: string, name: string)

  datatype Job = Job(
    id: string, status: Status, filename: string, path: Path, sha256: string,
    documentType: string, routing: Option<string>, destination: Option<string>,
    errors: seq<string>, attempts: int, nextAttempt: Option<real>,
    lease: Option<real>, worker: Option<string>, lastError: Option<string>, createdAt: real)

  /** Rows by primary key. */
  type Table = map<string, Job>

  ghost predicate Keyed(t: Table) {
    forall id :: id in t ==> t[id].id == id
  }

  // ---------- The effect of each transaction ----------

  /** save: the whole row is overwritten, unconditionally, unless it is gone. */
  function SaveRow(t: Table, job: Job): Table {
    if job.id in t then t[job.id := job] else t
  }

  /** claim_delivery */
  function ClaimDeliveryRow(t: Table, id: string): Table {
    if id in t && t[id].status == Quarantined then t[id := t[id].(status := Delivering)] else t
  }

  predicate IsDue(j: Job, now: real) {
    || (j.status == Received && (j.nextAttempt == None || j.nextAttempt.value <= now))
    || (j.status == Processing && j.lease.Some? && j.lease.value <= now)
  }

  function Claimed(j: Job, worker: string, now: real, leaseSeconds: real): Job {
    j.(status := Processing, worker := Some(worker), lease := Some(now + leaseSeconds),
       nextAttempt := None, attempts := j.attempts + 1)
  }

  predicate CanRenew(t: Table, id: string, worker: string) {
    id in t && t[id].status == Processing && t[id].worker == Some(worker)
  }

  /** renew_lease */
  function RenewRow(t: Table, id: string, worker: string, now: real, leaseSeconds: real): Table {
    if CanRenew(t, id, worker) then t[id := t[id].(lease := Some(now + leaseSeconds))] else t
  }

  /** retry_failed */
  function RetryRow(t: Table, id: string): Table {
    if id in t && t[id].status == Failed then
      t[id := t[id].(status := Received, attempts := 0, nextAttempt := None,
                     lease := None, worker := None, lastError := None)]
    else t
  }

  predicate Deletable(status: Status) {
    status == Failed || status == Processing || status == Quarantined
  }

  /** delete_stalled_job */
  function DeleteRow(t: Table, id: string): Table {
    if id in t && Deletable(t[id].status) then map k | k in t && k != id :: t[k] else t
  }

  predicate HasHash(t: Table, sha256: string) {
    exists id :: id in t && t[id].sha256 == sha256
  }

  // ---------- The store ----------

  datatype Created = New | Existing(job: Job) | IntegrityError

  class JobStore {
    var rows: Table

    constructor ()
      ensures rows == map[]
    {
      rows := map[];
    }

    method Save(job: Job)
      modifies this
      ensures rows == SaveRow(old(rows), job)
      ensures rows.Keys == old(rows).Keys && (job.id in rows ==> rows[job.id] == job)
      ensures forall id :: id in rows && id != job.id ==> rows[id] == old(rows)[id]
    {
      if job.id in rows {
        rows := rows[job.id := job];
      }
    }

    /** A row is added only when neither its id nor its hash is taken; sha256 is a unique column. */
    method CreateIfAbsent(job: Job) returns (r: Created)
      modifies this
      ensures r == New <==> job.id !in old(rows) && !HasHash(old(rows), job.sha256)
      ensures r == New ==> rows == old(rows)[job.id := job]
      ensures r != New ==> rows == old(rows)
      ensures r.Existing? ==> r.job in rows.Values && r.job.sha256 == job.sha256
      ensures r == IntegrityError ==> !HasHash(rows, job.sha256)
    {
      if job.id !in rows && !HasHash(rows, job.sha256) {
        rows := rows[job.id := job];
        return New;
      }
      var found := FindByHash(job.sha256);
      r := if found.Some? then Existing(found.value) else IntegrityError;
    }

    method Get(id: string) returns (r: Option<Job>)
      ensures r == if id in rows then Some(rows[id]) else None
    {
      r := if id in rows then Some(rows[id]) else None;
    }

    method FindByHash(sha256: string) returns (r: Option<Job>)
      ensures r.Some? <==> HasHash(rows, sha256)
      ensures r.Some? ==> r.value in rows.Values && r.value.sha256 == sha256
    {
      if id :| id in rows && rows[id].sha256 == sha256 {
        r := Some(rows[id]);
      } else {
        r := None;
      }
    }

    method ClaimDelivery(id: string) returns (claimed: bool)
      modifies this
      ensures rows == ClaimDeliveryRow(old(rows), id)
      ensures claimed <==> id in old(rows) && old(rows)[id].status == Quarantined
      ensures rows == if claimed then old(rows)[id := old(rows)[id].(status := Delivering)] else old(rows)
    {
      claimed := id in rows && rows[id].status == Quarantined;
      if claimed {
        rows := rows[id := rows[id].(status := Delivering)];
      }
    }

    /** The oldest due job among those no other transaction has locked (SKIP LOCKED). */
    method ClaimNext(worker: string, leaseSeconds: real, now: real, locked: set<string>) returns (r: Option<Job>)
      requires Keyed(rows)
      modifies this
      ensures r == None ==> rows == old(rows) && forall id :: id in rows && id !in locked ==> !IsDue(rows[id], now)
      ensures r.Some? ==> var id := r.value.id;
        && id in old(rows) && id !in locked && IsDue(old(rows)[id], now)
        && (old(rows)[id].status == Received || old(rows)[id].status == Processing)
        && (old(rows)[id].status == Received && old(rows)[id].nextAttempt.Some? ==>
          old(rows)[id].nextAttempt.value <= now)
        && (old(rows)[id].status == Processing ==> old(rows)[id].lease.Some? && old(rows)[id].lease.value <= now)
        && r.value == Claimed(old(rows)[id], worker, now, leaseSeconds)
        && r.value == old(rows)[id].(
             status := Processing, worker := Some(worker), lease := Some(now + leaseSeconds), nextAttempt := None,
             attempts := old(rows)[id].attempts + 1)
        && rows == old(rows)[id := r.value]
        && (forall k :: k in old(rows) && k !in locked && IsDue(old(rows)[k], now) ==>
          old(rows)[id].createdAt <= old(rows)[k].createdAt)
      ensures Keyed(rows)
    {
      var due := set id | id in rows && id !in locked && IsDue(rows[id], now);
      if due == {} {
        forall id | id in rows && id !in locked
          ensures !IsDue(rows[id], now)
        {
          assert id !in due;
        }
        return None;
      }
      var table := rows;
      var created := (k: string) => if k in table then table[k].createdAt else 0.0;
      var order := Select(due, (a, b) => created(a) <= created(b));
      ListsSize(due, order);
      var id := order[0];
      assert id in order;
      forall k | k in due
        ensures rows[id].createdAt <= rows[k].createdAt
      {
        assert k in order;
        var i :| 0 <= i < |order| && order[i] == k;
        assert i == 0 || created(order[0]) <= created(order[i]);
      }
      rows := rows[id := Claimed(rows[id], worker, now, leaseSeconds)];
      r := Some(rows[id]);
    }

    method RenewLease(id: string, worker: string, leaseSeconds: real, now: real) returns (renewed: bool)
      modifies this
      ensures rows == RenewRow(old(rows), id, worker, now, leaseSeconds)
      ensures renewed <==>
        id in old(rows) && old(rows)[id].status == Processing && old(rows)[id].worker == Some(worker)
      ensures rows == if renewed then old(rows)[id := old(rows)[id].(lease := Some(now + leaseSeconds))] else old(rows)
    {
      renewed := id in rows && rows[id].status == Processing && rows[id].worker == Some(worker);
      if renewed {
        rows := rows[id := rows[id].(lease := Some(now + leaseSeconds))];
      }
    }

    method RetryFailed(id: string) returns (r: Option<Job>)
      modifies this
      ensures rows == RetryRow(old(rows), id)
      ensures r.Some? <==> id in old(rows) && old(rows)[id].status == Failed
      ensures r == None ==> rows == old(rows)
      ensures r.Some? ==>
        && rows == old(rows)[id := r.value]
        && r.value == old(rows)[id].(
             status := Received, attempts := 0, nextAttempt := None, lease := None, worker := None, lastError := None)
    {
      if id !in rows || rows[id].status != Failed { return None; }
      rows := rows[id := rows[id].(status := Received, attempts := 0, nextAttempt := None,
                                   lease := None, worker := None, lastError := None)];
      r := Some(rows[id]);
    }

    method DeleteStalledJob(id: string) returns (r: Option<Job>)
      modifies this
      ensures rows == DeleteRow(old(rows), id)
      ensures r.Some? <==> id in old(rows) && old(rows)[id].status in {Failed, Processing, Quarantined}
      ensures r.Some? ==> r.value == old(rows)[id] && rows.Keys == old(rows).Keys - {id}
      ensures r == None ==> rows == old(rows)
      ensures forall k :: k in rows ==> rows[k] == old(rows)[k]
    {
      if id !in rows || !Deletable(rows[id].status) { return None; }
      r := Some(rows[id]);
      rows := map k | k in rows && k != id :: rows[k];
    }
  }
}
