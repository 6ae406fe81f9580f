/** The audit methods of the store (store.py), each of them one transaction under the chain lock. */
module AuditStore {
  import opened Wrappers
  import opened Orderings
  import opened Redaction
  import opened AuditChain

  // ---------- Reading in chain order ----------

  /** ORDER BY chain_index; databases differ on where NULL goes. */
  predicate ByIndex(nullsFirst: bool, a: Row, b: Row) {
    match (a.chainIndex, b.chainIndex)
    case (Some(i), Some(j)) => i <= j
    case (None, Some(_)) => nullsFirst
    case (Some(_), None) => !nullsFirst
    case (None, None) => true
  }

  /** The k-th row read has the index and hashes that verification expects there. */
  ghost predicate Follows(h: Hash, log: Log, s: seq<Row>, k: int)
    requires 0 <= k < |s|
  {
    s[k] == ChainRow(h, log.anchorHash, log.anchorIndex, Contents(s), k)
  }

  lemma AllFollowVerifies(h: Hash, log: Log, s: seq<Row>)
    requires Lists(log.rows, s)
    requires forall k :: 0 <= k < |s| ==> Follows(h, log, s, k)
    ensures IsChain(h, log, Contents(s))
  {
    var cs := Contents(s);
    forall k | 0 <= k < |cs|
      ensures ChainRow(h, log.anchorHash, log.anchorIndex, cs, k) in log.rows
    {
      assert Follows(h, log, s, k);
      assert s[k] in s;
    }
    forall r | r in log.rows
      ensures InChain(h, log.anchorHash, log.anchorIndex, cs, r)
    {
      assert r in s;
      var k :| 0 <= k < |s| && s[k] == r;
      assert Follows(h, log, s, k);
    }
  }

  function ChainSeq(h: Hash, log: Log, cs: seq<Content>): (t: seq<Row>)
    ensures |t| == |cs|
    ensures forall k :: 0 <= k < |cs| ==> t[k] == ChainRow(h, log.anchorHash, log.anchorIndex, cs, k)
  {
    seq(|cs|, k requires 0 <= k < |cs| => ChainRow(h, log.anchorHash, log.anchorIndex, cs, k))
  }

  lemma ChainLists(h: Hash, log: Log, cs: seq<Content>)
    requires IsChain(h, log, cs)
    ensures Lists(log.rows, ChainSeq(h, log, cs))
  {
    var t := ChainSeq(h, log, cs);
    forall r
      ensures r in t <==> r in log.rows
    {
      if r in log.rows {
        assert InChain(h, log.anchorHash, log.anchorIndex, cs, r);
        var k :| 0 <= k < |cs| && r == ChainRow(h, log.anchorHash, log.anchorIndex, cs, k);
        assert t[k] == r;
      }
      if r in t {
        var k :| 0 <= k < |t| && t[k] == r;
      }
    }
    forall i, j | 0 <= i < j < |t|
      ensures t[i] != t[j]
    {
      assert t[i].chainIndex != t[j].chainIndex;
    }
  }

  lemma SameIndexSameRow(h: Hash, log: Log, cs: seq<Content>, x: Row, y: Row)
    requires IsChain(h, log, cs) && x in log.rows && y in log.rows && x.chainIndex == y.chainIndex
    ensures x == y && x.chainIndex.Some?
  {
    assert InChain(h, log.anchorHash, log.anchorIndex, cs, x) && InChain(h, log.anchorHash, log.anchorIndex, cs, y);
  }

  /** The first rows of the chain of cs, in order. */
  ghost predicate AreChained(h: Hash, log: Log, cs: seq<Content>, done: seq<Row>) {
    |done| <= |cs| && forall k :: 0 <= k < |done| ==> done[k] == ChainRow(h, log.anchorHash, log.anchorIndex, cs, k)
  }

  lemma ChainedRows(h: Hash, log: Log, cs: seq<Content>, done: seq<Row>)
    requires AreChained(h, log, cs, done) && |done| == |cs|
    ensures IsChain(h, log.(rows := set r | r in done), cs)
  {
    forall k | 0 <= k < |cs|
      ensures ChainRow(h, log.anchorHash, log.anchorIndex, cs, k) in done
    {
      assert done[k] in done;
    }
  }

  /** Read in chain order, a verifying table gives its entries one after the other. */
  lemma {:induction false} VerifyingAllFollow(h: Hash, log: Log, cs: seq<Content>, nullsFirst: bool, s: seq<Row>)
    requires IsChain(h, log, cs)
    requires OrderedBy(log.rows, (a, b) => ByIndex(nullsFirst, a, b), s)
    ensures forall k :: 0 <= k < |s| ==> Follows(h, log, s, k)
  {
    var leq := (a, b) => ByIndex(nullsFirst, a, b);
    var t := ChainSeq(h, log, cs);
    ChainLists(h, log, cs);
    assert OrderedBy(log.rows, leq, t);
    forall x, y | x in log.rows && y in log.rows && leq(x, y) && leq(y, x)
      ensures x == y
    {
      SameIndexSameRow(h, log, cs, x, y);
    }
    OrderedByUnique(log.rows, leq, s, t);
    assert Contents(s) == cs;
  }

  /** Reading s in chain order, row `checked` is the first that does not fit. */
  ghost predicate StopsAt(h: Hash, log: Log, nullsFirst: bool, s: seq<Row>, checked: nat) {
    && OrderedBy(log.rows, (a, b) => ByIndex(nullsFirst, a, b), s)
    && checked < |s|
    && (forall k :: 0 <= k < checked ==> Follows(h, log, s, k))
    && !Follows(h, log, s, checked)
  }

  // ---------- Where retention cuts ----------

  ghost predicate Retained(r: Row, cutoff: int) {
    r.content.createdAt >= cutoff
  }

  ghost predicate HasIndex(r: Row, index: int) {
    r.chainIndex == Some(index)
  }

  /** The cut lies just before the first retained row, or after the last row when none is retained. */
  ghost predicate IsBoundary(rows: set<Row>, cutoff: int, boundary: int) {
    && (forall q :: q in rows && Retained(q, cutoff) && q.chainIndex.Some? ==> boundary < q.chainIndex.value)
    && ((exists q :: q in rows && Retained(q, cutoff) && HasIndex(q, boundary + 1))
        || ((forall q :: q in rows ==> !Retained(q, cutoff))
            && (forall q :: q in rows && q.chainIndex.Some? ==> q.chainIndex.value <= boundary)
            && (exists q :: q in rows && HasIndex(q, boundary))))
  }

  lemma {:induction false} BoundaryCutsIndexed(log: Log, cutoff: int, boundary: int, anchor: Row, after: Log)
    requires AllIndexed(log.rows) && IsBoundary(log.rows, cutoff, boundary)
    requires anchor in log.rows && HasIndex(anchor, boundary)
    requires forall q :: q in after.rows <==> q in log.rows && !(q.chainIndex.Some? && q.chainIndex.value <= boundary)
    requires after.anchorHash == OrZeros(anchor.entryHash) && after.anchorIndex == boundary
    ensures Cuts(log, cutoff, after, |log.rows| - |after.rows|)
  {
    assert anchor !in after.rows;
    assert IsNewestRemoved(log, after.rows, anchor);
    if q :| q in log.rows && Retained(q, cutoff) && HasIndex(q, boundary + 1) {
      assert IsFirst(after.rows, q) && !Expired(q, cutoff);
    }
  }

  lemma {:induction false} BoundaryCuts(h: Hash, log: Log, cutoff: int, boundary: int, anchor: Row, after: Log)
    requires IsBoundary(log.rows, cutoff, boundary)
    requires anchor in log.rows && HasIndex(anchor, boundary)
    requires forall q :: q in after.rows <==> q in log.rows && !(q.chainIndex.Some? && q.chainIndex.value <= boundary)
    requires after.anchorHash == OrZeros(anchor.entryHash) && after.anchorIndex == boundary
    ensures Verifies(h, log) && log.anchorIndex >= 0 ==>
      Cuts(log, cutoff, after, |log.rows| - |after.rows|) && after.anchorIndex >= 0
  {
    if Verifies(h, log) {
      var cs :| IsChain(h, log, cs);
      ChainIsIndexed(h, log, cs);
      BoundaryCutsIndexed(log, cutoff, boundary, anchor, after);
      assert InChain(h, log.anchorHash, log.anchorIndex, cs, anchor);
    }
  }

  lemma {:induction false} NothingToCutInChain(h: Hash, log: Log, cs: seq<Content>, cutoff: int, boundary: int)
    requires IsChain(h, log, cs) && log.anchorIndex >= 0 && IsBoundary(log.rows, cutoff, boundary)
    requires boundary == 0 || forall q :: q in log.rows ==> !HasIndex(q, boundary)
    ensures Cuts(log, cutoff, log, 0)
  {
    ChainIsIndexed(h, log, cs);
    var p, i := log.anchorHash, log.anchorIndex;
    forall q | q in log.rows
      ensures i < q.chainIndex.value
    {
      assert InChain(h, p, i, cs, q);
    }
    if q :| q in log.rows && Retained(q, cutoff) && HasIndex(q, boundary + 1) {
      assert InChain(h, p, i, cs, q);
      var k :| 0 <= k < |cs| && q == ChainRow(h, p, i, cs, k);
      if k > 0 { assert HasIndex(ChainRow(h, p, i, cs, k - 1), boundary); }
      assert IsFirst(log.rows, q) && !Expired(q, cutoff);
    }
  }

  lemma {:induction false} NothingToCut(h: Hash, log: Log, cutoff: int, boundary: int)
    requires IsBoundary(log.rows, cutoff, boundary)
    requires boundary == 0 || forall q :: q in log.rows ==> !HasIndex(q, boundary)
    ensures Verifies(h, log) && log.anchorIndex >= 0 ==> Cuts(log, cutoff, log, 0)
  {
    if Verifies(h, log) && log.anchorIndex >= 0 {
      var cs :| IsChain(h, log, cs);
      NothingToCutInChain(h, log, cs, cutoff, boundary);
    }
  }

  lemma NothingChained(h: Hash, log: Log, cutoff: int)
    requires forall q :: q in log.rows ==> q.chainIndex == None
    ensures Verifies(h, log) ==> Cuts(log, cutoff, log, 0)
  {
    if Verifies(h, log) {
      var cs :| IsChain(h, log, cs);
      ChainIsIndexed(h, log, cs);
      assert log.rows == {};
    }
  }

  lemma VerifyingIsIndexed(h: Hash, log: Log)
    ensures Verifies(h, log) ==> AllIndexed(log.rows)
  {
    if Verifies(h, log) {
      var cs :| IsChain(h, log, cs);
      ChainIsIndexed(h, log, cs);
    }
  }

  // ---------- Failed logins ----------

  const LOGIN := "LOGIN"
  const SUCCESS := "success"

  predicate IsLoginOf(r: Row, user: string) {
    r.content.action == LOGIN && r.content.actor == user
  }

  predicate Succeeded(r: Row) {
    r.content.outcome == SUCCESS
  }

  /** The login rows of a user that are not older than `since`. */
  function Window(rows: set<Row>, user: string, since: int): set<Row> {
    set r | r in rows && IsLoginOf(r, user) && r.content.createdAt >= since
  }

  predicate NewerFirst(a: Row, b: Row) {
    a.content.createdAt >= b.content.createdAt
  }

  function LeadingFailures(s: seq<Row>): nat {
    if s == [] || Succeeded(s[0]) then 0 else 1 + LeadingFailures(s[1..])
  }

  /** An answer of recent_failed_logins; rows with equal timestamps may be read in any order. */
  ghost predicate CountsFailures(rows: set<Row>, user: string, since: int, n: nat) {
    exists s :: OrderedBy(Window(rows, user, since), NewerFirst, s) && n == LeadingFailures(s)
  }

  // ---------- The store ----------

  datatype Verdict = Verdict(ok: bool, checked: nat, firstInvalid: Option<int>)

  datatype CutError = FirstRetainedUnchained

  class AuditStore {
    const hash: Hash
    const nullsFirst: bool
    const cipher: SecretCipher
    var rows: set<Row>
    var anchorHash: Digest
    var anchorIndex: int

    constructor (hash: Hash, nullsFirst: bool, cipher: SecretCipher)
      ensures this.hash == hash && this.nullsFirst == nullsFirst && this.cipher == cipher
      ensures View() == Log({}, ZEROS, 0) && Verifies(hash, View())
    {
      this.hash, this.nullsFirst, this.cipher := hash, nullsFirst, cipher;
      rows, anchorHash, anchorIndex := {}, ZEROS, 0;
      new;
      assert IsChain(hash, View(), []);
    }

    ghost function View(): Log
      reads this
    {
      Log(rows, anchorHash, anchorIndex)
    }

    method ReadByIndex(part: set<Row>) returns (s: seq<Row>)
      ensures OrderedBy(part, (a, b) => ByIndex(nullsFirst, a, b), s)
    {
      var first := nullsFirst;
      s := Select(part, (a, b) => ByIndex(first, a, b));
    }

    method ReadByAge() returns (s: seq<Row>)
      ensures OrderedBy(rows, OlderFirst, s)
    {
      OlderFirstOrders();
      s := Select(rows, OlderFirst);
    }

    method InitializeAuditChain()
      modifies this
      ensures Initializes(hash, old(View()), View())
    {
      if rows == {} {
        assert OrderedBy({}, OlderFirst, []) && IsChain(hash, View(), Contents([]));
        return;
      }
      if exists r :: r in rows && HasEntryHash(r) { return; }
      ghost var before := View();
      var s := ReadByAge();
      var chained := ChainAll(s);
      rows := set row | row in chained;
      ChainedRows(hash, before, Contents(s), chained);
    }

    /** The loop over the rows read, which gives each of them its index and hashes. */
    method ChainAll(s: seq<Row>) returns (chained: seq<Row>)
      ensures |chained| == |s| && AreChained(hash, View(), Contents(s), chained)
    {
      var previous, index := anchorHash, anchorIndex;
      ghost var cs := Contents(s);
      chained := [];
      while |chained| < |s|
        invariant |chained| <= |s|
        invariant previous == HashAt(hash, anchorHash, cs, |chained|) && index == anchorIndex + |chained|
        invariant AreChained(hash, View(), cs, chained)
      {
        var row := s[|chained|];
        index := index + 1;
        row := row.(chainIndex := Some(index), previousHash := Some(previous));
        previous := hash(previous, row.content);
        row := row.(entryHash := Some(previous));
        chained := chained + [row];
      }
    }

    method FirstByIndex(part: set<Row>) returns (first: Row)
      requires part != {}
      ensures first in part
      ensures first.chainIndex.Some? ==> forall q :: q in part && q.chainIndex.Some? ==> NotAfter(first, q)
    {
      var s := ReadByIndex(part);
      ListsSize(part, s);
      first := s[0];
      assert first in s;
      forall q | q in part && q.chainIndex.Some? && first.chainIndex.Some?
        ensures NotAfter(first, q)
      {
        assert q in s;
      }
    }

    method LastByIndex(part: set<Row>) returns (last: Row)
      requires part != {} && AllIndexed(part)
      ensures last in part && forall q :: q in part ==> NotAfter(q, last)
    {
      var s := ReadByIndex(part);
      ListsSize(part, s);
      last := s[|s| - 1];
      assert last in s;
      forall q | q in part
        ensures NotAfter(q, last)
      {
        assert q in s;
        assert last.chainIndex.Some?;
      }
    }

    method ReadTip() returns (previous: Digest, index: int)
      ensures IsTip(View(), previous, index)
    {
      var chained := set r | r in rows && r.chainIndex.Some?;
      previous, index := anchorHash, anchorIndex;
      if chained != {} {
        var last := LastByIndex(chained);
        previous, index := OrZeros(last.entryHash), last.chainIndex.value;
        forall q | q in rows && q.chainIndex.Some?
          ensures NotAfter(q, last)
        {
          assert q in chained;
        }
        assert IsLast(View(), last);
      } else {
        forall r
          ensures !IsLast(View(), r)
        {
          assert r !in chained;
        }
      }
    }

    method SaveAuditEvent(event: Content) returns (saved: Content)
      modifies this
      ensures exists order :: OrderedBy(cipher.known, LongerFirst, order) && saved == RedactContent(order, event)
      ensures Appends(hash, old(View()), saved, View())
    {
      var details := cipher.Redact(event.details);
      saved := event.(details := details);
      var previous, index := ReadTip();
      rows := rows + {Row(saved, Some(index + 1), Some(previous), Some(hash(previous, saved)))};
    }

    method VerifyAuditChain() returns (v: Verdict)
      ensures v.ok <==> Verifies(hash, View())
      ensures v.ok ==> v.checked == |rows| && v.firstInvalid == None
      ensures !v.ok ==> exists s: seq<Row> ::
        StopsAt(hash, View(), nullsFirst, s, v.checked) && v.firstInvalid == s[v.checked].chainIndex
    {
      var s := ReadByIndex(rows);
      ghost var cs := Contents(s);
      var previous, expected := anchorHash, anchorIndex + 1;
      var checked := 0;
      while checked < |s|
        invariant 0 <= checked <= |s|
        invariant expected == anchorIndex + 1 + checked && previous == HashAt(hash, anchorHash, cs, checked)
        invariant forall k :: 0 <= k < checked ==> Follows(hash, View(), s, k)
      {
        var row := s[checked];
        var entry := hash(previous, row.content);
        if row.chainIndex != Some(expected) || row.previousHash != Some(previous) || row.entryHash != Some(entry) {
          assert !Follows(hash, View(), s, checked);
          if Verifies(hash, View()) {
            ghost var ca :| IsChain(hash, View(), ca);
            VerifyingAllFollow(hash, View(), ca, nullsFirst, s);
          }
          assert StopsAt(hash, View(), nullsFirst, s, checked);
          return Verdict(false, checked, row.chainIndex);
        }
        checked := checked + 1;
        expected := expected + 1;
        previous := row.entryHash.GetOr("");
      }
      AllFollowVerifies(hash, View(), s);
      ListsSize(rows, s);
      v := Verdict(true, checked, None);
    }

    /** None stands for a table without a chained row, Err for the failing arithmetic on a NULL index. */
    method FindBoundary(cutoff: int) returns (r: Result<Option<int>, CutError>)
      ensures r.Err? ==> !AllIndexed(rows)
      ensures r == Ok(None) ==> forall q :: q in rows ==> q.chainIndex == None && !Retained(q, cutoff)
      ensures r.Ok? && r.value.Some? ==> IsBoundary(rows, cutoff, r.value.value)
    {
      var retained := set q | q in rows && q.content.createdAt >= cutoff;
      var chained := set q | q in rows && q.chainIndex.Some?;
      if retained != {} {
        var first := FirstByIndex(retained);
        assert first in rows && Retained(first, cutoff);
        if first.chainIndex == None { return Err(FirstRetainedUnchained); }
        assert HasIndex(first, first.chainIndex.value - 1 + 1);
        forall q | q in rows && Retained(q, cutoff) && q.chainIndex.Some?
          ensures NotAfter(first, q)
        {
          assert q in retained;
        }
        r := Ok(Some(first.chainIndex.value - 1));
      } else if chained != {} {
        var last := LastByIndex(chained);
        assert last in rows && HasIndex(last, last.chainIndex.value);
        forall q | q in rows
          ensures !Retained(q, cutoff) && (q.chainIndex.Some? ==> NotAfter(q, last))
        {
          assert q !in retained;
          if q.chainIndex.Some? { assert q in chained; }
        }
        r := Ok(Some(last.chainIndex.value));
      } else {
        forall q | q in rows
          ensures q.chainIndex == None && !Retained(q, cutoff)
        {
          assert q !in retained && q !in chained;
        }
        r := Ok(None);
      }
    }

    method DeleteAuditEventsBefore(cutoff: int) returns (r: Result<int, CutError>)
      modifies this
      ensures rows <= old(rows)
      ensures forall q :: q in old(rows) && q !in rows ==> q.content.createdAt < cutoff
      ensures r.Err? ==> View() == old(View())
      ensures old(Verifies(hash, View()) && anchorIndex >= 0) ==>
        r.Ok? && Cuts(old(View()), cutoff, View(), r.value) && anchorIndex >= 0
    {
      ghost var before := View();
      var found := FindBoundary(cutoff);
      if found.Err? {
        VerifyingIsIndexed(hash, before);
        return Err(found.error);
      }
      if found.value == None {
        NothingChained(hash, before, cutoff);
        return Ok(0);
      }
      var boundary := found.value.value;
      var anchors := set q | q in rows && q.chainIndex == Some(boundary);
      if boundary == 0 || anchors == {} {
        assert anchors == {} ==> forall q :: q in rows && HasIndex(q, boundary) ==> q in anchors;
        NothingToCut(hash, before, cutoff, boundary);
        return Ok(0);
      }
      var anchor :| anchor in anchors;
      var kept := set q | q in rows && !(q.chainIndex.Some? && q.chainIndex.value <= boundary);
      r := Ok(|rows| - |kept|);
      anchorHash, anchorIndex, rows := OrZeros(anchor.entryHash), boundary, kept;
      BoundaryCuts(hash, before, cutoff, boundary, anchor, View());
    }

    method RecentFailedLogins(user: string, since: int) returns (failures: nat)
      ensures CountsFailures(rows, user, since, failures)
    {
      var s := Select(Window(rows, user, since), NewerFirst);
      failures := 0;
      while failures < |s| && !Succeeded(s[failures])
        invariant 0 <= failures <= |s|
        invariant LeadingFailures(s) == failures + LeadingFailures(s[failures..])
      {
        assert s[failures..][1..] == s[failures + 1..];
        failures := failures + 1;
      }
    }

    /** The part of migrate_or_rotate_target_secrets that rewrites the audit details. */
    method RedactAuditDetails()
      modifies this
      ensures exists order :: OrderedBy(cipher.known, LongerFirst, order) && View() == RedactLog(order, old(View()))
    {
      var order := Select(cipher.known, LongerFirst);
      var rest, done := rows, {};
      while rest != {}
        invariant View() == old(View()) && rest <= rows
        invariant done == set r | r in old(rows) && r !in rest :: RedactRow(order, r)
        decreases rest
      {
        var row :| row in rest;
        var details := SecretCipher.RedactWith(order, row.content.details);
        done := done + {row.(content := row.content.(details := details))};
        rest := rest - {row};
      }
      rows := done;
      assert rows == RedactLog(order, old(View())).rows;
      assert View() == RedactLog(order, old(View()));
    }
  }
}
