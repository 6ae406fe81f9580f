/**
 The hash-linked audit log (store.py): what it means for a table to verify, which
 edits verification detects, and what appends, retention cuts and the start-up
 redaction pass do to a log that verifies.
 */
module AuditChain {
  import opened Wrappers
  import opened Orderings
  import opened Redaction

  type Digest = string

  const ZEROS: Digest := "0000000000000000000000000000000000000000000000000000000000000000"

  /** The fields the entry hash covers. Times are microseconds. */
  datatype Content = Content(
    id: string, actorId: Option<string>, actor: string, action: string,
    resourceType: string, resourceId: Option<string>, outcome: string, statusCode: int,
    details: Json, createdAt: int)

  datatype Row = Row(
    content: Content, chainIndex: Option<int>, previousHash: Option<Digest>, entryHash: Option<Digest>)

  /** The audit table together with the chain anchor kept in the system settings. */
  datatype Log = Log(rows: set<Row>, anchorHash: Digest, anchorIndex: int)

  type Hash = (Digest, Content) -> Digest

  ghost predicate Injective(h: Hash) {
    forall p, c, q, d {:trigger h(p, c), h(q, d)} :: h(p, c) == h(q, d) ==> p == q && c == d
  }

  /** A hex digest is never the empty string. */
  ghost predicate NonEmptyDigests(h: Hash) {
    forall p, c :: h(p, c) != ""
  }

  /** Python's `digest or "000..."`. */
  function OrZeros(digest: Option<Digest>): Digest {
    if digest.Some? && digest.value != "" then digest.value else ZEROS
  }

  // ---------- Chains ----------

  /** The hash after the first n of the entries cs, starting from prev. */
  function HashAt(h: Hash, prev: Digest, cs: seq<Content>, n: int): Digest
    requires 0 <= n <= |cs|
    decreases n
  {
    if n == 0 then prev else h(HashAt(h, prev, cs, n - 1), cs[n - 1])
  }

  function ChainRow(h: Hash, prev: Digest, index: int, cs: seq<Content>, k: int): Row
    requires 0 <= k < |cs|
  {
    Row(cs[k], Some(index + 1 + k), Some(HashAt(h, prev, cs, k)), Some(HashAt(h, prev, cs, k + 1)))
  }

  ghost predicate InChain(h: Hash, prev: Digest, index: int, cs: seq<Content>, r: Row) {
    exists k :: 0 <= k < |cs| && r == ChainRow(h, prev, index, cs, k)
  }

  /** The table holds the entries cs, chained from the anchor, and nothing else. */
  ghost predicate IsChain(h: Hash, log: Log, cs: seq<Content>) {
    && (forall k :: 0 <= k < |cs| ==> ChainRow(h, log.anchorHash, log.anchorIndex, cs, k) in log.rows)
    && (forall r :: r in log.rows ==> InChain(h, log.anchorHash, log.anchorIndex, cs, r))
  }

  ghost predicate Verifies(h: Hash, log: Log) {
    exists cs :: IsChain(h, log, cs)
  }

  /** The hash only depends on the entries before it. */
  lemma {:induction false} HashPrefix(h: Hash, prev: Digest, a: seq<Content>, b: seq<Content>, n: nat)
    requires n <= |a| && n <= |b| && a[..n] == b[..n]
    ensures HashAt(h, prev, a, n) == HashAt(h, prev, b, n)
  {
    if n > 0 {
      assert a[..n - 1] == a[..n][..n - 1] == b[..n - 1];
      assert a[n - 1] == a[..n][n - 1] == b[n - 1];
      HashPrefix(h, prev, a, b, n - 1);
    }
  }

  lemma {:induction false} HashAppend(h: Hash, prev: Digest, a: seq<Content>, b: seq<Content>, k: nat)
    requires k <= |b|
    ensures HashAt(h, prev, a + b, |a| + k) == HashAt(h, HashAt(h, prev, a, |a|), b, k)
  {
    if k == 0 {
      HashPrefix(h, prev, a + b, a, |a|);
    } else {
      HashAppend(h, prev, a, b, k - 1);
    }
  }

  /** Hashing a suffix from the hash of the prefix. */
  lemma HashSuffix(h: Hash, prev: Digest, cs: seq<Content>, n: nat, k: nat)
    requires n + k <= |cs|
    ensures HashAt(h, prev, cs, n + k) == HashAt(h, HashAt(h, prev, cs, n), cs[n..], k)
  {
    assert cs == cs[..n] + cs[n..];
    HashAppend(h, prev, cs[..n], cs[n..], k);
    HashPrefix(h, prev, cs, cs[..n], n);
  }

  /** Equal hashes after equally many entries mean equal starts and equal entries. */
  lemma {:induction false} HashInjective(h: Hash, p: Digest, a: seq<Content>, q: Digest, b: seq<Content>, n: nat)
    requires Injective(h) && n <= |a| && n <= |b|
    requires HashAt(h, p, a, n) == HashAt(h, q, b, n)
    ensures p == q && a[..n] == b[..n]
  {
    if n > 0 {
      HashInjective(h, p, a, q, b, n - 1);
      assert a[..n] == a[..n - 1] + [a[n - 1]];
      assert b[..n] == b[..n - 1] + [b[n - 1]];
    }
  }

  // ---------- Tamper evidence ----------

  ghost predicate IsLast(log: Log, r: Row) {
    && r in log.rows && r.chainIndex.Some?
    && (forall q :: q in log.rows && q.chainIndex.Some? ==> NotAfter(q, r))
  }

  lemma LastOfChain(h: Hash, log: Log, cs: seq<Content>, r: Row)
    requires IsChain(h, log, cs) && IsLast(log, r)
    ensures |cs| > 0 && r == ChainRow(h, log.anchorHash, log.anchorIndex, cs, |cs| - 1)
    ensures r.entryHash == Some(HashAt(h, log.anchorHash, cs, |cs|))
    ensures r.chainIndex == Some(log.anchorIndex + |cs|)
  {
    assert InChain(h, log.anchorHash, log.anchorIndex, cs, r);
    var k :| 0 <= k < |cs| && r == ChainRow(h, log.anchorHash, log.anchorIndex, cs, k);
    var last := ChainRow(h, log.anchorHash, log.anchorIndex, cs, |cs| - 1);
    assert last in log.rows;
    assert NotAfter(last, r);
  }

  lemma SameChainSameRows(h: Hash, a: Log, b: Log, cs: seq<Content>)
    requires IsChain(h, a, cs) && IsChain(h, b, cs)
    requires a.anchorHash == b.anchorHash && a.anchorIndex == b.anchorIndex
    ensures a == b
  {
    forall r
      ensures r in a.rows <==> r in b.rows
    {
      if r in a.rows { assert InChain(h, a.anchorHash, a.anchorIndex, cs, r); }
      if r in b.rows { assert InChain(h, b.anchorHash, b.anchorIndex, cs, r); }
    }
  }

  /**
   Two tables that both verify, continue from the same anchor index and end in the same
   index and entry hash are the same table with the same anchor.
   */
  lemma {:induction false} TamperEvident(h: Hash, a: Log, b: Log, lastA: Row, lastB: Row)
    requires Injective(h) && Verifies(h, a) && Verifies(h, b)
    requires a.anchorIndex == b.anchorIndex
    requires IsLast(a, lastA) && IsLast(b, lastB)
    requires lastA.chainIndex == lastB.chainIndex && lastA.entryHash == lastB.entryHash
    ensures a == b
  {
    var ca :| IsChain(h, a, ca);
    var cb :| IsChain(h, b, cb);
    LastOfChain(h, a, ca, lastA);
    LastOfChain(h, b, cb, lastB);
    HashInjective(h, a.anchorHash, ca, b.anchorHash, cb, |ca|);
    assert ca == ca[..|ca|] == cb[..|cb|] == cb;
    SameChainSameRows(h, a, b, ca);
  }

  predicate NotAfter(q: Row, r: Row) {
    q.chainIndex.Some? && r.chainIndex.Some? && q.chainIndex.value <= r.chainIndex.value
  }

  /** Every earlier row of the log is kept whenever a later one is. */
  ghost predicate IsPrefixOf(kept: set<Row>, rows: set<Row>) {
    && kept <= rows
    && (forall r, q :: r in kept && q in rows && NotAfter(q, r) ==> q in kept)
  }

  lemma PrefixRow(h: Hash, prev: Digest, index: int, cs: seq<Content>, n: nat, k: nat)
    requires k < n <= |cs|
    ensures ChainRow(h, prev, index, cs[..n], k) == ChainRow(h, prev, index, cs, k)
  {
    assert cs[..n][..k] == cs[..k] && cs[..n][..k + 1] == cs[..k + 1];
    HashPrefix(h, prev, cs[..n], cs, k);
    HashPrefix(h, prev, cs[..n], cs, k + 1);
  }

  lemma {:induction false} PrefixVerifies(h: Hash, log: Log, cs: seq<Content>, kept: set<Row>)
    requires IsChain(h, log, cs) && IsPrefixOf(kept, log.rows)
    ensures Verifies(h, log.(rows := kept))
  {
    var p, i := log.anchorHash, log.anchorIndex;
    var n: nat := 0;
    while n < |cs| && ChainRow(h, p, i, cs, n) in kept
      invariant n <= |cs|
      invariant forall k :: 0 <= k < n ==> ChainRow(h, p, i, cs, k) in kept
    {
      n := n + 1;
    }
    forall k | 0 <= k < n
      ensures ChainRow(h, p, i, cs[..n], k) in kept
    {
      PrefixRow(h, p, i, cs, n, k);
    }
    forall r | r in kept
      ensures InChain(h, p, i, cs[..n], r)
    {
      assert InChain(h, p, i, cs, r);
      var k :| 0 <= k < |cs| && r == ChainRow(h, p, i, cs, k);
      if n < |cs| { assert NotAfter(ChainRow(h, p, i, cs, n), r) || k < n; }
      PrefixRow(h, p, i, cs, n, k);
      assert r == ChainRow(h, p, i, cs[..n], k);
    }
    assert IsChain(h, log.(rows := kept), cs[..n]);
  }

  lemma {:induction false} VerifyingPartIsPrefix(h: Hash, log: Log, cs: seq<Content>, kept: set<Row>, ck: seq<Content>)
    requires IsChain(h, log, cs) && kept <= log.rows && IsChain(h, log.(rows := kept), ck)
    ensures IsPrefixOf(kept, log.rows)
  {
    var p, i := log.anchorHash, log.anchorIndex;
    forall r, q | r in kept && q in log.rows && NotAfter(q, r)
      ensures q in kept
    {
      assert InChain(h, p, i, ck, r) && InChain(h, p, i, cs, q);
      var k :| 0 <= k < |cs| && q == ChainRow(h, p, i, cs, k);
      var q' := ChainRow(h, p, i, ck, k);
      assert q' in kept && q' in log.rows;
      assert InChain(h, p, i, cs, q');
    }
  }

  /**
   Deleting rows from a verifying log goes unnoticed exactly when what is left is a
   prefix of the log: cutting the tail is the one deletion the chain does not show.
   */
  lemma {:induction false} DeletionVisible(h: Hash, log: Log, kept: set<Row>)
    requires Verifies(h, log) && kept <= log.rows
    ensures Verifies(h, log.(rows := kept)) <==> IsPrefixOf(kept, log.rows)
  {
    var cs :| IsChain(h, log, cs);
    if Verifies(h, log.(rows := kept)) {
      var ck :| IsChain(h, log.(rows := kept), ck);
      VerifyingPartIsPrefix(h, log, cs, kept, ck);
    }
    if IsPrefixOf(kept, log.rows) {
      PrefixVerifies(h, log, cs, kept);
    }
  }

  // ---------- One-time chaining ----------

  predicate HasEntryHash(r: Row) {
    r.entryHash.Some? && r.entryHash.value != ""
  }

  /** ORDER BY created_at, id */
  predicate OlderFirst(a: Row, b: Row) {
    || a.content.createdAt < b.content.createdAt
    || (a.content.createdAt == b.content.createdAt && TextLeq(a.content.id, b.content.id))
  }

  lemma OlderFirstOrders()
    ensures TotalPreorder(OlderFirst)
  {
    forall x: Row, y: Row
      ensures OlderFirst(x, y) || OlderFirst(y, x)
    {
      TextTotal(x.content.id, y.content.id);
    }
    forall x: Row, y: Row, z: Row | OlderFirst(x, y) && OlderFirst(y, z)
      ensures OlderFirst(x, z)
    {
      if x.content.createdAt == y.content.createdAt == z.content.createdAt {
        TextTransitive(x.content.id, y.content.id, z.content.id);
      }
    }
  }

  function Contents(rows: seq<Row>): (cs: seq<Content>)
    ensures |cs| == |rows|
    ensures forall k :: 0 <= k < |rows| ==> cs[k] == rows[k].content
  {
    seq(|rows|, k requires 0 <= k < |rows| => rows[k].content)
  }

  /** Old rows are chained in order of time, from the anchor, and only when no row has a hash yet. */
  ghost predicate Initializes(h: Hash, log: Log, after: Log) {
    if exists r :: r in log.rows && HasEntryHash(r) then after == log
    else
      && after.anchorHash == log.anchorHash && after.anchorIndex == log.anchorIndex
      && exists s :: OrderedBy(log.rows, OlderFirst, s) && IsChain(h, after, Contents(s))
  }

  ghost predicate Unhashed(rows: set<Row>) {
    forall r :: r in rows ==> r.entryHash == None || r.entryHash == Some("")
  }

  /**
   Chaining leaves a verifying table, unless it found a half-chained one that did not verify; it
   touches no table with a hash.
   */
  lemma {:induction false} InitializeExactly(h: Hash, log: Log, after: Log)
    requires Initializes(h, log, after)
    ensures Verifies(h, after) <==> Verifies(h, log) || Unhashed(log.rows)
    ensures !Unhashed(log.rows) ==> after == log
  {
    if Unhashed(log.rows) {
      var s :| OrderedBy(log.rows, OlderFirst, s) && IsChain(h, after, Contents(s));
    }
  }

  function Entries(rows: set<Row>): set<Content> {
    set r | r in rows :: r.content
  }

  /** Of two entries the one with the lower index is the older, by creation time and then by id. */
  ghost predicate IndexedByAge(rows: set<Row>) {
    forall r, q :: r in rows && q in rows && NotAfter(r, q) ==>
      || r.content.createdAt < q.content.createdAt
      || (r.content.createdAt == q.content.createdAt && TextLeq(r.content.id, q.content.id))
  }

  lemma {:induction false} ChainOfSorted(h: Hash, log: Log, s: seq<Row>, after: Log)
    requires OrderedBy(log.rows, OlderFirst, s) && IsChain(h, after, Contents(s))
    ensures IndexedByAge(after.rows) && Entries(after.rows) == Entries(log.rows)
  {
    var p, i, cs := after.anchorHash, after.anchorIndex, Contents(s);
    forall r, q | r in after.rows && q in after.rows && NotAfter(r, q)
      ensures OlderFirst(r, q)
    {
      assert InChain(h, p, i, cs, r) && InChain(h, p, i, cs, q);
      var j :| 0 <= j < |cs| && r == ChainRow(h, p, i, cs, j);
      var k :| 0 <= k < |cs| && q == ChainRow(h, p, i, cs, k);
      assert j <= k && cs[j] == s[j].content && cs[k] == s[k].content;
      if j == k { TextTotal(r.content.id, r.content.id); }
    }
    forall c
      ensures c in Entries(after.rows) <==> c in Entries(log.rows)
    {
      if c in Entries(after.rows) {
        var r :| r in after.rows && r.content == c;
        assert InChain(h, p, i, cs, r);
        var k :| 0 <= k < |cs| && r == ChainRow(h, p, i, cs, k);
        assert s[k] in s && s[k].content == c;
      }
      if c in Entries(log.rows) {
        var r :| r in log.rows && r.content == c;
        assert r in s;
        var k :| 0 <= k < |s| && s[k] == r;
        assert ChainRow(h, p, i, cs, k).content == c;
      }
    }
  }

  /** A table without hashes comes out with the same entries, indexed by age and verifying. */
  lemma {:induction false} ChainedByAge(h: Hash, log: Log, after: Log)
    requires Initializes(h, log, after) && Unhashed(log.rows)
    ensures Entries(after.rows) == Entries(log.rows) && IndexedByAge(after.rows)
    ensures Verifies(h, after) && after.anchorHash == log.anchorHash && after.anchorIndex == log.anchorIndex
  {
    var s :| OrderedBy(log.rows, OlderFirst, s) && IsChain(h, after, Contents(s));
    ChainOfSorted(h, log, s, after);
  }

  /** With ids that are primary keys, one-time chaining has one result only. */
  lemma {:induction false} ChainedUniquely(h: Hash, log: Log, x: Log, y: Log)
    requires Unhashed(log.rows) && Initializes(h, log, x) && Initializes(h, log, y)
    requires forall r, q :: r in log.rows && q in log.rows && r.content.id == q.content.id ==> r == q
    ensures x == y
  {
    var s :| OrderedBy(log.rows, OlderFirst, s) && IsChain(h, x, Contents(s));
    var t :| OrderedBy(log.rows, OlderFirst, t) && IsChain(h, y, Contents(t));
    forall r, q | r in log.rows && q in log.rows && OlderFirst(r, q) && OlderFirst(q, r)
      ensures r == q
    {
      TextTotal(r.content.id, q.content.id);
    }
    OrderedByUnique(log.rows, OlderFirst, s, t);
    SameChainSameRows(h, x, y, Contents(s));
  }

  // ---------- Appending ----------

  /** The hash and index the next entry continues from. */
  ghost predicate IsTip(log: Log, hash: Digest, index: int) {
    if exists r :: IsLast(log, r)
    then exists r :: IsLast(log, r) && index == r.chainIndex.value && hash == OrZeros(r.entryHash)
    else hash == log.anchorHash && index == log.anchorIndex
  }

  ghost predicate Appends(h: Hash, log: Log, c: Content, after: Log) {
    exists p, i :: IsTip(log, p, i)
      && after == log.(rows := log.rows + {Row(c, Some(i + 1), Some(p), Some(h(p, c)))})
  }

  lemma {:induction false} TipOfChain(h: Hash, log: Log, cs: seq<Content>, p: Digest, i: int)
    requires NonEmptyDigests(h)
    requires IsChain(h, log, cs) && IsTip(log, p, i)
    ensures p == HashAt(h, log.anchorHash, cs, |cs|) && i == log.anchorIndex + |cs|
  {
    if cs != [] {
      var last := ChainRow(h, log.anchorHash, log.anchorIndex, cs, |cs| - 1);
      forall q | q in log.rows && q.chainIndex.Some?
        ensures NotAfter(q, last)
      {
        assert InChain(h, log.anchorHash, log.anchorIndex, cs, q);
      }
      assert IsLast(log, last);
    }
    if exists r :: IsLast(log, r) {
      var last :| IsLast(log, last) && i == last.chainIndex.value && p == OrZeros(last.entryHash);
      LastOfChain(h, log, cs, last);
    }
  }

  /** After rows that have an index but no hash, an entry continues from the zeros. */
  lemma {:induction false} UnhashedTip(log: Log, p: Digest, i: int)
    requires Unhashed(log.rows) && IsTip(log, p, i)
    ensures (exists r :: IsLast(log, r)) ==> p == ZEROS
  {
    if exists r :: IsLast(log, r) {
      var last :| IsLast(log, last) && i == last.chainIndex.value && p == OrZeros(last.entryHash);
    }
  }

  /** An append extends the chain by its entry, also when retention has emptied the table. */
  lemma {:induction false} AppendExtends(h: Hash, log: Log, cs: seq<Content>, c: Content, after: Log)
    requires NonEmptyDigests(h)
    requires IsChain(h, log, cs) && Appends(h, log, c, after)
    ensures IsChain(h, after, cs + [c])
  {
    var p, i :| IsTip(log, p, i)
      && after == log.(rows := log.rows + {Row(c, Some(i + 1), Some(p), Some(h(p, c)))});
    TipOfChain(h, log, cs, p, i);
    var ext := cs + [c];
    var n := |cs|;
    assert ext[..n] == cs;
    var new_ := Row(c, Some(i + 1), Some(p), Some(h(p, c)));
    HashPrefix(h, log.anchorHash, ext, cs, n);
    assert ChainRow(h, log.anchorHash, log.anchorIndex, ext, n) == new_;
    forall k | 0 <= k < |ext|
      ensures ChainRow(h, log.anchorHash, log.anchorIndex, ext, k) in after.rows
    {
      if k < n { PrefixRow(h, log.anchorHash, log.anchorIndex, ext, n, k); }
    }
    forall r | r in after.rows
      ensures InChain(h, log.anchorHash, log.anchorIndex, ext, r)
    {
      if r != new_ {
        assert InChain(h, log.anchorHash, log.anchorIndex, cs, r);
        var k :| 0 <= k < |cs| && r == ChainRow(h, log.anchorHash, log.anchorIndex, cs, k);
        PrefixRow(h, log.anchorHash, log.anchorIndex, ext, n, k);
        assert r == ChainRow(h, log.anchorHash, log.anchorIndex, ext, k);
      }
    }
  }

  // ---------- Retention ----------

  ghost predicate Expired(r: Row, cutoff: int) {
    r.content.createdAt < cutoff
  }

  ghost predicate IsFirst(rows: set<Row>, q: Row) {
    q in rows && q.chainIndex.Some? && forall p :: p in rows && p.chainIndex.Some? ==> NotAfter(q, p)
  }

  ghost predicate IsNewestRemoved(log: Log, kept: set<Row>, r: Row) {
    r in log.rows && r !in kept && r.chainIndex.Some? && forall p :: p in log.rows && p !in kept ==> NotAfter(p, r)
  }

  /** The anchor is where the removed rows end, or where it was. */
  ghost predicate AnchorMoves(log: Log, after: Log) {
    if after.rows == log.rows then after == log
    else
      exists r ::
        && IsNewestRemoved(log, after.rows, r)
        && after.anchorIndex == r.chainIndex.value && after.anchorHash == OrZeros(r.entryHash)
  }

  ghost predicate RemovesExpiredPrefix(cutoff: int, rows: set<Row>, kept: set<Row>) {
    && (forall r :: r in rows && r !in kept ==> r.chainIndex.Some? && Expired(r, cutoff))
    && (forall r, q :: r in rows && r !in kept && q in kept ==> !NotAfter(q, r))
    && (kept != {} ==> exists q :: IsFirst(kept, q) && !Expired(q, cutoff))
  }

  /**
   The longest expired prefix of the chain is removed and the anchor moves to its last row.
   */
  ghost predicate Cuts(log: Log, cutoff: int, after: Log, deleted: int) {
    && after.rows <= log.rows
    && deleted == |log.rows| - |after.rows|
    && RemovesExpiredPrefix(cutoff, log.rows, after.rows)
    && AnchorMoves(log, after)
  }

  lemma SuffixRow(h: Hash, prev: Digest, index: int, cs: seq<Content>, n: nat, k: nat)
    requires n + k < |cs|
    ensures ChainRow(h, HashAt(h, prev, cs, n), index + n, cs[n..], k) == ChainRow(h, prev, index, cs, n + k)
  {
    HashSuffix(h, prev, cs, n, k);
    HashSuffix(h, prev, cs, n, k + 1);
  }

  /** What is left after the first n rows is the chain of the remaining entries. */
  lemma {:induction false} SuffixIsChain(h: Hash, log: Log, cs: seq<Content>, n: nat, after: Log)
    requires IsChain(h, log, cs) && n <= |cs| && after.rows <= log.rows
    requires after.anchorHash == HashAt(h, log.anchorHash, cs, n) && after.anchorIndex == log.anchorIndex + n
    requires forall k :: 0 <= k < |cs| ==>
      (ChainRow(h, log.anchorHash, log.anchorIndex, cs, k) in after.rows <==> n <= k)
    ensures IsChain(h, after, cs[n..])
  {
    forall k | 0 <= k < |cs[n..]|
      ensures ChainRow(h, after.anchorHash, after.anchorIndex, cs[n..], k) in after.rows
    {
      SuffixRow(h, log.anchorHash, log.anchorIndex, cs, n, k);
    }
    forall r | r in after.rows
      ensures InChain(h, after.anchorHash, after.anchorIndex, cs[n..], r)
    {
      assert InChain(h, log.anchorHash, log.anchorIndex, cs, r);
      var k :| 0 <= k < |cs| && r == ChainRow(h, log.anchorHash, log.anchorIndex, cs, k);
      SuffixRow(h, log.anchorHash, log.anchorIndex, cs, n, k - n);
      assert r == ChainRow(h, after.anchorHash, after.anchorIndex, cs[n..], k - n);
    }
  }

  ghost predicate AllIndexed(rows: set<Row>) {
    forall r :: r in rows ==> r.chainIndex.Some?
  }

  lemma ChainIsIndexed(h: Hash, log: Log, cs: seq<Content>)
    requires IsChain(h, log, cs)
    ensures AllIndexed(log.rows)
  {
    forall r | r in log.rows
      ensures r.chainIndex.Some?
    {
      assert InChain(h, log.anchorHash, log.anchorIndex, cs, r);
    }
  }

  /** A cut that removes something splits the table after the row that becomes the anchor. */
  lemma {:induction false} CutBoundary(log: Log, cutoff: int, after: Log, deleted: int) returns (last: Row)
    requires AllIndexed(log.rows) && Cuts(log, cutoff, after, deleted) && after != log
    ensures last in log.rows && after.anchorIndex == last.chainIndex.value
    ensures after.anchorHash == OrZeros(last.entryHash)
    ensures forall r :: r in log.rows ==> (r in after.rows <==> !NotAfter(r, last))
  {
    last :| IsNewestRemoved(log, after.rows, last) && after.anchorIndex == last.chainIndex.value
      && after.anchorHash == OrZeros(last.entryHash);
    forall r | r in log.rows
      ensures r in after.rows <==> !NotAfter(r, last)
    {
      if r !in after.rows { assert NotAfter(r, last); }
    }
  }

  /** A cut drops a prefix of the entries and moves the anchor to where the rest begins. */
  lemma {:induction false} CutDropsPrefix(h: Hash, log: Log, cs: seq<Content>, cutoff: int, after: Log, deleted: int)
    returns (n: nat)
    requires NonEmptyDigests(h)
    requires IsChain(h, log, cs) && Cuts(log, cutoff, after, deleted)
    ensures n <= |cs| && IsChain(h, after, cs[n..])
    ensures after.anchorHash == HashAt(h, log.anchorHash, cs, n) && after.anchorIndex == log.anchorIndex + n
  {
    if after == log {
      n := 0;
      assert cs[0..] == cs;
    } else {
      ChainIsIndexed(h, log, cs);
      var last := CutBoundary(log, cutoff, after, deleted);
      assert InChain(h, log.anchorHash, log.anchorIndex, cs, last);
      var k :| 0 <= k < |cs| && last == ChainRow(h, log.anchorHash, log.anchorIndex, cs, k);
      n := k + 1;
      SuffixIsChain(h, log, cs, n, after);
    }
  }

  /** A later index never has an earlier time. */
  ghost predicate TimesFollowChain(rows: set<Row>) {
    forall r, q :: r in rows && q in rows && NotAfter(r, q) ==> r.content.createdAt <= q.content.createdAt
  }

  lemma {:induction false} CutExactlyExpiredIndexed(log: Log, cutoff: int, after: Log, deleted: int)
    requires AllIndexed(log.rows) && Cuts(log, cutoff, after, deleted) && TimesFollowChain(log.rows)
    ensures forall r :: r in log.rows ==> (r in after.rows <==> !Expired(r, cutoff))
  {
    forall r | r in log.rows
      ensures r in after.rows <==> !Expired(r, cutoff)
    {
      if r in after.rows {
        var q :| IsFirst(after.rows, q) && !Expired(q, cutoff);
        assert NotAfter(q, r);
      }
    }
  }

  /** When timestamps follow the chain, exactly the expired rows go. */
  lemma {:induction false} CutExactlyExpired(h: Hash, log: Log, cutoff: int, after: Log, deleted: int)
    requires Verifies(h, log) && Cuts(log, cutoff, after, deleted) && TimesFollowChain(log.rows)
    ensures after.rows == set r | r in log.rows && r.content.createdAt >= cutoff
  {
    var cs :| IsChain(h, log, cs);
    ChainIsIndexed(h, log, cs);
    CutExactlyExpiredIndexed(log, cutoff, after, deleted);
  }

  /** In a table that was chained once, retention finds exactly the expired entries, whatever was there before. */
  lemma {:induction false} CutAfterChaining(h: Hash, log: Log, chained: Log, cutoff: int, after: Log, deleted: int)
    requires Unhashed(log.rows) && Initializes(h, log, chained) && Cuts(chained, cutoff, after, deleted)
    ensures Entries(after.rows) == set c | c in Entries(log.rows) && c.createdAt >= cutoff
  {
    ChainedByAge(h, log, chained);
    CutExactlyExpired(h, chained, cutoff, after, deleted);
    forall c | c in Entries(log.rows) && c.createdAt >= cutoff
      ensures c in Entries(after.rows)
    {
      assert c in Entries(chained.rows);
    }
  }

  // ---------- Whole runs ----------

  datatype Op = Append(content: Content) | Cut(cutoff: int)

  ghost predicate Step(h: Hash, log: Log, op: Op, after: Log) {
    match op
    case Append(c) => Appends(h, log, c, after)
    case Cut(cutoff) => exists n :: Cuts(log, cutoff, after, n)
  }

  ghost predicate StepAt(h: Hash, logs: seq<Log>, ops: seq<Op>, i: int)
    requires 0 <= i < |ops| && |logs| == |ops| + 1
  {
    Step(h, logs[i], ops[i], logs[i + 1])
  }

  /** Any interleaving of appends and cuts; the chain lock makes each of them one step. */
  ghost predicate Run(h: Hash, logs: seq<Log>, ops: seq<Op>) {
    && |logs| == |ops| + 1
    && forall i :: 0 <= i < |ops| ==> StepAt(h, logs, ops, i)
  }

  function Appended(ops: seq<Op>): seq<Content> {
    if ops == [] then []
    else
      var before := Appended(ops[..|ops| - 1]);
      match ops[|ops| - 1]
      case Append(c) => before + [c]
      case Cut(_) => before
  }

  /** The table is the chain of everything ever logged except the first n entries, which the anchor hashes. */
  ghost predicate HoldsHistory(h: Hash, start: Log, log: Log, history: seq<Content>, n: nat) {
    && n <= |history|
    && IsChain(h, log, history[n..])
    && log.anchorHash == HashAt(h, start.anchorHash, history, n)
    && log.anchorIndex == start.anchorIndex + n
  }

  lemma {:induction false} AppendKeepsHistory(
    h: Hash, start: Log, log: Log, history: seq<Content>, n: nat, c: Content, after: Log)
    requires NonEmptyDigests(h)
    requires HoldsHistory(h, start, log, history, n) && Appends(h, log, c, after)
    ensures HoldsHistory(h, start, after, history + [c], n)
  {
    AppendExtends(h, log, history[n..], c, after);
    assert (history + [c])[n..] == history[n..] + [c];
    HashPrefix(h, start.anchorHash, history + [c], history, n);
  }

  lemma DropDrop<T>(s: seq<T>, n: nat, k: nat)
    requires n + k <= |s|
    ensures s[n..][k..] == s[n + k..]
  {
  }

  lemma DropKeepsHistory(h: Hash, start: Log, log: Log, history: seq<Content>, n: nat, k: nat, after: Log)
    requires n + k <= |history|
    requires log.anchorHash == HashAt(h, start.anchorHash, history, n) && log.anchorIndex == start.anchorIndex + n
    requires after.anchorHash == HashAt(h, log.anchorHash, history[n..], k) && after.anchorIndex == log.anchorIndex + k
    requires IsChain(h, after, history[n..][k..])
    ensures HoldsHistory(h, start, after, history, n + k)
  {
    HashSuffix(h, start.anchorHash, history, n, k);
    DropDrop(history, n, k);
  }

  lemma {:induction false} CutKeepsHistory(
    h: Hash, start: Log, log: Log, history: seq<Content>, n: nat, cutoff: int, after: Log, deleted: int)
    returns (m: nat)
    requires NonEmptyDigests(h)
    requires HoldsHistory(h, start, log, history, n) && Cuts(log, cutoff, after, deleted)
    ensures HoldsHistory(h, start, after, history, m)
  {
    var rest := history[n..];
    var k := CutDropsPrefix(h, log, rest, cutoff, after, deleted);
    DropKeepsHistory(h, start, log, history, n, k, after);
    m := n + k;
  }

  /**
   After any run the table is the chain of a suffix of everything ever logged, and the
   anchor is the hash of the prefix that retention removed.
   */
  lemma {:induction false} RunKeepsHistory(h: Hash, logs: seq<Log>, ops: seq<Op>, i: nat, cs: seq<Content>)
    returns (n: nat)
    requires NonEmptyDigests(h)
    requires Run(h, logs, ops) && i <= |ops| && IsChain(h, logs[0], cs)
    ensures HoldsHistory(h, logs[0], logs[i], cs + Appended(ops[..i]), n)
  {
    if i == 0 {
      n := 0;
      assert cs + Appended(ops[..0]) == cs && cs[0..] == cs;
    } else {
      n := RunKeepsHistory(h, logs, ops, i - 1, cs);
      assert ops[..i][..i - 1] == ops[..i - 1];
      var history := cs + Appended(ops[..i - 1]);
      var op := ops[i - 1];
      assert StepAt(h, logs, ops, i - 1);
      match op
      case Append(c) =>
        AppendKeepsHistory(h, logs[0], logs[i - 1], history, n, c, logs[i]);
        assert cs + Appended(ops[..i]) == history + [c];
      case Cut(cutoff) =>
        var deleted :| Cuts(logs[i - 1], cutoff, logs[i], deleted);
        n := CutKeepsHistory(h, logs[0], logs[i - 1], history, n, cutoff, logs[i], deleted);
        assert cs + Appended(ops[..i]) == history;
    }
  }

  /** Once a log verifies, every state reachable by appends and cuts verifies. */
  lemma {:induction false} EveryRunVerifies(h: Hash, logs: seq<Log>, ops: seq<Op>, i: nat)
    requires NonEmptyDigests(h)
    requires Run(h, logs, ops) && Verifies(h, logs[0]) && i <= |ops|
    ensures Verifies(h, logs[i])
  {
    var cs :| IsChain(h, logs[0], cs);
    var n := RunKeepsHistory(h, logs, ops, i, cs);
  }

  lemma HistoryHead(h: Hash, start: Log, log: Log, history: seq<Content>, n: nat, last: Row)
    requires HoldsHistory(h, start, log, history, n) && IsLast(log, last)
    ensures last.chainIndex == Some(start.anchorIndex + |history|)
    ensures last.entryHash == Some(HashAt(h, start.anchorHash, history, |history|))
  {
    LastOfChain(h, log, history[n..], last);
    HashSuffix(h, start.anchorHash, history, n, |history| - n);
  }

  lemma RunHead(h: Hash, logs: seq<Log>, ops: seq<Op>, last: Row)
    requires NonEmptyDigests(h)
    requires Run(h, logs, ops) && logs[0].rows == {} && IsLast(logs[|ops|], last)
    ensures last.chainIndex == Some(logs[0].anchorIndex + |Appended(ops)|)
    ensures last.entryHash == Some(HashAt(h, logs[0].anchorHash, Appended(ops), |Appended(ops)|))
  {
    assert IsChain(h, logs[0], []);
    var n := RunKeepsHistory(h, logs, ops, |ops|, []);
    assert ops[..|ops|] == ops;
    assert [] + Appended(ops) == Appended(ops);
    HistoryHead(h, logs[0], logs[|ops|], Appended(ops), n, last);
  }

  /**
   The last row commits to everything ever logged: two runs from an empty log that end in
   the same index and entry hash logged the same entries in the same order, whatever
   retention removed from either.
   */
  lemma {:induction false} HeadCommitsToHistory(
    h: Hash, logs: seq<Log>, ops: seq<Op>, last: Row, otherLogs: seq<Log>, otherOps: seq<Op>, otherLast: Row)
    requires NonEmptyDigests(h)
    requires Injective(h)
    requires Run(h, logs, ops) && Run(h, otherLogs, otherOps)
    requires logs[0].rows == {} == otherLogs[0].rows && logs[0].anchorIndex == otherLogs[0].anchorIndex
    requires IsLast(logs[|ops|], last) && IsLast(otherLogs[|otherOps|], otherLast)
    requires last.chainIndex == otherLast.chainIndex && last.entryHash == otherLast.entryHash
    ensures Appended(ops) == Appended(otherOps)
  {
    var a, b := Appended(ops), Appended(otherOps);
    RunHead(h, logs, ops, last);
    RunHead(h, otherLogs, otherOps, otherLast);
    HashInjective(h, logs[0].anchorHash, a, otherLogs[0].anchorHash, b, |a|);
    assert a == a[..|a|] == b[..|b|] == b;
  }

  // ---------- The redaction pass at start-up ----------

  function RedactContent(order: seq<string>, c: Content): Content {
    c.(details := RedactJson(order, c.details))
  }

  function RedactRow(order: seq<string>, r: Row): Row {
    r.(content := RedactContent(order, r.content))
  }

  ghost function RedactLog(order: seq<string>, log: Log): Log {
    log.(rows := set r | r in log.rows :: RedactRow(order, r))
  }

  ghost predicate ChangesNothing(order: seq<string>, log: Log) {
    forall r :: r in log.rows ==> RedactRow(order, r) == r
  }

  lemma {:induction false} VerifyingPassIsIdentity(
      h: Hash, log: Log, order: seq<string>, cs: seq<Content>, ca: seq<Content>)
    requires Injective(h) && IsChain(h, log, cs) && IsChain(h, RedactLog(order, log), ca)
    ensures ChangesNothing(order, log)
  {
    var p, i := log.anchorHash, log.anchorIndex;
    forall r | r in log.rows
      ensures RedactRow(order, r) == r
    {
      var q := RedactRow(order, r);
      assert q in RedactLog(order, log).rows;
      assert InChain(h, p, i, cs, r) && InChain(h, p, i, ca, q);
      var k :| 0 <= k < |cs| && r == ChainRow(h, p, i, cs, k);
      assert q == ChainRow(h, p, i, ca, k);
      assert h(HashAt(h, p, cs, k), cs[k]) == h(HashAt(h, p, ca, k), ca[k]);
    }
  }

  /** The pass keeps a log verifying exactly when it changes no row. */
  lemma {:induction false} PassVerifiesExactly(h: Hash, log: Log, order: seq<string>)
    requires Injective(h) && Verifies(h, log)
    ensures Verifies(h, RedactLog(order, log)) <==> ChangesNothing(order, log)
  {
    var cs :| IsChain(h, log, cs);
    if Verifies(h, RedactLog(order, log)) {
      var ca :| IsChain(h, RedactLog(order, log), ca);
      VerifyingPassIsIdentity(h, log, order, cs, ca);
    }
    if ChangesNothing(order, log) {
      assert RedactLog(order, log).rows == log.rows;
    }
  }

  /** A start keeps a log verifying exactly when no stored entry mentions a secret known by then. */
  lemma {:induction false} StartupRedactionExactly(h: Hash, log: Log, secrets: set<string>, order: seq<string>)
    requires Injective(h) && Verifies(h, log) && Lists(secrets, order) && AllInert(secrets)
    ensures Verifies(h, RedactLog(order, log)) <==> forall r :: r in log.rows ==> Clean(secrets, r.content.details)
  {
    PassVerifiesExactly(h, log, order);
    forall r | r in log.rows
      ensures RedactRow(order, r) == r <==> Clean(secrets, r.content.details)
    {
      RedactionComplete(order, secrets, r.content.details);
      if Clean(secrets, r.content.details) {
        CleanUnchanged(order, secrets, r.content.details);
      }
    }
  }

  /** The details were redacted when the entry was logged, under at least the given secrets. */
  ghost predicate RedactedAtAppend(secrets: set<string>, details: Json) {
    exists raw, known, order ::
      Lists(known, order) && AllInert(known) && secrets <= known && details == RedactJson(order, raw)
  }

  /** So a log redacted at append time under a superset of today's secrets survives every restart. */
  lemma {:induction false} StartupHarmless(h: Hash, log: Log, secrets: set<string>, order: seq<string>)
    requires Injective(h) && Verifies(h, log) && Lists(secrets, order)
    requires forall r :: r in log.rows ==> RedactedAtAppend(secrets, r.content.details)
    ensures RedactLog(order, log) == log && Verifies(h, RedactLog(order, log))
  {
    forall r | r in log.rows
      ensures RedactRow(order, r) == r
    {
      assert RedactedAtAppend(secrets, r.content.details);
      var raw, known, o :| Lists(known, o) && AllInert(known) && secrets <= known
        && r.content.details == RedactJson(o, raw);
      RedactAgain(o, known, order, secrets, raw);
    }
    assert RedactLog(order, log).rows == log.rows;
  }

  /** A secret learned after an entry that mentions it was logged breaks the chain at the next start. */
  lemma LaterSecretBreaksChain(h: Hash, c: Content)
    requires Injective(h) && c.details == Str("token")
    ensures var log := Log({Row(c, Some(1), Some(ZEROS), Some(h(ZEROS, c)))}, ZEROS, 0);
      Verifies(h, log) && !Verifies(h, RedactLog(["token"], log))
  {
    var r := Row(c, Some(1), Some(ZEROS), Some(h(ZEROS, c)));
    var log := Log({r}, ZEROS, 0);
    assert ChainRow(h, ZEROS, 0, [c], 0) == r;
    assert IsChain(h, log, [c]);
    PassVerifiesExactly(h, log, ["token"]);
    assert RedactString(["token"], "token") == RedactString([], Replace("token", "token", REDACTED));
    assert RedactRow(["token"], r) != r;
    assert r in log.rows;
  }
}
