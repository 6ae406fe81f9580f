/**
 Login throttling (api.py) over the audit log: the limit holds across any interleaving
 of logins, other audit entries and retention runs, because retention never reaches the
 login window.
 */
module Logins {
  import opened Wrappers
  import opened Orderings
  import opened Redaction
  import opened AuditChain
  import opened AuditStore

  const DAY := 86400 * 1000000
  const MINUTE := 60 * 1000000

  // ---------- Retention ----------

  /** audit_retention_days: the stored number clamped to 30..3650; parse stands for int(). */
  function AuditRetentionDays(parse: string -> Option<int>, setting: Option<string>): (days: int)
    ensures 30 <= days <= 3650
    ensures setting == None || setting == Some("") ==> days == 365
    ensures setting.Some? && setting.value != "" ==>
      match parse(setting.value)
      case None => days == 365
      case Some(n) =>
        && (days == n || days == 30 || days == 3650)
        && (n >= 30 ==> days <= n) && (n <= 3650 ==> days >= n)
  {
    if setting == None || setting.value == "" then 365
    else
      match parse(setting.value)
      case Some(n) => if n < 30 then 30 else if n > 3650 then 3650 else n
      case None => 365
  }

  function Cutoff(now: int, days: int): int {
    now - days * DAY
  }

  /** A retention cut leaves every login window as it was, for every user. */
  lemma {:induction false} RetentionHarmless(
    log: Log, now: int, days: int, after: Log, deleted: int, user: string, minutes: int, since: int)
    requires days >= 30 && 1 <= minutes <= 1440
    requires Cuts(log, Cutoff(now, days), after, deleted)
    requires since >= now - minutes * MINUTE
    ensures Window(after.rows, user, since) == Window(log.rows, user, since)
    ensures forall n: nat :: CountsFailures(after.rows, user, since, n) <==> CountsFailures(log.rows, user, since, n)
  {
    forall r | r in Window(log.rows, user, since)
      ensures r in after.rows
    {
      assert !Expired(r, Cutoff(now, days));
    }
    assert Window(after.rows, user, since) == Window(log.rows, user, since);
  }

  // ---------- One login ----------

  datatype Config = Config(maxAttempts: int, windowMinutes: int) {
    predicate Valid() {
      1 <= maxAttempts <= 100 && 1 <= windowMinutes <= 1440
    }

    function Since(now: int): int {
      now - windowMinutes * MINUTE
    }
  }

  datatype LoginResult = Limited | WrongPassword | LoggedIn

  /** The status code and outcome the audit entry of a login carries. */
  predicate Records(c: Content, result: LoginResult) {
    && c.action == LOGIN
    && c.statusCode == (match result case Limited => 429 case WrongPassword => 401 case LoggedIn => 200)
    && (c.outcome == SUCCESS <==> result == LoggedIn)
  }

  /** The password is looked at only while fewer than the permitted failures are in the window. */
  ghost predicate LoginStep(
      h: Hash, config: Config, log: Log, started: int, c: Content, result: LoginResult, after: Log) {
    && Records(c, result)
    && (exists n: nat :: CountsFailures(log.rows, c.actor, config.Since(started), n)
          && (result == Limited <==> n >= config.maxAttempts))
    && Appends(h, log, c, after)
  }

  /** login; passwordOk stands for an active user with the right password. */
  method Login(store: AuditStore, config: Config, event: Content, started: int, passwordOk: bool)
    returns (result: LoginResult, c: Content)
    modifies store
    ensures LoginStep(store.hash, config, old(store.View()), started, c, result, store.View())
    ensures c.actor == event.actor && c.createdAt == event.createdAt && c.id == event.id
    ensures result != Limited ==> (result == LoggedIn <==> passwordOk)
  {
    ghost var before := store.View();
    var failures := store.RecentFailedLogins(event.actor, config.Since(started));
    var base := event.(action := LOGIN, resourceType := "session", outcome := "failure");
    if failures >= config.maxAttempts {
      result := Limited;
      c := store.SaveAuditEvent(base.(statusCode := 429, details := Dict([("reason", Str("rate_limited"))])));
    } else if !passwordOk {
      result := WrongPassword;
      c := store.SaveAuditEvent(base.(statusCode := 401, details := Dict([])));
    } else {
      result := LoggedIn;
      c := store.SaveAuditEvent(base.(statusCode := 200, outcome := SUCCESS, details := Dict([])));
    }
    assert CountsFailures(before.rows, c.actor, config.Since(started), failures);
  }

  // ---------- Traces ----------

  datatype Action =
    | Attempt(started: int, content: Content, result: LoginResult)
    | Other(content: Content)
    | Retention(now: int, days: int)
  {
    function Start(): int {
      match this
      case Attempt(started, _, _) => started
      case Other(c) => c.createdAt
      case Retention(now, _) => now
    }

    function End(): int {
      match this
      case Attempt(_, c, _) => c.createdAt
      case Other(c) => c.createdAt
      case Retention(now, _) => now
    }
  }

  ghost predicate ActionStep(h: Hash, config: Config, log: Log, a: Action, after: Log) {
    match a
    case Attempt(started, c, result) => LoginStep(h, config, log, started, c, result, after)
    case Other(c) => c.action != LOGIN && Appends(h, log, c, after)
    case Retention(now, days) => days >= 30 && exists n :: Cuts(log, Cutoff(now, days), after, n)
  }

  ghost predicate ActionAt(h: Hash, config: Config, logs: seq<Log>, acts: seq<Action>, i: int)
    requires 0 <= i < |acts| && |logs| == |acts| + 1
  {
    ActionStep(h, config, logs[i], acts[i], logs[i + 1])
  }

  /** Sequential actions under a clock that never goes back; every audit entry has a fresh id. */
  ghost predicate Trace(h: Hash, config: Config, logs: seq<Log>, acts: seq<Action>) {
    && config.Valid()
    && |logs| == |acts| + 1
    && (forall i :: 0 <= i < |acts| ==> ActionAt(h, config, logs, acts, i))
    && (forall i :: 0 <= i < |acts| ==> acts[i].Start() <= acts[i].End())
    && (forall i, j :: 0 <= i < j < |acts| ==> acts[i].End() <= acts[j].Start())
    && (forall i, j :: 0 <= i < j < |acts| && acts[i].Attempt? && acts[j].Attempt? ==>
      acts[i].content.id != acts[j].content.id)
  }

  predicate IsAttemptOf(a: Action, user: string, result: LoginResult) {
    a.Attempt? && a.content.actor == user && a.result == result
  }

  /** How many passwords of the user were checked and rejected in steps i..j. */
  function WrongPasswords(acts: seq<Action>, user: string, i: nat, j: nat): nat
    requires i <= j <= |acts|
    decreases j
  {
    if i == j then 0
    else WrongPasswords(acts, user, i, j - 1) + if IsAttemptOf(acts[j - 1], user, WrongPassword) then 1 else 0
  }

  // ---------- What recent_failed_logins may answer ----------

  predicate FailedLogin(r: Row, user: string, since: int) {
    && r.content.action == "LOGIN" && r.content.actor == user && r.content.createdAt >= since
    && r.content.outcome != "success"
  }

  predicate GoodLogin(r: Row, user: string, since: int) {
    && r.content.action == "LOGIN" && r.content.actor == user && r.content.createdAt >= since
    && r.content.outcome == "success"
  }

  function FailedLogins(rows: set<Row>, user: string, since: int): set<Row> {
    set r | r in rows && FailedLogin(r, user, since)
  }

  predicate NewerThanSuccesses(rows: set<Row>, user: string, since: int, r: Row) {
    forall q :: q in rows && GoodLogin(q, user, since) ==> q.content.createdAt < r.content.createdAt
  }

  predicate NotOlderThanSuccesses(rows: set<Row>, user: string, since: int, r: Row) {
    forall q :: q in rows && GoodLogin(q, user, since) ==> q.content.createdAt <= r.content.createdAt
  }

  /** The failures of the user in the window that are newer than every success. */
  function Sure(rows: set<Row>, user: string, since: int): set<Row> {
    set r | r in FailedLogins(rows, user, since) && NewerThanSuccesses(rows, user, since, r)
  }

  /** The failures of the user in the window that no success is newer than. */
  function Possible(rows: set<Row>, user: string, since: int): set<Row> {
    set r | r in FailedLogins(rows, user, since) && NotOlderThanSuccesses(rows, user, since, r)
  }

  lemma WindowParts(rows: set<Row>, user: string, since: int, r: Row)
    ensures r in Window(rows, user, since) && !Succeeded(r) <==> r in rows && FailedLogin(r, user, since)
    ensures r in Window(rows, user, since) && Succeeded(r) <==> r in rows && GoodLogin(r, user, since)
  {
  }

  lemma {:induction false} LeadingStops(s: seq<Row>)
    ensures LeadingFailures(s) <= |s|
    ensures LeadingFailures(s) < |s| ==> Succeeded(s[LeadingFailures(s)])
    ensures forall i :: 0 <= i < LeadingFailures(s) ==> !Succeeded(s[i])
    decreases |s|
  {
    if s != [] && !Succeeded(s[0]) { LeadingStops(s[1..]); }
  }

  lemma {:induction false} PrefixSet(s: seq<Row>, n: nat) returns (front: set<Row>)
    requires n <= |s| && forall i, j :: 0 <= i < j < |s| ==> s[i] != s[j]
    ensures |front| == n && forall r :: r in front <==> exists i :: 0 <= i < n && s[i] == r
  {
    front := {};
    if n > 0 {
      front := PrefixSet(s, n - 1);
      front := front + {s[n - 1]};
    }
  }

  /** The answer lies between the sure failures and the possible ones. */
  lemma {:induction false} AnswerWithin(rows: set<Row>, user: string, since: int, n: nat)
    requires CountsFailures(rows, user, since, n)
    ensures |Sure(rows, user, since)| <= n <= |Possible(rows, user, since)|
  {
    var w := Window(rows, user, since);
    var s: seq<Row> :| OrderedBy(w, NewerFirst, s) && n == LeadingFailures(s);
    LeadingStops(s);
    var front := PrefixSet(s, n);
    forall r | r in Sure(rows, user, since)
      ensures r in front
    {
      WindowParts(rows, user, since, r);
      assert r in s;
      var k :| 0 <= k < |s| && s[k] == r;
      if n < |s| {
        assert s[n] in s;
        WindowParts(rows, user, since, s[n]);
      }
    }
    forall r | r in front
      ensures r in Possible(rows, user, since)
    {
      var k :| 0 <= k < n && s[k] == r;
      assert r in s;
      WindowParts(rows, user, since, r);
      forall q | q in rows && GoodLogin(q, user, since)
        ensures q.content.createdAt <= r.content.createdAt
      {
        WindowParts(rows, user, since, q);
        assert q in s;
        var j :| 0 <= j < |s| && s[j] == q;
      }
    }
    SubsetSize(Sure(rows, user, since), front);
    SubsetSize(front, Possible(rows, user, since));
  }

  lemma NewerFirstOrders()
    ensures TotalPreorder(NewerFirst)
  {
  }

  lemma {:induction false} FailuresThenSuccess(front: seq<Row>, rest: seq<Row>)
    requires forall i :: 0 <= i < |front| ==> !Succeeded(front[i])
    requires rest != [] ==> Succeeded(rest[0])
    ensures LeadingFailures(front + rest) == |front|
  {
    if front == [] {
      assert front + rest == rest;
    } else {
      assert (front + rest)[1..] == front[1..] + rest;
      FailuresThenSuccess(front[1..], rest);
    }
  }

  /** Listings of a newer and an older part make up one of the whole. */
  lemma ListingsJoin(whole: set<Row>, newer: set<Row>, a: seq<Row>, b: seq<Row>)
    requires newer <= whole && OrderedBy(newer, NewerFirst, a) && OrderedBy(whole - newer, NewerFirst, b)
    requires forall x, y :: x in newer && y in whole && y !in newer ==> NewerFirst(x, y)
    ensures OrderedBy(whole, NewerFirst, a + b)
  {
    var s := a + b;
    forall i, j | 0 <= i < j < |s|
      ensures s[i] != s[j] && NewerFirst(s[i], s[j])
    {
      if j < |a| {
      } else if i < |a| {
        assert s[i] in a && s[j] == b[j - |a|] && b[j - |a|] in b;
      } else {
        assert s[i] == b[i - |a|] && s[j] == b[j - |a|];
      }
    }
    forall x
      ensures x in s <==> x in whole
    {
      assert x in s <==> x in a || x in b;
    }
  }

  lemma SuccessFirst(window: set<Row>, q: Row) returns (s: seq<Row>)
    requires q in window && (forall x :: x in window ==> NewerFirst(q, x))
    ensures OrderedBy(window, NewerFirst, s) && s != [] && s[0] == q
  {
    NewerFirstOrders();
    var rest := ListingExists(window - {q}, NewerFirst);
    assert OrderedBy({q}, NewerFirst, [q]);
    ListingsJoin(window, {q}, [q], rest);
    s := [q] + rest;
  }

  /** Some failures, then a success, then the rest. */
  lemma FailuresFirst(w: set<Row>, front: set<Row>, q: Row) returns (s: seq<Row>)
    requires front <= w && q in w && q !in front && Succeeded(q)
    requires forall x, y :: x in front && y in w && y !in front ==> NewerFirst(x, y)
    requires forall y :: y in w && y !in front ==> NewerFirst(q, y)
    requires forall x :: x in front ==> !Succeeded(x)
    ensures OrderedBy(w, NewerFirst, s) && LeadingFailures(s) == |front|
  {
    NewerFirstOrders();
    var a := ListingExists(front, NewerFirst);
    var b := SuccessFirst(w - front, q);
    ListingsJoin(w, front, a, b);
    forall i | 0 <= i < |a|
      ensures !Succeeded(a[i])
    {
      assert a[i] in a;
    }
    FailuresThenSuccess(a, b);
    ListsSize(front, a);
    s := a + b;
  }

  lemma {:induction false} SubsetOfSize<T>(small: set<T>, big: set<T>, n: nat) returns (middle: set<T>)
    requires small <= big && |small| <= n <= |big|
    ensures small <= middle <= big && |middle| == n
    decreases |big|
  {
    if n == |big| {
      middle := big;
    } else {
      if big <= small { SubsetSize(big, small); }
      var x :| x in big && x !in small;
      middle := SubsetOfSize(small, big - {x}, n);
    }
  }

  lemma {:induction false} NewestSuccess(rows: set<Row>, user: string, since: int) returns (q: Row)
    requires exists g :: g in rows && GoodLogin(g, user, since)
    ensures q in rows && GoodLogin(q, user, since)
    ensures forall g :: g in rows && GoodLogin(g, user, since) ==> g.content.createdAt <= q.content.createdAt
  {
    var good := set g | g in rows && GoodLogin(g, user, since);
    var g :| g in rows && GoodLogin(g, user, since);
    assert g in good;
    NewerFirstOrders();
    q := LeastExists(good, NewerFirst);
    forall g | g in rows && GoodLogin(g, user, since)
      ensures NewerFirst(q, g)
    {
      assert g in good;
    }
  }

  /** Every number in between is an answer too, the failures tied with the newest success being read either way. */
  lemma {:induction false} AnswerReached(rows: set<Row>, user: string, since: int, n: nat)
    requires |Sure(rows, user, since)| <= n <= |Possible(rows, user, since)|
    ensures CountsFailures(rows, user, since, n)
  {
    var w := Window(rows, user, since);
    forall r
      ensures r in w && !Succeeded(r) <==> r in FailedLogins(rows, user, since)
      ensures r in w && Succeeded(r) <==> r in rows && GoodLogin(r, user, since)
    {
      WindowParts(rows, user, since, r);
    }
    if exists g :: g in rows && GoodLogin(g, user, since) {
      var q := NewestSuccess(rows, user, since);
      var front := SubsetOfSize(Sure(rows, user, since), Possible(rows, user, since), n);
      forall x | x in front
        ensures x in w && !Succeeded(x) && x.content.createdAt >= q.content.createdAt
      {
        assert x in Possible(rows, user, since);
      }
      forall y | y in w && y !in front
        ensures y.content.createdAt <= q.content.createdAt
      {
        assert y !in Sure(rows, user, since);
      }
      var s := FailuresFirst(w, front, q);
    } else {
      NewerFirstOrders();
      var s := ListingExists(w, NewerFirst);
      ListsSize(w, s);
      forall i | 0 <= i < |s|
        ensures !Succeeded(s[i])
      {
        assert s[i] in s;
      }
      FailuresThenSuccess(s, []);
      assert s + [] == s;
      assert Sure(rows, user, since) == w == Possible(rows, user, since);
    }
  }

  /**
   recent_failed_logins may answer exactly the numbers from the failures of the user in the window
   that are newer than every success of the user there to those that no success is newer than.
   */
  lemma {:induction false} AnswersExactly(rows: set<Row>, user: string, since: int, n: nat)
    ensures CountsFailures(rows, user, since, n)
      <==> |Sure(rows, user, since)| <= n <= |Possible(rows, user, since)|
  {
    if CountsFailures(rows, user, since, n) { AnswerWithin(rows, user, since, n); }
    if |Sure(rows, user, since)| <= n <= |Possible(rows, user, since)| { AnswerReached(rows, user, since, n); }
  }

  /** Neither the failures of other users nor audit entries of other kinds change any answer. */
  lemma {:induction false} OthersNotCounted(rows: set<Row>, others: set<Row>, user: string, since: int, n: nat)
    requires forall r :: r in others ==> r.content.action != "LOGIN" || r.content.actor != user
    ensures CountsFailures(rows + others, user, since, n) <==> CountsFailures(rows, user, since, n)
  {
    AnswersExactly(rows, user, since, n);
    AnswersExactly(rows + others, user, since, n);
    assert Sure(rows + others, user, since) == Sure(rows, user, since);
    assert Possible(rows + others, user, since) == Possible(rows, user, since);
  }

  /** A possible failure has the timestamp of a success. */
  ghost predicate Tied(rows: set<Row>, user: string, since: int) {
    exists f, q ::
      && f in Possible(rows, user, since) && q in rows && GoodLogin(q, user, since)
      && f.content.createdAt == q.content.createdAt
  }

  /**
   recent_failed_logins is sure to count every failure that no success is newer than exactly when
   none of them shares its timestamp with a success.
   */
  lemma {:induction false} CountsAllExactly(rows: set<Row>, user: string, since: int)
    ensures (forall n: nat :: CountsFailures(rows, user, since, n) ==> n >= |Possible(rows, user, since)|)
      <==> !Tied(rows, user, since)
  {
    var sure, possible := Sure(rows, user, since), Possible(rows, user, since);
    if Tied(rows, user, since) {
      var n := TieCountsLess(rows, user, since);
    } else {
      forall f | f in possible
        ensures f in sure
      {
      }
      SubsetSize(possible, sure);
      forall n: nat | CountsFailures(rows, user, since, n)
        ensures n >= |possible|
      {
        AnswerWithin(rows, user, since, n);
      }
    }
  }

  /** With a tie, a database may answer less than that. */
  lemma {:induction false} TieCountsLess(rows: set<Row>, user: string, since: int) returns (n: nat)
    requires Tied(rows, user, since)
    ensures CountsFailures(rows, user, since, n) && n < |Possible(rows, user, since)|
  {
    var sure, possible := Sure(rows, user, since), Possible(rows, user, since);
    var f, q :| f in possible && q in rows && GoodLogin(q, user, since) && f.content.createdAt == q.content.createdAt;
    assert f !in sure && sure + {f} <= possible;
    SubsetSize(sure + {f}, possible);
    n := |sure|;
    AnswerReached(rows, user, since, n);
  }

  // ---------- The limit ----------

  /** A row inside the window of step m, once written, is still there at step m. */
  lemma {:induction false} RowStays(
      h: Hash, config: Config, logs: seq<Log>, acts: seq<Action>, k: nat, m: nat, limit: nat, r: Row)
    requires Trace(h, config, logs, acts) && k <= m <= limit < |acts|
    requires r in logs[k].rows && r.content.createdAt >= config.Since(acts[limit].Start())
    ensures r in logs[m].rows
    decreases m
  {
    if k < m {
      RowStays(h, config, logs, acts, k, m - 1, limit, r);
      assert ActionAt(h, config, logs, acts, m - 1);
      if acts[m - 1].Retention? {
        assert acts[m - 1].End() <= acts[limit].Start();
        assert !Expired(r, Cutoff(acts[m - 1].now, acts[m - 1].days));
      }
    }
  }

  /** A successful login in the log at step m was there at step i or happened in between. */
  lemma {:induction false} SuccessOrigin(
      h: Hash, config: Config, logs: seq<Log>, acts: seq<Action>, user: string, i: nat, m: nat, r: Row)
    requires Trace(h, config, logs, acts) && i <= m <= |acts|
    requires r in logs[m].rows && IsLoginOf(r, user) && Succeeded(r)
    ensures r in logs[i].rows || exists k :: i <= k < m && IsAttemptOf(acts[k], user, LoggedIn)
    decreases m
  {
    if i < m && r !in logs[i].rows {
      assert ActionAt(h, config, logs, acts, m - 1);
      if r in logs[m - 1].rows {
        SuccessOrigin(h, config, logs, acts, user, i, m - 1, r);
      } else {
        assert IsAttemptOf(acts[m - 1], user, LoggedIn);
      }
    }
  }

  /** The audit row of the password rejected in the step before k still stands at step m. */
  lemma RejectedRow(
    h: Hash, config: Config, logs: seq<Log>, acts: seq<Action>, user: string, k: nat, m: nat) returns (r: Row)
    requires Trace(h, config, logs, acts) && 0 < k <= m < |acts| && IsAttemptOf(acts[k - 1], user, WrongPassword)
    requires acts[k - 1].content.createdAt >= config.Since(acts[m].Start())
    ensures r in logs[m].rows && r.content == acts[k - 1].content
  {
    assert ActionAt(h, config, logs, acts, k - 1);
    r :| r in logs[k].rows && r.content == acts[k - 1].content;
    RowStays(h, config, logs, acts, k, m, m, r);
  }

  /** The rows of the rejected passwords in steps i..k, one per check, as they stand at step m. */
  lemma {:induction false} RejectedRows(
    h: Hash, config: Config, logs: seq<Log>, acts: seq<Action>, user: string, i: nat, k: nat, m: nat)
    returns (rows: set<Row>)
    requires Trace(h, config, logs, acts) && i <= k <= m < |acts|
    requires forall l :: i <= l < k && IsAttemptOf(acts[l], user, WrongPassword) ==>
      acts[l].content.createdAt >= config.Since(acts[m].Start())
    ensures |rows| == WrongPasswords(acts, user, i, k) && rows <= logs[m].rows
    ensures forall r :: r in rows ==>
      exists l :: i <= l < k && IsAttemptOf(acts[l], user, WrongPassword) && acts[l].content == r.content
    decreases k
  {
    if i == k {
      rows := {};
    } else {
      rows := RejectedRows(h, config, logs, acts, user, i, k - 1, m);
      if IsAttemptOf(acts[k - 1], user, WrongPassword) {
        var r := RejectedRow(h, config, logs, acts, user, k, m);
        forall q | q in rows
          ensures q != r
        {
          var l :| i <= l < k - 1 && IsAttemptOf(acts[l], user, WrongPassword) && acts[l].content == q.content;
        }
        rows := rows + {r};
      }
    }
  }

  /** At the moment a password is rejected, fewer than the limit were rejected before it. */
  lemma {:induction false} RejectedBelowLimit(
    h: Hash, config: Config, logs: seq<Log>, acts: seq<Action>, user: string, i: nat, m: nat)
    requires Trace(h, config, logs, acts) && i <= m < |acts|
    requires IsAttemptOf(acts[m], user, WrongPassword)
    requires forall k :: i <= k < m ==> !IsAttemptOf(acts[k], user, LoggedIn)
    requires SuccessesOlder(logs[i].rows, acts, user, i, m)
    requires forall k :: i <= k < m && IsAttemptOf(acts[k], user, WrongPassword) ==>
      acts[m].End() - acts[k].End() <= config.windowMinutes * MINUTE
    ensures WrongPasswords(acts, user, i, m) < config.maxAttempts
  {
    var since := config.Since(acts[m].Start());
    assert acts[m].Start() <= acts[m].End();
    var failed := RejectedRows(h, config, logs, acts, user, i, m, m);
    assert ActionAt(h, config, logs, acts, m);
    var n: nat :|
      CountsFailures(logs[m].rows, user, since, n) && (acts[m].result == Limited <==> n >= config.maxAttempts);
    forall f | f in failed
      ensures f in FailedLogins(logs[m].rows, user, since)
    {
      var k :| i <= k < m && IsAttemptOf(acts[k], user, WrongPassword) && acts[k].content == f.content;
      assert ActionAt(h, config, logs, acts, k);
    }
    forall f, s | f in failed && s in logs[m].rows && GoodLogin(s, user, since)
      ensures s.content.createdAt < f.content.createdAt
    {
      SuccessOrigin(h, config, logs, acts, user, i, m, s);
      var k :| i <= k < m && IsAttemptOf(acts[k], user, WrongPassword) && acts[k].content == f.content;
    }
    assert failed <= Sure(logs[m].rows, user, since);
    SubsetSize(failed, Sure(logs[m].rows, user, since));
    AnswerWithin(logs[m].rows, user, since, n);
  }

  /** No failure is recorded at the very timestamp of an earlier success of the same user. */
  ghost predicate SuccessesOlder(rows: set<Row>, acts: seq<Action>, user: string, i: nat, j: nat) {
    && j <= |acts|
    && (forall s, k ::
      s in rows && IsLoginOf(s, user) && Succeeded(s) && i <= k < j && IsAttemptOf(acts[k], user, WrongPassword) ==>
          s.content.createdAt < acts[k].End())
  }

  /**
   In any span no longer than the login window, between two successful logins, at most
   login_max_attempts passwords of one user name are checked and rejected.
   */
  lemma {:induction false} Throttled(
    h: Hash, config: Config, logs: seq<Log>, acts: seq<Action>, user: string, i: nat, j: nat)
    requires Trace(h, config, logs, acts) && i <= j <= |acts|
    requires forall k :: i <= k < j ==> !IsAttemptOf(acts[k], user, LoggedIn)
    requires SuccessesOlder(logs[i].rows, acts, user, i, j)
    requires forall k, m ::
      i <= k < m < j && IsAttemptOf(acts[k], user, WrongPassword) && IsAttemptOf(acts[m], user, WrongPassword) ==>
      acts[m].End() - acts[k].End() <= config.windowMinutes * MINUTE
    ensures WrongPasswords(acts, user, i, j) <= config.maxAttempts
    decreases j
  {
    if i < j {
      if IsAttemptOf(acts[j - 1], user, WrongPassword) {
        RejectedBelowLimit(h, config, logs, acts, user, i, j - 1);
      } else {
        Throttled(h, config, logs, acts, user, i, j - 1);
      }
    }
  }

  // ---------- Nobody is refused without reason ----------

  /** How many attempts of the user in steps i..j did not succeed and ended no earlier than `since`. */
  function FailedAttempts(acts: seq<Action>, user: string, since: int, i: nat, j: nat): nat
    requires i <= j <= |acts|
    decreases j
  {
    if i == j then 0
    else
      var a := acts[j - 1];
      FailedAttempts(acts, user, since, i, j - 1)
      + if a.Attempt? && a.content.actor == user && a.result != LoggedIn && a.End() >= since then 1 else 0
  }

  /** One action adds a failed login of the user only as a failed attempt of that user. */
  lemma {:induction false} FailuresAdded(
    h: Hash, config: Config, log: Log, a: Action, after: Log, user: string, since: int)
    requires ActionStep(h, config, log, a, after)
    ensures |FailedLogins(after.rows, user, since)|
      <= |FailedLogins(log.rows, user, since)| + FailedAttempts([a], user, since, 0, 1)
  {
    var before, now := FailedLogins(log.rows, user, since), FailedLogins(after.rows, user, since);
    assert FailedAttempts([a], user, since, 0, 0) == 0;
    if a.Retention? {
      SubsetSize(now, before);
    } else {
      var p, i :| IsTip(log, p, i)
        && after == log.(rows := log.rows + {Row(a.content, Some(i + 1), Some(p), Some(h(p, a.content)))});
      var added := Row(a.content, Some(i + 1), Some(p), Some(h(p, a.content)));
      if FailedLogin(added, user, since) {
        SubsetSize(now, before + {added});
      } else {
        SubsetSize(now, before);
      }
    }
  }

  lemma {:induction false} FailuresAreAttempts(
    h: Hash, config: Config, logs: seq<Log>, acts: seq<Action>, user: string, since: int, i: nat, m: nat)
    requires Trace(h, config, logs, acts) && i <= m <= |acts|
    ensures |FailedLogins(logs[m].rows, user, since)|
      <= |FailedLogins(logs[i].rows, user, since)| + FailedAttempts(acts, user, since, i, m)
    decreases m
  {
    if i < m {
      FailuresAreAttempts(h, config, logs, acts, user, since, i, m - 1);
      assert ActionAt(h, config, logs, acts, m - 1);
      FailuresAdded(h, config, logs[m - 1], acts[m - 1], logs[m], user, since);
      assert FailedAttempts([acts[m - 1]], user, since, 0, 0) == 0;
    }
  }

  /**
   An attempt is refused only when the same user has failed as often as permitted within the
   window, counting the failures already in the log at step i and the attempts since; no other
   user's attempts and no other entries contribute.
   */
  lemma {:induction false} LimitedHasReason(
    h: Hash, config: Config, logs: seq<Log>, acts: seq<Action>, user: string, i: nat, m: nat)
    requires Trace(h, config, logs, acts) && i <= m < |acts| && IsAttemptOf(acts[m], user, Limited)
    ensures var since := acts[m].Start() - config.windowMinutes * MINUTE;
      config.maxAttempts
        <= |FailedLogins(logs[i].rows, user, since)| + FailedAttempts(acts, user, since, i, m)
  {
    var since := config.Since(acts[m].Start());
    assert ActionAt(h, config, logs, acts, m);
    var n: nat :|
      CountsFailures(logs[m].rows, user, since, n) && (acts[m].result == Limited <==> n >= config.maxAttempts);
    AnswerWithin(logs[m].rows, user, since, n);
    SubsetSize(Possible(logs[m].rows, user, since), FailedLogins(logs[m].rows, user, since));
    FailuresAreAttempts(h, config, logs, acts, user, since, i, m);
  }

  // ---------- More rejected passwords than the limit ----------

  /** The k-th login of one instant: the first succeeds, the others fail. */
  function Instant(user: string, k: nat): Content {
    Content(seq(k, i => 'x'), None, user, LOGIN, "session", None, if k == 0 then SUCCESS else "failure",
      if k == 0 then 200 else 401, Dict([]), 0)
  }

  function InstantHash(h: Hash, user: string, k: nat): Digest {
    if k == 0 then ZEROS else h(InstantHash(h, user, k - 1), Instant(user, k - 1))
  }

  function InstantRow(h: Hash, user: string, k: nat): Row {
    Row(Instant(user, k), Some(k + 1), Some(InstantHash(h, user, k)), Some(InstantHash(h, user, k + 1)))
  }

  /** The table after k of these logins. */
  function InstantLog(h: Hash, user: string, k: nat): Log {
    Log(set i: nat | i < k :: InstantRow(h, user, i), ZEROS, 0)
  }

  lemma InstantTip(h: Hash, user: string, k: nat)
    requires NonEmptyDigests(h)
    ensures IsTip(InstantLog(h, user, k), InstantHash(h, user, k), k)
  {
    var log := InstantLog(h, user, k);
    if k == 0 {
      assert log.rows == {};
    } else {
      var last := InstantRow(h, user, k - 1);
      assert last in log.rows;
      assert IsLast(log, last) && OrZeros(last.entryHash) == InstantHash(h, user, k);
    }
  }

  lemma InstantGrows(h: Hash, user: string, k: nat)
    ensures InstantLog(h, user, k + 1).rows == InstantLog(h, user, k).rows + {InstantRow(h, user, k)}
  {
    forall r | r in InstantLog(h, user, k + 1).rows
      ensures r in InstantLog(h, user, k).rows + {InstantRow(h, user, k)}
    {
      var i: nat :| i < k + 1 && r == InstantRow(h, user, i);
      assert i < k || i == k;
    }
  }

  lemma InstantAppends(h: Hash, user: string, k: nat)
    requires NonEmptyDigests(h)
    ensures Appends(h, InstantLog(h, user, k), Instant(user, k), InstantLog(h, user, k + 1))
  {
    InstantTip(h, user, k);
    InstantGrows(h, user, k);
    assert InstantRow(h, user, k).entryHash == Some(h(InstantHash(h, user, k), Instant(user, k)));
  }

  /** The success may always be read first, so no failure is ever counted. */
  lemma InstantCounts(h: Hash, user: string, since: int, k: nat)
    requires since <= 0
    ensures CountsFailures(InstantLog(h, user, k).rows, user, since, 0)
  {
    var rows := InstantLog(h, user, k).rows;
    var w := Window(rows, user, since);
    if k == 0 {
      assert w == {};
      assert OrderedBy(w, NewerFirst, []);
      assert LeadingFailures([]) == 0;
    } else {
      var success := InstantRow(h, user, 0);
      assert success in w;
      var s := SuccessFirst(w, success);
    }
  }

  function InstantAction(user: string, k: nat): Action {
    Attempt(0, Instant(user, k), if k == 0 then LoggedIn else WrongPassword)
  }

  lemma InstantStep(h: Hash, config: Config, user: string, k: nat)
    requires NonEmptyDigests(h) && config.Valid()
    ensures ActionStep(h, config, InstantLog(h, user, k), InstantAction(user, k), InstantLog(h, user, k + 1))
  {
    InstantCounts(h, user, config.Since(0), k);
    InstantAppends(h, user, k);
  }

  lemma {:induction false} InstantWrongs(acts: seq<Action>, user: string, j: nat)
    requires 1 <= j <= |acts| && forall k :: 0 <= k < |acts| ==> acts[k] == InstantAction(user, k)
    ensures WrongPasswords(acts, user, 1, j) == j - 1
  {
    if j > 1 { InstantWrongs(acts, user, j - 1); }
  }

  /**
   The limit can be exceeded: with a success and the attempts after it at one timestamp, the
   clock never going back, more passwords are rejected within the window than permitted.
   */
  lemma TiesBreakLimit(h: Hash, config: Config, user: string) returns (logs: seq<Log>, acts: seq<Action>)
    requires NonEmptyDigests(h) && config.Valid()
    ensures Trace(h, config, logs, acts) && |acts| == config.maxAttempts + 2
    ensures forall k :: 1 <= k < |acts| ==> !IsAttemptOf(acts[k], user, LoggedIn)
    ensures forall k :: 0 <= k < |acts| ==> acts[k].Start() == acts[k].End() == 0
    ensures WrongPasswords(acts, user, 1, |acts|) == config.maxAttempts + 1
  {
    var n := config.maxAttempts + 2;
    acts := seq(n, k requires 0 <= k < n => InstantAction(user, k));
    logs := seq(n + 1, k requires 0 <= k <= n => InstantLog(h, user, k));
    forall i | 0 <= i < |acts|
      ensures ActionAt(h, config, logs, acts, i)
    {
      InstantStep(h, config, user, i);
    }
    forall i, j | 0 <= i < j < |acts|
      ensures acts[i].content.id != acts[j].content.id
    {
      assert |acts[i].content.id| == i && |acts[j].content.id| == j;
    }
    InstantWrongs(acts, user, n);
  }
}
