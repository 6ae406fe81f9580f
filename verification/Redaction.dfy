/**
 Secret redaction (secrets.py): the loop that replaces every known secret, longest
 first, in every string of a JSON value, and the cipher that learns the secrets.
 */
module Redaction {
  import opened Wrappers
  import opened Orderings

  const REDACTED := "[REDACTED]"
  const REDACTED_WORD := "REDACTED"

  // ---------- Strings ----------

  ghost predicate OccursAt(text: string, pattern: string, i: int) {
    0 <= i <= |text| - |pattern| && text[i..i + |pattern|] == pattern
  }

  ghost predicate Contains(text: string, pattern: string) {
    exists i :: OccursAt(text, pattern, i)
  }

  /** str.replace: non-overlapping occurrences, found from the left. */
  function Replace(text: string, pattern: string, with_: string): string
    requires pattern != ""
    decreases |text|
  {
    if |text| < |pattern| then text
    else if pattern <= text then with_ + Replace(text[|pattern|..], pattern, with_)
    else [text[0]] + Replace(text[1..], pattern, with_)
  }

  // ---------- When a secret cannot be rebuilt from the marker ----------

  ghost predicate Clash(a: string, b: string) {
    a <= b || b <= a
  }

  /** No placement of the secret against the marker makes the two agree where they overlap. */
  ghost predicate Inert(secret: string) {
    && (forall i :: 0 <= i < |secret| ==> !Clash(secret[i..], REDACTED))
    && (forall i :: 0 <= i < |REDACTED| ==> !Clash(REDACTED[i..], secret))
  }

  predicate BracketFree(secret: string) {
    '[' !in secret && ']' !in secret
  }

  lemma SliceOfSlice(s: string, a: int, b: int, i: int, j: int)
    requires 0 <= a <= b <= |s| && 0 <= i <= j <= b - a
    ensures s[a..b][i..j] == s[a + i..a + j]
  {
    var part := s[a..b];
    forall k | 0 <= k < j - i
      ensures part[i..j][k] == s[a + i..a + j][k]
    {
      assert part[i + k] == s[a + i + k];
    }
  }

  /** A secret that reaches the marker's end has its closing bracket. */
  lemma EndClash(secret: string, i: int)
    requires 0 <= i < |REDACTED| && REDACTED[i..] <= secret
    ensures ']' in secret
  {
    var n := |REDACTED| - i;
    assert secret[n - 1] == REDACTED[i..][n - 1] == REDACTED[|REDACTED| - 1];
  }

  /** A secret that starts where the marker starts has its opening bracket. */
  lemma StartClash(secret: string)
    requires secret != "" && secret <= REDACTED
    ensures '[' in secret
  {
    assert secret[0] == REDACTED[0];
  }

  /** A secret inside the marker, after its first character and before its last, lies in its word. */
  lemma InnerClash(secret: string, i: int)
    requires 0 < i && i + |secret| < |REDACTED| && REDACTED[i..i + |secret|] == secret
    ensures Contains(REDACTED_WORD, secret)
  {
    assert REDACTED[1..9] == REDACTED_WORD;
    SliceOfSlice(REDACTED, 1, 9, i - 1, i - 1 + |secret|);
    assert OccursAt(REDACTED_WORD, secret, i - 1);
  }

  /** A bracket-free secret can only agree with the marker inside its word. */
  lemma TailClash(secret: string, i: int)
    requires secret != "" && 0 <= i < |REDACTED| && Clash(REDACTED[i..], secret)
    ensures BracketFree(secret) ==> Contains(REDACTED_WORD, secret)
  {
    if REDACTED[i..] <= secret {
      EndClash(secret, i);
    } else if i == 0 {
      assert REDACTED[0..] == REDACTED;
      StartClash(secret);
    } else {
      SliceOfSlice(REDACTED, i, |REDACTED|, 0, |secret|);
      InnerClash(secret, i);
    }
  }

  lemma HeadClash(secret: string, i: int)
    requires 0 <= i < |secret| && Clash(secret[i..], REDACTED)
    ensures !BracketFree(secret)
  {
    assert secret[i] == secret[i..][0] == REDACTED[0] == '[';
    assert secret[i] in secret;
  }

  lemma {:induction false} BracketFreeInert(secret: string)
    requires secret != "" && BracketFree(secret) && !Contains(REDACTED_WORD, secret)
    ensures Inert(secret)
  {
    forall i | 0 <= i < |secret|
      ensures !Clash(secret[i..], REDACTED)
    {
      if Clash(secret[i..], REDACTED) { HeadClash(secret, i); }
    }
    forall i | 0 <= i < |REDACTED|
      ensures !Clash(REDACTED[i..], secret)
    {
      if Clash(REDACTED[i..], secret) { TailClash(secret, i); }
    }
  }

  // ---------- One replacement ----------

  lemma CommonText(a: string, b: string, text: string)
    requires a <= text && b <= text
    ensures Clash(a, b)
  {
    if |a| <= |b| {
      assert a == text[..|a|] == b[..|a|];
    } else {
      assert b == text[..|b|] == a[..|b|];
    }
  }

  /** A piece of an inert secret at the front of the result was at the front of the text. */
  lemma {:induction false} PrefixSurvives(text: string, pattern: string, secret: string, from: nat)
    requires pattern != "" && Inert(secret) && from <= |secret|
    requires secret[from..] <= Replace(text, pattern, REDACTED)
    ensures secret[from..] <= text
    decreases |text|
  {
    var piece := secret[from..];
    var result := Replace(text, pattern, REDACTED);
    if piece != "" && |text| >= |pattern| {
      if pattern <= text {
        CommonText(piece, REDACTED, result);
      } else {
        assert piece[0] == result[0] == text[0];
        assert result[1..] == Replace(text[1..], pattern, REDACTED);
        assert secret[from + 1..] == piece[1..] <= result[1..];
        PrefixSurvives(text[1..], pattern, secret, from + 1);
        assert piece == [piece[0]] + piece[1..];
      }
    }
  }

  lemma ContainsTail(head: string, tail: string, pattern: string)
    requires Contains(tail, pattern)
    ensures Contains(head + tail, pattern)
  {
    var i :| OccursAt(tail, pattern, i);
    assert (head + tail)[|head| + i..|head| + i + |pattern|] == tail[i..i + |pattern|];
    assert OccursAt(head + tail, pattern, |head| + i);
  }

  lemma OccurrenceInMarker(rest: string, secret: string, i: int)
    requires OccursAt(REDACTED + rest, secret, i) && i < |REDACTED|
    ensures Clash(REDACTED[i..], secret)
  {
    var text := REDACTED + rest;
    assert text[i..] == REDACTED[i..] + rest;
    assert text[i..i + |secret|] == text[i..][..|secret|];
    CommonText(REDACTED[i..], secret, text[i..]);
  }

  /** An inert secret never starts inside a marker. */
  lemma {:induction false} MarkerShields(rest: string, secret: string, i: int)
    requires Inert(secret)
    requires OccursAt(REDACTED + rest, secret, i)
    ensures |REDACTED| <= i && OccursAt(rest, secret, i - |REDACTED|)
  {
    if i < |REDACTED| {
      OccurrenceInMarker(rest, secret, i);
    } else {
      assert (REDACTED + rest)[i..i + |secret|] == rest[i - |REDACTED|..i - |REDACTED| + |secret|];
    }
  }

  /**
   Replacing a pattern creates no occurrence of an inert secret: what the result contains,
   the text contained, and the pattern itself is gone.
   */
  lemma {:induction false} ReplaceCreatesNothing(text: string, pattern: string, secret: string)
    requires pattern != "" && secret != "" && Inert(secret)
    requires Contains(Replace(text, pattern, REDACTED), secret)
    ensures Contains(text, secret) && pattern != secret
    decreases |text|
  {
    var result := Replace(text, pattern, REDACTED);
    var i :| OccursAt(result, secret, i);
    if pattern <= text {
      var rest := text[|pattern|..];
      assert text == text[..|pattern|] + rest;
      MarkerShields(Replace(rest, pattern, REDACTED), secret, i);
      ReplaceCreatesNothing(rest, pattern, secret);
      ContainsTail(text[..|pattern|], rest, secret);
    } else if |text| >= |pattern| {
      if i == 0 {
        assert secret[0..] == secret == result[..|secret|];
        PrefixSurvives(text, pattern, secret, 0);
        assert OccursAt(text, secret, 0);
      } else {
        var rest := text[1..];
        assert text == text[..1] + rest;
        assert result[1..] == Replace(rest, pattern, REDACTED);
        assert result[1..][i - 1..i - 1 + |secret|] == result[i..i + |secret|];
        assert OccursAt(result[1..], secret, i - 1);
        ReplaceCreatesNothing(rest, pattern, secret);
        ContainsTail(text[..1], rest, secret);
      }
    }
  }

  lemma {:induction false} ReplaceAbsent(text: string, pattern: string)
    requires pattern != ""
    ensures Replace(text, pattern, REDACTED) == text || Contains(text, pattern)
    decreases |text|
  {
    if |text| >= |pattern| {
      if pattern <= text {
        assert OccursAt(text, pattern, 0);
      } else {
        assert text == text[..1] + text[1..];
        ReplaceAbsent(text[1..], pattern);
        if Contains(text[1..], pattern) { ContainsTail(text[..1], text[1..], pattern); }
      }
    }
  }

  /** The first occurrence is replaced and the search goes on behind it; what lies before is kept. */
  lemma {:induction false} ReplaceFirst(before: string, pattern: string, rest: string)
    requires pattern != ""
    requires forall i :: 0 <= i < |before| ==> !OccursAt(before + pattern + rest, pattern, i)
    ensures Replace(before + pattern + rest, pattern, REDACTED) == before + REDACTED + Replace(rest, pattern, REDACTED)
    decreases |before|
  {
    var text := before + pattern + rest;
    if before == "" {
      assert text == pattern + rest && text[|pattern|..] == rest;
    } else {
      assert !OccursAt(text, pattern, 0);
      var tail := before[1..];
      assert text[1..] == tail + pattern + rest;
      forall i | 0 <= i < |tail|
        ensures !OccursAt(tail + pattern + rest, pattern, i)
      {
        assert !OccursAt(text, pattern, i + 1);
        assert text[1..][i..i + |pattern|] == text[i + 1..i + 1 + |pattern|];
      }
      ReplaceFirst(tail, pattern, rest);
      assert [before[0]] + tail == before;
    }
  }

  // ---------- All secrets, one string ----------

  /** The body of the loop in redact, with the secrets in the given order. */
  function RedactString(order: seq<string>, text: string): string
    decreases |order|
  {
    if order == [] then text
    else RedactString(order[1..], if order[0] == "" then text else Replace(text, order[0], REDACTED))
  }

  /** The secrets are replaced one after the other, in the order of the list; the empty one is skipped. */
  lemma {:induction false} RedactInTurn(order: seq<string>, last: string, text: string)
    ensures last != "" ==> RedactString(order + [last], text) == Replace(RedactString(order, text), last, REDACTED)
    ensures last == "" ==> RedactString(order + [last], text) == RedactString(order, text)
    decreases |order|
  {
    if order == [] {
      assert order + [last] == [last] && [last][1..] == [];
    } else {
      assert (order + [last])[1..] == order[1..] + [last];
      RedactInTurn(order[1..], last, if order[0] == "" then text else Replace(text, order[0], REDACTED));
    }
  }

  predicate LongerFirst(a: string, b: string) {
    |a| >= |b|
  }

  ghost predicate AllInert(secrets: set<string>) {
    forall s :: s in secrets && s != "" ==> Inert(s)
  }

  ghost predicate CleanString(secrets: set<string>, text: string) {
    forall s :: s in secrets && s != "" ==> !Contains(text, s)
  }

  /** What a redacted string contains was already there, and no secret of the list is left. */
  lemma {:induction false} RedactCreatesNothing(order: seq<string>, text: string, secret: string)
    requires secret != "" && Inert(secret)
    requires Contains(RedactString(order, text), secret)
    ensures Contains(text, secret) && secret !in order
    decreases |order|
  {
    if order != [] {
      var next := if order[0] == "" then text else Replace(text, order[0], REDACTED);
      RedactCreatesNothing(order[1..], next, secret);
      if order[0] != "" {
        ReplaceCreatesNothing(text, order[0], secret);
      }
    }
  }

  lemma {:induction false} RedactAbsent(order: seq<string>, secrets: set<string>, text: string)
    requires CleanString(secrets, text)
    requires forall s :: s in order ==> s in secrets
    ensures RedactString(order, text) == text
    decreases |order|
  {
    if order != [] {
      assert order[0] in order;
      if order[0] != "" {
        ReplaceAbsent(text, order[0]);
      }
      RedactAbsent(order[1..], secrets, text);
    }
  }

  lemma PrefixStaysLeft(left: string, sep: char, right: string, pattern: string)
    requires pattern <= left + [sep] + right
    ensures pattern <= left || sep in pattern
  {
    var text := left + [sep] + right;
    if |pattern| <= |left| {
      assert pattern == text[..|pattern|] == left[..|pattern|];
    } else {
      assert pattern[|left|] == text[|left|] == sep;
    }
  }

  /** A separator that occurs in no secret keeps the two sides apart. */
  lemma Associate(a: string, b: string, c: string, d: string)
    ensures a + (b + c + d) == a + b + c + d
  {
  }

  lemma ReplaceShort(text: string, pattern: string)
    requires pattern != "" && |text| < |pattern|
    ensures Replace(text, pattern, REDACTED) == text
  {
  }

  lemma {:induction false} ReplaceAcross(left: string, sep: char, right: string, pattern: string)
    requires pattern != "" && sep !in pattern
    ensures Replace(left + [sep] + right, pattern, REDACTED)
         == Replace(left, pattern, REDACTED) + [sep] + Replace(right, pattern, REDACTED)
    decreases |left|
  {
    var text := left + [sep] + right;
    if pattern <= text { PrefixStaysLeft(left, sep, right, pattern); }
    if |left| < |pattern| { ReplaceShort(left, pattern); }
    if |text| < |pattern| {
    } else if pattern <= left {
      var rest := left[|pattern|..];
      assert text[|pattern|..] == rest + [sep] + right;
      assert pattern <= text;
      ReplaceAcross(rest, sep, right, pattern);
      Associate(REDACTED, Replace(rest, pattern, REDACTED), [sep], Replace(right, pattern, REDACTED));
    } else if left == "" {
      assert text == [sep] + right && text[1..] == right;
    } else {
      var rest := left[1..];
      assert text[1..] == rest + [sep] + right;
      ReplaceAcross(rest, sep, right, pattern);
      Associate([left[0]], Replace(rest, pattern, REDACTED), [sep], Replace(right, pattern, REDACTED));
      if |left| < |pattern| {
        ReplaceShort(rest, pattern);
        assert [left[0]] + rest == left;
      }
    }
  }

  lemma {:induction false} RedactAcross(order: seq<string>, left: string, sep: char, right: string)
    requires forall s :: s in order ==> sep !in s
    ensures RedactString(order, left + [sep] + right)
         == RedactString(order, left) + [sep] + RedactString(order, right)
    decreases |order|
  {
    if order != [] {
      assert order[0] in order;
      if order[0] == "" {
        RedactAcross(order[1..], left, sep, right);
      } else {
        ReplaceAcross(left, sep, right, order[0]);
        RedactAcross(order[1..], Replace(left, order[0], REDACTED), sep, Replace(right, order[0], REDACTED));
      }
    }
  }

  lemma ContainedInShorter(text: string, pattern: string)
    requires |pattern| >= |text| && Contains(text, pattern)
    ensures pattern == text
  {
    var i :| OccursAt(text, pattern, i);
    assert text[i..i + |pattern|] == text;
  }

  /** Longest first: a whole secret becomes one marker, however many shorter secrets it contains. */
  lemma {:induction false} WholeSecret(order: seq<string>, k: nat)
    requires k < |order| && order[k] != ""
    requires SortedBy(LongerFirst, order)
    requires forall i, j :: 0 <= i < j < |order| ==> order[i] != order[j]
    requires forall j :: k < j < |order| && order[j] != "" ==> !Contains(REDACTED, order[j])
    ensures RedactString(order, order[k]) == REDACTED
    decreases |order|
  {
    var secret := order[k];
    if k == 0 {
      assert Replace(secret, secret, REDACTED) == REDACTED + Replace(secret[|secret|..], secret, REDACTED) == REDACTED;
      var later := set s | s in order[1..];
      assert CleanString(later, REDACTED);
      RedactAbsent(order[1..], later, REDACTED);
    } else {
      assert LongerFirst(order[0], secret);
      if order[0] != "" {
        if Contains(secret, order[0]) { ContainedInShorter(secret, order[0]); }
        ReplaceAbsent(secret, order[0]);
      }
      WholeSecret(order[1..], k - 1);
    }
  }

  // ---------- Nested values ----------

  /** A JSON value; Atom stands for numbers, booleans and null. */
  datatype Json =
    | Str(text: string)
    | List(items: seq<Json>)
    | Dict(entries: seq<(string, Json)>)
    | Atom(value: int)

  function RedactJson(order: seq<string>, value: Json): Json
    decreases value
  {
    match value
    case Str(text) => Str(RedactString(order, text))
    case List(items) => List(seq(|items|, i requires 0 <= i < |items| => RedactJson(order, items[i])))
    case Dict(entries) =>
      Dict(seq(|entries|, i requires 0 <= i < |entries| => (entries[i].0, RedactJson(order, entries[i].1))))
    case Atom(_) => value
  }

  /** The values directly inside a list or dictionary. */
  function Children(value: Json): seq<Json> {
    match value
    case List(items) => items
    case Dict(entries) => seq(|entries|, i requires 0 <= i < |entries| => entries[i].1)
    case _ => []
  }

  /** The value at a path, each step of which is a position in a list or dictionary. */
  function At(value: Json, path: seq<nat>): Option<Json>
    decreases |path|
  {
    if path == [] then Some(value)
    else if path[0] < |Children(value)| then At(Children(value)[path[0]], path[1..])
    else None
  }

  /** The same kind of value: equal numbers, lists of one length, dictionaries with the same keys. */
  predicate SameForm(a: Json, b: Json) {
    match (a, b)
    case (Str(_), Str(_)) => true
    case (List(x), List(y)) => |x| == |y|
    case (Dict(x), Dict(y)) => |x| == |y| && forall i :: 0 <= i < |x| ==> x[i].0 == y[i].0
    case (Atom(x), Atom(y)) => x == y
    case _ => false
  }

  predicate RedactedTo(order: seq<string>, before: Option<Json>, after: Option<Json>) {
    && (before.Some? <==> after.Some?)
    && (before.Some? ==>
      && SameForm(before.value, after.value)
      && (before.value.Str? ==> after.value.text == RedactString(order, before.value.text)))
  }

  /**
   Redaction keeps the structure: the same paths lead to values of the same form, and the string
   at a path is redacted by itself.
   */
  lemma {:induction false} FormKept(order: seq<string>, value: Json, path: seq<nat>)
    ensures RedactedTo(order, At(value, path), At(RedactJson(order, value), path))
    decreases |path|
  {
    var result := RedactJson(order, value);
    assert |Children(result)| == |Children(value)|;
    if path != [] && path[0] < |Children(value)| {
      assert Children(result)[path[0]] == RedactJson(order, Children(value)[path[0]]);
      FormKept(order, Children(value)[path[0]], path[1..]);
    }
  }

  /** No string value (dictionary keys are not values) contains a non-empty secret. */
  ghost predicate Clean(secrets: set<string>, value: Json)
    decreases value
  {
    match value
    case Str(text) => CleanString(secrets, text)
    case List(items) => forall i :: 0 <= i < |items| ==> Clean(secrets, items[i])
    case Dict(entries) => forall i :: 0 <= i < |entries| ==> Clean(secrets, entries[i].1)
    case Atom(_) => true
  }

  /** Redaction is complete. */
  lemma {:induction false} RedactionComplete(order: seq<string>, secrets: set<string>, value: Json)
    requires Lists(secrets, order) && AllInert(secrets)
    ensures Clean(secrets, RedactJson(order, value))
    decreases value
  {
    match value
    case Str(text) =>
      forall s | s in secrets && s != "" && Contains(RedactString(order, text), s)
        ensures false
      {
        RedactCreatesNothing(order, text, s);
      }
    case List(items) =>
      forall i | 0 <= i < |items|
        ensures Clean(secrets, RedactJson(order, items[i]))
      {
        RedactionComplete(order, secrets, items[i]);
      }
    case Dict(entries) =>
      forall i | 0 <= i < |entries|
        ensures Clean(secrets, RedactJson(order, entries[i].1))
      {
        RedactionComplete(order, secrets, entries[i].1);
      }
    case Atom(_) =>
  }

  /** A value without secrets is left alone. */
  lemma {:induction false} CleanUnchanged(order: seq<string>, secrets: set<string>, value: Json)
    requires Clean(secrets, value)
    requires forall s :: s in order ==> s in secrets
    ensures RedactJson(order, value) == value
    decreases value
  {
    match value
    case Str(text) =>
      RedactAbsent(order, secrets, text);
    case List(items) =>
      forall i | 0 <= i < |items|
        ensures RedactJson(order, items[i]) == items[i]
      {
        CleanUnchanged(order, secrets, items[i]);
      }
      assert RedactJson(order, value).items == items;
    case Dict(entries) =>
      forall i | 0 <= i < |entries|
        ensures (entries[i].0, RedactJson(order, entries[i].1)) == entries[i]
      {
        CleanUnchanged(order, secrets, entries[i].1);
      }
      assert RedactJson(order, value).entries == entries;
    case Atom(_) =>
  }

  /** Redacting again, under the same secrets or any part of them, changes nothing. */
  lemma {:induction false} RedactAgain(
    order: seq<string>, secrets: set<string>, later: seq<string>, part: set<string>, value: Json)
    requires Lists(secrets, order) && AllInert(secrets)
    requires Lists(part, later) && part <= secrets
    ensures RedactJson(later, RedactJson(order, value)) == RedactJson(order, value)
  {
    RedactionComplete(order, secrets, value);
    CleanUnchanged(later, secrets, RedactJson(order, value));
  }

  ghost predicate AllBracketFree(secrets: set<string>) {
    forall s :: s in secrets && s != "" ==> BracketFree(s)
  }

  ghost predicate InMarkerWord(secret: string) {
    secret != "" && Contains(REDACTED_WORD, secret)
  }

  lemma AllBracketFreeInert(secrets: set<string>)
    requires AllBracketFree(secrets)
    requires forall s :: s in secrets ==> !InMarkerWord(s)
    ensures AllInert(secrets)
  {
    forall s | s in secrets && s != ""
      ensures Inert(s)
    {
      BracketFreeInert(s);
    }
  }

  lemma InertNotInMarker(secret: string)
    requires secret != "" && BracketFree(secret) && Contains(REDACTED, secret)
    ensures InMarkerWord(secret)
  {
    var i :| OccursAt(REDACTED, secret, i);
    CommonText(REDACTED[i..], secret, REDACTED[i..]);
    TailClash(secret, i);
  }

  lemma LastInMarkerWord(order: seq<string>) returns (k: nat)
    requires exists i :: 0 <= i < |order| && InMarkerWord(order[i])
    ensures k < |order| && InMarkerWord(order[k])
    ensures forall j :: k < j < |order| ==> !InMarkerWord(order[j])
  {
    k := |order| - 1;
    while !InMarkerWord(order[k])
      invariant 0 <= k < |order|
      invariant forall j :: k < j < |order| ==> !InMarkerWord(order[j])
      decreases k
    {
      var i :| 0 <= i < |order| && InMarkerWord(order[i]);
      assert i < k;
      k := k - 1;
    }
  }

  ghost predicate RedactsCleanly(order: seq<string>, secrets: set<string>, value: Json) {
    Clean(secrets, RedactJson(order, value))
  }

  lemma WordInMarker(secret: string)
    requires InMarkerWord(secret)
    ensures Contains(REDACTED, secret)
  {
    var i :| OccursAt(REDACTED_WORD, secret, i);
    assert REDACTED[i + 1..i + 1 + |secret|] == REDACTED_WORD[i..i + |secret|];
    assert OccursAt(REDACTED, secret, i + 1);
  }

  lemma MarkerLeft(order: seq<string>, k: nat)
    requires k < |order| && InMarkerWord(order[k])
    requires SortedBy(LongerFirst, order)
    requires forall i, j :: 0 <= i < j < |order| ==> order[i] != order[j]
    requires forall j :: 0 <= j < |order| && order[j] != "" ==> BracketFree(order[j])
    requires forall j :: k < j < |order| ==> !InMarkerWord(order[j])
    ensures Contains(RedactString(order, order[k]), order[k])
  {
    forall j | k < j < |order| && order[j] != ""
      ensures !Contains(REDACTED, order[j])
    {
      if Contains(REDACTED, order[j]) { InertNotInMarker(order[j]); }
    }
    WholeSecret(order, k);
    WordInMarker(order[k]);
  }

  /** A secret out of the marker's own word shows up in its own redaction. */
  lemma {:induction false} MarkerWordLeaks(
      order: seq<string>, secrets: set<string>, bad: string)
      returns (secret: string)
    requires OrderedBy(secrets, LongerFirst, order) && AllBracketFree(secrets)
    requires bad in secrets && InMarkerWord(bad)
    ensures secret in secrets && secret != "" && Contains(RedactString(order, secret), secret)
  {
    assert bad in order;
    forall j | 0 <= j < |order| && order[j] != ""
      ensures BracketFree(order[j])
    {
      assert order[j] in order;
    }
    var k := LastInMarkerWord(order);
    MarkerLeft(order, k);
    secret := order[k];
    assert secret in order;
  }

  /**
   For secrets without brackets, redaction is complete on every value exactly when no
   secret is a piece of the word the marker is made of.
   */
  lemma {:induction false} CompleteExactly(order: seq<string>, secrets: set<string>)
    requires OrderedBy(secrets, LongerFirst, order) && AllBracketFree(secrets)
    ensures (forall value :: RedactsCleanly(order, secrets, value))
       <==> (forall s :: s in secrets ==> !InMarkerWord(s))
  {
    if forall s :: s in secrets ==> !InMarkerWord(s) {
      AllBracketFreeInert(secrets);
      forall value
        ensures RedactsCleanly(order, secrets, value)
      {
        RedactionComplete(order, secrets, value);
      }
    } else {
      var bad :| bad in secrets && InMarkerWord(bad);
      var secret := MarkerWordLeaks(order, secrets, bad);
      assert !RedactsCleanly(order, secrets, Str(secret));
    }
  }

  /** With a bracket the guarantee can fail: replacing "a" here builds the other secret. */
  lemma BracketSecretRebuilt()
    ensures RedactString(["]x", "a"], "ax") == "[REDACTED]x"
    ensures Contains("[REDACTED]x", "]x")
  {
    assert Replace("ax", "]x", REDACTED) == "ax" by {
      assert Replace("x", "]x", REDACTED) == "x";
    }
    assert "ax"[1..] == "x";
    assert Replace("ax", "a", REDACTED) == REDACTED + Replace("x", "a", REDACTED) == "[REDACTED]x";
    assert ["]x", "a"][1..] == ["a"];
    assert "[REDACTED]x"[9..11] == "]x";
    assert OccursAt("[REDACTED]x", "]x", 9);
  }

  lemma {:induction false} EmbeddedInText(
    order: seq<string>, secrets: set<string>, left: string, before: char, secret: string, after: char, right: string)
    requires OrderedBy(secrets, LongerFirst, order) && AllInert(secrets)
    requires secret in secrets && secret != ""
    requires forall s :: s in secrets ==> before !in s && after !in s
    ensures RedactString(order, left + [before] + secret + [after] + right)
         == RedactString(order, left) + [before] + REDACTED + [after] + RedactString(order, right)
  {
    assert secret in order;
    var k :| 0 <= k < |order| && order[k] == secret;
    forall j | k < j < |order| && order[j] != ""
      ensures !Contains(REDACTED, order[j])
    {
      assert order[j] in order;
      if Contains(REDACTED, order[j]) {
        var i :| OccursAt(REDACTED, order[j], i);
        CommonText(REDACTED[i..], order[j], REDACTED[i..]);
      }
    }
    WholeSecret(order, k);
    RedactAcross(order, left + [before] + secret, after, right);
    RedactAcross(order, left, before, secret);
  }

  /**
   A known secret between separators, in a string anywhere in a nested value, becomes the marker,
   and the rest of that string is redacted on its own.
   */
  lemma {:induction false} EmbeddedSecret(
    order: seq<string>, secrets: set<string>, value: Json, path: seq<nat>,
    left: string, before: char, secret: string, after: char, right: string)
    requires OrderedBy(secrets, LongerFirst, order) && AllInert(secrets)
    requires secret in secrets && secret != ""
    requires forall s :: s in secrets ==> before !in s && after !in s
    requires At(value, path) == Some(Str(left + [before] + secret + [after] + right))
    ensures At(RedactJson(order, value), path)
      == Some(Str(RedactString(order, left) + [before] + REDACTED + [after] + RedactString(order, right)))
  {
    FormKept(order, value, path);
    EmbeddedInText(order, secrets, left, before, secret, after, right);
  }

  // ---------- The cipher ----------

  const ENCRYPTED_PREFIX := "enc:v1:"

  /**
   A stored secret. Sealed is the result of encryption under one of the keys: the
   cryptography is idealised, a token opens under its own key and no other.
   */
  datatype Stored = Raw(text: string) | Sealed(key: int, text: string)

  datatype SecretError = KeyMissing | NotEncrypted | InvalidToken

  class SecretCipher {
    const keys: seq<int>
    var known: set<string>

    constructor (keys: seq<int>)
      ensures this.keys == keys && known == {}
    {
      this.keys := keys;
      known := {};
    }

    static predicate IsEncrypted(value: Stored) {
      value.Sealed? || ENCRYPTED_PREFIX <= value.text
    }

    ghost predicate Opens(value: Stored) {
      value.Sealed? && value.key in keys
    }

    method Encrypt(value: Option<string>) returns (r: Result<Option<Stored>, SecretError>)
      modifies this
      ensures value == None ==> r == Ok(None) && known == old(known)
      ensures value.Some? && keys == [] ==> r == Err(KeyMissing) && known == old(known)
      ensures value.Some? && keys != [] ==>
        r == Ok(Some(Sealed(keys[0], value.value))) && known == old(known) + {value.value}
    {
      if value == None { return Ok(None); }
      if keys == [] { return Err(KeyMissing); }
      known := known + {value.value};
      r := Ok(Some(Sealed(keys[0], value.value)));
    }

    method Decrypt(value: Option<Stored>) returns (r: Result<Option<string>, SecretError>)
      modifies this
      ensures value == None ==> r == Ok(None)
      ensures value.Some? ==> (r.Ok? <==> Opens(value.value))
      ensures value.Some? && r.Ok? ==> r.value == Some(value.value.text) && known == old(known) + {value.value.text}
      ensures value == None || r.Err? ==> known == old(known)
      ensures r == Err(NotEncrypted) <==> value.Some? && value.value.Raw? && !(ENCRYPTED_PREFIX <= value.value.text)
      ensures r == Err(KeyMissing) <==>
        keys == [] && value.Some? && (value.value.Sealed? || ENCRYPTED_PREFIX <= value.value.text)
    {
      if value == None { return Ok(None); }
      var stored := value.value;
      if !IsEncrypted(stored) { return Err(NotEncrypted); }
      if keys == [] { return Err(KeyMissing); }
      if stored.Raw? || stored.key !in keys { return Err(InvalidToken); }
      known := known + {stored.text};
      r := Ok(Some(stored.text));
    }

    /** Afterwards the primary key alone opens the secret, and redaction knows its text. */
    method MigrateOrRotate(value: Stored) returns (r: Result<Stored, SecretError>)
      modifies this
      ensures r.Ok? <==>
        && keys != []
        && ((value.Raw? && !(ENCRYPTED_PREFIX <= value.text)) || (value.Sealed? && value.key in keys))
      ensures r.Ok? ==> r.value == Sealed(keys[0], value.text) && known == old(known) + {value.text}
      ensures r.Err? ==> known == old(known)
    {
      if keys == [] { return Err(KeyMissing); }
      if !IsEncrypted(value) {
        var sealed := Encrypt(Some(value.text));
        return Ok(sealed.value.value);
      }
      if value.Raw? { return Err(InvalidToken); }
      if value.key == keys[0] {
        known := known + {value.text};
        return Ok(value);
      }
      if value.key !in keys { return Err(InvalidToken); }
      known := known + {value.text};
      r := Ok(Sealed(keys[0], value.text));
    }

    method Redact(value: Json) returns (r: Json)
      ensures exists order :: OrderedBy(known, LongerFirst, order) && r == RedactJson(order, value)
      ensures AllInert(known) ==> Clean(known, r)
    {
      var order := Select(known, LongerFirst);
      r := RedactWith(order, value);
      if AllInert(known) {
        RedactionComplete(order, known, value);
      }
    }

    static method RedactWith(order: seq<string>, value: Json) returns (r: Json)
      ensures r == RedactJson(order, value)
      decreases value
    {
      match value
      case Str(text) =>
        var redacted := text;
        var i := 0;
        while i < |order|
          invariant 0 <= i <= |order|
          invariant RedactString(order[i..], redacted) == RedactString(order, text)
        {
          assert order[i..][1..] == order[i + 1..];
          if order[i] != "" {
            redacted := Replace(redacted, order[i], REDACTED);
          }
          i := i + 1;
        }
        r := Str(redacted);
      case List(items) =>
        var done := [];
        while |done| < |items|
          invariant |done| <= |items|
          invariant forall k :: 0 <= k < |done| ==> done[k] == RedactJson(order, items[k])
        {
          var item := RedactWith(order, items[|done|]);
          done := done + [item];
        }
        r := List(done);
      case Dict(entries) =>
        var done := [];
        while |done| < |entries|
          invariant |done| <= |entries|
          invariant forall k :: 0 <= k < |done| ==> done[k] == (entries[k].0, RedactJson(order, entries[k].1))
        {
          var item := RedactWith(order, entries[|done|].1);
          done := done + [(entries[|done|].0, item)];
        }
        r := Dict(done);
      case Atom(_) =>
        r := value;
    }
  }
}
