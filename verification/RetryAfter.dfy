/**
 parse_retry_after (connectors.py), for the Latin-1 text a header can hold.
 The date form is read by a library; what it answers is passed in.
 */
module RetryAfter {
  import opened Wrappers

  const LIMIT := 86400

  /** int() refuses longer digit strings. */
  const MAX_DIGITS := 4300

  /** The Latin-1 characters str.strip removes. */
  predicate IsSpace(c: char) {
    ('\t' <= c <= '\r') || ('\U{1c}' <= c <= ' ') || c == '\U{85}' || c == '\U{a0}'
  }

  predicate IsDecimal(c: char) {
    '0' <= c <= '9'
  }

  /** str.isdigit also accepts superscripts, which int() does not. */
  predicate IsDigit(c: char) {
    IsDecimal(c) || c == '\U{b2}' || c == '\U{b3}' || c == '\U{b9}'
  }

  function StripLeft(s: string): (r: string)
    ensures r == [] || !IsSpace(r[0])
  {
    if s != [] && IsSpace(s[0]) then StripLeft(s[1..]) else s
  }

  function StripRight(s: string): (r: string)
    ensures r == [] || !IsSpace(r[|r| - 1])
    ensures r != [] ==> s != [] && r[0] == s[0]
  {
    if s != [] && IsSpace(s[|s| - 1]) then StripRight(s[..|s| - 1]) else s
  }

  function Strip(s: string): string {
    StripRight(StripLeft(s))
  }

  predicate AllDigits(s: string) {
    s != [] && forall i :: 0 <= i < |s| ==> IsDigit(s[i])
  }

  predicate AllDecimal(s: string) {
    forall i :: 0 <= i < |s| ==> IsDecimal(s[i])
  }

  function Number(s: string): (n: nat)
    requires AllDecimal(s)
  {
    if s == [] then 0 else 10 * Number(s[..|s| - 1]) + (s[|s| - 1] as int - '0' as int)
  }

  /** How the date reader ends: seconds from now, truncated toward zero, or an exception. */
  type DateAnswer = Option<int>

  datatype ParseError = ValueError

  function Clamp(n: int): int {
    if n < 0 then 0 else if n > LIMIT then LIMIT else n
  }

  function ParseRetryAfter(value: Option<string>, date: DateAnswer): Result<Option<int>, ParseError> {
    if value == None || value.value == [] then Ok(None)
    else
      var text := Strip(value.value);
      if AllDigits(text) then
        if AllDecimal(text) && |text| <= MAX_DIGITS
        then Ok(Some(if Number(text) < LIMIT then Number(text) else LIMIT))
        else Err(ValueError)
      else
        match date
        case None => Ok(None)
        case Some(seconds) => Ok(Some(Clamp(seconds)))
  }

  /** The decimal form of section 10.2.3 of RFC 9110. */
  function Decimal(n: nat): string {
    (if n < 10 then [] else Decimal(n / 10)) + ['0' + (n % 10) as char]
  }

  predicate Blank(s: string) {
    forall i :: 0 <= i < |s| ==> IsSpace(s[i])
  }

  lemma DigitReads(front: string, digit: nat)
    requires digit < 10 && AllDecimal(front)
    ensures var d := front + ['0' + digit as char];
      AllDecimal(d) && Number(d) == 10 * Number(front) + digit
  {
    var d := front + ['0' + digit as char];
    assert d[..|d| - 1] == front;
  }

  lemma {:induction false} DecimalReads(n: nat)
    ensures Decimal(n) != [] && AllDecimal(Decimal(n)) && Number(Decimal(n)) == n
  {
    if n >= 10 {
      DecimalReads(n / 10);
      DigitReads(Decimal(n / 10), n % 10);
    } else {
      DigitReads([], n);
    }
  }

  lemma DecimalsAreDigits(s: string)
    requires s != [] && AllDecimal(s)
    ensures AllDigits(s) && !IsSpace(s[0]) && !IsSpace(s[|s| - 1])
  {
  }

  lemma {:induction false} StripLeftBlank(left: string, s: string)
    requires Blank(left) && s != [] && !IsSpace(s[0])
    ensures StripLeft(left + s) == s
  {
    if left == [] {
      assert left + s == s;
    } else {
      assert (left + s)[1..] == left[1..] + s;
      StripLeftBlank(left[1..], s);
    }
  }

  lemma {:induction false} StripRightBlank(s: string, right: string)
    requires Blank(right) && s != [] && !IsSpace(s[|s| - 1])
    ensures StripRight(s + right) == s
  {
    if right == [] {
      assert s + right == s;
    } else {
      assert (s + right)[..|s + right| - 1] == s + right[..|right| - 1];
      StripRightBlank(s, right[..|right| - 1]);
    }
  }

  /** Seconds written by a server are read back, capped at a day, whatever blanks surround them. */
  lemma SecondsReadBack(left: string, n: nat, right: string, date: DateAnswer)
    requires Blank(left) && Blank(right) && |Decimal(n)| <= MAX_DIGITS
    ensures ParseRetryAfter(Some(left + Decimal(n) + right), date) == Ok(Some(if n < LIMIT then n else LIMIT))
  {
    DecimalReads(n);
    var d := Decimal(n);
    DecimalsAreDigits(d);
    assert left + d + right == left + (d + right);
    StripLeftBlank(left, d + right);
    StripRightBlank(d, right);
  }

  /** What strip leaves lies between blanks, and has none at its ends. */
  lemma {:induction false} StripBetweenBlanks(s: string) returns (left: string, right: string)
    ensures s == left + Strip(s) + right && Blank(left) && Blank(right)
    ensures Strip(s) != [] ==> !IsSpace(Strip(s)[0]) && !IsSpace(Strip(s)[|Strip(s)| - 1])
  {
    left := LeftOf(s);
    right := RightOf(StripLeft(s));
  }

  lemma {:induction false} LeftOf(s: string) returns (left: string)
    ensures s == left + StripLeft(s) && Blank(left)
  {
    left := [];
    if s != [] && IsSpace(s[0]) {
      var rest := LeftOf(s[1..]);
      left := [s[0]] + rest;
    }
  }

  lemma {:induction false} RightOf(s: string) returns (right: string)
    ensures s == StripRight(s) + right && Blank(right)
  {
    right := [];
    if s != [] && IsSpace(s[|s| - 1]) {
      var rest := RightOf(s[..|s| - 1]);
      right := rest + [s[|s| - 1]];
    }
  }

  /**
   Digit strings that int() reads give their number and dates the seconds until then, both within
   a day; an empty header or anything else gives nothing, and the digit strings that int() refuses
   raise.
   */
  lemma RetryAfterExactly(value: Option<string>, date: DateAnswer)
    ensures var r := ParseRetryAfter(value, date);
      var text := if value.Some? then Strip(value.value) else [];
      var digits := AllDigits(text);
      var readable := AllDecimal(text) && |text| <= MAX_DIGITS;
      && (r.Err? <==> digits && !readable)
      && (r == Ok(None) <==> value == None || value == Some([]) || (!digits && date == None))
      && (r.Ok? && r.value.Some? ==>
        var asked := if digits && AllDecimal(text) then Number(text) else date.GetOr(0);
        && 0 <= r.value.value <= 86400 && (r.value.value == asked || asked < 0 || asked > 86400)
        && (asked < 0 ==> r.value.value == 0) && (asked > 86400 ==> r.value.value == 86400))
  {
    if value.Some? && value.value == [] { assert Strip(value.value) == []; }
  }

  /** A superscript two is a digit but not a number: the exception leaves the connector. */
  lemma SuperscriptRaises(date: DateAnswer)
    ensures ParseRetryAfter(Some(['\U{b2}']), date) == Err(ValueError)
  {
    var s := ['\U{b2}'];
    assert StripLeft(s) == s && StripRight(s) == s;
    assert !IsDecimal(s[0]);
  }
}
