/**
 * The comment markers in which the orchestrator keeps its retry counts: printed by
 * `_maybe_retry_child`, found again by searching with `RETRY_MARKER_PATTERN`.
 */
module RetryMarker {
  import opened Options

  const OPENING := "<!-- retry:"
  const CLOSING := " -->"

  predicate IsDigit(c: char) {
    '0' <= c <= '9'
  }

  /** `n` in decimal, without leading zeros. */
  function Decimal(n: nat): (s: string)
    ensures s != [] && forall c :: c in s ==> IsDigit(c)
  {
    if n < 10 then [(n as char) + '0'] else Decimal(n / 10) + [((n % 10) as char) + '0']
  }

  /** The number a run of digits stands for. */
  function Parse(s: string): nat
    requires forall c :: c in s ==> IsDigit(c)
  {
    if s == [] then 0
    else
      var last := s[|s| - 1];
      assert IsDigit(last) by { assert last in s; }
      10 * Parse(s[..|s| - 1]) + (last - '0') as int
  }

  function Marker(n: nat): string {
    OPENING + Decimal(n) + CLOSING
  }

  /** The comment that records a retry. */
  function RetryComment(n: nat): string {
    Marker(n) + " Orchestrator auto-retry: resetting to todo"
  }

  lemma RetryCommentText(n: nat)
    ensures RetryComment(n) ==
      "<!-- retry:" + Decimal(n) + " -->" + " Orchestrator auto-retry: resetting to todo"
  {
  }

  /** The length of the longest run of digits `s` starts with. */
  function DigitRun(s: string): (k: nat)
    ensures k <= |s| && forall c :: c in s[..k] ==> IsDigit(c)
  {
    if s == [] || !IsDigit(s[0]) then 0
    else
      assert s[..1 + DigitRun(s[1..])] == [s[0]] + s[1..][..DigitRun(s[1..])];
      1 + DigitRun(s[1..])
  }

  /** The number of the marker `s` starts with, if it starts with one. */
  function MatchHere(s: string): Option<nat> {
    if !(OPENING <= s) then None
    else
      var rest := s[|OPENING|..];
      var k := DigitRun(rest);
      if k > 0 && CLOSING <= rest[k..] then Some(Parse(rest[..k])) else None
  }

  /** The number of the first marker in `s`. */
  function Search(s: string): Option<nat> {
    if MatchHere(s).Some? then MatchHere(s)
    else if s == [] then None
    else Search(s[1..])
  }

  /** At position `i` stands a marker with these digits. */
  ghost predicate MarkerAt(s: string, i: nat, digits: string) {
    && digits != [] && (forall c :: c in digits ==> IsDigit(c))
    && i <= |s| && OPENING + digits + CLOSING <= s[i..]
  }

  lemma Pieces(a: string, b: string, c: string, d: string)
    ensures a + b + c + d == a + (b + (c + d))
    ensures a <= a + (b + (c + d)) && (a + (b + (c + d)))[|a|..] == b + (c + d)
    ensures (b + (c + d))[..|b|] == b && (b + (c + d))[|b|..] == c + d && c <= c + d
  {
  }

  /** A marker at the beginning of a text is what is matched there. */
  lemma MarkerIsMatched(s: string, digits: string)
    requires MarkerAt(s, 0, digits)
    ensures MatchHere(s) == Some(Parse(digits))
  {
    hide Parse, IsDigit, DigitRun;
    var more := s[|OPENING + digits + CLOSING|..];
    assert s[0..] == s && s == OPENING + digits + CLOSING + more;
    Pieces(OPENING, digits, CLOSING, more);
    ClosingIsNoDigit(more);
    RunOfDigits(digits, CLOSING + more);
  }

  lemma ClosingIsNoDigit(more: string)
    ensures CLOSING + more != [] && !IsDigit((CLOSING + more)[0])
  {
    assert (CLOSING + more)[0] == CLOSING[0] == ' ';
  }

  /** What is matched at the beginning of a text is a marker. */
  lemma MatchedIsMarker(s: string) returns (digits: string)
    requires MatchHere(s).Some?
    ensures MarkerAt(s, 0, digits)
  {
    hide Parse, IsDigit, DigitRun;
    var rest := s[|OPENING|..];
    var k := DigitRun(rest);
    digits := rest[..k];
    var more := rest[k..][|CLOSING|..];
    assert s[0..] == s && s == OPENING + rest && rest == digits + rest[k..] && rest[k..] == CLOSING + more;
    Pieces(OPENING, digits, CLOSING, more);
  }

  /** The search finds the number of the first marker in the text, and nothing only if there is none. */
  lemma {:induction false} SearchMeaning(s: string) returns (i: nat, digits: string)
    ensures Search(s).None? ==> forall j: nat, d :: !MarkerAt(s, j, d)
    ensures Search(s).Some? ==>
      && MarkerAt(s, i, digits) && Search(s) == Some(Parse(digits))
      && forall j: nat, d :: j < i ==> !MarkerAt(s, j, d)
  {
    hide Parse, IsDigit, MatchHere, DigitRun;
    i, digits := 0, [];
    if MatchHere(s).Some? {
      digits := MatchedIsMarker(s);
      MarkerIsMatched(s, digits);
    } else {
      forall d
        ensures !MarkerAt(s, 0, d)
      {
        if MarkerAt(s, 0, d) {
          MarkerIsMatched(s, d);
        }
      }
      if s != [] {
        i, digits := SearchMeaning(s[1..]);
        forall j: nat, d | j > 0
          ensures MarkerAt(s, j, d) <==> MarkerAt(s[1..], j - 1, d)
        {
          MarkerShifts(s, j, d);
        }
        i := i + 1;
      }
    }
  }

  lemma MarkerShifts(s: string, j: nat, digits: string)
    requires s != [] && j > 0
    ensures MarkerAt(s, j, digits) <==> MarkerAt(s[1..], j - 1, digits)
  {
    assert j <= |s| ==> s[j..] == s[1..][j - 1..];
  }

  lemma {:induction false} ParseDecimal(n: nat)
    ensures Parse(Decimal(n)) == n
  {
    if n >= 10 {
      ParseDecimal(n / 10);
      assert Decimal(n)[..|Decimal(n)| - 1] == Decimal(n / 10);
    } else {
      assert Decimal(n)[..0] == [];
    }
  }

  /** Both ways, the base is ten. */
  lemma TwelveHundred()
    ensures Decimal(1203) == "1203" && Parse("1203") == 1203
  {
    assert Decimal(1) == "1" && Decimal(12) == "12" && Decimal(120) == "120";
    ParseDecimal(1203);
  }

  lemma {:induction false} RunOfDigits(digits: string, rest: string)
    requires forall c :: c in digits ==> IsDigit(c)
    requires rest != [] && !IsDigit(rest[0])
    ensures DigitRun(digits + rest) == |digits|
  {
    if digits == [] {
      assert digits + rest == rest;
    } else {
      RunOfDigits(digits[1..], rest);
      assert (digits + rest)[1..] == digits[1..] + rest;
    }
  }

  /** What was printed is read back, whatever text follows. */
  lemma SearchFindsPrinted(n: nat, suffix: string)
    ensures Search(Marker(n) + suffix) == Some(n)
  {
    var s := Marker(n) + suffix;
    var digits, rest := Decimal(n), CLOSING + suffix;
    assert s == OPENING + (digits + rest);
    assert s[|OPENING|..] == digits + rest;
    assert rest[0] == ' ';
    RunOfDigits(digits, rest);
    assert (digits + rest)[..|digits|] == digits && (digits + rest)[|digits|..] == rest;
    ParseDecimal(n);
  }

  /** A marker begins with `<`: text without one holds no marker. */
  lemma {:induction false} NoMarkerWithoutAngle(s: string)
    requires '<' !in s
    ensures Search(s) == None
  {
    assert OPENING[0] == '<';
    if s != [] {
      NoMarkerWithoutAngle(s[1..]);
    }
  }

  const REBALANCE_TEXT := " --> " + ("Rebalanced from overloaded" + " agent to idle agent.")

  /** The comment that records a move from agent `id`. */
  function RebalanceComment(id: string): string {
    "<!-- rebalanced-from:" + id + REBALANCE_TEXT
  }

  lemma RebalanceCommentText(id: string)
    ensures RebalanceComment(id) ==
      "<!-- rebalanced-from:" + id + (" --> " + ("Rebalanced from overloaded" + " agent to idle agent."))
  {
  }

  /** Moving a task does not look like retrying it, for agent ids without `<`. */
  lemma RebalanceIsNoRetry(id: string)
    requires '<' !in id
    ensures Search(RebalanceComment(id)) == None
  {
    hide Search, IsDigit;
    TextHasNoAngle();
    assert forall c :: c in id + REBALANCE_TEXT ==> c in id || c in REBALANCE_TEXT;
    assert RebalanceComment(id) == "<!-- rebalanced-from:" + (id + REBALANCE_TEXT);
    NoRetryAfterThis(id + REBALANCE_TEXT);
  }

  /** The opening of a move differs from that of a retry. */
  lemma NoRetryAfterThis(text: string)
    requires '<' !in text
    ensures Search("<!-- rebalanced-from:" + text) == None
  {
    hide Parse, DigitRun;
    var opening := "<!-- rebalanced-from:";
    var s := opening + text;
    assert s[7] == opening[7] == 'b' && OPENING[7] == 't';
    assert s[1..] == opening[1..] + text;
    forall k | 0 <= k < |s[1..]|
      ensures s[1..][k] != '<'
    {
      if k < |opening| - 1 {
        NoAngleBehindTheFirst(k);
      } else {
        assert s[1..][k] == text[k - (|opening| - 1)];
      }
    }
    NoMarkerWithoutAngle(s[1..]);
  }

  lemma NoAngleBehindTheFirst(k: nat)
    requires k < 20
    ensures "!-- rebalanced-from:"[k] != '<' && "<!-- rebalanced-from:"[1..] == "!-- rebalanced-from:"
  {
  }

  lemma TextHasNoAngle()
    ensures '<' !in REBALANCE_TEXT
  {
    assert '<' !in " --> ";
    assert '<' !in "Rebalanced from overloaded";
    assert '<' !in " agent to idle agent.";
  }

  /** The highest retry number among the comments, 0 without any. */
  function HighestRetry(comments: seq<string>): nat {
    if comments == [] then 0
    else
      var before := HighestRetry(comments[..|comments| - 1]);
      var found := Search(comments[|comments| - 1]);
      if found.Some? && found.value > before then found.value else before
  }

  method CountRetries(comments: seq<string>) returns (count: nat)
    ensures count == HighestRetry(comments)
  {
    count := 0;
    for i := 0 to |comments|
      invariant count == HighestRetry(comments[..i])
    {
      assert comments[..i + 1][..i] == comments[..i];
      var found := Search(comments[i]);
      if found.Some? {
        count := if found.value > count then found.value else count;
      }
    }
    assert comments[..|comments|] == comments;
  }

  /** `HighestRetry` bounds every number found, and is one of them unless it is 0. */
  lemma {:induction false} HighestRetryIsMaximum(comments: seq<string>)
    ensures forall i :: 0 <= i < |comments| && Search(comments[i]).Some? ==>
      Search(comments[i]).value <= HighestRetry(comments)
    ensures HighestRetry(comments) > 0 ==>
      exists i :: 0 <= i < |comments| && Search(comments[i]) == Some(HighestRetry(comments))
  {
    if comments != [] {
      HighestRetryIsMaximum(comments[..|comments| - 1]);
    }
  }

  /** A retry numbered one above the count raises the count to that number. */
  lemma RetryRaisesCount(comments: seq<string>)
    ensures HighestRetry(comments + [RetryComment(HighestRetry(comments) + 1)]) == HighestRetry(comments) + 1
  {
    var count := HighestRetry(comments);
    SearchFindsPrinted(count + 1, " Orchestrator auto-retry: resetting to todo");
    assert (comments + [RetryComment(count + 1)])[..|comments|] == comments;
  }

  /** New comments never lower the count; without a marker they leave it. */
  lemma {:induction false} CommentsKeepCount(comments: seq<string>, more: seq<string>)
    ensures HighestRetry(comments + more) >= HighestRetry(comments)
    ensures (forall i :: 0 <= i < |more| ==> Search(more[i]) == None) ==>
      HighestRetry(comments + more) == HighestRetry(comments)
  {
    if more == [] {
      assert comments + more == comments;
    } else {
      CommentsKeepCount(comments, more[..|more| - 1]);
      assert (comments + more)[..|comments + more| - 1] == comments + more[..|more| - 1];
    }
  }
}
