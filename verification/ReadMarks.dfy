/**
 * Read marks of agents/message_store.py: the readers of a message are stored as printed JSON text
 * and searched with SQL `LIKE`.
 */
module ReadMarks {
  /** The characters of agent names: lower-case letters, digits, hyphen and underscore. */
  predicate NameChar(c: char) {
    'a' <= c <= 'z' || '0' <= c <= '9' || c == '-' || c == '_'
  }

  predicate IsName(name: string) {
    forall k :: 0 <= k < |name| ==> NameChar(name[k])
  }

  predicate AllNames(names: seq<string>) {
    forall k :: 0 <= k < |names| ==> IsName(names[k])
  }

  function Quoted(name: string): string {
    "\"" + name + "\""
  }

  /** The printed list after its opening bracket. */
  function Items(names: seq<string>): string {
    if names == [] then "]"
    else if |names| == 1 then Quoted(names[0]) + "]"
    else Quoted(names[0]) + ", " + Items(names[1..])
  }

  /** `json.dumps` of a list of names, which need no escapes. */
  function Print(names: seq<string>): string {
    "[" + Items(names)
  }

  function Lower(c: char): char {
    if 'A' <= c <= 'Z' then (c as int + 32) as char else c
  }

  lemma LowerMeaning(i: nat)
    requires i < 26
    ensures Lower("ABCDEFGHIJKLMNOPQRSTUVWXYZ"[i]) == "abcdefghijklmnopqrstuvwxyz"[i]
    ensures Lower("abcdefghijklmnopqrstuvwxyz"[i]) == "abcdefghijklmnopqrstuvwxyz"[i]
  {
  }

  /** One pattern character other than `%` against one character of the text; letters match in either case. */
  predicate Matches(p: char, c: char) {
    p == '_' || Lower(p) == Lower(c)
  }

  /** SQL `LIKE` as SQLite has it, without an escape character. */
  predicate Like(pattern: string, text: string)
    decreases |pattern| + |text|
  {
    if pattern == [] then text == []
    else if pattern[0] == '%' then Like(pattern[1..], text) || (text != [] && Like(pattern, text[1..]))
    else text != [] && Matches(pattern[0], text[0]) && Like(pattern[1..], text[1..])
  }

  /** The pattern `get_unread` searches for. */
  function ReaderPattern(agent: string): string {
    "%" + (Quoted(agent) + "%")
  }

  /** The pattern `p`, free of `%`, fits the text at position `i`. */
  ghost predicate FitsAt(p: string, text: string, i: nat) {
    i + |p| <= |text| && forall k :: 0 <= k < |p| ==> Matches(p[k], text[i + k])
  }

  lemma {:induction false} AnythingMatches(text: string)
    ensures Like("%", text)
  {
    if text != [] {
      AnythingMatches(text[1..]);
    }
  }

  lemma {:induction false} LikePrefix(p: string, text: string)
    requires '%' !in p
    ensures Like(p + "%", text) <==> FitsAt(p, text, 0)
  {
    if p == [] {
      assert p + "%" == "%";
      AnythingMatches(text);
    } else {
      assert (p + "%")[0] == p[0] && (p + "%")[1..] == p[1..] + "%";
      assert p[0] in p;
      if text != [] {
        LikePrefix(p[1..], text[1..]);
        if FitsAt(p[1..], text[1..], 0) && Matches(p[0], text[0]) {
          forall k | 0 <= k < |p|
            ensures Matches(p[k], text[k])
          {
            assert k > 0 ==> p[k] == p[1..][k - 1] && text[k] == text[1..][0 + (k - 1)];
          }
        }
      }
    }
  }

  /** `%p%` finds `p` wherever it fits. */
  lemma {:induction false} LikeFindsFit(p: string, text: string)
    requires '%' !in p
    ensures Like("%" + (p + "%"), text) <==> exists i :: 0 <= i <= |text| && FitsAt(p, text, i)
    decreases |text|
  {
    var pattern := "%" + (p + "%");
    assert pattern[0] == '%' && pattern[1..] == p + "%";
    LikePrefix(p, text);
    if text != [] {
      LikeFindsFit(p, text[1..]);
      if i :| 0 <= i <= |text[1..]| && FitsAt(p, text[1..], i) {
        FitShifts(p, text, i + 1);
      }
      if i :| 0 <= i <= |text| && FitsAt(p, text, i) {
        if i > 0 {
          FitShifts(p, text, i);
        }
      }
    }
  }

  lemma FitShifts(p: string, text: string, i: nat)
    requires text != [] && i >= 1
    ensures FitsAt(p, text, i) <==> FitsAt(p, text[1..], i - 1)
  {
  }

  /** The agent's name fits another character by character, `_` standing for any. */
  ghost predicate NamesFit(agent: string, name: string) {
    |agent| == |name| && forall k :: 0 <= k < |agent| ==> Matches(agent[k], name[k])
  }

  /** What a quoted name without `_` fits: quotes where its quotes are, name characters in between. */
  lemma FitKeepsQuotes(agent: string, text: string, i: nat)
    requires IsName(agent) && '_' !in agent && FitsAt(Quoted(agent), text, i)
    ensures text[i] == text[i + |agent| + 1] == '"'
    ensures forall k :: i < k <= i + |agent| ==> NameChar(Lower(text[k]))
  {
    var q := Quoted(agent);
    assert Matches(q[0], text[i + 0]) && Matches(q[|agent| + 1], text[i + (|agent| + 1)]);
    forall k | i < k <= i + |agent|
      ensures NameChar(Lower(text[k]))
    {
      assert Matches(q[k - i], text[i + (k - i)]) && q[k - i] == agent[k - i - 1] && agent[k - i - 1] in agent;
    }
  }

  lemma FirstNameFits(agent: string, name: string, rest: string)
    requires IsName(agent) && '_' !in agent && IsName(name) && FitsAt(Quoted(agent), "\"" + name + "\"" + rest, 0)
    ensures NamesFit(agent, name)
  {
    var q, text := Quoted(agent), "\"" + name + "\"" + rest;
    FitKeepsQuotes(agent, text, 0);
    assert text[|name| + 1] == '"';
    assert forall k :: 1 <= k <= |name| ==> text[k] == name[k - 1];
    forall k | 0 <= k < |agent|
      ensures Matches(agent[k], name[k])
    {
      assert Matches(q[k + 1], text[0 + (k + 1)]);
    }
  }

  /** Within a name there is no opening quote, and after its closing one comes no name character. */
  lemma NoFitAcrossNames(agent: string, name: string, rest: string, i: nat)
    requires IsName(agent) && '_' !in agent && IsName(name) && rest != [] && (rest == "]" || ", " <= rest)
    requires FitsAt(Quoted(agent), "\"" + name + "\"" + rest, i)
    ensures i == 0 || i >= |name| + 4
  {
    var text := "\"" + name + "\"" + rest;
    FitKeepsQuotes(agent, text, i);
    assert forall k :: 1 <= k <= |name| ==> text[k] == name[k - 1];
    assert text[|name| + 2] == rest[0];
  }

  /** A quoted name without `_` fits the text of a list only where a quoted name stands, not across two of them. */
  lemma {:induction false} FitIsWholeName(agent: string, names: seq<string>, i: nat) returns (j: nat)
    requires IsName(agent) && '_' !in agent && AllNames(names) && FitsAt(Quoted(agent), Items(names), i)
    ensures j < |names| && NamesFit(agent, names[j])
    decreases |names|
  {
    hide IsName;
    var q, text := Quoted(agent), Items(names);
    var name := names[0];
    var rest := if |names| == 1 then "]" else ", " + Items(names[1..]);
    assert text == "\"" + name + "\"" + rest;
    j := 0;
    NoFitAcrossNames(agent, name, rest, i);
    if i == 0 {
      FirstNameFits(agent, name, rest);
    } else {
      var at := i - (|name| + 4);
      forall k | 0 <= k < |q|
        ensures Matches(q[k], Items(names[1..])[at + k])
      {
        assert Items(names[1..])[at + k] == text[i + k];
      }
      j := FitIsWholeName(agent, names[1..], at);
      j := j + 1;
    }
  }

  lemma {:induction false} WholeNameFits(agent: string, names: seq<string>, j: nat) returns (i: nat)
    requires j < |names| && NamesFit(agent, names[j])
    ensures i <= |Items(names)| && FitsAt(Quoted(agent), Items(names), i)
    decreases |names|
  {
    var q, text := Quoted(agent), Items(names);
    var name := names[0];
    var rest := if |names| == 1 then "]" else ", " + Items(names[1..]);
    assert text == "\"" + name + "\"" + rest;
    if j == 0 {
      i := 0;
      forall k | 0 <= k < |q|
        ensures Matches(q[k], text[0 + k])
      {
        assert 0 < k <= |agent| ==> q[k] == agent[k - 1] && text[k] == name[k - 1];
      }
    } else {
      var at := WholeNameFits(agent, names[1..], j - 1);
      i := at + |name| + 4;
      forall k | 0 <= k < |q|
        ensures Matches(q[k], text[i + k])
      {
        assert text[i + k] == rest[at + 2 + k] == Items(names[1..])[at + k];
      }
    }
  }

  /** Whoever the agent's name fits, taking `_` for any character, is found. */
  lemma FittingIsFound(agent: string, names: seq<string>, j: nat)
    requires IsName(agent) && j < |names| && NamesFit(agent, names[j])
    ensures Like(ReaderPattern(agent), Print(names))
  {
    var q, text := Quoted(agent), Print(names);
    NoPercent(agent);
    LikeFindsFit(q, text);
    assert text[1..] == Items(names);
    var i := WholeNameFits(agent, names, j);
    FitShifts(q, text, i + 1);
  }

  /** Without `_` in the name nobody else is found, not even across the quotes of two names. */
  lemma FoundIsFitting(agent: string, names: seq<string>) returns (j: nat)
    requires IsName(agent) && '_' !in agent && AllNames(names) && Like(ReaderPattern(agent), Print(names))
    ensures j < |names| && NamesFit(agent, names[j])
  {
    var q, text := Quoted(agent), Print(names);
    NoPercent(agent);
    LikeFindsFit(q, text);
    assert text[1..] == Items(names);
    var i :| 0 <= i <= |text| && FitsAt(q, text, i);
    assert Matches(q[0], text[i + 0]) && i > 0;
    FitShifts(q, text, i);
    j := FitIsWholeName(agent, names, i - 1);
  }

  lemma NoPercent(agent: string)
    requires IsName(agent)
    ensures '%' !in Quoted(agent)
  {
    var q := Quoted(agent);
    forall k | 0 <= k < |q|
      ensures q[k] != '%'
    {
      assert 0 < k <= |agent| ==> q[k] == agent[k - 1];
    }
  }

  lemma NamesFitWithoutUnderscore(agent: string, name: string)
    requires IsName(agent) && IsName(name) && '_' !in agent
    ensures NamesFit(agent, name) <==> agent == name
  {
    if NamesFit(agent, name) {
      forall k | 0 <= k < |agent|
        ensures agent[k] == name[k]
      {
        assert Matches(agent[k], name[k]) && agent[k] in agent && NameChar(agent[k]) && NameChar(name[k]);
      }
    }
  }

  /** For a name of letters, digits and hyphens the search is membership. */
  lemma SearchIsMembership(agent: string, names: seq<string>)
    requires IsName(agent) && AllNames(names) && '_' !in agent
    ensures Like(ReaderPattern(agent), Print(names)) <==> agent in names
  {
    hide Like;
    if Like(ReaderPattern(agent), Print(names)) {
      var j := FoundIsFitting(agent, names);
      NamesFitWithoutUnderscore(agent, names[j]);
    }
    if j :| 0 <= j < |names| && names[j] == agent {
      FittingIsFound(agent, names, j);
    }
  }

  /** The search agrees with membership for all lists exactly when the name has no underscore. */
  lemma SearchIsMembershipIff(agent: string)
    requires IsName(agent)
    ensures (forall names | AllNames(names) :: Like(ReaderPattern(agent), Print(names)) <==> agent in names) <==>
      '_' !in agent
  {
    hide Like;
    if '_' !in agent {
      forall names | AllNames(names)
        ensures Like(ReaderPattern(agent), Print(names)) <==> agent in names
      {
        SearchIsMembership(agent, names);
      }
    } else {
      var k :| 0 <= k < |agent| && agent[k] == '_';
      var other := agent[k := 'x'];
      assert other[k] != agent[k];
      assert NamesFit(agent, other);
      var names := [other];
      FittingIsFound(agent, names, 0);
    }
  }

  /** With underscores the search can even match what stands between two names. */
  lemma UnderscoresMatchBetweenNames()
    ensures Like(ReaderPattern("__"), Print(["a", "b"])) && "__" !in ["a", "b"]
  {
    var names, text := ["a", "b"], Print(["a", "b"]);
    assert names[1..] == ["b"];
    assert text == "[\"a\", \"b\"]";
    assert FitsAt(Quoted("__"), text, 3);
    LikeFindsFit(Quoted("__"), text);
  }
}
