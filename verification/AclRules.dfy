// The text of a selector's command rules (acl.c): tokens joined by single spaces, edited in place.
module AclRules {

  // ---------------------------------------------------------------------------------------------
  // Joining and splitting tokens
  // ---------------------------------------------------------------------------------------------

  // A rule as it is stored: a sign followed by a name.
  ghost predicate IsToken(t: string) {
    |t| >= 2 && forall i :: 0 <= i < |t| ==> t[i] != ' ' && t[i] != '\0'
  }

  ghost predicate AllTokens(ts: seq<string>) {
    forall i :: 0 <= i < |ts| ==> IsToken(ts[i])
  }

  function Join(ts: seq<string>): string {
    if ts == [] then "" else if |ts| == 1 then ts[0] else ts[0] + " " + Join(ts[1..])
  }

  // What stands before the tokens rest in a text that starts with the tokens kept.
  function Prefix(kept: seq<string>, rest: seq<string>): string {
    if kept == [] || rest == [] then Join(kept) else Join(kept) + " "
  }

  lemma {:induction false} JoinConcat(a: seq<string>, b: seq<string>)
    ensures Join(a + b) == Prefix(a, b) + Join(b)
  {
    if a == [] {
      assert a + b == b;
    } else if b == [] {
      assert a + b == a;
    } else if |a| == 1 {
      assert (a + b)[1..] == b;
    } else {
      assert (a + b)[1..] == a[1..] + b;
      JoinConcat(a[1..], b);
      assert a[0] + " " + (Join(a[1..]) + " " + Join(b)) == a[0] + " " + Join(a[1..]) + " " + Join(b);
    }
  }

  lemma {:induction false} JoinClean(ts: seq<string>)
    requires AllTokens(ts)
    ensures '\0' !in Join(ts)
    ensures Join(ts) == "" <==> ts == []
  {
    if |ts| == 1 {
      assert IsToken(ts[0]);
    } else if |ts| > 1 {
      assert IsToken(ts[0]);
      assert AllTokens(ts[1..]);
      JoinClean(ts[1..]);
    }
  }

  // sdssplitargs, on text without quotes and with single spaces.
  function Split(s: string): seq<string> {
    if s == "" then [] else SplitFrom(s, 0)
  }

  // The word that starts at the front of s is s[..k], if no space comes before k.
  function SplitFrom(s: string, k: nat): seq<string>
    requires k <= |s|
    decreases |s|, |s| - k
  {
    if k == |s| then [s]
    else if s[k] == ' ' then [s[..k]] + SplitFrom(s[k + 1..], 0)
    else SplitFrom(s, k + 1)
  }

  lemma {:induction false} SplitWord(t: string, rest: string, k: nat)
    requires k <= |t| && forall i :: 0 <= i < |t| ==> t[i] != ' '
    ensures SplitFrom(t + " " + rest, k) == [t] + SplitFrom(rest, 0)
    ensures SplitFrom(t, k) == [t]
    decreases |t| - k
  {
    var s := t + " " + rest;
    if k == |t| {
      assert s[..k] == t && s[k + 1..] == rest;
    } else {
      SplitWord(t, rest, k + 1);
    }
  }

  // Splitting a text gives back the tokens it was joined from.
  lemma {:induction false} SplitOfJoin(ts: seq<string>)
    requires AllTokens(ts)
    ensures Split(Join(ts)) == ts
  {
    JoinClean(ts);
    if ts != [] {
      assert IsToken(ts[0]);
      SplitWord(ts[0], Join(ts[1..]), 0);
      if |ts| > 1 {
        assert AllTokens(ts[1..]);
        SplitOfJoin(ts[1..]);
        JoinClean(ts[1..]);
        assert ts == [ts[0]] + ts[1..];
      }
    }
  }

  // ---------------------------------------------------------------------------------------------
  // Which rules a new rule replaces
  // ---------------------------------------------------------------------------------------------

  // The same name, or a subcommand of it.
  predicate Replaces(rule: string, name: string) {
    rule <= name && (|name| == |rule| || name[|rule|] == '|')
  }

  function Remaining(ts: seq<string>, rule: string): seq<string> {
    if ts == [] then []
    else
      var last := ts[|ts| - 1];
      Remaining(ts[..|ts| - 1], rule) + if last != "" && Replaces(rule, last[1..]) then [] else [last]
  }

  lemma RemainingSnoc(ts: seq<string>, t: string, rule: string)
    ensures Remaining(ts + [t], rule) == Remaining(ts, rule) + if t != "" && Replaces(rule, t[1..]) then [] else [t]
  {
    assert (ts + [t])[..|ts + [t]| - 1] == ts;
  }

  // ---------------------------------------------------------------------------------------------
  // Strings in a buffer
  // ---------------------------------------------------------------------------------------------

  // The buffer holds the string s, with its terminator.
  ghost predicate HoldsString(buf: array<char>, s: string)
    reads buf
  {
    |s| < buf.Length && buf[|s|] == '\0' && forall i :: 0 <= i < |s| ==> buf[i] == s[i] && s[i] != '\0'
  }

  method StrLen(buf: array<char>, from: nat, ghost s: string) returns (n: nat)
    requires HoldsString(buf, s) && from <= |s|
    ensures n == |s| - from
  {
    n := 0;
    while buf[from + n] != '\0'
      invariant from + n <= |s|
      decreases |s| - n
    {
      n := n + 1;
    }
  }

  // strchr; the result is negative if the character does not occur before the terminator.
  method StrChr(buf: array<char>, from: nat, c: char, ghost s: string) returns (p: int)
    requires HoldsString(buf, s) && from <= |s| && c != '\0'
    ensures p < 0 ==> forall i :: from <= i < |s| ==> s[i] != c
    ensures p >= 0 ==> from <= p < |s| && s[p] == c && forall i :: from <= i < p ==> s[i] != c
  {
    p := from;
    while buf[p] != c
      invariant from <= p <= |s|
      invariant forall i :: from <= i < p ==> s[i] != c
      decreases |s| - p
    {
      if buf[p] == '\0' {
        return -1;
      }
      p := p + 1;
    }
  }

  // memmove to a lower address, together with the terminator.
  method MoveTail(buf: array<char>, dst: nat, src: nat, ghost s: string)
    requires HoldsString(buf, s) && dst <= src <= |s|
    modifies buf
    ensures HoldsString(buf, s[..dst] + s[src..])
  {
    var count := StrLen(buf, src, s);
    var i := 0;
    while i < count + 1
      invariant 0 <= i <= count + 1
      invariant forall j :: 0 <= j < dst ==> buf[j] == s[j]
      invariant forall j :: dst <= j < dst + i ==> buf[j] == old(buf[j + (src - dst)])
      invariant forall j :: dst + i <= j < buf.Length ==> buf[j] == old(buf[j])
    {
      buf[dst + i] := buf[src + i];
      i := i + 1;
    }
    ghost var t := s[..dst] + s[src..];
    forall j | 0 <= j < |t| ensures buf[j] == t[j] && t[j] != '\0' {
      assert t[j] == if j < dst then s[j] else s[j + (src - dst)];
    }
  }

  // The comparison of a stored rule with a new one: equal on the shorter length, and the stored
  // one ends there or goes on with '|'.
  method RuleMatches(buf: array<char>, from: nat, len: nat, rule: string, ghost s: string) returns (yes: bool)
    requires HoldsString(buf, s) && from + len <= |s|
    ensures yes == Replaces(rule, s[from..from + len])
  {
    var n := if len < |rule| then len else |rule|;
    var i := 0;
    ghost var name := s[from..from + len];
    while i < n && buf[from + i] == rule[i]
      invariant 0 <= i <= n
      invariant name[..i] == rule[..i]
    {
      assert name[..i + 1] == name[..i] + [name[i]];
      assert rule[..i + 1] == rule[..i] + [rule[i]];
      i := i + 1;
    }
    if i < n {
      assert name[i] != rule[i];
      return false;
    }
    if len < |rule| {
      return false;
    }
    assert rule == rule[..n] && rule == name[..n];
    yes := len == |rule| || buf[from + |rule|] == '|';
    assert len > |rule| ==> buf[from + |rule|] == name[|rule|];
  }

  // ---------------------------------------------------------------------------------------------
  // ACLSelectorRemoveCommandRule
  // ---------------------------------------------------------------------------------------------

  function Layout(kept: seq<string>, rest: seq<string>): string { Prefix(kept, rest) + Join(rest) }

  // Where the first token of rest lies in the text.
  lemma TokenAt(kept: seq<string>, rest: seq<string>)
    requires AllTokens(kept) && AllTokens(rest) && rest != []
    ensures var s := Layout(kept, rest); var p := |Prefix(kept, rest)|; var t := rest[0];
      && p + |t| <= |s| && s[p..p + |t|] == t
      && (p == 0 <==> kept == [])
      && (|rest| == 1 ==> |s| == p + |t|)
      && (|rest| > 1 ==> p + |t| < |s| && s[p + |t|] == ' ')
      && (forall i :: p <= i < p + |t| ==> s[i] != ' ')
  {
    var s, p, t := Layout(kept, rest), |Prefix(kept, rest)|, rest[0];
    JoinClean(kept);
    assert IsToken(t);
    if |rest| > 1 {
      assert Join(rest) == t + " " + Join(rest[1..]);
    }
    assert forall i :: p <= i < p + |t| ==> s[i] == t[i - p];
  }

  lemma KeepToken(kept: seq<string>, rest: seq<string>)
    requires rest != []
    ensures Layout(kept + [rest[0]], rest[1..]) == Layout(kept, rest)
    ensures |Prefix(kept + [rest[0]], rest[1..])| == |Prefix(kept, rest)| + |rest[0]| + if |rest| == 1 then 0 else 1
  {
    JoinConcat(kept, rest);
    JoinConcat(kept + [rest[0]], rest[1..]);
    assert kept + [rest[0]] + rest[1..] == kept + rest;
    JoinConcat(kept, [rest[0]]);
  }

  lemma DropToken(kept: seq<string>, rest: seq<string>)
    requires AllTokens(kept) && AllTokens(rest) && rest != []
    ensures var s := Layout(kept, rest); var p := |Prefix(kept, rest)|; var t := rest[0];
      && p + |t| <= |s|
      && (|rest| > 1 ==> p + |t| < |s| && s[..p] + s[p + |t| + 1..] == Layout(kept, rest[1..]) && |Prefix(kept, rest[1..])| == p)
      && (|rest| == 1 ==>
            var q := if p == 0 then 0 else p - 1;
            s[..q] + s[p + |t|..] == Layout(kept, []) && |Prefix(kept, [])| == q)
  {
    TokenAt(kept, rest);
    var s, p, t := Layout(kept, rest), |Prefix(kept, rest)|, rest[0];
    if |rest| > 1 {
      assert s == Prefix(kept, rest) + t + " " + Join(rest[1..]);
      assert s[..p] == Prefix(kept, rest);
      assert s[p + |t| + 1..] == Join(rest[1..]);
    } else if kept == [] {
      assert s[..0] + s[p + |t|..] == "";
    } else {
      assert s[..p - 1] == Join(kept);
      assert s[p + |t|..] == "";
    }
  }

  // The body of the loop: looks at the rule that starts at position p, and drops it from the text
  // or steps over it.
  method RemoveOrSkip(buf: array<char>, p: nat, rule: string, ghost kept: seq<string>, ghost rest: seq<string>)
    returns (e: nat, matches: bool)
    requires AllTokens(kept) && AllTokens(rest) && rest != []
    requires HoldsString(buf, Layout(kept, rest)) && p == |Prefix(kept, rest)|
    modifies buf
    ensures matches == Replaces(rule, rest[0][1..])
    ensures var kept' := if matches then kept else kept + [rest[0]];
      HoldsString(buf, Layout(kept', rest[1..])) && e == |Prefix(kept', rest[1..])|
  {
    hide Replaces, Join, Prefix, Layout;
    ghost var s, t := Layout(kept, rest), rest[0];
    TokenAt(kept, rest);
    DropToken(kept, rest);
    KeepToken(kept, rest);
    assert IsToken(t);
    assert |rest| == 1 ==> rest[1..] == [];

    var copyPosition := p;
    e := p + 1;
    var ruleEnd := StrChr(buf, e, ' ', s);
    if ruleEnd < 0 {
      var n := StrLen(buf, e, s);
      ruleEnd := e + n;
      if copyPosition != 0 {
        copyPosition := copyPosition - 1;
      }
    }
    assert ruleEnd == p + |t|;
    var copyEnd := ruleEnd;
    if buf[copyEnd] == ' ' {
      copyEnd := copyEnd + 1;
    }
    matches := RuleMatches(buf, e, ruleEnd - e, rule, s);
    assert s[e..ruleEnd] == t[1..];
    if matches {
      MoveTail(buf, copyPosition, copyEnd, s);
      e := copyPosition;
    } else {
      e := copyEnd;
    }
  }

  // The loop leaves exactly the tokens that the new rule does not replace, in their order, with
  // single spaces between them.
  method RemoveCommandRule(buf: array<char>, rule: string, ghost ts: seq<string>)
    requires AllTokens(ts) && HoldsString(buf, Join(ts))
    modifies buf
    ensures AllTokens(Remaining(ts, rule))
    ensures HoldsString(buf, Join(Remaining(ts, rule)))
  {
    hide Replaces, Join, Prefix, Layout, Remaining;
    var e := 0;
    ghost var done: seq<string>, kept: seq<string>, rest := [], [], ts;
    Start(ts, rule);
    Inside(kept, rest);
    while buf[e] != '\0'
      invariant done + rest == ts && kept == Remaining(done, rule) && AllTokens(kept) && AllTokens(rest)
      invariant HoldsString(buf, Layout(kept, rest)) && e == |Prefix(kept, rest)|
      invariant if rest == [] then e == |Layout(kept, rest)| else e < |Layout(kept, rest)|
      decreases |rest|
    {
      ghost var t := rest[0];
      RemainingSnoc(done, t, rule);
      assert done + [t] + rest[1..] == ts;
      assert IsToken(t);
      var matches;
      e, matches := RemoveOrSkip(buf, e, rule, kept, rest);
      done, kept, rest := done + [t], if matches then kept else kept + [t], rest[1..];
      Inside(kept, rest);
    }
    assert done + [] == done;
    JustKept(kept);
  }

  lemma Start(ts: seq<string>, rule: string)
    ensures Remaining([], rule) == [] && Layout([], ts) == Join(ts) && Prefix([], ts) == ""
    ensures [] + ts == ts
  {}

  lemma Inside(kept: seq<string>, rest: seq<string>)
    requires AllTokens(rest)
    ensures if rest == [] then |Prefix(kept, rest)| == |Layout(kept, rest)| else |Prefix(kept, rest)| < |Layout(kept, rest)|
  {
    JoinClean(rest);
  }

  lemma JustKept(kept: seq<string>)
    ensures Layout(kept, []) == Join(kept)
  {}
}
