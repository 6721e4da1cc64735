// A selector with its permissions and its text of rules, and the description of it (acl.c).
module AclUser {
  import opened Basics
  import opened AclRules
  import opened AclCommands
  import opened AclMeaning
  import opened AclReplay
  import opened AclBounds
  import opened AclSelector

  // ---------------------------------------------------------------------------------------------
  // Text
  // ---------------------------------------------------------------------------------------------

  // sdscat: the string with another one after it, in a buffer that is large enough.
  method Concat(buf: array<char>, add: string, ghost s: string) returns (r: array<char>)
    requires HoldsString(buf, s) && '\0' !in add
    ensures fresh(r) && HoldsString(r, s + add)
  {
    var n := StrLen(buf, 0, s);
    var all := buf[..n] + add;
    assert all == s + add;
    r := new char[|all| + 1](i requires 0 <= i <= |all| => if i < |all| then all[i] else '\0');
    assert forall i :: 0 <= i < |all| ==> r[i] == all[i];
    forall i | 0 <= i < |all| ensures all[i] != '\0' {
      if i >= |s| { assert all[i] == add[i - |s|]; }
    }
  }

  lemma JoinSnoc(ts: seq<string>, t: string)
    requires AllTokens(ts)
    ensures Join(ts + [t]) == if ts == [] then t else Join(ts) + " " + t
    ensures ts == [] <==> Join(ts) == ""
  {
    JoinConcat(ts, [t]);
    JoinClean(ts);
  }

  // The text that describes a selector.
  function Describe(reserved: bool, rules: seq<string>): string {
    Join([if reserved then "+@all" else "-@all"] + rules)
  }

  class Live {
    const perms: Permissions
    // command_rules
    var text: array<char>
    ghost var rules: seq<string>

    ghost predicate Valid()
      reads this, perms, perms.firstArgs, text
    {
      && perms.Valid() && perms.words as object != text && perms.firstArgs as object != text
      && AllTokens(rules) && HoldsString(text, Join(rules))
    }

    ghost function View(): Selector
      requires Valid()
      reads this, perms, perms.words, perms.firstArgs, text
    {
      Selector(perms.View(), rules)
    }

    // ACLCreateSelector
    constructor ()
      ensures Valid() && fresh(perms) && fresh(perms.words) && fresh(perms.firstArgs) && fresh(text)
      ensures !perms.table && !perms.strayed
      ensures View() == Selector(Everything(false), [])
    {
      perms := new Permissions();
      text := new char[1](_ => '\0');
      rules := [];
    }

    // ACLUpdateCommandRules
    method UpdateCommandRules(rule: string, allow: bool)
      requires Valid() && IsToken((if allow then "+" else "-") + Lower(rule))
      modifies this, text
      ensures Valid() && (text == old(text) || fresh(text)) && perms.View() == old(perms.View())
      ensures rules == Remaining(old(rules), Lower(rule)) + [(if allow then "+" else "-") + Lower(rule)]
    {
      hide Remaining, Join, Lower;
      var name := Lower(rule);
      var token := (if allow then "+" else "-") + name;
      ghost var rem := Remaining(rules, name);
      RemoveCommandRule(text, name, rules);
      JoinSnoc(rem, token);
      assert '\0' !in token && '\0' !in " ";
      ghost var s := Join(rem);
      if text[0] != '\0' {
        text := Concat(text, " ", s);
        s := s + " ";
      }
      text := Concat(text, token, s);
      rules := rem + [token];
    }

    // ACLSetSelector, the branches that concern commands.
    method SetSelector(t: Table, op: string) returns (err: Option<Errno>)
      requires Valid() && WellFormed(t) && Plain(op)
      modifies this, text, perms, perms.words, perms.firstArgs
      ensures Valid() && (text == old(text) || fresh(text))
      ensures perms.strayed == (old(perms.strayed) || !OpReaches(t, op, old(perms.table)))
      ensures perms.table == TableAfter(t, op, old(perms.table))
      ensures rules == Step(t, op, old(View())).rules
      ensures !perms.strayed ==> View() == Step(t, op, old(View()))
      ensures !perms.strayed ==> Obeyed(t, op, View().core)
      ensures err == if Parse(t, op).Error? then Some(Parse(t, op).errno) else None
    {
      hide WellFormed, Lower, Remaining, Join, Apply, Reaches, Obeyed;
      StepObeys(t, op, View());
      match Parse(t, op)
      case AllCommands => { ResetRules(); perms.SetAll(true); err := None; }
      case NoCommands => { ResetRules(); perms.SetAll(false); err := None; }
      case Rule(allow, kind) =>
        ParseIsWell(t, op);
        match kind {
          case OnCommand(Top(cmd)) => perms.ChangePerm(cmd.id, SubsOf(cmd), allow);
          case OnCommand(SubOf(_, sub)) =>
            perms.ChangePerm(sub.id, [], allow);
            assert {sub.id} + SubIds([]) == {sub.id};
          case OnFirstArg(cmd, arg) => perms.AddAllowedFirstArg(cmd.id, arg);
          case OnCategory(cat) => perms.SetCommandBitsForCategory(t.cmds, cat, allow);
        }
        TextIsToken(t, allow, kind);
        assert TextOf(allow, kind) == (if allow then "+" else "-") + Lower(op[1..]);
        UpdateCommandRules(op[1..], allow);
        err := None;
      case Error(errno) => err := Some(errno);
      case NotACommandRule => err := None;
    }

    // sdsclear
    method ResetRules()
      requires Valid()
      modifies this, text
      ensures Valid() && rules == [] && text == old(text) && perms.View() == old(perms.View())
    {
      text[0] := '\0';
      rules := [];
    }

    // Applies operations one after the other and reports whether all of them were accepted.
    method SetAll(t: Table, ops: seq<string>) returns (ok: bool)
      requires Valid() && WellFormed(t) && forall op :: op in ops ==> Plain(op)
      modifies this, text, perms, perms.words, perms.firstArgs
      ensures Valid() && (text == old(text) || fresh(text))
      ensures perms.strayed == (old(perms.strayed) || !AllReach(t, ops, old(perms.table)))
      ensures perms.table == TableAfterAll(t, ops, old(perms.table))
      ensures !perms.strayed ==> View() == Steps(t, ops, old(View()))
      ensures ok <==> forall op :: op in ops ==> !Parse(t, op).Error?
    {
      hide WellFormed, Plain, Parse, Step, View, OpReaches, TableAfter;
      ok := true;
      var i := 0;
      while i < |ops|
        invariant 0 <= i <= |ops| && Valid() && (text == old(text) || fresh(text))
        invariant perms.strayed == (old(perms.strayed) || !AllReach(t, ops[..i], old(perms.table)))
        invariant perms.table == TableAfterAll(t, ops[..i], old(perms.table))
        invariant !perms.strayed ==> View() == Steps(t, ops[..i], old(View()))
        invariant ok <==> forall op :: op in ops[..i] ==> !Parse(t, op).Error?
      {
        assert ops[..i + 1][..i] == ops[..i];
        assert forall op :: op in ops[..i + 1] <==> op in ops[..i] || op == ops[i];
        var err := SetSelector(t, ops[i]);
        ok := ok && err.None?;
        i := i + 1;
      }
      assert ops[..i] == ops;
    }

    // A new selector to which the rules of this one were applied, from +@all or -@all. No rule is
    // refused.
    method Rebuild(t: Table, future: bool, argv: seq<string>) returns (fake: Live)
      requires Valid() && WellFormed(t) && Inv(t, View()) && argv == rules && future == (RESERVED in View().core.bits)
      ensures fake.Valid() && fresh(fake) && fake.perms.strayed == !AllReach(t, rules, false)
      ensures !fake.perms.strayed ==> fake.View() == View()
    {
      hide WellFormed, Parse, Inv, Join, Steps, Everything, AllReach;
      RulesAreClean(t, View());
      AllIsClean(t, future);
      fake := new Live();
      var err := fake.SetSelector(t, if future then "+@all" else "-@all");
      var ok := fake.SetAll(t, argv);
      // serverAssert(res == C_OK)
      assert err.None? && ok;
      if !fake.perms.strayed { InvReplays(t, View(), fake.View()); }
    }

    // ACLDescribeSelectorCommandRules. The text, split and applied to any selector, gives this one.
    // The mismatch for which the source aborts cannot happen, unless the rules reach out of the table of first
    // arguments.
    method DescribeCommandRules(t: Table) returns (s: string, strayed: bool)
      requires Valid() && WellFormed(t) && Inv(t, View())
      ensures strayed == !AllReach(t, rules, false)
      ensures s == Describe(RESERVED in View().core.bits, rules)
      ensures forall any {:trigger Steps(t, Split(s), any)} :: Steps(t, Split(s), any) == View()
    {
      hide WellFormed, Inv, Join, Steps, Describe, AllReach;
      var future := perms.GetCommandBit(RESERVED);
      s := if future then "+@all " else "-@all ";
      var n := StrLen(text, 0, Join(rules));
      assert text[..n] == Join(rules);
      SplitOfJoin(rules);
      var fake := Rebuild(t, future, Split(text[..n]));
      JoinClean(rules);
      if n > 0 {
        s := s + (text[..n] + " ");
      }
      DescribeIs(future, rules, s);
      s := s[..|s| - 1];
      strayed := fake.perms.strayed;
      // The comparison of the bitmaps.
      if !strayed {
        SameWords(fake.perms.words[..], perms.words[..]);
        assert fake.perms.words[..] == perms.words[..];
      }
      forall any ensures Steps(t, Split(s), any) == View() {
        DescribedRebuilds(t, View(), any);
      }
    }

    // ACLRecomputeCommandBitsFromCommandRulesAllUsers, for one selector and an unchanged table.
    method RecomputeCommandBits(t: Table)
      requires Valid() && WellFormed(t) && Inv(t, View())
      modifies this, text, perms, perms.words, perms.firstArgs
      ensures Valid() && perms.strayed == (old(perms.strayed) || !AllReach(t, old(rules), false))
      ensures !perms.strayed ==> View() == old(View())
    {
      hide WellFormed, Parse, Inv, Join, Steps, Everything, AllReach;
      ghost var before := View();
      var n := StrLen(text, 0, Join(rules));
      assert text[..n] == Join(rules);
      SplitOfJoin(rules);
      var argv := Split(text[..n]);
      RulesAreClean(t, View());
      var future := perms.GetCommandBit(RESERVED);
      AllIsClean(t, future);
      var err := SetSelector(t, if future then "+@all" else "-@all");
      var ok := SetAll(t, argv);
      // serverAssert(res == C_OK)
      assert err.None? && ok;
      if !perms.strayed { InvReplays(t, before, View()); }
    }
  }

  lemma AllIsClean(t: Table, future: bool)
    ensures var op := if future then "+@all" else "-@all";
      && Plain(op) && Parse(t, op) == (if future then AllCommands else NoCommands)
      && (forall table :: OpReaches(t, op, table) && !TableAfter(t, op, table))
  {
    assert Lower("+@all") == "+@all" && Lower("-@all") == "-@all";
  }

  lemma RulesAreClean(t: Table, s: Selector)
    requires WellFormed(t) && Inv(t, s)
    ensures forall op :: op in s.rules ==> Plain(op) && Parse(t, op).Rule?
  {
    hide WellFormed, Parse;
    forall op | op in s.rules ensures Plain(op) && Parse(t, op).Rule? {
      assert IsRule(t, op);
      var allow, k :| WellKind(t, allow, k) && op == TextOf(allow, k);
      TextIsToken(t, allow, k);
      Reparse(t, allow, k);
    }
  }

  lemma InvReplays(t: Table, s: Selector, r: Selector)
    requires WellFormed(t) && Inv(t, s) && r == Steps(t, s.rules, Clean(s))
    ensures r == s
  {
    StepsOfRules(t, s.rules, RESERVED in s.core.bits);
  }

  // The text without its last character, which is a space.
  lemma DescribeIs(future: bool, rules: seq<string>, s: string)
    requires AllTokens(rules)
    requires var all := if future then "+@all " else "-@all "; s == if rules == [] then all else all + (Join(rules) + " ")
    ensures s[..|s| - 1] == Describe(future, rules)
  {
    var all := if future then "+@all" else "-@all";
    assert ([all] + rules)[1..] == rules;
  }

  lemma AllIsToken(future: bool)
    ensures IsToken(if future then "+@all" else "-@all")
  {}

  lemma {:induction false} StepsConcat(t: Table, a: seq<string>, b: seq<string>, s: Selector)
    ensures Steps(t, a + b, s) == Steps(t, b, Steps(t, a, s))
  {
    hide Step;
    if b == [] {
      assert a + b == a;
    } else {
      assert (a + b)[..|a + b| - 1] == a + b[..|b| - 1];
      StepsConcat(t, a, b[..|b| - 1], s);
    }
  }

  // The text that describes a selector starts with an operation that leaves nothing of the state
  // in which it is applied.
  lemma DescribedRebuilds(t: Table, s: Selector, any: Selector)
    requires WellFormed(t) && Inv(t, s) && AllTokens(s.rules)
    ensures Steps(t, Split(Describe(RESERVED in s.core.bits, s.rules)), any) == s
  {
    hide WellFormed, Parse, Join, Split, Everything;
    var future := RESERVED in s.core.bits;
    var all := if future then "+@all" else "-@all";
    AllIsToken(future);
    assert AllTokens([all] + s.rules);
    SplitOfJoin([all] + s.rules);
    AllIsClean(t, future);
    StepsConcat(t, [all], s.rules, any);
    assert [all][..|[all]| - 1] == [];
    assert Steps(t, [all], any) == Step(t, all, Steps(t, [], any));
    StepsOfRules(t, s.rules, future);
  }

  // ---------------------------------------------------------------------------------------------
  // The numbers of commands
  // ---------------------------------------------------------------------------------------------

  // The number after another.
  function After(id: nat): nat { if id + 1 == RESERVED then id + 2 else id + 1 }

  class CommandIds {
    // commandId and nextid
    var ids: map<string, nat>
    var nextId: nat

    // A name has one number, two names have two, and nobody has the reserved one.
    ghost predicate Valid()
      reads this
    {
      && nextId != RESERVED
      && (forall n :: n in ids ==> ids[n] < nextId && ids[n] != RESERVED)
      && (forall m, n :: m in ids && n in ids && ids[m] == ids[n] ==> m == n)
    }

    constructor ()
      ensures Valid() && ids == map[] && nextId == 0
    {
      ids := map[];
      nextId := 0;
    }

    // Different names get the numbers from 0 on, without the reserved one: the last of 1024 names gets 1024,
    // for which there is neither a bit nor an entry in the table of first arguments.
    method NumberAll(names: seq<string>)
      requires Valid() && ids == map[] && nextId == 0
      requires forall i, j :: 0 <= i < j < |names| ==> Lower(names[i]) != Lower(names[j])
      modifies this
      ensures Valid()
      ensures forall i :: 0 <= i < |names| ==> Lower(names[i]) in ids && ids[Lower(names[i])] == if i < RESERVED then i else i + 1
      ensures |names| >= BITS ==> ids[Lower(names[BITS - 1])] == BITS
    {
      hide Lower;
      var k := 0;
      while k < |names|
        invariant 0 <= k <= |names| && Valid() && nextId == if k < RESERVED then k else k + 1
        invariant forall i :: 0 <= i < k ==> Lower(names[i]) in ids && ids[Lower(names[i])] == if i < RESERVED then i else i + 1
        invariant forall n :: n in ids ==> exists i :: 0 <= i < k && n == Lower(names[i])
      {
        var id := GetCommandId(names[k]);
        k := k + 1;
      }
    }

    // ACLGetCommandID
    method GetCommandId(name: string) returns (id: nat)
      requires Valid()
      modifies this
      ensures Valid()
      ensures Lower(name) in ids && ids[Lower(name)] == id
      ensures old(ids).Keys <= ids.Keys && forall n :: n in old(ids) ==> ids[n] == old(ids[n])
      ensures forall n :: n in ids ==> n in old(ids) || n == Lower(name)
      ensures if Lower(name) in old(ids) then nextId == old(nextId) else id == old(nextId) && nextId == After(old(nextId))
    {
      hide Lower;
      var low := Lower(name);
      if low in ids {
        return ids[low];
      }
      ids := ids[low := nextId];
      id := nextId;
      nextId := nextId + 1;
      if nextId == RESERVED {
        nextId := nextId + 1;
      }
    }
  }

  // A subcommand, numbered by its full name, shares its number with no command.
  lemma NumbersApart(book: CommandIds, c: Cmd, s: Sub, d: Cmd)
    requires book.Valid() && '|' !in d.name
    requires FullName(SubOf(c, s)) in book.ids && book.ids[FullName(SubOf(c, s))] == s.id
    requires d.name in book.ids && book.ids[d.name] == d.id
    ensures s.id != d.id && s.id != RESERVED && d.id != RESERVED
  {
    assert FullName(SubOf(c, s))[|c.name|] == '|';
  }
}
