// What the operations on commands allow and deny, by their text (acl.c).
module AclMeaning {
  import opened Basics
  import opened AclRules
  import opened AclCommands
  import opened AclReplay

  predicate IsSign(c: char) { c == '+' || c == '-' }

  // The bits of some commands are set or cleared, as far as there are bits for them, and no others.
  ghost predicate Decided(before: Core, after: Core, touched: nat -> bool, allow: bool) {
    forall id: nat :: id in after.bits <==> if touched(id) && id < BITS then allow else id in before.bits
  }

  // The first arguments of some commands go, and no others.
  ghost predicate Forgotten(before: Core, after: Core, touched: nat -> bool) {
    forall p :: p in after.args <==> p in before.args && !touched(p.0)
  }

  predicate IsSub(c: Cmd, id: nat) { exists s :: s in SubsOf(c) && s.id == id }

  // ---------------------------------------------------------------------------------------------
  // Finding what an operation speaks of
  // ---------------------------------------------------------------------------------------------

  lemma FindsCmd(t: Table, c: Cmd, name: string)
    requires WellFormed(t) && c in t.cmds && Lower(name) == c.name
    ensures FindCmd(t.cmds, name) == Some(c) && '|' !in name && name != ""
    ensures LookupCommand(t, name) == Some(Top(c))
  {
    hide Lower;
    LowerKeeps(name);
    LowerNone(name);
    assert Bar(name) == |name|;
    assert name[..|name|] == name;
  }

  lemma LowerNone(s: string)
    ensures |Lower(s)| == |s|
  {}

  lemma FindsSub(t: Table, c: Cmd, s: Sub, name: string, sub: string)
    requires WellFormed(t) && c in t.cmds && s in SubsOf(c) && Lower(name) == c.name && Lower(sub) == s.name
    ensures LookupCommand(t, name + "|" + sub) == Some(SubOf(c, s)) && '|' !in sub && sub != ""
  {
    hide Lower, Bar, FindCmd, FindSub;
    FindsCmd(t, c, name);
    LowerKeeps(sub);
    LowerNone(sub);
    BarIsAt(name, sub);
    var all := name + "|" + sub;
    assert all[..|name|] == name && all[|name| + 1..] == sub;
    assert FindSub(c.subs.value, sub) == Some(s);
  }

  lemma SplitsLast(name: string, sub: string)
    requires '|' !in sub
    ensures var all := name + "|" + sub;
      '|' in all && LastBar(all) == |name| && all[..|name|] == name && all[|name| + 1..] == sub
  {
    LastBarIsAt(name, sub);
    var all := name + "|" + sub;
    assert all[|name|] == '|';
    assert all[..|name|] == name && all[|name| + 1..] == sub;
  }

  // An operation with a sign and a name is neither of the operations on all commands.
  lemma Particular(op: string, name: string)
    requires op != "" && IsSign(op[0]) && op[1..] == name && name != "" && LowerChar(name[0]) != '@'
    ensures Lower(op) != "allcommands" && Lower(op) != "+@all" && Lower(op) != "nocommands" && Lower(op) != "-@all"
    ensures op[1] != '@'
  {
    LowerAt(op, 0);
    LowerAt(op, 1);
    assert op[1] == name[0];
  }

  lemma FirstOfName(c: Cmd, name: string)
    requires IsName(c.name) && Lower(name) == c.name
    ensures name != "" && LowerChar(name[0]) == c.name[0]
  {
    LowerNone(name);
    LowerAt(name, 0);
  }

  // ---------------------------------------------------------------------------------------------
  // Commands
  // ---------------------------------------------------------------------------------------------

  // The operation speaks of a command by its name.
  predicate IsFor(op: string, c: Cmd) { op != "" && IsSign(op[0]) && Lower(op[1..]) == c.name }

  // Then a plus allows the command and its subcommands, as far as there are bits for them, and a minus denies them.
  ghost predicate Obeyed(t: Table, op: string, core: Core) {
    forall c, id: nat :: c in t.cmds && IsFor(op, c) && (id == c.id || IsSub(c, id)) && id < BITS ==> (id in core.bits <==> op[0] == '+')
  }

  lemma StepObeys(t: Table, op: string, s: Selector)
    requires WellFormed(t)
    ensures Obeyed(t, op, Step(t, op, s).core)
  {
    hide WellFormed, Step, Lower, IsSub;
    forall c, id: nat | c in t.cmds && IsFor(op, c) && (id == c.id || IsSub(c, id)) && id < BITS
      ensures id in Step(t, op, s).core.bits <==> op[0] == '+'
    {
      NameDecides(t, op, s, c);
    }
  }

  // "+name" allows the command and all of its subcommands, "-name" denies them, and its first arguments go.
  lemma NameDecides(t: Table, op: string, s: Selector, c: Cmd)
    requires WellFormed(t) && c in t.cmds && op != "" && IsSign(op[0]) && Lower(op[1..]) == c.name
    ensures var after := Step(t, op, s).core;
      && Decided(s.core, after, (id: nat) => id == c.id || IsSub(c, id), op[0] == '+')
      && Forgotten(s.core, after, (id: nat) => id == c.id)
  {
    hide Lower, LookupCommand, WellFormed, Remaining, TextOf, SubsOf;
    var name := op[1..];
    NamesAre(t, c);
    FirstOfName(c, name);
    FindsCmd(t, c, name);
    Particular(op, name);
    assert op == [op[0]] + name;
    assert '|' !in op;
    assert Parse(t, op) == Rule(op[0] == '+', OnCommand(Top(c)));
  }

  lemma NamesAre(t: Table, c: Cmd)
    requires WellFormed(t) && c in t.cmds
    ensures IsName(c.name) && c.name[0] != '@'
  {}

  // "+name|sub" and "-name|sub" decide the subcommand alone.
  lemma SubDecides(t: Table, op: string, s: Selector, c: Cmd, r: Sub, name: string, sub: string)
    requires WellFormed(t) && c in t.cmds && r in SubsOf(c) && Lower(name) == c.name && Lower(sub) == r.name
    requires op != "" && IsSign(op[0]) && op[1..] == name + "|" + sub
    ensures var after := Step(t, op, s).core;
      && Decided(s.core, after, (id: nat) => id == r.id, op[0] == '+')
      && Forgotten(s.core, after, (id: nat) => id == r.id)
  {
    hide Lower, LookupCommand, WellFormed, Remaining, TextOf, LastBar;
    var all := name + "|" + sub;
    NamesAre(t, c);
    FirstOfName(c, name);
    FindsCmd(t, c, name);
    FindsSub(t, c, r, name, sub);
    SplitsLast(name, sub);
    assert all[0] == name[0];
    Particular(op, all);
    assert op == [op[0]] + all;
    assert all[|name|] == '|' && op[|name| + 1] == '|';
    assert Parse(t, op) == Rule(op[0] == '+', OnCommand(SubOf(c, r)));
  }

  // "+name|arg", for a command without subcommands, allows one more first argument and no bit.
  lemma FirstArgAdds(t: Table, op: string, s: Selector, c: Cmd, name: string, arg: string)
    requires WellFormed(t) && c in t.cmds && c.subs.None? && Lower(name) == c.name && arg != "" && '|' !in arg
    requires op != "" && op[0] == '+' && op[1..] == name + "|" + arg
    ensures var after := Step(t, op, s).core;
      && after.bits == s.core.bits
      && forall p :: p in after.args <==> p in s.core.args || p == (c.id, Lower(arg))
  {
    hide Lower, LookupCommand, WellFormed, Remaining, TextOf, LastBar;
    var all := name + "|" + arg;
    NamesAre(t, c);
    FirstOfName(c, name);
    FindsCmd(t, c, name);
    SplitsLast(name, arg);
    assert all[0] == name[0];
    Particular(op, all);
    assert op == [op[0]] + all;
    assert all[|name|] == '|' && op[|name| + 1] == '|';
    assert Parse(t, op) == Rule(true, OnFirstArg(c, arg));
  }

  // ---------------------------------------------------------------------------------------------
  // Categories
  // ---------------------------------------------------------------------------------------------

  // A command of the category, a subcommand of such a command, or a subcommand of the category.
  ghost predicate OfCategory(t: Table, cat: string, id: nat) {
    exists c :: c in t.cmds &&
      ((cat in c.cats && (id == c.id || IsSub(c, id))) || exists s :: s in SubsOf(c) && cat in s.cats && s.id == id)
  }

  // A command or subcommand that is of the category by itself.
  ghost predicate SelfOfCategory(t: Table, cat: string, id: nat) {
    exists c :: c in t.cmds && ((cat in c.cats && id == c.id) || exists s :: s in SubsOf(c) && cat in s.cats && s.id == id)
  }

  lemma CategorySets(t: Table, cat: string)
    ensures forall id: nat :: id in InCategory(t.cmds, cat) <==> SelfOfCategory(t, cat, id)
    ensures forall id: nat :: id in InCategory(t.cmds, cat) + UnderCategory(t.cmds, cat) <==> OfCategory(t, cat, id)
  {}

  // "+@cat" allows exactly these, "-@cat" denies exactly these.
  lemma CategoryDecides(t: Table, op: string, s: Selector)
    requires WellFormed(t) && |op| > 1 && IsSign(op[0]) && op[1] == '@' && Lower(op[2..]) in t.cats
    ensures var after, cat := Step(t, op, s).core, Lower(op[2..]);
      && (forall id: nat :: id in after.bits <==> if OfCategory(t, cat, id) && id < BITS then op[0] == '+' else id in s.core.bits)
      && (forall p :: p in after.args <==> p in s.core.args && !SelfOfCategory(t, cat, p.0))
  {
    hide Lower, WellFormed, Remaining, TextOf, InCategory, UnderCategory, OfCategory, SelfOfCategory;
    var cat := Lower(op[2..]);
    CategorySets(t, cat);
    CategoryIsNotAll(t, op, cat);
    assert Parse(t, op) == Rule(op[0] == '+', OnCategory(cat));
  }

  lemma CategoryIsNotAll(t: Table, op: string, cat: string)
    requires WellFormed(t) && |op| > 1 && IsSign(op[0]) && op[1] == '@' && cat == Lower(op[2..]) && cat in t.cats
    ensures Lower(op) != "allcommands" && Lower(op) != "+@all" && Lower(op) != "nocommands" && Lower(op) != "-@all"
  {
    assert op == op[..2] + op[2..];
    LowerConcat(op[..2], op[2..]);
    assert Lower(op)[2..] == cat;
    LowerAt(op, 0);
    assert cat != "all";
  }

  // "+@all" allows every number that there is a bit for, "-@all" none, and all first arguments go.
  lemma AllDecides(t: Table, op: string, s: Selector)
    requires Lower(op) in ["allcommands", "+@all", "nocommands", "-@all"]
    ensures var after := Step(t, op, s).core;
      && (forall id: nat :: id in after.bits <==> id < BITS && Lower(op) in ["allcommands", "+@all"])
      && after.args == {} && Step(t, op, s).rules == []
  {
    hide Lower;
  }

  // ---------------------------------------------------------------------------------------------
  // Refusals
  // ---------------------------------------------------------------------------------------------

  // A name that no command has, and a category that there is not.
  lemma UnknownIsRefused(t: Table, op: string, s: Selector)
    requires op != "" && IsSign(op[0]) && Lower(op) != "+@all" && Lower(op) != "-@all"
    requires if |op| > 1 && op[1] == '@' then Lower(op[2..]) !in t.cats
             else '|' !in op && forall c :: c in t.cmds ==> c.name != Lower(op[1..])
    ensures Parse(t, op) == Error(ENOENT) && Step(t, op, s) == s
  {
    hide Lower, LookupCommand, LastBar, Apply, EffectOf, Remaining, TextOf, NameOf;
    SignIsKept(op);
    if !(|op| > 1 && op[1] == '@') {
      assert op == [op[0]] + op[1..];
      FindsNone(t, op[1..]);
    }
  }

  lemma FindsNone(t: Table, name: string)
    requires '|' !in name && forall c :: c in t.cmds ==> c.name != Lower(name)
    ensures LookupCommand(t, name).None?
  {
    hide Lower;
    assert Bar(name) == |name|;
    assert name[..|name|] == name;
  }

  lemma SignIsKept(op: string)
    requires op != "" && IsSign(op[0])
    ensures Lower(op) != "allcommands" && Lower(op) != "nocommands"
  {
    LowerAt(op, 0);
  }

  lemma FindsNoSub(t: Table, c: Cmd, name: string, sub: string)
    requires WellFormed(t) && c in t.cmds && Lower(name) == c.name && '|' !in sub && c.subs.Some?
    requires forall r :: r in SubsOf(c) ==> r.name != Lower(sub)
    ensures LookupCommand(t, name + "|" + sub).None?
  {
    hide Lower, WellFormed, Bar, FindCmd;
    FindsCmd(t, c, name);
    BarIsAt(name, sub);
    var all := name + "|" + sub;
    assert all[..|name|] == name && all[|name| + 1..] == sub;
  }

  // "+name|sub" with no such subcommand, "+name|" and "+name|sub|arg".
  lemma BadSubIsRefused(t: Table, op: string, s: Selector, c: Cmd, name: string, sub: string)
    requires WellFormed(t) && c in t.cmds && Lower(name) == c.name && '|' !in sub
    requires op != "" && op[0] == '+' && op[1..] == name + "|" + sub
    requires sub == "" || (c.subs.Some? && forall r :: r in SubsOf(c) ==> r.name != Lower(sub))
    ensures Parse(t, op) == Error(if sub == "" then EINVAL else ENOENT) && Step(t, op, s) == s
  {
    hide Lower, WellFormed, LastBar, LookupCommand, SubsOf, Apply, EffectOf, Remaining, TextOf, NameOf;
    var all := name + "|" + sub;
    NamesAre(t, c);
    FirstOfName(c, name);
    FindsCmd(t, c, name);
    SplitsLast(name, sub);
    if sub != "" { FindsNoSub(t, c, name, sub); }
    assert all[0] == name[0];
    Particular(op, all);
    assert op == [op[0]] + all;
    assert all[|name|] == '|' && op[|name| + 1] == '|';
  }

  lemma DeepIsRefused(t: Table, op: string, s: Selector, c: Cmd, r: Sub, name: string, sub: string, arg: string)
    requires WellFormed(t) && c in t.cmds && r in SubsOf(c) && Lower(name) == c.name && Lower(sub) == r.name && '|' !in arg
    requires op != "" && op[0] == '+' && op[1..] == name + "|" + sub + "|" + arg
    ensures Parse(t, op) == Error(ECHILD) && Step(t, op, s) == s
  {
    hide Lower, LookupCommand, WellFormed, LastBar;
    var two := name + "|" + sub;
    var all := two + "|" + arg;
    NamesAre(t, c);
    FirstOfName(c, name);
    FindsSub(t, c, r, name, sub);
    SplitsLast(two, arg);
    assert all[0] == name[0];
    Particular(op, all);
    assert op == [op[0]] + all;
    assert all[|name|] == '|' && op[|name| + 1] == '|';
  }

  // ---------------------------------------------------------------------------------------------
  // The rules that are kept
  // ---------------------------------------------------------------------------------------------

  // A rule for the name, or for something behind it.
  predicate Speaks(rule: string, name: string) {
    rule != "" && (rule[1..] == name || name + "|" <= rule[1..])
  }

  lemma SpeaksIs(rule: string, name: string)
    requires rule != ""
    ensures Replaces(name, rule[1..]) <==> Speaks(rule, name)
  {
    var r := rule[1..];
    if name + "|" <= r {
      assert r[..|name|] == name && r[|name|] == '|';
    }
    if name <= r && |name| < |r| && r[|name|] == '|' {
      assert r[..|name| + 1] == name + "|";
    }
  }

  lemma {:induction false} RemainingIs(rules: seq<string>, name: string)
    ensures forall r :: r in Remaining(rules, name) <==> r in rules && !Speaks(r, name)
  {
    hide Replaces, Speaks;
    if rules != [] {
      var last := rules[|rules| - 1];
      RemainingIs(rules[..|rules| - 1], name);
      if last != "" { SpeaksIs(last, name); } else { EmptySpeaks(name); }
      assert rules == rules[..|rules| - 1] + [last];
    }
  }

  lemma EmptySpeaks(name: string)
    ensures !Speaks("", name)
  {}

  // The operation is kept as the last rule, in lower case. Of the rules before it those go that speak of the same
  // name, or of something behind it.
  lemma RulesAre(t: Table, op: string, s: Selector)
    requires Parse(t, op).Rule? && Plain(op)
    ensures op != "" && IsSign(op[0])
    ensures var after, name := Step(t, op, s).rules, Lower(op[1..]);
      && after != [] && after[|after| - 1] == [op[0]] + name
      && forall r :: r in after[..|after| - 1] <==> r in s.rules && !Speaks(r, name)
  {
    hide Lower, LookupCommand, ParseBar, Apply, EffectOf, Remaining, Speaks, NameOf;
    ParseIsWell(t, op);
    RemainingIs(s.rules, Lower(op[1..]));
    ParsedSign(t, op);
  }

  lemma ParsedSign(t: Table, op: string)
    requires Parse(t, op).Rule?
    ensures op != "" && IsSign(op[0]) && Parse(t, op).allow == (op[0] == '+')
  {
    hide Lower, LookupCommand;
  }
}
