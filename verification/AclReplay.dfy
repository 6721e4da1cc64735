// The rules kept in a selector, applied again from a clean state, give its permissions (acl.c).
module AclReplay {
  import opened Basics
  import opened AclRules
  import opened AclCommands

  // ---------------------------------------------------------------------------------------------
  // What a rule does
  // ---------------------------------------------------------------------------------------------

  // The allowed commands, by number, and the allowed first arguments, in lower case.
  datatype Core = Core(bits: set<nat>, args: set<(nat, string)>)

  // A rule allows or denies the commands ids and forgets the first arguments of resets, or it
  // allows one more first argument.
  datatype Effect =
    | Touch(ids: set<nat>, resets: set<nat>, allow: bool)
    | AddArg(id: nat, arg: string)

  // Numbers that do not fit in the bitmap are ignored.
  predicate Fits(i: nat) { i < BITS }

  function Fitting(ids: set<nat>): set<nat> { set i | i in ids && Fits(i) }

  function Apply(e: Effect, c: Core): Core {
    match e
    case Touch(ids, resets, allow) =>
      Core(if allow then c.bits + Fitting(ids) else c.bits - Fitting(ids), set p | p in c.args && p.0 !in resets)
    case AddArg(id, arg) => c.(args := c.args + {(id, arg)})
  }

  // +@all and -@all.
  function Everything(allow: bool): Core {
    Core(if allow then set i: nat | i < BITS && Fits(i) else {}, {})
  }

  // The numbers of the commands and subcommands of a category.
  function InCategory(cmds: seq<Cmd>, cat: string): set<nat> {
    (set c | c in cmds && cat in c.cats :: c.id) +
    (set c, s | c in cmds && s in SubsOf(c) && cat in s.cats :: s.id)
  }

  // The subcommands of a command follow it, whatever their own categories.
  function UnderCategory(cmds: seq<Cmd>, cat: string): set<nat> {
    set c, s | c in cmds && s in SubsOf(c) && cat in c.cats :: s.id
  }

  function EffectOf(t: Table, allow: bool, k: Kind): Effect {
    match k
    case OnCommand(Top(c)) => Touch({c.id} + SubIds(SubsOf(c)), {c.id}, allow)
    case OnCommand(SubOf(c, s)) => Touch({s.id}, {s.id}, allow)
    case OnFirstArg(c, arg) => AddArg(c.id, Lower(arg))
    case OnCategory(cat) => Touch(InCategory(t.cmds, cat) + UnderCategory(t.cmds, cat), InCategory(t.cmds, cat), allow)
  }

  // ---------------------------------------------------------------------------------------------
  // Selectors
  // ---------------------------------------------------------------------------------------------

  datatype Selector = Selector(core: Core, rules: seq<string>)

  // ACLSetSelector; operations that fail or do not concern commands change nothing here.
  function Step(t: Table, op: string, s: Selector): Selector {
    match Parse(t, op)
    case AllCommands => Selector(Everything(true), [])
    case NoCommands => Selector(Everything(false), [])
    case Rule(allow, k) => Selector(Apply(EffectOf(t, allow, k), s.core), Remaining(s.rules, NameOf(k)) + [TextOf(allow, k)])
    case _ => s
  }

  function Steps(t: Table, ops: seq<string>, s: Selector): Selector {
    if ops == [] then s else Step(t, ops[|ops| - 1], Steps(t, ops[..|ops| - 1], s))
  }

  // The state from which the kept rules are applied: everything or nothing, by the reserved bit.
  function Clean(s: Selector): Selector { Selector(Everything(RESERVED in s.core.bits), []) }

  // ACLDescribeSelectorCommandRules and ACLRecomputeCommandBitsFromCommandRulesAllUsers.
  function Replay(t: Table, s: Selector): Selector { Steps(t, s.rules, Clean(s)) }

  // ---------------------------------------------------------------------------------------------
  // Rules that come to nothing
  // ---------------------------------------------------------------------------------------------

  function Footprint(e: Effect): set<nat> { if e.Touch? then Fitting(e.ids) else {} }

  predicate Settles(e: Effect, p: (nat, string)) {
    match e
    case Touch(_, resets, _) => p.0 in resets
    case AddArg(id, arg) => p == (id, arg)
  }

  // The two differ at most in what e decides.
  ghost predicate Agree(e: Effect, c: Core, d: Core) {
    && (forall i :: i !in Footprint(e) ==> (i in c.bits <==> i in d.bits))
    && (forall p :: !Settles(e, p) ==> (p in c.args <==> p in d.args))
  }

  ghost predicate IsSubId(t: Table, i: nat) { exists c, s :: c in t.cmds && s in SubsOf(c) && s.id == i }

  // First arguments belong to commands without subcommands.
  ghost predicate NoSubArgs(t: Table, c: Core) { forall p :: p in c.args ==> !IsSubId(t, p.0) }

  // Everything that d decides is decided by e.
  ghost predicate Absorbed(t: Table, e: Effect, d: Effect) {
    && Footprint(d) <= Footprint(e)
    && match d
       case Touch(_, resets, _) => e.Touch? && forall i :: i in resets ==> i in e.resets || IsSubId(t, i)
       case AddArg(id, arg) => Settles(e, (id, arg))
  }

  lemma Keep(e: Effect, d: Effect, b: Core, c: Core)
    requires Agree(e, b, c)
    ensures Agree(e, Apply(d, b), Apply(d, c))
  {}

  lemma Skip(t: Table, e: Effect, d: Effect, b: Core, c: Core)
    requires Agree(e, b, c) && Absorbed(t, e, d) && NoSubArgs(t, c)
    ensures Agree(e, b, Apply(d, c))
  {
    hide IsSubId;
  }

  lemma Close(e: Effect, b: Core, c: Core)
    requires Agree(e, b, c)
    ensures Apply(e, b) == Apply(e, c)
  {
    var x, y := Apply(e, b), Apply(e, c);
    assert x.bits == y.bits;
    forall p ensures p in x.args <==> p in y.args {
      if !Settles(e, p) {}
    }
    assert x.args == y.args;
  }

  // ---------------------------------------------------------------------------------------------
  // A rule decides everything that the rules it replaces decide
  // ---------------------------------------------------------------------------------------------

  lemma {:induction false} SameHead(a: string, b: string, x: string, y: string)
    requires '|' !in a && '|' !in x && a + "|" + b <= x + "|" + y
    ensures a == x && b <= y
  {
    var l, r := a + "|" + b, x + "|" + y;
    if a == "" || x == "" {
      assert l[0] == r[0];
      assert l[1..] <= r[1..];
      assert a == "" ==> l[1..] == b;
      assert x == "" ==> r[1..] == y;
    } else {
      assert l[0] == a[0] && r[0] == x[0];
      assert l[1..] == a[1..] + "|" + b && r[1..] == x[1..] + "|" + y;
      SameHead(a[1..], b, x[1..], y);
    }
  }

  // A name without bars replaces only itself and what lies under it.
  lemma ReplacesUnder(a: string, x: string, y: string)
    requires '|' !in a && '|' !in x && Replaces(a, x + "|" + y)
    ensures a == x
  {
    var r := x + "|" + y;
    assert r[|x|] == '|';
    if |a| < |r| {
      assert r == a + "|" + r[|a| + 1..];
      SameHead(a, r[|a| + 1..], x, y);
    }
  }

  lemma ReplacesPlain(a: string, x: string)
    requires '|' !in x && Replaces(a, x)
    ensures a == x
  {}

  lemma ReplacesPair(a: string, b: string, x: string, y: string)
    requires '|' !in a && '|' !in x && '|' !in y && Replaces(a + "|" + b, x + "|" + y)
    ensures a == x && b == y
  {
    SameHead(a, b, x, y);
  }

  lemma Absorbs(t: Table, a: bool, k: Kind, b: bool, d: Kind)
    requires WellFormed(t) && WellKind(t, a, k) && WellKind(t, b, d) && Replaces(NameOf(k), NameOf(d))
    ensures Absorbed(t, EffectOf(t, a, k), EffectOf(t, b, d))
  {
    hide WellFormed, Lower, Replaces;
    match k {
      case OnCommand(Top(c)) => AbsorbsTop(t, a, c, b, d);
      case OnCommand(SubOf(c, s)) =>
        SubHasNoBar(t, c, s);
        AbsorbsPair(t, c, s.name, b, d);
        if d.OnCommand? { SubIsUnique(t, c, s, d.found.sub); }
      case OnFirstArg(c, arg) => AbsorbsPair(t, c, Lower(arg), b, d);
      case OnCategory(cat) => AbsorbsCategory(t, cat, b, d);
    }
  }

  lemma AbsorbsTop(t: Table, a: bool, c: Cmd, b: bool, d: Kind)
    requires WellFormed(t) && c in t.cmds && WellKind(t, b, d) && Replaces(c.name, NameOf(d))
    ensures Absorbed(t, EffectOf(t, a, OnCommand(Top(c))), EffectOf(t, b, d))
  {
    hide Replaces, Lower;
    TopHasNoBar(t, c);
    match d {
      case OnCommand(Top(x)) => ReplacesPlain(c.name, x.name);
      case OnCommand(SubOf(x, s)) =>
        ReplacesUnder(c.name, x.name, s.name);
        assert s in SubsOf(x);
        assert IsSubId(t, s.id);
      case OnFirstArg(x, arg) =>
        ReplacesUnder(c.name, x.name, Lower(arg));
        assert Settles(EffectOf(t, a, OnCommand(Top(c))), (x.id, Lower(arg)));
      case OnCategory(cat) => HeadOf(c.name, "@" + cat);
    }
  }

  lemma SubIsUnique(t: Table, c: Cmd, r: Sub, s: Sub)
    requires WellFormed(t) && WellFound(t, SubOf(c, r)) && WellFound(t, SubOf(c, s)) && r.name == s.name
    ensures r == s
  {
    assert r in SubsOf(c) && s in SubsOf(c);
  }

  lemma HeadOf(a: string, x: string)
    requires Replaces(a, x) && a != ""
    ensures x != "" && x[0] == a[0]
  {}

  // A rule whose name has two parts replaces only a rule with the same two parts.
  lemma AbsorbsPair(t: Table, c: Cmd, tail: string, b: bool, d: Kind)
    requires WellFormed(t) && c in t.cmds && WellKind(t, b, d) && Replaces(c.name + "|" + tail, NameOf(d))
    ensures match d
      case OnCommand(Top(_)) => false
      case OnCommand(SubOf(x, s)) => x == c && s.name == tail
      case OnFirstArg(x, arg) => x == c && Lower(arg) == tail
      case OnCategory(_) => false
  {
    hide Replaces, Lower;
    TopHasNoBar(t, c);
    var rule := c.name + "|" + tail;
    assert rule[|c.name|] == '|';
    match d {
      case OnCommand(Top(x)) => ReplacesPlain(rule, x.name);
      case OnCommand(SubOf(x, s)) =>
        SubHasNoBar(t, x, s);
        ReplacesPair(c.name, tail, x.name, s.name);
      case OnFirstArg(x, arg) =>
        LowerKeeps(arg);
        ReplacesPair(c.name, tail, x.name, Lower(arg));
      case OnCategory(cat) =>
        HeadOf(rule, "@" + cat);
    }
  }

  lemma AbsorbsCategory(t: Table, cat: string, b: bool, d: Kind)
    requires WellFormed(t) && cat in t.cats && WellKind(t, b, d) && Replaces("@" + cat, NameOf(d))
    ensures d == OnCategory(cat)
  {
    hide Lower;
    NameIsLower(t, b, d);
    HeadOf("@" + cat, NameOf(d));
    ReplacesPlain("@" + cat, "@" + d.cat);
    assert ("@" + cat)[1..] == cat && ("@" + d.cat)[1..] == d.cat;
  }

  // ---------------------------------------------------------------------------------------------
  // The kept rules
  // ---------------------------------------------------------------------------------------------

  ghost predicate IsRule(t: Table, text: string) {
    exists allow, k :: WellKind(t, allow, k) && text == TextOf(allow, k)
  }

  ghost predicate AllRules(t: Table, rules: seq<string>) { forall r :: r in rules ==> IsRule(t, r) }

  // Two rules with the same name, or a rule after one that it replaces, do not occur.
  ghost predicate Settled(rules: seq<string>) {
    forall i, j :: 0 <= i < j < |rules| && rules[i] != "" && rules[j] != "" ==> !Replaces(rules[j][1..], rules[i][1..])
  }

  // The permissions after the rules, one after the other.
  function Meaning(t: Table, rules: seq<string>, c: Core): Core {
    if rules == [] then c
    else
      var p := Parse(t, rules[|rules| - 1]);
      var d := Meaning(t, rules[..|rules| - 1], c);
      if p.Rule? then Apply(EffectOf(t, p.allow, p.kind), d) else d
  }

  ghost predicate Inv(t: Table, s: Selector) {
    && AllRules(t, s.rules)
    && Settled(s.rules)
    && NoSubArgs(t, s.core)
    && s.core == Meaning(t, s.rules, Everything(RESERVED in s.core.bits))
  }

  lemma EffectOfCanon(t: Table, allow: bool, k: Kind)
    ensures EffectOf(t, allow, Canon(k)) == EffectOf(t, allow, k) && TextOf(allow, Canon(k)) == TextOf(allow, k)
  {
    hide Lower;
    if k.OnFirstArg? { LowerIdempotent(k.arg); }
  }

  // What a kept rule does when it is applied again.
  lemma MeaningSnoc(t: Table, rules: seq<string>, allow: bool, k: Kind, c: Core)
    requires WellFormed(t) && WellKind(t, allow, k)
    ensures Meaning(t, rules + [TextOf(allow, k)], c) == Apply(EffectOf(t, allow, k), Meaning(t, rules, c))
  {
    hide Parse, EffectOf, Apply;
    var all := rules + [TextOf(allow, k)];
    assert all[..|all| - 1] == rules;
    Reparse(t, allow, k);
    EffectOfCanon(t, allow, k);
  }

  // The number of a command that can have first arguments is not the number of a subcommand.
  lemma ArgIdsAreFree(t: Table, c: Cmd)
    requires WellFormed(t) && c in t.cmds && c.subs.None?
    ensures !IsSubId(t, c.id)
  {}

  lemma EffectKeepsArgs(t: Table, allow: bool, k: Kind, c: Core)
    requires WellFormed(t) && WellKind(t, allow, k) && NoSubArgs(t, c)
    ensures NoSubArgs(t, Apply(EffectOf(t, allow, k), c))
  {
    hide WellFormed, IsSubId, Lower;
    if k.OnFirstArg? { ArgIdsAreFree(t, k.cmd); }
  }

  // The reserved bit is no command's, so that no rule changes it.
  lemma EffectKeepsReserved(t: Table, allow: bool, k: Kind, c: Core)
    requires WellFormed(t) && WellKind(t, allow, k)
    ensures RESERVED in Apply(EffectOf(t, allow, k), c).bits <==> RESERVED in c.bits
  {
    hide Lower, IsName;
    if k.OnCommand? && k.found.SubOf? { assert k.found.sub in SubsOf(k.found.cmd); }
    if k.OnCommand? && k.found.Top? {
      assert forall s :: s in SubsOf(k.found.cmd) ==> s.id != RESERVED;
    }
  }

  lemma {:induction false} MeaningNoSubArgs(t: Table, rules: seq<string>, allow: bool)
    requires WellFormed(t) && AllRules(t, rules)
    ensures NoSubArgs(t, Meaning(t, rules, Everything(allow)))
  {
    hide WellFormed, EffectOf, Apply, TextOf, WellKind, Parse;
    if rules != [] {
      var init, last := rules[..|rules| - 1], rules[|rules| - 1];
      assert IsRule(t, last);
      var a, k :| WellKind(t, a, k) && last == TextOf(a, k);
      MeaningNoSubArgs(t, init, allow);
      EffectKeepsArgs(t, a, k, Meaning(t, init, Everything(allow)));
      assert init + [last] == rules;
      MeaningSnoc(t, init, a, k, Everything(allow));
    }
  }

  // Leaving out the rules that a new rule replaces makes no difference to what it does not decide.
  lemma {:induction false} DroppingAgrees(t: Table, rules: seq<string>, a: bool, k: Kind, allow: bool)
    requires WellFormed(t) && AllRules(t, rules) && WellKind(t, a, k)
    ensures var c := Everything(allow); var name := NameOf(k);
      Agree(EffectOf(t, a, k), Meaning(t, Remaining(rules, name), c), Meaning(t, rules, c))
  {
    hide WellFormed, EffectOf, Apply, TextOf, WellKind, Parse, Replaces, NoSubArgs, Agree, NameOf, Absorbed;
    var c, name, e := Everything(allow), NameOf(k), EffectOf(t, a, k);
    if rules == [] {
      AgreeSelf(e, Meaning(t, rules, c));
    } else {
      var init, last := rules[..|rules| - 1], rules[|rules| - 1];
      DroppingAgrees(t, init, a, k, allow);
      assert IsRule(t, last);
      var b, d :| WellKind(t, b, d) && last == TextOf(b, d);
      assert init + [last] == rules;
      TextIsToken(t, b, d);
      MeaningSnoc(t, init, b, d, c);
      MeaningNoSubArgs(t, init, allow);
      if Replaces(name, NameOf(d)) {
        Absorbs(t, a, k, b, d);
        assert Remaining(rules, name) == Remaining(init, name);
        Skip(t, e, EffectOf(t, b, d), Meaning(t, Remaining(init, name), c), Meaning(t, init, c));
      } else {
        Keep(e, EffectOf(t, b, d), Meaning(t, Remaining(init, name), c), Meaning(t, init, c));
        MeaningSnoc(t, Remaining(init, name), b, d, c);
      }
    }
  }

  lemma AgreeSelf(e: Effect, c: Core)
    ensures Agree(e, c, c)
  {}

  // The rules that remain are rules of before, in the same order, none of them replaced.
  lemma {:induction false} RemainingKeeps(t: Table, rules: seq<string>, name: string)
    requires AllRules(t, rules) && Settled(rules)
    ensures var r := Remaining(rules, name);
      && AllRules(t, r) && Settled(r) && (forall x :: x in r ==> x in rules)
      && (forall x :: x in r && x != "" ==> !Replaces(name, x[1..]))
  {
    hide IsRule, Replaces;
    if rules != [] {
      var init, last := rules[..|rules| - 1], rules[|rules| - 1];
      RemainingKeeps(t, init, name);
      var r := Remaining(init, name);
      forall i | 0 <= i < |r| && r[i] != "" && last != "" ensures !Replaces(last[1..], r[i][1..]) {
        assert r[i] in init;
        var j :| 0 <= j < |init| && init[j] == r[i];
        assert rules[j] == init[j];
      }
    }
  }

  lemma RuleKeepsInv(t: Table, allow: bool, k: Kind, s: Selector)
    requires WellFormed(t) && WellKind(t, allow, k) && Inv(t, s)
    ensures Inv(t, Selector(Apply(EffectOf(t, allow, k), s.core), Remaining(s.rules, NameOf(k)) + [TextOf(allow, k)]))
  {
    hide WellFormed, EffectOf, Apply, TextOf, WellKind, Parse, Replaces, NoSubArgs, Agree, NameOf, Everything, Meaning, Remaining;
    var c, e, text, rem := Everything(RESERVED in s.core.bits), EffectOf(t, allow, k), TextOf(allow, k), Remaining(s.rules, NameOf(k));
    RemainingKeeps(t, s.rules, NameOf(k));
    TextIsToken(t, allow, k);
    assert IsRule(t, text);
    EffectKeepsArgs(t, allow, k, s.core);
    EffectKeepsReserved(t, allow, k, s.core);
    DroppingAgrees(t, s.rules, allow, k, RESERVED in s.core.bits);
    Close(e, Meaning(t, rem, c), s.core);
    MeaningSnoc(t, rem, allow, k, c);
  }

  lemma StepKeepsInv(t: Table, op: string, s: Selector)
    requires WellFormed(t) && Plain(op) && Inv(t, s)
    ensures Inv(t, Step(t, op, s))
  {
    hide WellFormed, EffectOf, Apply, TextOf, WellKind, Parse, NameOf, Inv;
    var p := Parse(t, op);
    if p.Rule? {
      ParseIsWell(t, op);
      RuleKeepsInv(t, p.allow, p.kind, s);
    } else {
      EverythingIsInv(t, p.AllCommands?);
    }
  }

  lemma EverythingIsInv(t: Table, allow: bool)
    ensures Inv(t, Selector(Everything(allow), []))
  {
    assert Fits(RESERVED);
  }

  // ---------------------------------------------------------------------------------------------
  // Replaying
  // ---------------------------------------------------------------------------------------------

  // Settled rules stay as they are while they are applied again.
  lemma {:induction false} StepsOfRules(t: Table, rules: seq<string>, allow: bool)
    requires WellFormed(t) && AllRules(t, rules) && Settled(rules)
    ensures Steps(t, rules, Selector(Everything(allow), [])) == Selector(Meaning(t, rules, Everything(allow)), rules)
  {
    hide WellFormed, EffectOf, Apply, TextOf, WellKind, Parse, Replaces, Everything, Remaining;
    if rules != [] {
      var init, last := rules[..|rules| - 1], rules[|rules| - 1];
      StepsOfRules(t, init, allow);
      assert IsRule(t, last);
      var a, k :| WellKind(t, a, k) && last == TextOf(a, k);
      Reparse(t, a, k);
      EffectOfCanon(t, a, k);
      SameName(t, a, k);
      TextIsToken(t, a, k);
      assert forall i :: 0 <= i < |init| ==> init[i] == rules[i];
      NothingReplaced(init, NameOf(k));
      assert init + [last] == rules;
      MeaningSnoc(t, init, a, k, Everything(allow));
    }
  }

  lemma SameName(t: Table, allow: bool, k: Kind)
    ensures NameOf(Canon(k)) == NameOf(k)
  {
    if k.OnFirstArg? { LowerIdempotent(k.arg); }
  }

  lemma {:induction false} NothingReplaced(rules: seq<string>, name: string)
    requires forall i :: 0 <= i < |rules| && rules[i] != "" ==> !Replaces(name, rules[i][1..])
    ensures Remaining(rules, name) == rules
  {
    if rules != [] {
      NothingReplaced(rules[..|rules| - 1], name);
    }
  }

  lemma {:induction false} StepsKeepInv(t: Table, ops: seq<string>, s: Selector)
    requires WellFormed(t) && Inv(t, s) && forall op :: op in ops ==> Plain(op)
    ensures Inv(t, Steps(t, ops, s))
  {
    hide WellFormed, Plain, Inv, Step;
    if ops != [] {
      StepsKeepInv(t, ops[..|ops| - 1], s);
      StepKeepsInv(t, ops[|ops| - 1], Steps(t, ops[..|ops| - 1], s));
    }
  }

  // After any operations on a new selector, the kept rules rebuild the selector: its bitmap, its
  // first arguments and the rules themselves.
  lemma ReplayRebuilds(t: Table, ops: seq<string>)
    requires WellFormed(t) && forall op :: op in ops ==> Plain(op)
    ensures var s := Steps(t, ops, Selector(Everything(false), [])); Replay(t, s) == s
  {
    hide WellFormed, Plain, Steps;
    EverythingIsInv(t, false);
    StepsKeepInv(t, ops, Selector(Everything(false), []));
    var s := Steps(t, ops, Selector(Everything(false), []));
    StepsOfRules(t, s.rules, RESERVED in s.core.bits);
  }
}
