// Where the operations on a selector reach into the table of first arguments (acl.c).
module AclBounds {
  import opened AclRules
  import opened AclCommands
  import opened AclReplay

  // The table has BITS entries, once there is one. Forgetting the first arguments of a command reads the
  // entry of the command if there is a table; allowing one makes the table, and writes the entry.
  predicate Reaches(e: Effect, table: bool) {
    match e
    case Touch(_, resets, _) => table ==> forall i :: i in resets ==> i < BITS
    case AddArg(id, _) => id < BITS
  }

  // All that the operation touches is in the table.
  predicate OpReaches(t: Table, op: string, table: bool) {
    var p := Parse(t, op);
    p.Rule? ==> Reaches(EffectOf(t, p.allow, p.kind), table)
  }

  // Whether there is a table afterwards.
  function TableAfter(t: Table, op: string, table: bool): bool {
    match Parse(t, op)
    case AllCommands => false
    case NoCommands => false
    case Rule(_, kind) => table || kind.OnFirstArg?
    case _ => table
  }

  function TableAfterAll(t: Table, ops: seq<string>, table: bool): bool {
    if ops == [] then table
    else TableAfter(t, ops[|ops| - 1], TableAfterAll(t, ops[..|ops| - 1], table))
  }

  predicate AllReach(t: Table, ops: seq<string>, table: bool) {
    ops == [] ||
    (AllReach(t, ops[..|ops| - 1], table) &&
     OpReaches(t, ops[|ops| - 1], TableAfterAll(t, ops[..|ops| - 1], table)))
  }

  // Which numbers an operation needs to be below BITS, by the text of its rule.
  lemma ReachExactly(t: Table, allow: bool, k: Kind, table: bool)
    requires WellFormed(t) && WellKind(t, allow, k)
    ensures OpReaches(t, TextOf(allow, k), table) <==>
      match k
      case OnFirstArg(c, _) => c.id < BITS
      case OnCommand(Top(c)) => table ==> c.id < BITS
      case OnCommand(SubOf(_, s)) => table ==> s.id < BITS
      case OnCategory(cat) => table ==> forall i :: i in InCategory(t.cmds, cat) ==> i < BITS
  {
    hide WellFormed, Parse, TextOf, InCategory;
    Reparse(t, allow, k);
    EffectOfCanon(t, allow, k);
  }

  lemma ReachesLess(e: Effect, a: bool, b: bool)
    requires Reaches(e, a) && (b ==> a)
    ensures Reaches(e, b)
  {}

  lemma AllReachSnoc(t: Table, ops: seq<string>, op: string, table: bool)
    ensures AllReach(t, ops + [op], table) <==>
      AllReach(t, ops, table) && OpReaches(t, op, TableAfterAll(t, ops, table))
    ensures TableAfterAll(t, ops + [op], table) == TableAfter(t, op, TableAfterAll(t, ops, table))
  {
    assert (ops + [op])[..|ops|] == ops;
  }

  // Fewer rules reach no further, and leave no table where there was none.
  lemma {:induction false} RemainingReach(t: Table, rules: seq<string>, name: string)
    requires WellFormed(t) && AllRules(t, rules) && AllReach(t, rules, false)
    ensures AllReach(t, Remaining(rules, name), false)
    ensures TableAfterAll(t, Remaining(rules, name), false) ==> TableAfterAll(t, rules, false)
  {
    hide WellFormed, Replaces, Parse, EffectOf, Reaches;
    if rules != [] {
      var init, last := rules[..|rules| - 1], rules[|rules| - 1];
      RemainingReach(t, init, name);
      assert IsRule(t, last);
      RuleOf(t, last);
      var rem := Remaining(init, name);
      var p := Parse(t, last);
      if last != "" && Replaces(name, last[1..]) {
        assert Remaining(rules, name) == rem + [] == rem;
      } else {
        ReachesLess(EffectOf(t, p.allow, p.kind), TableAfterAll(t, init, false), TableAfterAll(t, rem, false));
        AllReachSnoc(t, rem, last, false);
      }
    }
  }

  lemma RuleOf(t: Table, text: string)
    requires WellFormed(t) && IsRule(t, text)
    ensures Parse(t, text).Rule?
  {
    var allow, k :| WellKind(t, allow, k) && text == TextOf(allow, k);
    Reparse(t, allow, k);
  }

  // The rules that are kept reach no further than what was done, and there is a table if they make one.
  ghost predicate Bounded(t: Table, s: Selector, table: bool) {
    AllReach(t, s.rules, false) && (TableAfterAll(t, s.rules, false) ==> table)
  }

  lemma StepBounded(t: Table, op: string, s: Selector, table: bool)
    requires WellFormed(t) && Plain(op) && Inv(t, s) && Bounded(t, s, table) && OpReaches(t, op, table)
    ensures Bounded(t, Step(t, op, s), TableAfter(t, op, table))
  {
    hide WellFormed, Replaces, Parse, EffectOf, Meaning, Reaches, Remaining;
    var p := Parse(t, op);
    if p.Rule? {
      var text, rem := TextOf(p.allow, p.kind), Remaining(s.rules, NameOf(p.kind));
      ParseIsWell(t, op);
      Reparse(t, p.allow, p.kind);
      EffectOfCanon(t, p.allow, p.kind);
      RemainingReach(t, s.rules, NameOf(p.kind));
      ReachesLess(EffectOf(t, p.allow, p.kind), table, TableAfterAll(t, rem, false));
      AllReachSnoc(t, rem, text, false);
    }
  }

  // As long as the operations on a new selector stay in the table, so does applying the rules that are kept.
  lemma {:induction false} RulesReach(t: Table, ops: seq<string>)
    requires WellFormed(t) && (forall op :: op in ops ==> Plain(op)) && AllReach(t, ops, false)
    ensures Bounded(t, Steps(t, ops, Selector(Everything(false), [])), TableAfterAll(t, ops, false))
  {
    hide WellFormed, Step, Plain, OpReaches, TableAfter, Inv;
    var start := Selector(Everything(false), []);
    if ops != [] {
      var init := ops[..|ops| - 1];
      RulesReach(t, init);
      EverythingIsInv(t, false);
      StepsKeepInv(t, init, start);
      StepBounded(t, ops[|ops| - 1], Steps(t, init, start), TableAfterAll(t, init, false));
    }
  }
}
