// A selector as it is kept in memory: a bitmap, lists of first arguments, a text of rules (acl.c).
module AclSelector {
  import opened AclRules
  import opened AclCommands
  import opened AclReplay
  import opened AclBounds

  const WORDS: nat := 16

  // ---------------------------------------------------------------------------------------------
  // Bits of words
  // ---------------------------------------------------------------------------------------------

  function And(a: bv64, b: bv64): bv64 { a & b }
  function Or(a: bv64, b: bv64): bv64 { a | b }
  function AndNot(a: bv64, b: bv64): bv64 { a & !b }

  function Bit(i: nat): bv64
    requires i < 64
  {
    1 << i
  }

  predicate Has(w: bv64, i: nat)
    requires i < 64
  {
    And(w, Bit(i)) != 0
  }

  function With(w: bv64, i: nat): bv64
    requires i < 64
  {
    Or(w, Bit(i))
  }

  function Without(w: bv64, i: nat): bv64
    requires i < 64
  {
    AndNot(w, Bit(i))
  }

  lemma BitsApart(i: nat, j: nat)
    requires i < 64 && j < 64 && i != j
    ensures And(Bit(i), Bit(j)) == 0
  {}

  lemma BitIsSet(i: nat)
    requires i < 64
    ensures Bit(i) != 0
  {}

  lemma OrMaskRaw(w: bv64, a: bv64, b: bv64)
    requires a & b == 0
    ensures (w | a) & b == w & b
  {}

  lemma OrMask(w: bv64, a: bv64, b: bv64)
    requires And(a, b) == 0
    ensures And(Or(w, a), b) == And(w, b)
  {
    OrMaskRaw(w, a, b);
  }

  lemma AndNotMask(w: bv64, a: bv64, b: bv64)
    requires And(a, b) == 0
    ensures And(AndNot(w, a), b) == And(w, b)
  {
    assert (w & !a) & b == (w & b) & !(a & b);
  }

  lemma SameMask(w: bv64, a: bv64)
    ensures And(Or(w, a), a) == a && And(AndNot(w, a), a) == 0
  {}

  lemma WithHas(w: bv64, i: nat, j: nat)
    requires i < 64 && j < 64
    ensures Has(With(w, i), j) <==> i == j || Has(w, j)
    ensures Has(Without(w, i), j) <==> i != j && Has(w, j)
  {
    hide Bit, And, Or, AndNot;
    BitIsSet(i);
    if i == j {
      SameMask(w, Bit(i));
    } else {
      BitsApart(i, j);
      OrMask(w, Bit(i), Bit(j));
      AndNotMask(w, Bit(i), Bit(j));
    }
  }

  lemma FullHas(j: nat)
    requires j < 64
    ensures Has(0xffff_ffff_ffff_ffff, j) && !Has(0, j)
  {
    assert 0xffff_ffff_ffff_ffff & ((1 as bv64) << j) != 0;
  }

  // ---------------------------------------------------------------------------------------------
  // The bitmap
  // ---------------------------------------------------------------------------------------------

  predicate Allows(words: seq<bv64>, id: nat)
    requires |words| == WORDS && id < BITS
  {
    Has(words[id / 64], id % 64)
  }

  ghost function BitsOf(words: seq<bv64>): set<nat>
    requires |words| == WORDS
  {
    set id: nat | id < BITS && Allows(words, id)
  }

  lemma SetBit(words: seq<bv64>, id: nat, value: bool)
    requires |words| == WORDS && id < BITS
    ensures var w := words[id / 64];
      BitsOf(words[id / 64 := if value then With(w, id % 64) else Without(w, id % 64)])
      == if value then BitsOf(words) + {id} else BitsOf(words) - {id}
  {
    hide Has, With, Without;
    var w := words[id / 64];
    var after := words[id / 64 := if value then With(w, id % 64) else Without(w, id % 64)];
    forall j: nat | j < BITS ensures Allows(after, j) <==> if value then Allows(words, j) || j == id else Allows(words, j) && j != id {
      WithHas(w, id % 64, j % 64);
    }
  }

  lemma FullBits(words: seq<bv64>, allow: bool)
    requires |words| == WORDS
    requires forall i :: 0 <= i < WORDS ==> words[i] == if allow then 0xffff_ffff_ffff_ffff else 0
    ensures BitsOf(words) == Everything(allow).bits
  {
    hide Has;
    forall j: nat | j < BITS ensures Allows(words, j) == allow {
      FullHas(j % 64);
    }
    if allow {
      assert forall j: nat | j < BITS :: Fits(j) && Allows(words, j);
    }
  }

  // ---------------------------------------------------------------------------------------------
  // First arguments
  // ---------------------------------------------------------------------------------------------

  // The entries of the table, by command number.
  ghost function ArgsOf(table: seq<seq<string>>): set<(nat, string)> {
    set id, j | 0 <= id < |table| && 0 <= j < |table[id]| :: (id, Lower(table[id][j]))
  }

  lemma ArgsWithout(table: seq<seq<string>>, id: nat)
    requires id < |table|
    ensures ArgsOf(table[id := []]) == set p | p in ArgsOf(table) && p.0 !in {id}
  {
    hide Lower;
    var after := table[id := []];
    forall p ensures p in ArgsOf(after) <==> p in ArgsOf(table) && p.0 != id {
      if p in ArgsOf(table) && p.0 != id {
        var i, j :| 0 <= i < |table| && 0 <= j < |table[i]| && p == (i, Lower(table[i][j]));
        assert after[i][j] == table[i][j];
      }
    }
  }

  lemma ArgsWith(table: seq<seq<string>>, id: nat, sub: string)
    requires id < |table|
    ensures ArgsOf(table[id := table[id] + [sub]]) == ArgsOf(table) + {(id, Lower(sub))}
  {
    hide Lower;
    var list := table[id];
    var after := table[id := list + [sub]];
    assert after[id][|list|] == sub;
    forall p ensures p in ArgsOf(after) <==> p in ArgsOf(table) + {(id, Lower(sub))} {
      if p in ArgsOf(table) {
        var i, j :| 0 <= i < |table| && 0 <= j < |table[i]| && p == (i, Lower(table[i][j]));
        assert after[i][j] == table[i][j];
      }
    }
  }

  lemma ArgsNone(table: seq<seq<string>>)
    requires forall i :: 0 <= i < |table| ==> table[i] == []
    ensures ArgsOf(table) == {}
  {}

  // ---------------------------------------------------------------------------------------------
  // Effects one after the other
  // ---------------------------------------------------------------------------------------------

  lemma Together(i: set<nat>, r: set<nat>, j: set<nat>, q: set<nat>, allow: bool, c: Core)
    ensures Apply(Touch(j, q, allow), Apply(Touch(i, r, allow), c)) == Apply(Touch(i + j, r + q, allow), c)
  {
    var x, y := Apply(Touch(j, q, allow), Apply(Touch(i, r, allow), c)), Apply(Touch(i + j, r + q, allow), c);
    assert x.bits == y.bits;
    assert x.args == y.args;
  }

  lemma Untouched(allow: bool, c: Core)
    ensures Apply(Touch({}, {}, allow), c) == c
  {
    assert Apply(Touch({}, {}, allow), c).args == c.args;
    assert Apply(Touch({}, {}, allow), c).bits == c.bits;
  }

  // ---------------------------------------------------------------------------------------------
  // The bitmap and the first arguments
  // ---------------------------------------------------------------------------------------------

  class Permissions {
    const words: array<bv64>
    // allowed_firstargs, which is NULL unless there is a table; no arguments stand for NULL in an entry.
    const firstArgs: array<seq<string>>
    var table: bool
    // SELECTOR_FLAG_ALLCOMMANDS
    var allCommands: bool
    // An access was outside of the table of first arguments, so that the behaviour is undefined.
    var strayed: bool

    ghost predicate Valid()
      reads this, firstArgs
    {
      && words.Length == WORDS && firstArgs.Length == BITS && words as object != firstArgs
      && (!table ==> forall i :: 0 <= i < BITS ==> firstArgs[i] == [])
    }

    ghost function View(): Core
      requires Valid()
      reads this, words, firstArgs
    {
      Core(BitsOf(words[..]), ArgsOf(firstArgs[..]))
    }

    // ACLCreateSelector
    constructor ()
      ensures Valid() && fresh(words) && fresh(firstArgs) && View() == Everything(false) && !allCommands && !table && !strayed
    {
      words := new bv64[WORDS](_ => 0);
      firstArgs := new seq<string>[BITS](_ => []);
      table, allCommands, strayed := false, false, false;
      new;
      FullBits(words[..], false);
      ArgsNone(firstArgs[..]);
    }

    // ACLResetFirstArgs
    method ResetFirstArgs()
      requires Valid()
      modifies `table, firstArgs
      ensures Valid() && !table && View() == Core(old(View().bits), {})
    {
      hide BitsOf, ArgsOf;
      if table {
        var j := 0;
        while j < BITS
          invariant 0 <= j <= BITS && forall i :: 0 <= i < j ==> firstArgs[i] == []
        {
          firstArgs[j] := [];
          j := j + 1;
        }
        table := false;
      }
      ArgsNone(firstArgs[..]);
      assert words[..] == old(words[..]);
    }

    // memset and ACLResetFirstArgs, for +@all and -@all.
    method SetAll(allow: bool)
      requires Valid()
      modifies `table, `allCommands, words, firstArgs
      ensures Valid() && View() == Everything(allow) && allCommands == allow && !table
    {
      var i := 0;
      while i < WORDS
        invariant 0 <= i <= WORDS && Valid()
        invariant forall j :: 0 <= j < i ==> words[j] == if allow then 0xffff_ffff_ffff_ffff else 0
      {
        words[i] := if allow then 0xffff_ffff_ffff_ffff else 0;
        i := i + 1;
      }
      allCommands := allow;
      FullBits(words[..], allow);
      ResetFirstArgs();
    }

    // ACLGetSelectorCommandBit
    method GetCommandBit(id: nat) returns (yes: bool)
      requires Valid()
      ensures yes <==> id in View().bits
    {
      if id >= BITS {
        return false;
      }
      yes := Has(words[id / 64], id % 64);
      assert yes == Allows(words[..], id);
    }

    // ACLSetSelectorCommandBit
    method SetCommandBit(id: nat, value: bool)
      requires Valid()
      modifies words, `allCommands
      ensures Valid() && View() == Apply(Touch({id}, {}, value), old(View()))
      ensures View().args == old(View()).args
      ensures View().bits == if id >= BITS then old(View()).bits else if value then old(View()).bits + {id} else old(View()).bits - {id}
      ensures allCommands == (old(allCommands) && (value || id >= BITS))
    {
      hide With, Without, BitsOf, ArgsOf;
      ghost var before := words[..];
      assert firstArgs[..] == old(firstArgs[..]);
      if id < BITS {
        SetBit(words[..], id, value);
        if value {
          words[id / 64] := With(words[id / 64], id % 64);
        } else {
          words[id / 64] := Without(words[id / 64], id % 64);
          allCommands := false;
        }
        assert words[..] == before[id / 64 := words[id / 64]];
        assert Fits(id) && Fitting({id}) == {id};
      } else {
        assert Fitting({id}) == {};
      }
      assert View().args == Apply(Touch({id}, {}, value), old(View())).args;
    }

    // ACLResetFirstArgsForCommand
    method ResetFirstArgsForCommand(id: nat, ghost allow: bool)
      requires Valid()
      modifies `strayed, firstArgs
      ensures Valid() && strayed == (old(strayed) || !Reaches(Touch({}, {id}, allow), table))
      ensures !strayed ==> View() == Apply(Touch({}, {id}, allow), old(View()))
    {
      hide BitsOf, ArgsOf;
      ghost var before := firstArgs[..];
      if table {
        if id >= BITS {
          strayed := true;
          return;
        }
        ArgsWithout(before, id);
        firstArgs[id] := [];
        assert firstArgs[..] == before[id := []];
      } else {
        ArgsNone(before);
      }
      assert View().bits == Apply(Touch({}, {id}, allow), old(View())).bits;
    }

    // ACLAddAllowedFirstArg
    method AddAllowedFirstArg(id: nat, sub: string)
      requires Valid()
      modifies `strayed, `table, firstArgs
      ensures Valid() && table && strayed == (old(strayed) || !Reaches(AddArg(id, Lower(sub)), old(table)))
      ensures !strayed ==> View() == Apply(AddArg(id, Lower(sub)), old(View()))
    {
      hide Lower, BitsOf;
      table := true;
      if id >= BITS {
        strayed := true;
        return;
      }
      ghost var before := firstArgs[..];
      var items := 0;
      while items < |firstArgs[id]|
        invariant 0 <= items <= |firstArgs[id]|
      {
        if Lower(firstArgs[id][items]) == Lower(sub) {
          assert (id, Lower(before[id][items])) in ArgsOf(before);
          assert View().args == old(View()).args + {(id, Lower(sub))};
          return;
        }
        items := items + 1;
      }
      ArgsWith(before, id, sub);
      firstArgs[id] := firstArgs[id] + [sub];
      assert firstArgs[..] == before[id := before[id] + [sub]];
    }

    // ACLChangeSelectorPerm
    method ChangePerm(id: nat, subs: seq<Sub>, allow: bool)
      requires Valid()
      modifies `strayed, `allCommands, words, firstArgs
      ensures Valid() && strayed == (old(strayed) || !Reaches(Touch({id} + SubIds(subs), {id}, allow), table))
      ensures !strayed ==> View() == Apply(Touch({id} + SubIds(subs), {id}, allow), old(View()))
    {
      hide View, Apply;
      ghost var before := View();
      SetCommandBit(id, allow);
      ResetFirstArgsForCommand(id, allow);
      Together({id}, {}, {}, {id}, allow, before);
      var i := 0;
      assert {id} + {} + SubIds(subs[..0]) == {id} && {} + {id} == {id};
      while i < |subs|
        invariant 0 <= i <= |subs| && Valid() && strayed == (old(strayed) || (table && id >= BITS))
        invariant !strayed ==> View() == Apply(Touch({id} + SubIds(subs[..i]), {id}, allow), before)
      {
        SetCommandBit(subs[i].id, allow);
        Together({id} + SubIds(subs[..i]), {id}, {subs[i].id}, {}, allow, before);
        NextSub(subs, i);
        assert {id} + SubIds(subs[..i]) + {subs[i].id} == {id} + SubIds(subs[..i + 1]) && {id} + {} == {id};
        i := i + 1;
      }
      assert subs[..i] == subs;
    }

    // ACLSetSelectorCommandBitsForCategory, on the subcommands of a command.
    method SetSubcommandsForCategory(subs: seq<Sub>, cat: string, allow: bool)
      requires Valid()
      modifies `strayed, `allCommands, words, firstArgs
      ensures Valid()
      ensures var ids := SubsInCategory(subs, cat);
        && strayed == (old(strayed) || !Reaches(Touch(ids, ids, allow), table))
        && (!strayed ==> View() == Apply(Touch(ids, ids, allow), old(View())))
    {
      hide View, Apply;
      ghost var before := View();
      Untouched(allow, before);
      assert SubsInCategory(subs[..0], cat) == {};
      var i := 0;
      while i < |subs|
        invariant 0 <= i <= |subs| && Valid()
        invariant var ids := SubsInCategory(subs[..i], cat);
          && strayed == (old(strayed) || !Reaches(Touch(ids, ids, allow), table))
          && (!strayed ==> View() == Apply(Touch(ids, ids, allow), before))
      {
        ghost var ids := SubsInCategory(subs[..i], cat);
        assert subs[..i + 1] == subs[..i] + [subs[i]];
        if cat in subs[i].cats {
          ChangePerm(subs[i].id, [], allow);
          assert {subs[i].id} + SubIds([]) == {subs[i].id};
          Together(ids, ids, {subs[i].id}, {subs[i].id}, allow, before);
          assert SubsInCategory(subs[..i + 1], cat) == ids + {subs[i].id};
        } else {
          assert SubsInCategory(subs[..i + 1], cat) == ids;
        }
        i := i + 1;
      }
      assert subs[..i] == subs;
    }

    // ACLSetSelectorCommandBitsForCategory
    method SetCommandBitsForCategory(cmds: seq<Cmd>, cat: string, allow: bool)
      requires Valid()
      modifies `strayed, `allCommands, words, firstArgs
      ensures Valid() && strayed == (old(strayed) || !Reaches(CategoryEffect(cmds, cat, allow), table))
      ensures !strayed ==> View() == Apply(CategoryEffect(cmds, cat, allow), old(View()))
    {
      hide View, Apply, CategoryEffect, Reaches;
      ghost var before := View();
      EmptyCategory(cat, allow, before);
      var i := 0;
      while i < |cmds|
        invariant 0 <= i <= |cmds| && Valid()
        invariant strayed == (old(strayed) || !Reaches(CategoryEffect(cmds[..i], cat, allow), table))
        invariant !strayed ==> View() == Apply(CategoryEffect(cmds[..i], cat, allow), before)
      {
        ghost var c := cmds[i];
        if cat in cmds[i].cats {
          ChangePerm(cmds[i].id, SubsOf(cmds[i]), allow);
        }
        SetSubcommandsForCategory(SubsOf(cmds[i]), cat, allow);
        NextInCategory(cmds[..i], cmds[i], cat, allow, before);
        NextReaches(cmds[..i], cmds[i], cat, allow, table);
        assert cmds[..i + 1] == cmds[..i] + [cmds[i]];
        i := i + 1;
      }
      assert cmds[..i] == cmds;
    }
  }

  lemma NextSub(subs: seq<Sub>, i: nat)
    requires i < |subs|
    ensures SubIds(subs[..i + 1]) == SubIds(subs[..i]) + {subs[i].id}
  {
    assert subs[..i + 1] == subs[..i] + [subs[i]];
  }

  function SubsInCategory(subs: seq<Sub>, cat: string): set<nat> { set s | s in subs && cat in s.cats :: s.id }

  function CategoryEffect(cmds: seq<Cmd>, cat: string, allow: bool): Effect {
    Touch(InCategory(cmds, cat) + UnderCategory(cmds, cat), InCategory(cmds, cat), allow)
  }

  lemma EmptyCategory(cat: string, allow: bool, c: Core)
    ensures Apply(CategoryEffect([], cat, allow), c) == c
    ensures forall table :: Reaches(CategoryEffect([], cat, allow), table)
  {
    hide Apply;
    Untouched(allow, c);
    assert InCategory([], cat) == {};
    assert UnderCategory([], cat) == {};
    assert CategoryEffect([], cat, allow) == Touch({}, {}, allow);
  }

  lemma NextCategorySets(cmds: seq<Cmd>, c: Cmd, cat: string)
    ensures InCategory(cmds + [c], cat) ==
      InCategory(cmds, cat) + (if cat in c.cats then {c.id} else {}) + SubsInCategory(SubsOf(c), cat)
    ensures UnderCategory(cmds + [c], cat) == UnderCategory(cmds, cat) + if cat in c.cats then SubIds(SubsOf(c)) else {}
  {
    hide SubsOf;
    var own := if cat in c.cats then {c.id} else {};
    var in0, ids, in1 := InCategory(cmds, cat), SubsInCategory(SubsOf(c), cat), InCategory(cmds + [c], cat);
    assert forall d :: d in cmds + [c] <==> d in cmds || d == c;
    assert in1 <= in0 + own + ids;
    assert in0 <= in1 && own <= in1 && ids <= in1;
  }

  lemma NextInCategory(cmds: seq<Cmd>, c: Cmd, cat: string, allow: bool, before: Core)
    ensures var d := Apply(CategoryEffect(cmds, cat, allow), before);
      var e := if cat in c.cats then Apply(Touch({c.id} + SubIds(SubsOf(c)), {c.id}, allow), d) else d;
      var ids := SubsInCategory(SubsOf(c), cat);
      Apply(Touch(ids, ids, allow), e) == Apply(CategoryEffect(cmds + [c], cat, allow), before)
  {
    hide Apply, SubsOf, InCategory, UnderCategory, SubIds, SubsInCategory;
    var in0, under0 := InCategory(cmds, cat), UnderCategory(cmds, cat);
    var ids, subs := SubsInCategory(SubsOf(c), cat), SubIds(SubsOf(c));
    NextCategorySets(cmds, c, cat);
    var in1, under1 := InCategory(cmds + [c], cat), UnderCategory(cmds + [c], cat);
    if cat in c.cats {
      Together(in0 + under0, in0, {c.id} + subs, {c.id}, allow, before);
      Together(in0 + under0 + ({c.id} + subs), in0 + {c.id}, ids, ids, allow, before);
      assert in0 + under0 + ({c.id} + subs) + ids == in1 + under1;
    } else {
      Together(in0 + under0, in0, ids, ids, allow, before);
      assert in0 + under0 + ids == in1 + under1;
      assert in0 + ids == in1;
    }
  }

  lemma NextReaches(cmds: seq<Cmd>, c: Cmd, cat: string, allow: bool, table: bool)
    ensures var ids := SubsInCategory(SubsOf(c), cat);
      Reaches(CategoryEffect(cmds + [c], cat, allow), table) <==>
        && Reaches(CategoryEffect(cmds, cat, allow), table)
        && (cat in c.cats ==> Reaches(Touch({c.id} + SubIds(SubsOf(c)), {c.id}, allow), table))
        && Reaches(Touch(ids, ids, allow), table)
  {
    hide SubsOf, InCategory, UnderCategory, SubIds, SubsInCategory;
    NextCategorySets(cmds, c, cat);
  }

  // ---------------------------------------------------------------------------------------------
  // Equal sets come from equal words
  // ---------------------------------------------------------------------------------------------

  function LowMask(n: nat): bv64
    requires n < 64
  {
    !((0xffff_ffff_ffff_ffff as bv64) << n)
  }

  lemma NextMaskRaw(n: nat)
    requires n < 63
    ensures !((0xffff_ffff_ffff_ffff as bv64) << (n + 1)) == !((0xffff_ffff_ffff_ffff as bv64) << n) | (1 << n)
  {}

  lemma NextMask(n: nat)
    requires n < 63
    ensures LowMask(n + 1) == Or(LowMask(n), Bit(n))
  {
    NextMaskRaw(n);
  }

  lemma FirstMask(w: bv64)
    ensures And(w, LowMask(0)) == 0
  {}

  lemma LastMask()
    ensures Or(LowMask(63), Bit(63)) == 0xffff_ffff_ffff_ffff
  {
    assert !((0xffff_ffff_ffff_ffff as bv64) << 63) == 0x7fff_ffff_ffff_ffff;
    assert (1 as bv64) << 63 == 0x8000_0000_0000_0000;
  }

  lemma FullMask(w: bv64)
    ensures And(w, 0xffff_ffff_ffff_ffff) == w
  {}

  lemma ClearOnBothRaw(w: bv64, a: bv64, b: bv64)
    requires w & a == 0 && w & b == 0
    ensures w & (a | b) == 0
  {}

  lemma ClearOnBoth(w: bv64, a: bv64, b: bv64)
    requires And(w, a) == 0 && And(w, b) == 0
    ensures And(w, Or(a, b)) == 0
  {
    ClearOnBothRaw(w, a, b);
  }

  lemma {:induction false} ClearLow(w: bv64, n: nat)
    requires n < 64 && forall i :: 0 <= i < 64 ==> !Has(w, i)
    ensures And(w, LowMask(n)) == 0
  {
    hide And, Or, Bit, LowMask;
    if n == 0 {
      FirstMask(w);
    } else {
      ClearLow(w, n - 1);
      NextMask(n - 1);
      assert !Has(w, n - 1);
      ClearOnBoth(w, LowMask(n - 1), Bit(n - 1));
    }
  }

  lemma ClearWord(w: bv64)
    requires forall i :: 0 <= i < 64 ==> !Has(w, i)
    ensures w == 0
  {
    hide And, Or, Bit, LowMask;
    ClearLow(w, 63);
    assert !Has(w, 63);
    ClearOnBoth(w, LowMask(63), Bit(63));
    LastMask();
    FullMask(w);
  }

  function Differ(v: bv64, w: bv64): bv64 { v ^ w }

  lemma DifferMaskRaw(v: bv64, w: bv64, b: bv64)
    requires v & b == w & b
    ensures (v ^ w) & b == 0
  {}

  lemma DifferMask(v: bv64, w: bv64, b: bv64)
    requires And(v, b) == And(w, b)
    ensures And(Differ(v, w), b) == 0
  {
    DifferMaskRaw(v, w, b);
  }

  lemma AndBit(w: bv64, n: nat)
    requires n < 64
    ensures And(w, Bit(n)) == if Has(w, n) then Bit(n) else 0
  {}

  lemma DifferHas(v: bv64, w: bv64, i: nat)
    requires i < 64 && Has(v, i) == Has(w, i)
    ensures !Has(Differ(v, w), i)
  {
    hide And, Bit, Differ;
    AndBit(v, i);
    AndBit(w, i);
    DifferMask(v, w, Bit(i));
  }

  lemma SameWord(v: bv64, w: bv64)
    requires forall i :: 0 <= i < 64 ==> Has(v, i) == Has(w, i)
    ensures v == w
  {
    hide Has, Differ;
    forall i | 0 <= i < 64 ensures !Has(Differ(v, w), i) {
      DifferHas(v, w, i);
    }
    ClearWord(Differ(v, w));
    DifferZero(v, w);
  }

  lemma DifferZero(v: bv64, w: bv64)
    requires Differ(v, w) == 0
    ensures v == w
  {}

  lemma SameWords(v: seq<bv64>, w: seq<bv64>)
    requires |v| == |w| == WORDS && BitsOf(v) == BitsOf(w)
    ensures v == w
  {
    hide Has;
    forall k | 0 <= k < WORDS ensures v[k] == w[k] {
      forall i | 0 <= i < 64 ensures Has(v[k], i) == Has(w[k], i) {
        assert (64 * k + i) / 64 == k && (64 * k + i) % 64 == i;
        assert Allows(v, 64 * k + i) <==> 64 * k + i in BitsOf(v);
        assert Allows(w, 64 * k + i) <==> 64 * k + i in BitsOf(w);
      }
      SameWord(v[k], w[k]);
    }
  }
}
