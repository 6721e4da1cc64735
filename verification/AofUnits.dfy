// Execution units: what one event of the server adds to the log, and what any prefix of the log executes
// (aof.c; propagatePendingCommands of server.c).
module AofUnits {
  import opened Basics
  import opened Resp
  import opened AofLog
  import opened AofRewrite
  import opened AofRebuild

  // ---------------------------------------------------------------------------------------------
  // The client of the loader, going on from wherever it is
  // ---------------------------------------------------------------------------------------------

  function StepAll(look: Lookup, c: Client, cs: seq<Argv>): Client {
    if cs == [] then c else Step(look, StepAll(look, c, cs[..|cs| - 1]), cs[|cs| - 1])
  }

  lemma {:induction false} RunConcat(look: Lookup, a: seq<Argv>, b: seq<Argv>)
    ensures Run(look, a + b) == StepAll(look, Run(look, a), b)
  {
    hide Step;
    if b == [] {
      assert a + b == a;
    } else {
      assert (a + b)[..|a + b| - 1] == a + b[..|b| - 1];
      RunConcat(look, a, b[..|b| - 1]);
    }
  }

  lemma {:induction false} StepAllConcat(look: Lookup, c: Client, a: seq<Argv>, b: seq<Argv>)
    ensures StepAll(look, c, a + b) == StepAll(look, StepAll(look, c, a), b)
  {
    hide Step;
    if b == [] {
      assert a + b == a;
    } else {
      assert (a + b)[..|a + b| - 1] == a + b[..|b| - 1];
      StepAllConcat(look, c, a, b[..|b| - 1]);
    }
  }

  lemma StepOne(look: Lookup, c: Client, argv: Argv)
    ensures StepAll(look, c, [argv]) == Step(look, c, argv)
  {
    assert [argv][..0] == [];
  }

  // SELECT, or a command that is neither MULTI nor EXEC.
  predicate IsPlain(look: Lookup, argv: Argv) { look(argv).Select? || look(argv).Other? }

  ghost predicate AllPlain(look: Lookup, cs: seq<Argv>) { forall i :: 0 <= i < |cs| ==> IsPlain(look, cs[i]) }

  // Outside of a transaction plain commands are called.
  lemma {:induction false} PlainSteps(look: Lookup, c: Client, cs: seq<Argv>)
    requires !c.multi && AllPlain(look, cs)
    ensures StepAll(look, c, cs) == CallAll(look, c, cs) && !CallAll(look, c, cs).multi
  {
    if cs != [] {
      PlainSteps(look, c, cs[..|cs| - 1]);
      assert IsPlain(look, cs[|cs| - 1]);
    }
  }

  // Inside of one they are queued.
  lemma {:induction false} QueuedSteps(look: Lookup, c: Client, cs: seq<Argv>)
    requires c.multi && AllPlain(look, cs)
    ensures StepAll(look, c, cs) == c.(queue := c.queue + cs)
  {
    if cs == [] {
      assert c.queue + cs == c.queue;
    } else {
      var init, last := cs[..|cs| - 1], cs[|cs| - 1];
      QueuedSteps(look, c, init);
      assert IsPlain(look, last);
      assert c.queue + init + [last] == c.queue + cs;
    }
  }

  // ---------------------------------------------------------------------------------------------
  // Feeding, going on from a selected database
  // ---------------------------------------------------------------------------------------------

  function SelectedAfter(selected: int, feeds: seq<Feed>): int {
    if feeds == [] then selected
    else
      var last := feeds[|feeds| - 1];
      if last.db == -1 then SelectedAfter(selected, feeds[..|feeds| - 1]) else last.db
  }

  function EmitAll(selected: int, feeds: seq<Feed>): seq<Argv> {
    if feeds == [] then []
    else
      var init := feeds[..|feeds| - 1];
      EmitAll(selected, init) + Emit(SelectedAfter(selected, init), feeds[|feeds| - 1])
  }

  lemma {:induction false} EmitFromNothing(feeds: seq<Feed>)
    ensures Commands(feeds) == EmitAll(-1, feeds) && Selected(feeds) == SelectedAfter(-1, feeds)
  {
    hide Emit;
    if feeds != [] {
      EmitFromNothing(feeds[..|feeds| - 1]);
    }
  }

  lemma {:induction false} EmitConcat(selected: int, a: seq<Feed>, b: seq<Feed>)
    ensures EmitAll(selected, a + b) == EmitAll(selected, a) + EmitAll(SelectedAfter(selected, a), b)
    ensures SelectedAfter(selected, a + b) == SelectedAfter(SelectedAfter(selected, a), b)
  {
    hide Emit;
    if b == [] {
      assert a + b == a;
    } else {
      assert (a + b)[..|a + b| - 1] == a + b[..|b| - 1];
      EmitConcat(selected, a, b[..|b| - 1]);
    }
  }

  lemma EmitOne(selected: int, f: Feed)
    ensures EmitAll(selected, [f]) == Emit(selected, f) && SelectedAfter(selected, [f]) == if f.db == -1 then selected else f.db
  {
    assert [f][..0] == [];
  }

  // A command with an effect of its own.
  ghost predicate Ordinary(look: Lookup, f: Feed) { Feedable(look, f) && look(f.argv).Other? }

  ghost predicate AllOrdinary(look: Lookup, feeds: seq<Feed>) { forall i :: 0 <= i < |feeds| ==> Ordinary(look, feeds[i]) }

  lemma {:induction false} EmitPlain(look: Lookup, selected: int, feeds: seq<Feed>)
    requires Selects(look) && AllOrdinary(look, feeds)
    ensures AllPlain(look, EmitAll(selected, feeds)) && Loadable(look, EmitAll(selected, feeds))
  {
    if feeds != [] {
      EmitPlain(look, selected, feeds[..|feeds| - 1]);
      var last := feeds[|feeds| - 1];
      assert Ordinary(look, last);
      if last.db >= 0 { SelectFits(last.db); }
    }
  }

  // A client that is in the selected database.
  predicate InDb(c: Client, selected: int) { selected != -1 ==> c.db == selected }

  // One command that is fed, called by a client in the selected database.
  lemma CallFeed(look: Lookup, c: Client, selected: int, f: Feed)
    requires Selects(look) && Ordinary(look, f) && InDb(c, selected)
    ensures var d := CallAll(look, c, Emit(selected, f));
      && d.db == (if f.db == -1 then c.db else f.db)
      && d.done == c.done + [(d.db, f.argv)]
      && InDb(d, SelectedAfter(selected, [f]))
  {
    hide Resp.Fits, SelectArgv, CallAll;
    EmitOne(selected, f);
    CallAllNothing(look, c);
    if f.db >= 0 && f.db != selected {
      CallAllSnoc(look, c, [], SelectArgv(f.db));
      CallAllSnoc(look, c, [] + [SelectArgv(f.db)], f.argv);
      assert [] + [SelectArgv(f.db)] + [f.argv] == Emit(selected, f);
    } else {
      CallAllSnoc(look, c, [], f.argv);
      assert [] + [f.argv] == Emit(selected, f);
    }
  }

  // What is called for commands that are fed is these commands, each in its database.
  lemma {:induction false} CallFeeds(look: Lookup, c: Client, selected: int, feeds: seq<Feed>) returns (tail: seq<(nat, Argv)>)
    requires Selects(look) && AllOrdinary(look, feeds) && InDb(c, selected)
    ensures var d := CallAll(look, c, EmitAll(selected, feeds));
      d.done == c.done + tail && Matches(tail, feeds) && InDb(d, SelectedAfter(selected, feeds))
  {
    hide Selects, Ordinary, CallAll, Emit, InDb, Matches;
    if feeds == [] {
      CallAllNothing(look, c);
      NothingMatches();
      tail := [];
    } else {
      var init, last := feeds[..|feeds| - 1], feeds[|feeds| - 1];
      var t := CallFeeds(look, c, selected, init);
      var mid, sel := CallAll(look, c, EmitAll(selected, init)), SelectedAfter(selected, init);
      assert Ordinary(look, last);
      CallFeed(look, mid, sel, last);
      CallAllConcat(look, c, EmitAll(selected, init), Emit(sel, last));
      var d := CallAll(look, mid, Emit(sel, last));
      tail := t + [(d.db, last.argv)];
      MatchesMore(t, init, d.db, last);
      assert init + [last] == feeds;
      EmitOne(sel, last);
      EmitConcat(selected, init, [last]);
    }
  }

  // ---------------------------------------------------------------------------------------------
  // Units
  // ---------------------------------------------------------------------------------------------

  // The commands that one execution unit propagates.
  type Unit = seq<Feed>

  const MULTI: Argv := [[77, 85, 76, 84, 73]]
  const EXEC: Argv := [[69, 88, 69, 67]]

  ghost predicate Transacts(look: Lookup) { look(MULTI).Multi? && look(EXEC).Exec? }

  // More than one command make a transaction.
  function FeedsOf(u: Unit): seq<Feed> {
    if |u| <= 1 then u else [Feed(-1, MULTI)] + u + [Feed(-1, EXEC)]
  }

  lemma FeedsOfUnit(selected: int, u: Unit)
    ensures SelectedAfter(selected, FeedsOf(u)) == SelectedAfter(selected, u)
    ensures EmitAll(selected, FeedsOf(u)) ==
      if |u| <= 1 then EmitAll(selected, u) else [MULTI] + EmitAll(selected, u) + [EXEC]
  {
    hide EmitAll, SelectedAfter;
    if |u| > 1 {
      var m, e := Feed(-1, MULTI), Feed(-1, EXEC);
      EmitOne(selected, m);
      EmitConcat(selected, [m], u);
      EmitConcat(selected, [m] + u, [e]);
      EmitOne(SelectedAfter(selected, u), e);
    }
  }

  ghost predicate Resting(c: Client) { !c.multi && c.queue == [] }

  // A unit that is whole in the log is executed.
  lemma UnitWhole(look: Lookup, c: Client, selected: int, u: Unit) returns (tail: seq<(nat, Argv)>)
    requires Selects(look) && Transacts(look) && AllOrdinary(look, u) && Resting(c) && InDb(c, selected)
    ensures var d := StepAll(look, c, EmitAll(selected, FeedsOf(u)));
      && Resting(d) && InDb(d, SelectedAfter(selected, FeedsOf(u)))
      && d.done == c.done + tail && Matches(tail, u)
  {
    hide Selects, Ordinary, CallAll, EmitAll, SelectedAfter, StepAll, FeedsOf, Matches, IsPlain;
    var cs := EmitAll(selected, u);
    FeedsOfUnit(selected, u);
    EmitPlain(look, selected, u);
    tail := CallFeeds(look, c, selected, u);
    CallAllKeeps(look, c, cs, false, []);
    if |u| <= 1 {
      PlainSteps(look, c, cs);
    } else {
      var open := c.(multi := true);
      InTransaction(look, c, cs);
      StepAllConcat(look, c, [MULTI] + cs, [EXEC]);
      StepOne(look, open.(queue := cs), EXEC);
      CallAllKeeps(look, c, cs, true, cs);
    }
  }

  lemma InTransaction(look: Lookup, c: Client, cs: seq<Argv>)
    requires Transacts(look) && Resting(c) && AllPlain(look, cs)
    ensures StepAll(look, c, [MULTI] + cs) == c.(multi := true, queue := cs)
  {
    hide StepAll, IsPlain;
    StepAllConcat(look, c, [MULTI], cs);
    StepOne(look, c, MULTI);
    QueuedSteps(look, c.(multi := true), cs);
    assert [] + cs == cs;
  }

  // A unit of which some commands are missing is not executed at all.
  lemma UnitCut(look: Lookup, c: Client, selected: int, u: Unit, cs: seq<Argv>)
    requires Selects(look) && Transacts(look) && AllOrdinary(look, u) && Resting(c)
    requires cs < EmitAll(selected, FeedsOf(u))
    ensures StepAll(look, c, cs).done == c.done
  {
    hide Selects, Ordinary, EmitAll, SelectedAfter, FeedsOf, IsPlain;
    var all := EmitAll(selected, u);
    FeedsOfUnit(selected, u);
    EmitPlain(look, selected, u);
    if |u| <= 1 {
      SelectAlone(look, c, selected, u, cs);
    } else if cs != [] {
      var rest := cs[1..];
      assert cs[0] == MULTI && cs == [MULTI] + rest;
      assert rest == all[..|rest|];
      InTransaction(look, c, rest);
    }
  }

  // Without its command a SELECT executes nothing.
  lemma SelectAlone(look: Lookup, c: Client, selected: int, u: Unit, cs: seq<Argv>)
    requires Selects(look) && AllOrdinary(look, u) && |u| <= 1 && Resting(c) && cs < EmitAll(selected, u)
    ensures StepAll(look, c, cs).done == c.done
  {
    hide SelectArgv, Resp.Fits;
    if |u| == 1 {
      assert u == [u[0]];
      assert Ordinary(look, u[0]);
      EmitOne(selected, u[0]);
      if cs != [] {
        assert cs == [SelectArgv(u[0].db)];
        StepOne(look, c, SelectArgv(u[0].db));
      }
    }
  }

  // ---------------------------------------------------------------------------------------------
  // Datasets
  // ---------------------------------------------------------------------------------------------

  // The command table, the text of numbers, and what commands do.
  datatype Machine = Machine(look: Lookup, cx: Codec, apply: (Keys, nat, Argv) -> Keys)

  predicate EmptyValue(v: Value) {
    match v
    case StrV(_) => false
    case ListV(items) => items == []
    case SetV(members) => members == {}
    case ZsetV(scores) => scores == map[]
    case HashV(fields) => fields == map[]
  }

  // No key holds an empty aggregate.
  ghost predicate Full(keys: Keys) { forall s :: s in keys ==> !EmptyValue(keys[s].value) }

  // The commands that a rewrite writes, in the form in which it writes them, do what they do, and no command
  // leaves an empty aggregate.
  ghost predicate Works(m: Machine) {
    && Knows(m.look) && Transacts(m.look) && RoundTrips(m.cx)
    && (forall keys, db, argv :: IsEmitted(m.cx, argv) ==> m.apply(keys, db, argv) == Execute(m.cx, keys, db, argv))
    && (forall keys, db, argv :: Full(keys) ==> Full(m.apply(keys, db, argv)))
  }

  // What a client executed, on a dataset.
  ghost function Replay(m: Machine, d: Keys, done: seq<(nat, Argv)>): Keys {
    if done == [] then d
    else m.apply(Replay(m, d, done[..|done| - 1]), done[|done| - 1].0, done[|done| - 1].1)
  }

  lemma {:induction false} ReplayConcat(m: Machine, d: Keys, a: seq<(nat, Argv)>, b: seq<(nat, Argv)>)
    ensures Replay(m, d, a + b) == Replay(m, Replay(m, d, a), b)
  {
    if b == [] {
      assert a + b == a;
    } else {
      assert (a + b)[..|a + b| - 1] == a + b[..|b| - 1];
      ReplayConcat(m, d, a, b[..|b| - 1]);
    }
  }

  // A command that is fed without a database does the same in each.
  ghost predicate AnyDb(m: Machine, argv: Argv) {
    forall keys, db: nat, db': nat :: m.apply(keys, db, argv) == m.apply(keys, db', argv)
  }

  ghost predicate FeedOk(m: Machine, f: Feed) { Ordinary(m.look, f) && (f.db == -1 ==> AnyDb(m, f.argv)) }

  ghost predicate UnitOk(m: Machine, u: Unit) { u != [] && forall i :: 0 <= i < |u| ==> FeedOk(m, u[i]) }

  // What the server does when it executes a unit.
  ghost function ActAll(m: Machine, d: Keys, u: Unit): Keys {
    if u == [] then d
    else
      var last := u[|u| - 1];
      m.apply(ActAll(m, d, u[..|u| - 1]), if last.db < 0 then 0 else last.db, last.argv)
  }

  ghost function ActUnits(m: Machine, d: Keys, us: seq<Unit>): Keys {
    if us == [] then d else ActAll(m, ActUnits(m, d, us[..|us| - 1]), us[|us| - 1])
  }

  lemma {:induction false} ActUnitsConcat(m: Machine, d: Keys, a: seq<Unit>, b: seq<Unit>)
    ensures ActUnits(m, d, a + b) == ActUnits(m, ActUnits(m, d, a), b)
  {
    hide ActAll;
    if b == [] {
      assert a + b == a;
    } else {
      assert (a + b)[..|a + b| - 1] == a + b[..|b| - 1];
      ActUnitsConcat(m, d, a, b[..|b| - 1]);
    }
  }

  lemma {:induction false} MatchesReplay(m: Machine, d: Keys, tail: seq<(nat, Argv)>, u: Unit)
    requires Matches(tail, u) && forall i :: 0 <= i < |u| ==> FeedOk(m, u[i])
    ensures Replay(m, d, tail) == ActAll(m, d, u)
  {
    hide Ordinary;
    if u != [] {
      var k := |u| - 1;
      MatchesReplay(m, d, tail[..k], u[..k]);
      assert FeedOk(m, u[k]);
    }
  }

  lemma {:induction false} ActAllFull(m: Machine, d: Keys, u: Unit)
    requires Works(m) && Full(d)
    ensures Full(ActAll(m, d, u))
  {
    hide Full;
    if u != [] {
      ActAllFull(m, d, u[..|u| - 1]);
    }
  }

  lemma {:induction false} ActUnitsFull(m: Machine, d: Keys, us: seq<Unit>)
    requires Works(m) && Full(d)
    ensures Full(ActUnits(m, d, us))
  {
    hide Full, ActAll, Works;
    if us != [] {
      ActUnitsFull(m, d, us[..|us| - 1]);
      ActAllFull(m, ActUnits(m, d, us[..|us| - 1]), us[|us| - 1]);
    }
  }

  // ---------------------------------------------------------------------------------------------
  // Units in a log
  // ---------------------------------------------------------------------------------------------

  // The database that is selected, and the commands in the log, after some units.
  function SelectedIn(us: seq<Unit>): int {
    if us == [] then -1 else SelectedAfter(SelectedIn(us[..|us| - 1]), FeedsOf(us[|us| - 1]))
  }

  function Written(us: seq<Unit>): seq<Argv> {
    if us == [] then []
    else Written(us[..|us| - 1]) + EmitAll(SelectedIn(us[..|us| - 1]), FeedsOf(us[|us| - 1]))
  }

  ghost predicate AllUnits(m: Machine, us: seq<Unit>) { forall i :: 0 <= i < |us| ==> UnitOk(m, us[i]) }

  // How many of the units are wholly within the first w bytes.
  function WholeUnits(us: seq<Unit>, w: nat): (k: nat)
    ensures k <= |us|
  {
    if us == [] || |Log(Written(us))| <= w then |us| else WholeUnits(us[..|us| - 1], w)
  }

  lemma UnitIsOrdinary(m: Machine, u: Unit)
    requires UnitOk(m, u)
    ensures AllOrdinary(m.look, u)
  {
    forall i | 0 <= i < |u| ensures Ordinary(m.look, u[i]) { assert FeedOk(m, u[i]); }
  }

  lemma RunRests(look: Lookup, cs: seq<Argv>)
    requires !Run(look, cs).multi
    ensures Resting(Run(look, cs))
  {
    FlatRun(look, cs);
  }

  // Units that follow a log are executed, one after the other.
  lemma {:induction false} RunUnits(m: Machine, d: Keys, head: seq<Argv>, us: seq<Unit>)
    requires Works(m) && AllUnits(m, us) && !Run(m.look, head).multi
    ensures var c := Run(m.look, head + Written(us));
      && Resting(c) && InDb(c, SelectedIn(us))
      && Replay(m, d, c.done) == ActUnits(m, Replay(m, d, Run(m.look, head).done), us)
  {
    hide Run, StepAll, EmitAll, FeedsOf, Replay, ActAll, Matches, UnitOk, Resting, Works, SelectedAfter;
    if us == [] {
      assert head + Written(us) == head;
      RunRests(m.look, head);
    } else {
      var init, last := us[..|us| - 1], us[|us| - 1];
      RunUnits(m, d, head, init);
      var c, sel := Run(m.look, head + Written(init)), SelectedIn(init);
      assert UnitOk(m, last);
      var e := EmitAll(sel, FeedsOf(last));
      NextUnit(m, d, c, sel, last);
      RunConcat(m.look, head + Written(init), e);
      assert head + Written(init) + e == head + Written(us);
    }
  }

  lemma NextUnit(m: Machine, d: Keys, c: Client, selected: int, u: Unit)
    requires Works(m) && UnitOk(m, u) && Resting(c) && InDb(c, selected)
    ensures var c' := StepAll(m.look, c, EmitAll(selected, FeedsOf(u)));
      && Resting(c') && InDb(c', SelectedAfter(selected, FeedsOf(u)))
      && Replay(m, d, c'.done) == ActAll(m, Replay(m, d, c.done), u)
  {
    hide StepAll, EmitAll, FeedsOf, Replay, ActAll, Matches, Resting, SelectedAfter, FeedOk, InDb;
    UnitIsOrdinary(m, u);
    var tail := UnitWhole(m.look, c, selected, u);
    ReplayConcat(m, d, c.done, tail);
    MatchesReplay(m, Replay(m, d, c.done), tail, u);
  }

  lemma WrittenLoads(m: Machine, us: seq<Unit>)
    requires Works(m) && AllUnits(m, us)
    ensures Loadable(m.look, Written(us))
  {
    hide Knows, UnitOk, EmitAll, FeedsOf, Execute, Full, Resp.Fits;
    if us != [] {
      WrittenLoads(m, us[..|us| - 1]);
      assert UnitOk(m, us[|us| - 1]);
      UnitLoads(m, SelectedIn(us[..|us| - 1]), us[|us| - 1]);
    }
  }

  lemma UnitLoads(m: Machine, selected: int, u: Unit)
    requires Works(m) && UnitOk(m, u)
    ensures Loadable(m.look, EmitAll(selected, FeedsOf(u)))
  {
    hide EmitAll, FeedsOf, UnitOk, Execute, Full, IsEmitted, IsWrite;
    UnitIsOrdinary(m, u);
    UnitFits(m.look, selected, u);
  }

  // Any prefix of a log executes its whole units, and nothing of the others.
  lemma {:induction false} CutUnits(m: Machine, d: Keys, head: seq<Argv>, us: seq<Unit>, w: nat)
    requires Works(m) && AllUnits(m, us) && !Run(m.look, head).multi
    ensures var cs := head + Written(us); var k := Whole(cs, |Log(head)| + w);
      Replay(m, d, Run(m.look, cs[..k]).done) == ActUnits(m, Replay(m, d, Run(m.look, head).done), us[..WholeUnits(us, w)])
    decreases |us|
  {
    hide Run, EmitAll, FeedsOf, Replay, ActUnits, UnitOk, Works, SelectedIn, Log, Resting;
    var cs, n := head + Written(us), |Log(head)| + w;
    var k := Whole(cs, n);
    LogConcat(head, Written(us));
    if us == [] || |Log(Written(us))| <= w {
      NothingWritten();
      RunNothing(m.look);
      assert cs[..k] == cs && us[..|us|] == us;
      RunUnits(m, d, head, us);
    } else {
      var init, last := us[..|us| - 1], us[|us| - 1];
      var before, e := head + Written(init), EmitAll(SelectedIn(init), FeedsOf(last));
      assert cs == before + e;
      assert us[..WholeUnits(us, w)] == init[..WholeUnits(init, w)];
      LogConcat(head, Written(init));
      if |Log(Written(init))| <= w {
        RunUnits(m, d, head, init);
        assert init[..|init|] == init;
        assert UnitOk(m, last);
        InsideUnit(m, before, SelectedIn(init), last, n);
      } else {
        WholeOfInit(before, e, n);
        assert cs[..k] == before[..k];
        CutUnits(m, d, head, init, w);
      }
    }
  }

  lemma NothingWritten()
    ensures Written([]) == []
  {}

  // A prefix that ends inside of the commands of a unit.
  lemma InsideUnit(m: Machine, before: seq<Argv>, selected: int, u: Unit, n: nat)
    requires Works(m) && UnitOk(m, u) && Resting(Run(m.look, before))
    requires var cs := before + EmitAll(selected, FeedsOf(u)); |Log(before)| <= n < |Log(cs)|
    ensures var cs := before + EmitAll(selected, FeedsOf(u));
      Run(m.look, cs[..Whole(cs, n)]).done == Run(m.look, before).done
  {
    hide Run, EmitAll, FeedsOf, Log, Resting, UnitOk, Execute, Full, IsEmitted, IsWrite;
    var e := EmitAll(selected, FeedsOf(u));
    var cs := before + e;
    var k := Whole(cs, n);
    WholeIs(cs, n);
    WholeAtLeast(cs, |before|, n);
    assert cs[..|before|] == before;
    assert k < |cs| by { assert cs[..|cs|] == cs; }
    var part := e[..k - |before|];
    assert cs[..k] == before + part;
    RunConcat(m.look, before, part);
    UnitIsOrdinary(m, u);
    UnitCut(m.look, Run(m.look, before), selected, u, part);
  }

  lemma WholeAtLeast(cs: seq<Argv>, i: nat, n: nat)
    requires i <= |cs| && |Log(cs[..i])| <= n
    ensures i <= Whole(cs, n)
  {
    hide Log;
    WholeIs(cs, n);
    var k := Whole(cs, n);
    if k < i { LogGrows(cs, k + 1, i); }
  }

  lemma {:induction false} WholeOfInit(cs: seq<Argv>, e: seq<Argv>, n: nat)
    requires n < |Log(cs)|
    ensures Whole(cs + e, n) == Whole(cs, n)
  {
    hide Encode;
    if e == [] {
      assert cs + e == cs;
    } else {
      var init := e[..|e| - 1];
      WholeOfInit(cs, init, n);
      assert cs + e == cs + init + [e[|e| - 1]];
      LogConcat(cs, e);
      WholeOfMore(cs + init, e[|e| - 1], n);
    }
  }

  // ---------------------------------------------------------------------------------------------
  // Loading, truncating, appending, loading again
  // ---------------------------------------------------------------------------------------------

  // The file, as loading leaves it, ends inside of a transaction.
  ghost predicate EndsOpen(look: Lookup, file: Bytes) {
    var r := Load(look, file);
    r.size <= |file| && Load(look, file[..r.size]).client.multi
  }

  // The file that loading leaves is a whole log.
  lemma LeftOf(look: Lookup, cs: seq<Argv>, n: nat)
    requires Loadable(look, cs) && n <= |Log(cs)|
    ensures var file := Log(cs)[..n]; var j := CutAt(look, cs, n);
      && Load(look, file).size <= |file| && file[..Load(look, file).size] == Log(cs[..j])
      && (EndsOpen(look, file) <==> Run(look, cs[..j]).multi)
  {
    hide Log, Load, Run, CutAt, Whole;
    var file, j := Log(cs)[..n], CutAt(look, cs, n);
    LoadRuns(look, cs, n);
    var r := Load(look, file);
    LogFrom(cs, j);
    assert file[..r.size] == Log(cs)[..r.size] == Log(cs[..j]);
    LoadRuns(look, cs, r.size);
    WholeAt(cs, j);
  }

  // Commands appended to a log, and loaded.
  lemma LoadAppended(look: Lookup, cs: seq<Argv>, more: seq<Argv>)
    requires Loadable(look, cs) && Loadable(look, more)
    ensures var r := Load(look, Log(cs) + Log(more)); !r.status.LoadFailed? && r.client == StepAll(look, Run(look, cs), more)
  {
    hide Log, Load, Run, StepAll, CutAt, Whole;
    LogConcat(cs, more);
    var all := cs + more;
    var n := |Log(all)|;
    LoadRuns(look, all, n);
    assert Log(all)[..n] == Log(all) && all[..|all|] == all;
    WholeAt(all, |all|);
    RunConcat(look, cs, more);
  }

  // Loading executes what was executed before, and then the commands that were fed.
  ghost predicate GoesOn(look: Lookup, file: Bytes, done: seq<(nat, Argv)>, feeds: seq<Feed>) {
    var after := Load(look, file).client.done;
    |after| >= |done| && after[..|done|] == done && Matches(after[|done|..], feeds)
  }

  // A server that loads any prefix of a log, and goes on appending to the file as loading leaves it, has a
  // log that executes all of it, if and only if the file does not end inside of a transaction.
  lemma AppendAfterLoad(look: Lookup, cs: seq<Argv>, n: nat, more: seq<Feed>)
    requires Selects(look) && Loadable(look, cs) && n <= |Log(cs)| && AllOrdinary(look, more) && more != []
    ensures var file := Log(cs)[..n]; var r := Load(look, file);
      && r.size <= |file|
      && (GoesOn(look, file[..r.size] + Log(Commands(more)), r.client.done, more) <==> !Run(look, cs[..Whole(cs, r.size)]).multi)
      && (EndsOpen(look, file) ==> Load(look, file[..r.size] + Log(Commands(more))).client.done == r.client.done)
  {
    hide Log, Load, Run, Selects, Ordinary, Whole, CutAt, Commands, StepAll, CallAll, EmitAll, IsPlain, Matches, EndsOpen;
    var file := Log(cs)[..n];
    var r, j := Load(look, file), CutAt(look, cs, n);
    LoadRuns(look, cs, n);
    LeftOf(look, cs, n);
    WholeAt(cs, j);
    var kept, e := cs[..j], EmitAll(-1, more);
    EmitFromNothing(more);
    EmitPlain(look, -1, more);
    LoadAppended(look, kept, e);
    var c := Run(look, kept);
    if c.multi {
      QueuedSteps(look, c, e);
      NotMatched(more);
      assert r.client.done[|r.client.done|..] == [];
    } else {
      PlainSteps(look, c, e);
      var tail := CallFeeds(look, c, -1, more);
      assert (c.done + tail)[..|c.done|] == c.done && (c.done + tail)[|c.done|..] == tail;
    }
  }

  lemma NotMatched(feeds: seq<Feed>)
    requires feeds != []
    ensures !Matches([], feeds)
  {}

  // A unit of several commands that is appended inside of a transaction closes it. All that was queued is
  // executed: what was left of the transaction, and then the unit.
  lemma UnitCloses(look: Lookup, cs: seq<Argv>, u: Unit) returns (tail: seq<(nat, Argv)>)
    requires Selects(look) && Transacts(look) && Loadable(look, cs) && Run(look, cs).multi && AllOrdinary(look, u) && |u| >= 2
    ensures var r := Load(look, Log(cs) + Log(EmitAll(-1, FeedsOf(u))));
      && !r.status.LoadFailed? && Resting(r.client)
      && r.client.done == CallAll(look, START, cs).done + tail && Matches(tail, u)
  {
    hide Log, Load, Run, StepAll, CallAll, EmitAll, SelectedAfter, FeedsOf, Selects, Ordinary, IsPlain, Resp.Fits, Matches;
    var c, e := Run(look, cs), EmitAll(-1, u);
    FeedsOfUnit(-1, u);
    EmitPlain(look, -1, u);
    MultiFits();
    var all := [MULTI] + e + [EXEC];
    assert Loadable(look, all);
    LoadAppended(look, cs, all);
    FlatRun(look, cs);
    var before := CallAll(look, START, cs);
    CallAllKeeps(look, c, c.queue, false, []);
    tail := CallFeeds(look, before, -1, u);
    ClosingSteps(look, c, e);
  }

  // The same for a unit of several commands: it is executed, and nothing else, if and only if the file does not
  // end inside of a transaction, or what is left of that transaction executes nothing.
  lemma UnitAfterLoad(look: Lookup, cs: seq<Argv>, n: nat, u: Unit)
    requires Selects(look) && Transacts(look) && Loadable(look, cs) && n <= |Log(cs)| && AllOrdinary(look, u) && |u| >= 2
    ensures var file := Log(cs)[..n]; var r := Load(look, file);
      && r.size <= |file|
      && var kept := cs[..Whole(cs, r.size)];
         GoesOn(look, file[..r.size] + Log(EmitAll(-1, FeedsOf(u))), r.client.done, u) <==>
           !Run(look, kept).multi || CallAll(look, START, kept).done == r.client.done
  {
    hide Log, Load, Run, Selects, Ordinary, Whole, CutAt, StepAll, CallAll, EmitAll, SelectedAfter, FeedsOf, IsPlain, Matches, EndsOpen, Resp.Fits;
    var file := Log(cs)[..n];
    var r, j := Load(look, file), CutAt(look, cs, n);
    LoadRuns(look, cs, n);
    LeftOf(look, cs, n);
    WholeAt(cs, j);
    var kept, done := cs[..j], r.client.done;
    if Run(look, kept).multi {
      var half := CallAll(look, START, kept).done;
      var tail := UnitCloses(look, kept, u);
      var after := half + tail;
      MatchesLength(tail, u);
      if |after| >= |done| {
        MatchesLength(after[|done|..], u);
        if |half| == |done| { assert after[..|done|] == half && after[|done|..] == tail; }
      }
    } else {
      RunRests(look, kept);
      UnitFits(look, -1, u);
      LoadAppended(look, kept, EmitAll(-1, FeedsOf(u)));
      var tail := UnitWhole(look, Run(look, kept), -1, u);
      assert (done + tail)[..|done|] == done && (done + tail)[|done|..] == tail;
    }
  }

  lemma MatchesLength(tail: seq<(nat, Argv)>, feeds: seq<Feed>)
    ensures Matches(tail, feeds) ==> |tail| == |feeds|
  {}

  lemma UnitFits(look: Lookup, selected: int, u: Unit)
    requires Selects(look) && Transacts(look) && AllOrdinary(look, u)
    ensures Loadable(look, EmitAll(selected, FeedsOf(u)))
  {
    hide EmitAll, FeedsOf, Ordinary, IsPlain;
    FeedsOfUnit(selected, u);
    EmitPlain(look, selected, u);
    MultiFits();
  }

  lemma ClosingSteps(look: Lookup, c: Client, e: seq<Argv>)
    requires Transacts(look) && c.multi && AllPlain(look, e)
    ensures StepAll(look, c, [MULTI] + e + [EXEC]) == CallAll(look, Flat(look, c), e).(multi := false, queue := [])
  {
    hide StepAll, CallAll, IsPlain;
    StepAllConcat(look, c, [MULTI] + e, [EXEC]);
    StepAllConcat(look, c, [MULTI], e);
    StepOne(look, c, MULTI);
    QueuedSteps(look, c.(queue := c.queue + [MULTI]), e);
    var queue := c.queue + [MULTI] + e;
    StepOne(look, c.(queue := queue), EXEC);
    CallAllKeeps(look, c, queue, true, queue);
    CallAllConcat(look, c, c.queue + [MULTI], e);
    CallAllSnoc(look, c, c.queue, MULTI);
    var mid := CallAll(look, c, c.queue);
    CallNothing(look, mid, MULTI);
    CallAllKeeps(look, mid, e, false, []);
  }

  // Such a file: a transaction that was cut inside of its second command. A command that is appended is queued
  // in what is left of it. A unit of several commands that is appended after it closes the transaction, and
  // the half that was never written as a whole is executed with it.
  lemma TornTransaction(look: Lookup, a: Argv, b: Argv, f: Feed, u: Unit) returns (tail: seq<(nat, Argv)>)
    requires Selects(look) && Transacts(look) && look(a).Other? && look(b).Other? && Resp.Fits(a) && Resp.Fits(b)
    requires Ordinary(look, f) && AllOrdinary(look, u) && |u| >= 2
    ensures var file := Log([MULTI, SelectArgv(0), a]) + Encode(b)[..1];
      && Load(look, file).size == |file| - 1
      && EndsOpen(look, file)
      && Load(look, file[..|file| - 1] + Log(Commands([f]))).client.done == []
      && Load(look, file[..|file| - 1] + Log(EmitAll(-1, FeedsOf(u)))).client.done == [(0, a)] + tail && Matches(tail, u)
  {
    hide Log, Load, Run, SelectArgv, Encode, Resp.Fits, Ordinary, Commands, CutAt, Whole, EmitAll, FeedsOf, Matches, CallAll;
    var three := [MULTI, SelectArgv(0), a];
    var cs := three + [b];
    var n := |Log(three)| + 1;
    SelectFits(0);
    LongEncode(b);
    LogConcat(three, [b]);
    LogOne(b);
    assert Log(cs)[..n] == Log(three) + Encode(b)[..1];
    MultiFits();
    assert Loadable(look, cs) && Loadable(look, three);
    ThreeRun(look, a);
    CutInFourth(look, three, b);
    assert cs[..3] == three;
    LoadRuns(look, cs, n);
    LeftOf(look, cs, n);
    assert AllOrdinary(look, [f]);
    AppendAfterLoad(look, cs, n, [f]);
    tail := UnitCloses(look, three, u);
  }

  lemma LongEncode(argv: Argv)
    ensures |Encode(argv)| >= 3
  {}

  lemma MultiFits()
    ensures Resp.Fits(MULTI) && Resp.Fits(EXEC)
  {}

  lemma ThreeRun(look: Lookup, a: Argv)
    requires Selects(look) && Transacts(look) && look(a).Other?
    ensures var cs := [MULTI, SelectArgv(0), a];
      Run(look, cs).multi && Run(look, cs).done == [] && CallAll(look, START, cs).done == [(0, a)]
  {
    hide Run, SelectArgv, CallAll;
    var s := SelectArgv(0);
    RunNothing(look);
    CallAllNothing(look, START);
    RunSnoc(look, [], MULTI);
    RunSnoc(look, [MULTI], s);
    RunSnoc(look, [MULTI, s], a);
    CallAllSnoc(look, START, [], MULTI);
    CallAllSnoc(look, START, [MULTI], s);
    CallAllSnoc(look, START, [MULTI, s], a);
    assert [] + [MULTI] == [MULTI] && [MULTI] + [s] == [MULTI, s] && [MULTI, s] + [a] == [MULTI, s, a];
  }

  lemma CutInFourth(look: Lookup, three: seq<Argv>, b: Argv)
    ensures CutAt(look, three + [b], |Log(three)| + 1) == |three| && Whole(three + [b], |Log(three)| + 1) == |three|
  {
    hide Log, Encode, Run;
    var cs, n := three + [b], |Log(three)| + 1;
    LogConcat(three, [b]);
    LogOne(b);
    LongEncode(b);
    WholeOfMore(three, b, n);
    assert cs[..|three|] == three;
  }

  // ---------------------------------------------------------------------------------------------
  // What is left of a torn unit
  // ---------------------------------------------------------------------------------------------

  lemma {:induction false} WholeUnitsIs(us: seq<Unit>, w: nat)
    ensures var k := WholeUnits(us, w);
      |Log(Written(us[..k]))| <= w && (k < |us| ==> w < |Log(Written(us[..k + 1]))|)
    decreases |us|
  {
    hide Log, Written;
    if us == [] || |Log(Written(us))| <= w {
      assert us[..|us|] == us;
      NothingWritten();
      NoLog();
    } else {
      var init := us[..|us| - 1];
      WholeUnitsIs(init, w);
      var k := WholeUnits(init, w);
      assert init[..k] == us[..k];
      if k < |init| {
        assert init[..k + 1] == us[..k + 1];
      } else {
        assert us[..k + 1] == us;
      }
    }
  }

  lemma NoLog()
    ensures Log([]) == []
  {}

  // The commands of a unit behind its MULTI, up to the i-th.
  function Begun(selected: int, u: Unit, i: nat): seq<Argv>
    requires i <= |u|
  {
    [MULTI] + EmitAll(selected, u[..i])
  }

  // How many commands of the unit are within some of what is written for it.
  lemma {:induction false} PartCalls(look: Lookup, c: Client, selected: int, u: Unit, part: seq<Argv>)
      returns (i: nat, tail: seq<(nat, Argv)>)
    requires Selects(look) && AllOrdinary(look, u) && InDb(c, selected) && part <= EmitAll(selected, u)
    ensures i <= |u| && EmitAll(selected, u[..i]) <= part
    ensures i < |u| ==> |part| < |EmitAll(selected, u[..i + 1])|
    ensures CallAll(look, c, part).done == c.done + tail && Matches(tail, u[..i])
    decreases |u|
  {
    hide Selects, Ordinary, CallAll, Emit, InDb, Matches;
    if part == EmitAll(selected, u) {
      i := |u|;
      assert u[..i] == u;
      tail := CallFeeds(look, c, selected, u);
    } else {
      var init, last := u[..|u| - 1], u[|u| - 1];
      var before, sel := EmitAll(selected, init), SelectedAfter(selected, init);
      assert EmitAll(selected, u) == before + Emit(sel, last);
      assert u[..|u|] == u;
      if |part| <= |before| {
        assert part == before[..|part|];
        i, tail := PartCalls(look, c, selected, init, part);
        assert init[..i] == u[..i];
        if i < |init| { assert init[..i + 1] == u[..i + 1]; }
      } else {
        i := |init|;
        tail := CallFeeds(look, c, selected, init);
        var rest := part[|before|..];
        assert part == before + rest;
        assert rest < Emit(sel, last) && rest != [];
        CallAllConcat(look, c, before, rest);
        assert Ordinary(look, last);
        SelectCalls(look, CallAll(look, c, before), sel, last, rest);
      }
    }
  }

  lemma SelectCalls(look: Lookup, c: Client, selected: int, f: Feed, cs: seq<Argv>)
    requires Selects(look) && Ordinary(look, f) && cs < Emit(selected, f) && cs != []
    ensures CallAll(look, c, cs).done == c.done
  {
    hide SelectArgv, CallAll, Resp.Fits;
    assert cs == [] + [SelectArgv(f.db)];
    CallAllSnoc(look, c, [], SelectArgv(f.db));
    CallAllNothing(look, c);
  }

  // A file that ends inside of a transaction, as loading leaves it: whole units, and the beginning of the next
  // one, of which at least MULTI is there.
  lemma LeftOpen(m: Machine, head: seq<Argv>, us: seq<Unit>, w: nat) returns (part: seq<Argv>)
    requires Works(m) && AllUnits(m, us) && !Run(m.look, head).multi
    requires var cs := head + Written(us); Run(m.look, cs[..CutAt(m.look, cs, |Log(head)| + w)]).multi
    ensures var cs, n, k := head + Written(us), |Log(head)| + w, WholeUnits(us, w);
      && k < |us| && |us[k]| >= 2 && CutAt(m.look, cs, n) == Whole(cs, n)
      && cs[..Whole(cs, n)] == head + Written(us[..k]) + [MULTI] + part
      && part <= EmitAll(SelectedIn(us[..k]), us[k])
  {
    hide Works, Run, EmitAll, FeedsOf, UnitOk, SelectedIn, Log, Resting, Replay, ActUnits;
    var cs, n, k := head + Written(us), |Log(head)| + w, WholeUnits(us, w);
    WholeUnitsIs(us, w);
    if k == |us| {
      assert us[..k] == us;
      LogConcat(head, Written(us));
      assert cs[..|cs|] == cs;
      RunUnits(m, map[], head, us);
      RestsNot(Run(m.look, cs));
      assert false;
    } else {
      var before, sel, u := head + Written(us[..k]), SelectedIn(us[..k]), us[k];
      var e := EmitAll(sel, FeedsOf(u));
      var rest := WrittenFrom(us, k);
      assert cs == before + e + rest;
      NextWritten(us, k);
      LogConcat(head, Written(us[..k]));
      LogConcat(head, Written(us[..k + 1]));
      assert head + Written(us[..k + 1]) == before + e;
      assert AllUnits(m, us[..k]);
      RunUnits(m, map[], head, us[..k]);
      assert UnitOk(m, u);
      WholeOfInit(before + e, rest, n);
      part := InsideOpen(m, before, sel, u, rest, n);
    }
  }

  lemma RestsNot(c: Client)
    requires Resting(c)
    ensures !c.multi
  {}

  lemma NextWritten(us: seq<Unit>, k: nat)
    requires k < |us|
    ensures Written(us[..k + 1]) == Written(us[..k]) + EmitAll(SelectedIn(us[..k]), FeedsOf(us[k]))
  {
    assert us[..k + 1][..k] == us[..k];
  }

  lemma {:induction false} WrittenFrom(us: seq<Unit>, k: nat) returns (rest: seq<Argv>)
    requires k < |us|
    ensures Written(us) == Written(us[..k]) + EmitAll(SelectedIn(us[..k]), FeedsOf(us[k])) + rest
    decreases |us|
  {
    hide EmitAll, FeedsOf, SelectedIn;
    NextWritten(us, k);
    if k + 1 == |us| {
      assert us[..k + 1] == us;
      rest := [];
    } else {
      var init := us[..|us| - 1];
      var r := WrittenFrom(init, k);
      assert init[..k] == us[..k];
      rest := r + EmitAll(SelectedIn(init), FeedsOf(us[|us| - 1]));
    }
  }

  lemma InsideOpen(m: Machine, before: seq<Argv>, selected: int, u: Unit, rest: seq<Argv>, n: nat) returns (part: seq<Argv>)
    requires Works(m) && UnitOk(m, u) && Resting(Run(m.look, before))
    requires |Log(before)| <= n < |Log(before + EmitAll(selected, FeedsOf(u)))|
    requires var cs := before + EmitAll(selected, FeedsOf(u)) + rest;
      Whole(cs, n) == Whole(before + EmitAll(selected, FeedsOf(u)), n) && Run(m.look, cs[..CutAt(m.look, cs, n)]).multi
    ensures var cs := before + EmitAll(selected, FeedsOf(u)) + rest;
      && |u| >= 2 && CutAt(m.look, cs, n) == Whole(cs, n)
      && cs[..Whole(cs, n)] == before + [MULTI] + part && part <= EmitAll(selected, u)
  {
    hide Run, EmitAll, FeedsOf, Log, UnitOk, Execute, Full, IsEmitted, IsWrite, LastMulti, Ordinary, IsPlain, StepAll;
    var e := EmitAll(selected, FeedsOf(u));
    var all, cs := before + e, before + e + rest;
    var k := Whole(cs, n);
    WholeIs(all, n);
    WholeAtLeast(all, |before|, n);
    assert all[..|before|] == before;
    assert k < |all| by { assert all[..|all|] == all; }
    var p := e[..k - |before|];
    assert cs[..k] == before + p;
    RunConcat(m.look, before, p);
    UnitIsOrdinary(m, u);
    FeedsOfUnit(selected, u);
    EmitPlain(m.look, selected, u);
    RestsNot(Run(m.look, before));
    if |u| <= 1 || p == [] {
      assert AllPlain(m.look, p);
      PlainSteps(m.look, Run(m.look, before), p);
      assert false;
    } else {
      part := p[1..];
      assert p == [MULTI] + part && part == EmitAll(selected, u)[..|part|];
      assert cs[..k] == before + [MULTI] + part;
      LastIsThere(m.look, before, part);
      assert cs[..|before|] == before;
    }
  }

  lemma {:induction false} LastIsThere(look: Lookup, before: seq<Argv>, part: seq<Argv>)
    requires Transacts(look) && AllPlain(look, part)
    ensures LastMulti(look, before + [MULTI] + part) == |before|
  {
    var cs := before + [MULTI] + part;
    if part == [] {
      assert cs == before + [MULTI];
    } else {
      assert IsPlain(look, part[|part| - 1]);
      assert cs[..|cs| - 1] == before + [MULTI] + part[..|part| - 1];
      LastIsThere(look, before, part[..|part| - 1]);
    }
  }
}
