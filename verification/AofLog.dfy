// The log of commands: what is written for the commands that are fed, and what loading any prefix of
// the log executes (aof.c).
module AofLog {
  import opened Basics
  import opened Resp

  // What the command table says of a command.
  datatype Kind = Unknown | Multi | Exec | Select(db: nat) | Other

  type Lookup = Argv -> Kind

  // ---------------------------------------------------------------------------------------------
  // Feeding
  // ---------------------------------------------------------------------------------------------

  // A command with the database it is for; -1 stands for any.
  datatype Feed = Feed(db: int, argv: Argv)

  const SELECT: Bytes := [83, 69, 76, 69, 67, 84]

  function SelectArgv(db: nat): Argv { [SELECT, Decimal(db)] }

  // The database that the log has selected after some commands, or -1.
  function Selected(feeds: seq<Feed>): int {
    if feeds == [] then -1
    else
      var last := feeds[|feeds| - 1];
      if last.db == -1 then Selected(feeds[..|feeds| - 1]) else last.db
  }

  // feedAppendOnlyFile: the commands written for one that is fed.
  function Emit(selected: int, f: Feed): seq<Argv> {
    (if f.db >= 0 && f.db != selected then [SelectArgv(f.db)] else []) + [f.argv]
  }

  function Commands(feeds: seq<Feed>): seq<Argv> {
    if feeds == [] then []
    else
      var init := feeds[..|feeds| - 1];
      Commands(init) + Emit(Selected(init), feeds[|feeds| - 1])
  }

  function Log(cs: seq<Argv>): Bytes {
    if cs == [] then [] else Log(cs[..|cs| - 1]) + Encode(cs[|cs| - 1])
  }

  // ---------------------------------------------------------------------------------------------
  // Executing
  // ---------------------------------------------------------------------------------------------

  // The client that executes the log: its database, its transaction, and what it executed where.
  datatype Client = Client(db: nat, multi: bool, queue: seq<Argv>, done: seq<(nat, Argv)>)

  const START: Client := Client(0, false, [], [])

  // A command by itself. MULTI in a transaction is an error without effect, and so is EXEC outside.
  function Call(look: Lookup, c: Client, argv: Argv): Client {
    match look(argv)
    case Select(n) => c.(db := n)
    case Other => c.(done := c.done + [(c.db, argv)])
    case _ => c
  }

  function CallAll(look: Lookup, c: Client, cs: seq<Argv>): Client {
    if cs == [] then c else Call(look, CallAll(look, c, cs[..|cs| - 1]), cs[|cs| - 1])
  }

  // A command in the context of the fake client.
  function Step(look: Lookup, c: Client, argv: Argv): Client {
    var kind := look(argv);
    if c.multi && !kind.Exec? then c.(queue := c.queue + [argv])
    else if kind.Multi? then c.(multi := true)
    else if kind.Exec? && c.multi then CallAll(look, c, c.queue).(multi := false, queue := [])
    else Call(look, c, argv)
  }

  function Run(look: Lookup, cs: seq<Argv>): Client {
    if cs == [] then START else Step(look, Run(look, cs[..|cs| - 1]), cs[|cs| - 1])
  }

  // ---------------------------------------------------------------------------------------------
  // Loading
  // ---------------------------------------------------------------------------------------------

  datatype Status = LoadedOk | LoadedTruncated | LoadEmpty | LoadFailed

  // The outcome, the client, and the length of the file afterwards.
  datatype Loaded = Loaded(status: Status, client: Client, size: nat)

  // The client, valid_up_to and valid_before_multi.
  datatype Progress = Progress(client: Client, validUpTo: nat, beforeMulti: nat)

  function Advance(look: Lookup, st: Progress, argv: Argv, pos: nat): Progress {
    Progress(Step(look, st.client, argv), pos, if look(argv).Multi? then st.validUpTo else st.beforeMulti)
  }

  // The loop of loadSingleAppendOnlyFile, with aof-load-truncated.
  function LoadLoop(look: Lookup, file: Bytes, pos: nat, st: Progress): Loaded
    requires pos <= |file|
    decreases |file| - pos
  {
    ParseShrinks(file[pos..]);
    match ParseCommand(file[pos..])
    case AtEnd =>
      if st.client.multi then Loaded(LoadedTruncated, st.client, st.beforeMulti) else Loaded(LoadedOk, st.client, |file|)
    case Annotation(rest) => LoadLoop(look, file, |file| - |rest|, st)
    case Command(argv, rest) =>
      if look(argv).Unknown? then Loaded(LoadFailed, st.client, |file|)
      else LoadLoop(look, file, |file| - |rest|, Advance(look, st, argv, |file| - |rest|))
    case Short => Loaded(LoadedTruncated, st.client, st.validUpTo)
    case _ => Loaded(LoadFailed, st.client, |file|)
  }

  function Load(look: Lookup, file: Bytes): Loaded {
    if file == [] then Loaded(LoadEmpty, START, 0) else LoadLoop(look, file, 0, Progress(START, 0, 0))
  }

  // ---------------------------------------------------------------------------------------------
  // Prefixes of a log
  // ---------------------------------------------------------------------------------------------

  // How many commands lie wholly within the first n bytes.
  function Whole(cs: seq<Argv>, n: nat): (m: nat)
    ensures m <= |cs|
  {
    if cs == [] || |Log(cs)| <= n then |cs| else Whole(cs[..|cs| - 1], n)
  }

  // The position of the last MULTI.
  function LastMulti(look: Lookup, cs: seq<Argv>): (k: nat)
    ensures k <= |cs|
  {
    if cs == [] then 0
    else if look(cs[|cs| - 1]).Multi? then |cs| - 1
    else LastMulti(look, cs[..|cs| - 1])
  }

  ghost predicate Loadable(look: Lookup, cs: seq<Argv>) {
    forall i :: 0 <= i < |cs| ==> Resp.Fits(cs[i]) && !look(cs[i]).Unknown?
  }

  lemma {:induction false} LogConcat(a: seq<Argv>, b: seq<Argv>)
    ensures Log(a + b) == Log(a) + Log(b)
  {
    if b == [] {
      assert a + b == a;
    } else {
      assert (a + b)[..|a + b| - 1] == a + b[..|b| - 1];
      LogConcat(a, b[..|b| - 1]);
      assert Log(a) + (Log(b[..|b| - 1]) + Encode(b[|b| - 1])) == Log(a) + Log(b[..|b| - 1]) + Encode(b[|b| - 1]);
    }
  }

  lemma LogOne(argv: Argv)
    ensures Log([argv]) == Encode(argv)
  {
    assert [argv][..0] == [];
  }

  lemma LogNext(cs: seq<Argv>, i: nat)
    requires i < |cs|
    ensures Log(cs[..i + 1]) == Log(cs[..i]) + Encode(cs[i])
    ensures |Encode(cs[i])| > 0
  {
    assert cs[..i + 1][..i] == cs[..i];
  }

  lemma {:induction false} WholeIs(cs: seq<Argv>, n: nat)
    ensures var m := Whole(cs, n);
      && m <= |cs| && |Log(cs[..m])| <= n && (m < |cs| ==> n < |Log(cs[..m + 1])|)
    decreases |cs|
  {
    if cs == [] || |Log(cs)| <= n {
      assert cs[..|cs|] == cs;
    } else {
      var init := cs[..|cs| - 1];
      WholeIs(init, n);
      var m := Whole(init, n);
      assert init[..m] == cs[..m];
      if m < |init| {
        assert init[..m + 1] == cs[..m + 1];
      } else {
        assert cs[..m + 1] == cs;
      }
    }
  }

  // The log after the first i commands is the i-th command and what follows it.
  lemma LogFrom(cs: seq<Argv>, i: nat)
    requires i <= |cs|
    ensures Log(cs) == Log(cs[..i]) + Log(cs[i..])
    ensures i < |cs| ==> Log(cs) == Log(cs[..i]) + Encode(cs[i]) + Log(cs[i + 1..])
  {
    hide Log, Encode;
    assert cs == cs[..i] + cs[i..];
    LogConcat(cs[..i], cs[i..]);
    if i < |cs| {
      assert cs == cs[..i + 1] + cs[i + 1..];
      LogConcat(cs[..i + 1], cs[i + 1..]);
      LogNext(cs, i);
    }
  }

  // What there is to read after the first i commands of a prefix.
  lemma PrefixFrom(cs: seq<Argv>, n: nat, i: nat)
    requires n <= |Log(cs)| && i <= Whole(cs, n)
    ensures i <= |cs| && |Log(cs[..i])| <= n
    ensures var m := Whole(cs, n); var at := |Log(cs[..i])|; var s := Log(cs)[..n][at..];
      && (i < m ==> |Log(cs[..i + 1])| <= n && s == Encode(cs[i]) + Log(cs)[..n][|Log(cs[..i + 1])|..])
      && (i == m && i < |cs| ==> s < Encode(cs[i]))
      && (i == m && i == |cs| ==> s == [])
  {
    hide Encode, Log, Whole;
    var m := Whole(cs, n);
    WholeIs(cs, n);
    LogGrows(cs, i, m);
    var at, all := |Log(cs[..i])|, Log(cs);
    LogFrom(cs, i);
    if i < |cs| {
      LogNext(cs, i);
      var e := Encode(cs[i]);
      assert all[at..] == e + Log(cs[i + 1..]);
      if i < m {
        LogGrows(cs, i + 1, m);
        assert all[..n][at..] == all[at..n];
        assert all[at..n] == e + all[at + |e|..n];
      } else {
        assert all[..n][at..] == e[..n - at];
      }
    } else {
      assert cs[..i] == cs;
    }
  }

  lemma {:induction false} LogGrows(cs: seq<Argv>, i: nat, j: nat)
    requires i <= j <= |cs|
    ensures |Log(cs[..i])| <= |Log(cs[..j])|
    decreases j - i
  {
    if i < j {
      LogNext(cs, i);
      LogGrows(cs, i + 1, j);
    }
  }

  // The loader's variables after i commands.
  function ProgressAt(look: Lookup, cs: seq<Argv>, i: nat): Progress
    requires i <= |cs|
  {
    var k := LastMulti(look, cs[..i]);
    Progress(Run(look, cs[..i]), |Log(cs[..i])|, |Log(cs[..k])|)
  }

  lemma ProgressNext(look: Lookup, cs: seq<Argv>, i: nat)
    requires i < |cs|
    ensures Advance(look, ProgressAt(look, cs, i), cs[i], |Log(cs[..i + 1])|) == ProgressAt(look, cs, i + 1)
  {
    hide Log, Step;
    assert cs[..i + 1][..i] == cs[..i];
    var k := LastMulti(look, cs[..i + 1]);
  }

  // Loading a prefix executes its whole commands.
  lemma {:induction false} LoadFromWhole(look: Lookup, cs: seq<Argv>, n: nat, i: nat)
    requires Loadable(look, cs) && n <= |Log(cs)| && i <= Whole(cs, n)
    ensures i <= |cs| && |Log(cs[..i])| <= n
    ensures var m := Whole(cs, n);
      && m <= |cs|
      && LoadLoop(look, Log(cs)[..n], |Log(cs[..i])|, ProgressAt(look, cs, i)) ==
         var st := ProgressAt(look, cs, m);
         if n == st.validUpTo && !st.client.multi then Loaded(LoadedOk, st.client, n)
         else Loaded(LoadedTruncated, st.client, if n == st.validUpTo then st.beforeMulti else st.validUpTo)
    decreases Whole(cs, n) - i
  {
    hide Log, Encode, ParseCommand, Step, Run, Whole, LastMulti, Resp.Fits;
    WholeIs(cs, n);
    PrefixFrom(cs, n, i);
    var m, file, at := Whole(cs, n), Log(cs)[..n], |Log(cs[..i])|;
    if i < m {
      var rest := file[|Log(cs[..i + 1])|..];
      CommandWhole(cs[i], rest);
      ProgressNext(look, cs, i);
      LoadFromWhole(look, cs, n, i + 1);
    } else if file[at..] != [] {
      CommandCut(cs[i], file[at..]);
    } else {
      AtTheEnd();
    }
  }

  lemma AtTheEnd()
    ensures ParseCommand([]) == AtEnd
  {}

  // ---------------------------------------------------------------------------------------------
  // Transactions
  // ---------------------------------------------------------------------------------------------

  // While a transaction is open nothing is executed, since the last MULTI.
  lemma {:induction false} NothingSinceMulti(look: Lookup, cs: seq<Argv>)
    requires Run(look, cs).multi
    ensures Run(look, cs[..LastMulti(look, cs)]).done == Run(look, cs).done
  {
    hide CallAll;
    var init, last := cs[..|cs| - 1], cs[|cs| - 1];
    if !look(last).Multi? {
      var k := LastMulti(look, init);
      assert init[..k] == cs[..k];
      NothingSinceMulti(look, init);
    }
  }

  // The client as it would be if the open transaction were executed now.
  function Flat(look: Lookup, c: Client): Client {
    if c.multi then CallAll(look, c, c.queue).(multi := false, queue := []) else c
  }

  lemma CallKeeps(look: Lookup, c: Client, argv: Argv, multi: bool, queue: seq<Argv>)
    ensures Call(look, c.(multi := multi, queue := queue), argv) == Call(look, c, argv).(multi := multi, queue := queue)
  {}

  lemma {:induction false} CallAllKeeps(look: Lookup, c: Client, cs: seq<Argv>, multi: bool, queue: seq<Argv>)
    ensures CallAll(look, c.(multi := multi, queue := queue), cs) == CallAll(look, c, cs).(multi := multi, queue := queue)
  {
    if cs != [] {
      CallAllKeeps(look, c, cs[..|cs| - 1], multi, queue);
      CallKeeps(look, CallAll(look, c, cs[..|cs| - 1]), cs[|cs| - 1], multi, queue);
    }
  }

  lemma CallAllSnoc(look: Lookup, c: Client, cs: seq<Argv>, argv: Argv)
    ensures CallAll(look, c, cs + [argv]) == Call(look, CallAll(look, c, cs), argv)
  {
    assert (cs + [argv])[..|cs|] == cs;
  }

  // Transactions do not change the order of the commands.
  lemma FlatStep(look: Lookup, c: Client, argv: Argv)
    requires c.multi || c.queue == []
    ensures Flat(look, Step(look, c, argv)) == Call(look, Flat(look, c), argv)
    ensures Step(look, c, argv).multi || Step(look, c, argv).queue == []
  {
    hide CallAll, Call;
    var kind := look(argv);
    if c.multi && !kind.Exec? {
      CallAllSnoc(look, c, c.queue, argv);
      CallAllKeeps(look, c, c.queue + [argv], true, c.queue + [argv]);
      CallKeeps(look, CallAll(look, c, c.queue), argv, false, []);
    } else if kind.Multi? {
      CallNothing(look, c, argv);
      CallAllNothing(look, c.(multi := true));
    } else if kind.Exec? && c.multi {
      CallNothing(look, Flat(look, c), argv);
    } else {
      CallKeeps(look, c, argv, false, []);
    }
  }

  lemma CallNothing(look: Lookup, c: Client, argv: Argv)
    requires look(argv).Multi? || look(argv).Exec?
    ensures Call(look, c, argv) == c
  {}

  lemma CallAllNothing(look: Lookup, c: Client)
    ensures CallAll(look, c, []) == c
  {}

  lemma {:induction false} FlatRun(look: Lookup, cs: seq<Argv>)
    ensures Flat(look, Run(look, cs)) == CallAll(look, START, cs)
    ensures Run(look, cs).multi || Run(look, cs).queue == []
  {
    hide Call, Step, Flat;
    if cs == [] {
      FlatStart(look);
    } else {
      FlatRun(look, cs[..|cs| - 1]);
      FlatStep(look, Run(look, cs[..|cs| - 1]), cs[|cs| - 1]);
    }
  }

  lemma FlatStart(look: Lookup)
    ensures Flat(look, START) == START
  {}

  // ---------------------------------------------------------------------------------------------
  // What was fed
  // ---------------------------------------------------------------------------------------------

  // SELECT selects.
  ghost predicate Selects(look: Lookup) {
    forall db: nat :: db <= INT_MAX ==> look(SelectArgv(db)) == Select(db)
  }

  // A command that can be propagated; SELECT is written by feeding itself, and never fed.
  ghost predicate Feedable(look: Lookup, f: Feed) {
    -1 <= f.db <= INT_MAX && Resp.Fits(f.argv) && (look(f.argv).Multi? || look(f.argv).Exec? || look(f.argv).Other?)
  }

  ghost predicate AllFeedable(look: Lookup, feeds: seq<Feed>) {
    forall i :: 0 <= i < |feeds| ==> Feedable(look, feeds[i])
  }

  // Where the transaction starts that is still open after some commands.
  function Opened(look: Lookup, feeds: seq<Feed>): (k: Option<nat>)
    ensures k.Some? ==> k.value < |feeds|
  {
    if feeds == [] then None
    else
      var k := Opened(look, feeds[..|feeds| - 1]);
      var kind := look(feeds[|feeds| - 1].argv);
      if kind.Exec? then None else if kind.Multi? && k.None? then Some(|feeds| - 1) else k
  }

  // The commands that are not in an unfinished transaction.
  function Outside(look: Lookup, feeds: seq<Feed>): seq<Feed> {
    var k := Opened(look, feeds);
    if k.Some? then feeds[..k.value] else feeds
  }

  // Without MULTI and EXEC themselves.
  function Proper(look: Lookup, feeds: seq<Feed>): seq<Feed> {
    if feeds == [] then []
    else Proper(look, feeds[..|feeds| - 1]) + if look(feeds[|feeds| - 1].argv).Other? then [feeds[|feeds| - 1]] else []
  }

  // What was executed is what was fed, each command in its database.
  ghost predicate Matches(done: seq<(nat, Argv)>, feeds: seq<Feed>) {
    && |done| == |feeds|
    && forall i :: 0 <= i < |done| ==> done[i].1 == feeds[i].argv && (feeds[i].db != -1 ==> done[i].0 == feeds[i].db)
  }

  lemma MatchesMore(done: seq<(nat, Argv)>, feeds: seq<Feed>, db: nat, f: Feed)
    requires Matches(done, feeds) && (f.db != -1 ==> db == f.db)
    ensures Matches(done + [(db, f.argv)], feeds + [f])
  {}

  // The commands written for one that is fed, after others.
  lemma CallEmit(look: Lookup, cs: seq<Argv>, selected: int, f: Feed)
    requires Selects(look) && Feedable(look, f) && (selected != -1 ==> CallAll(look, START, cs).db == selected)
    ensures var b, c := CallAll(look, START, cs), CallAll(look, START, cs + Emit(selected, f));
      && c.db == (if f.db == -1 then b.db else f.db)
      && c.done == b.done + if look(f.argv).Other? then [(c.db, f.argv)] else []
  {
    hide Resp.Fits, SelectArgv, CallAll;
    if f.db >= 0 && f.db != selected {
      CallAllSnoc(look, START, cs, SelectArgv(f.db));
      CallAllSnoc(look, START, cs + [SelectArgv(f.db)], f.argv);
      assert cs + [SelectArgv(f.db)] + [f.argv] == cs + Emit(selected, f);
    } else {
      CallAllSnoc(look, START, cs, f.argv);
      assert cs + [f.argv] == cs + Emit(selected, f);
    }
  }

  // Executed one after the other, the commands find the database they were fed with.
  lemma {:induction false} PlainMatches(look: Lookup, feeds: seq<Feed>)
    requires Selects(look) && AllFeedable(look, feeds)
    ensures var c := CallAll(look, START, Commands(feeds));
      Matches(c.done, Proper(look, feeds)) && (Selected(feeds) != -1 ==> c.db == Selected(feeds))
  {
    hide Selects, Emit, Matches, CallAll, Feedable;
    if feeds == [] {
      CallAllNothing(look, START);
      NothingMatches();
    } else {
      var init, last := feeds[..|feeds| - 1], feeds[|feeds| - 1];
      PlainMatches(look, init);
      CallEmit(look, Commands(init), Selected(init), last);
      var b, c := CallAll(look, START, Commands(init)), CallAll(look, START, Commands(feeds));
      if look(last.argv).Other? {
        MatchesMore(b.done, Proper(look, init), c.db, last);
      } else {
        assert Proper(look, feeds) == Proper(look, init) && c.done == b.done;
      }
    }
  }

  lemma NothingMatches()
    ensures Matches([], [])
  {}

  lemma RunSnoc(look: Lookup, cs: seq<Argv>, argv: Argv)
    ensures Run(look, cs + [argv]) == Step(look, Run(look, cs), argv)
  {
    assert (cs + [argv])[..|cs|] == cs;
  }

  // A SELECT executes nothing and leaves transactions as they are.
  lemma SelectStep(look: Lookup, cs: seq<Argv>, db: nat)
    requires Selects(look) && db <= INT_MAX
    ensures var c, d := Run(look, cs), Run(look, cs + [SelectArgv(db)]); d.done == c.done && d.multi == c.multi
  {
    RunSnoc(look, cs, SelectArgv(db));
  }

  // The commands before the last one that was fed, with its SELECT.
  lemma BeforeLast(look: Lookup, feeds: seq<Feed>) returns (cs: seq<Argv>)
    requires Selects(look) && AllFeedable(look, feeds) && feeds != []
    ensures var init := feeds[..|feeds| - 1];
      && Commands(feeds) == cs + [feeds[|feeds| - 1].argv]
      && Run(look, cs).done == Run(look, Commands(init)).done && Run(look, cs).multi == Run(look, Commands(init)).multi
      && (cs == Commands(init) || exists db: nat :: db <= INT_MAX && cs == Commands(init) + [SelectArgv(db)])
  {
    hide Run, SelectArgv, Resp.Fits;
    var init, last := feeds[..|feeds| - 1], feeds[|feeds| - 1];
    assert Feedable(look, last);
    if last.db >= 0 && last.db != Selected(init) {
      cs := Commands(init) + [SelectArgv(last.db)];
      SelectStep(look, Commands(init), last.db);
    } else {
      cs := Commands(init);
      assert Commands(feeds) == cs + ([] + [last.argv]);
    }
  }

  lemma {:induction false} OpenIsMulti(look: Lookup, feeds: seq<Feed>)
    requires Selects(look) && AllFeedable(look, feeds)
    ensures Run(look, Commands(feeds)).multi <==> Opened(look, feeds).Some?
  {
    hide Commands, CallAll;
    if feeds == [] {
      NoCommands();
    } else {
      var cs := BeforeLast(look, feeds);
      OpenIsMulti(look, feeds[..|feeds| - 1]);
      RunSnoc(look, cs, feeds[|feeds| - 1].argv);
      assert Feedable(look, feeds[|feeds| - 1]);
    }
  }

  lemma NoCommands()
    ensures Commands([]) == []
  {}

  // The commands outside of an unfinished transaction are executed, and no others.
  lemma {:induction false} RunMatches(look: Lookup, feeds: seq<Feed>)
    requires Selects(look) && AllFeedable(look, feeds)
    ensures Matches(Run(look, Commands(feeds)).done, Proper(look, Outside(look, feeds)))
  {
    hide Commands, CallAll, Run, Proper, Matches, Selects;
    OpenIsMulti(look, feeds);
    if Opened(look, feeds).None? {
      PlainMatches(look, feeds);
      FlatRun(look, Commands(feeds));
    } else {
      var init, last := feeds[..|feeds| - 1], feeds[|feeds| - 1];
      var cs := BeforeLast(look, feeds);
      RunMatches(look, init);
      RunSnoc(look, cs, last.argv);
      OpenIsMulti(look, init);
      assert Outside(look, feeds) == Outside(look, init);
    }
  }

  // ---------------------------------------------------------------------------------------------
  // Prefixes of what was fed
  // ---------------------------------------------------------------------------------------------

  // How many of the fed commands lie wholly within the first n bytes of the log.
  function WholeFeeds(feeds: seq<Feed>, n: nat): (m: nat)
    ensures m <= |feeds|
  {
    if feeds == [] || |Log(Commands(feeds))| <= n then |feeds| else WholeFeeds(feeds[..|feeds| - 1], n)
  }

  lemma WholeOfMore(cs: seq<Argv>, argv: Argv, n: nat)
    requires n < |Log(cs + [argv])|
    ensures Whole(cs + [argv], n) == Whole(cs, n)
  {
    assert (cs + [argv])[..|cs|] == cs;
  }

  // A SELECT at the end of a prefix, without its command, makes no difference.
  lemma {:induction false} WholeRuns(look: Lookup, feeds: seq<Feed>, n: nat)
    requires Selects(look) && AllFeedable(look, feeds)
    ensures var cs := Commands(feeds);
      Run(look, cs[..Whole(cs, n)]).done == Run(look, Commands(feeds[..WholeFeeds(feeds, n)])).done
  {
    hide Commands, Run, Log, Selects, Resp.Fits, SelectArgv;
    var all := Commands(feeds);
    if feeds == [] || |Log(all)| <= n {
      NoCommands();
      assert all[..|all|] == all && feeds[..|feeds|] == feeds;
    } else {
      var init := feeds[..|feeds| - 1];
      var cs := BeforeLast(look, feeds);
      WholeOfMore(cs, feeds[|feeds| - 1].argv, n);
      WholeRuns(look, init, n);
      var k := WholeFeeds(init, n);
      assert feeds[..k] == init[..k];
      if cs == Commands(init) {
        assert all[..Whole(cs, n)] == cs[..Whole(cs, n)];
      } else {
        var db: nat :| db <= INT_MAX && cs == Commands(init) + [SelectArgv(db)];
        CutAtSelect(look, Commands(init), SelectArgv(db), n);
        var m := Whole(cs, n);
        assert all[..m] == cs[..m];
        if |Log(cs)| <= n {
          LogGrows(cs, |cs| - 1, |cs|);
          assert cs[..|cs| - 1] == Commands(init) && cs[..|cs|] == cs;
          assert init[..k] == init;
        } else {
          WholeOfMore(Commands(init), SelectArgv(db), n);
          assert cs[..m] == Commands(init)[..m];
        }
      }
    }
  }

  lemma CutAtSelect(look: Lookup, cs: seq<Argv>, argv: Argv, n: nat)
    ensures |Log(cs + [argv])| <= n ==> Whole(cs + [argv], n) == |cs| + 1
  {}

  lemma {:induction false} CommandsLoadable(look: Lookup, feeds: seq<Feed>)
    requires Selects(look) && AllFeedable(look, feeds)
    ensures Loadable(look, Commands(feeds))
  {
    hide Run;
    if feeds != [] {
      CommandsLoadable(look, feeds[..|feeds| - 1]);
      assert Feedable(look, feeds[|feeds| - 1]);
      if feeds[|feeds| - 1].db >= 0 {
        DecimalFits(feeds[|feeds| - 1].db);
      }
    }
  }

  lemma {:induction false} WholeAt(cs: seq<Argv>, j: nat)
    requires j <= |cs|
    ensures Whole(cs, |Log(cs[..j])|) == j
  {
    hide Encode;
    if j < |cs| {
      var init := cs[..|cs| - 1];
      assert init[..j] == cs[..j];
      WholeAt(init, j);
      LogGrows(cs, j + 1, |cs|);
      LogNext(cs, j);
      assert cs[..|cs|] == cs;
    } else {
      assert cs[..j] == cs;
    }
  }

  // Where loading a prefix leaves the end of the file, in commands: behind the last whole one, or in front
  // of the last MULTI if the file ends between two commands of a transaction.
  function CutAt(look: Lookup, cs: seq<Argv>, n: nat): (j: nat)
    ensures j <= |cs|
  {
    var m := Whole(cs, n);
    if Run(look, cs[..m]).multi && n == |Log(cs[..m])| then LastMulti(look, cs[..m]) else m
  }

  lemma LoadRuns(look: Lookup, cs: seq<Argv>, n: nat)
    requires Loadable(look, cs) && n <= |Log(cs)|
    ensures var r := Load(look, Log(cs)[..n]); var m := Whole(cs, n);
      && !r.status.LoadFailed? && r.client == Run(look, cs[..m])
      && (r.status.LoadedTruncated? <==> r.client.multi || n != |Log(cs[..m])|)
      && r.size == |Log(cs[..CutAt(look, cs, n)])| <= n
      && Run(look, cs[..CutAt(look, cs, n)]).done == r.client.done
  {
    hide Run, Encode, Whole, LastMulti, LoadLoop;
    var m := Whole(cs, n);
    WholeIs(cs, n);
    var k := LastMulti(look, cs[..m]);
    LogGrows(cs, k, m);
    RunNothing(look);
    if n == 0 {
      LogZero(cs, m);
    } else {
      LoadFromWhole(look, cs, n, 0);
      assert cs[..0] == [];
      if Run(look, cs[..m]).multi {
        NothingSinceMulti(look, cs[..m]);
        assert cs[..m][..k] == cs[..k];
      }
    }
  }

  lemma LogZero(cs: seq<Argv>, m: nat)
    requires m <= |cs|
    ensures m > 0 ==> |Log(cs[..m])| > 0
  {
    if m > 0 { LogNext(cs, m - 1); }
  }

  lemma RunNothing(look: Lookup)
    ensures Run(look, []) == START && LastMulti(look, []) == 0 && Log([]) == []
  {}

  // Every prefix of the log loads. What is executed are the commands that are whole in the prefix and
  // not in an unfinished transaction, each in the database it was fed with; and the file, as it is left,
  // executes the same when it is loaded again.
  lemma LoadOfPrefix(look: Lookup, feeds: seq<Feed>, n: nat)
    requires Selects(look) && AllFeedable(look, feeds) && n <= |Log(Commands(feeds))|
    ensures var file := Log(Commands(feeds))[..n]; var r := Load(look, file);
      && !r.status.LoadFailed?
      && Matches(r.client.done, Proper(look, Outside(look, feeds[..WholeFeeds(feeds, n)])))
      && r.size <= n
      && Load(look, file[..r.size]).client.done == r.client.done && !Load(look, file[..r.size]).status.LoadFailed?
  {
    hide Run, Commands, Log, Load, Proper, Matches, Selects, Resp.Fits, Outside, WholeFeeds, Whole, CutAt;
    var cs := Commands(feeds);
    CommandsLoadable(look, feeds);
    LoadRuns(look, cs, n);
    WholeRuns(look, feeds, n);
    var r := Load(look, Log(cs)[..n]);
    RunMatches(look, feeds[..WholeFeeds(feeds, n)]);
    assert Log(cs)[..n][..r.size] == Log(cs)[..r.size];
    LoadRuns(look, cs, r.size);
    WholeAt(cs, CutAt(look, cs, n));
  }

  // ---------------------------------------------------------------------------------------------
  // If SELECT were fed like other commands
  // ---------------------------------------------------------------------------------------------

  ghost predicate AllKnown(look: Lookup, feeds: seq<Feed>) {
    forall i :: 0 <= i < |feeds| ==> -1 <= feeds[i].db <= INT_MAX && !look(feeds[i].argv).Unknown?
  }

  // If no SELECT is written for the i-th command, the log has really selected its database.
  ghost predicate InPlace(look: Lookup, feeds: seq<Feed>, i: nat)
    requires i < |feeds|
  {
    look(feeds[i].argv).Other? && feeds[i].db != -1 && feeds[i].db == Selected(feeds[..i]) ==>
      CallAll(look, START, Commands(feeds[..i])).db == feeds[i].db
  }

  lemma MatchesSnoc(done: seq<(nat, Argv)>, feeds: seq<Feed>, db: nat, f: Feed)
    ensures Matches(done + [(db, f.argv)], feeds + [f]) <==> Matches(done, feeds) && (f.db != -1 ==> db == f.db)
  {
    var d, g := done + [(db, f.argv)], feeds + [f];
    if Matches(d, g) {
      forall i | 0 <= i < |done| ensures done[i].1 == feeds[i].argv && (feeds[i].db != -1 ==> done[i].0 == feeds[i].db) {
        assert d[i] == done[i] && g[i] == feeds[i];
      }
      assert d[|done|] == (db, f.argv) && g[|done|] == f;
    }
  }

  // The commands written for one that is fed, after others.
  lemma CallEmitted(look: Lookup, cs: seq<Argv>, selected: int, f: Feed)
    requires Selects(look) && f.db <= INT_MAX
    ensures var b, c := CallAll(look, START, cs), CallAll(look, START, cs + Emit(selected, f));
      var db := if f.db >= 0 && f.db != selected then f.db else b.db;
      c.done == b.done + if look(f.argv).Other? then [(db, f.argv)] else []
  {
    hide SelectArgv, CallAll;
    if f.db >= 0 && f.db != selected {
      CallAllSnoc(look, START, cs, SelectArgv(f.db));
      CallAllSnoc(look, START, cs + [SelectArgv(f.db)], f.argv);
      assert cs + [SelectArgv(f.db)] + [f.argv] == cs + Emit(selected, f);
    } else {
      CallAllSnoc(look, START, cs, f.argv);
      assert cs + [f.argv] == cs + Emit(selected, f);
    }
  }

  // Whatever is fed, every command with an effect is executed in its database, if and only if each for which
  // no SELECT is written finds its database selected.
  lemma {:induction false} InPlaceExactly(look: Lookup, feeds: seq<Feed>)
    requires Selects(look) && AllKnown(look, feeds)
    ensures Matches(CallAll(look, START, Commands(feeds)).done, Proper(look, feeds)) <==>
      forall i :: 0 <= i < |feeds| ==> InPlace(look, feeds, i)
  {
    hide Selects, Emit, Matches, CallAll;
    if feeds == [] {
      CallAllNothing(look, START);
      NothingMatches();
    } else {
      var init, last, k := feeds[..|feeds| - 1], feeds[|feeds| - 1], |feeds| - 1;
      InPlaceExactly(look, init);
      CallEmitted(look, Commands(init), Selected(init), last);
      var b := CallAll(look, START, Commands(init));
      var db := if last.db >= 0 && last.db != Selected(init) then last.db else b.db;
      MatchesSnoc(b.done, Proper(look, init), db, last);
      forall i | 0 <= i < k ensures InPlace(look, feeds, i) <==> InPlace(look, init, i) {
        assert init[..i] == feeds[..i] && init[i] == feeds[i];
      }
      assert InPlace(look, feeds, k) <==> (look(last.argv).Other? && last.db != -1 ==> db == last.db);
      if look(last.argv).Other? {
        assert Proper(look, feeds) == Proper(look, init) + [last];
      } else {
        assert Proper(look, feeds) == Proper(look, init) + [] == Proper(look, init);
        assert b.done + [] == b.done;
      }
    }
  }

  // A SELECT that is fed breaks this: a command fed with database 0 after SELECT 1 goes to database 1.
  lemma FedSelectStrays(look: Lookup, argv: Argv)
    requires Selects(look) && look(argv) == Other
    ensures var feeds := [Feed(0, argv), Feed(0, SelectArgv(1)), Feed(0, argv)];
      Run(look, Commands(feeds)).done == [(0, argv), (1, argv)]
  {
    hide Run, Commands, SelectArgv;
    var s0, s1 := SelectArgv(0), SelectArgv(1);
    FedSelectLog(argv, s0, s1);
    RunFour(look, argv, s0, s1);
  }

  lemma FedSelectLog(argv: Argv, s0: Argv, s1: Argv)
    requires s0 == SelectArgv(0)
    ensures Commands([Feed(0, argv), Feed(0, s1), Feed(0, argv)]) == [s0, argv, s1, argv]
  {
    hide Commands, Selected, SelectArgv;
    var f1, f2 := Feed(0, argv), Feed(0, s1);
    NoCommands();
    CommandsSnoc([], f1);
    CommandsSnoc([f1], f2);
    CommandsSnoc([f1, f2], f1);
    assert [] + [f1] == [f1] && [f1] + [f2] == [f1, f2] && [f1, f2] + [f1] == [f1, f2, f1];
    assert Commands([f1]) == [s0, argv];
    assert Commands([f1, f2]) == [s0, argv, s1];
  }

  lemma RunFour(look: Lookup, argv: Argv, s0: Argv, s1: Argv)
    requires look(s0) == Select(0) && look(s1) == Select(1) && look(argv) == Other
    ensures Run(look, [s0, argv, s1, argv]).done == [(0, argv), (1, argv)]
  {
    hide Run;
    RunNothing(look);
    RunSnoc(look, [], s0);
    RunSnoc(look, [s0], argv);
    RunSnoc(look, [s0, argv], s1);
    RunSnoc(look, [s0, argv, s1], argv);
    assert [] + [s0] == [s0] && [s0] + [argv] == [s0, argv] && [s0, argv] + [s1] == [s0, argv, s1];
    assert [s0, argv, s1] + [argv] == [s0, argv, s1, argv];
  }

  lemma CommandsSnoc(feeds: seq<Feed>, f: Feed)
    ensures Commands(feeds + [f]) == Commands(feeds) + Emit(Selected(feeds), f)
    ensures Selected(feeds + [f]) == if f.db == -1 then Selected(feeds) else f.db
    ensures Selected([]) == -1
  {
    assert (feeds + [f])[..|feeds|] == feeds;
  }
}
