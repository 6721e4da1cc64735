// The rewritten append only file rebuilds the dataset (aof.c).
module AofRebuild {
  import opened Basics
  import opened Resp
  import opened AofLog
  import opened AofRewrite

  // ---------------------------------------------------------------------------------------------
  // One key
  // ---------------------------------------------------------------------------------------------

  ghost predicate ItemOk(item: Item) { AofRewrite.WellFormed(item.value) && (item.expire.Some? ==> HasLong(item.expire.value)) }

  lemma ObjectBuild(cx: Codec, keys: Keys, j: nat, item: Item)
    requires RoundTrips(cx) && ItemOk(item) && AofRewrite.Slot(j, item.key) !in keys
    ensures ExecuteAll(cx, keys, Tag(j, ObjectCommands(cx, item.key, item.value))) ==
      if IsEmptyObject(item.value) then keys else keys[AofRewrite.Slot(j, item.key) := Entry(ValueOf(item.value), None)]
  {
    hide RoundTrips, Execute, ExecuteAll, AddAll, AreItems, Chunks, MapOf, Distinct;
    var o := item.value;
    if o.StringObj? {
      ExecuteOne(cx, keys, j, [SET, item.key, o.s]);
      ExecuteSet(cx, keys, j, item.key, o.s);
    } else {
      ObjectBuilds(cx, o);
      ChunksBuild(cx, keys, j, TypeOf(o), item.key, ItemsOf(cx, o));
    }
  }

  lemma ExecuteSet(cx: Codec, keys: Keys, j: nat, key: Bytes, s: Bytes)
    ensures Execute(cx, keys, j, [SET, key, s]) == keys[AofRewrite.Slot(j, key) := Entry(StrV(s), None)]
  {}

  lemma ExecuteExpire(cx: Codec, keys: Keys, j: nat, key: Bytes, at: int)
    requires HasLong(at)
    ensures var s := AofRewrite.Slot(j, key);
      Execute(cx, keys, j, [PEXPIREAT, key, ShowLong(at)]) == if s in keys then keys[s := keys[s].(expire := Some(at))] else keys
  {
    hide ReadLong, ShowLong;
    ReadShown(at);
  }

  // The commands for a key build it, with its expire time, if it has a value to build.
  lemma ItemBuilds(cx: Codec, keys: Keys, j: nat, item: Item)
    requires RoundTrips(cx) && ItemOk(item) && AofRewrite.Slot(j, item.key) !in keys
    ensures ExecuteAll(cx, keys, Tag(j, ItemCommands(cx, item))) ==
      if IsEmptyObject(item.value) then keys else keys[AofRewrite.Slot(j, item.key) := Entry(ValueOf(item.value), item.expire)]
  {
    hide RoundTrips, Execute, ExecuteAll, ObjectCommands, ValueOf, HasLong, Tag;
    ObjectBuild(cx, keys, j, item);
    var a, b := ObjectCommands(cx, item.key, item.value), ExpireCommands(item.key, item.expire);
    TagConcat(j, a, b);
    ExecuteConcat(cx, keys, Tag(j, a), Tag(j, b));
    var mid := ExecuteAll(cx, keys, Tag(j, a));
    if item.expire.Some? {
      ExecuteOne(cx, mid, j, [PEXPIREAT, item.key, ShowLong(item.expire.value)]);
      ExecuteExpire(cx, mid, j, item.key, item.expire.value);
    } else {
      ExecuteNone(cx, mid, j);
    }
  }

  lemma ExecuteNone(cx: Codec, keys: Keys, j: nat)
    ensures ExecuteAll(cx, keys, Tag(j, [])) == keys
  {}

  // ---------------------------------------------------------------------------------------------
  // The dataset
  // ---------------------------------------------------------------------------------------------

  ghost predicate DbOk(db: Db) {
    && (forall i :: 0 <= i < |db| ==> ItemOk(db[i]))
    && (forall i, j :: 0 <= i < j < |db| ==> db[i].key != db[j].key)
  }

  // The keys of a database, with or without those whose value is empty.
  ghost function KeysOf(j: nat, db: Db, all: bool): Keys
    requires DbOk(db)
  {
    if db == [] then map[]
    else
      var init, last := KeysOf(j, db[..|db| - 1], all), db[|db| - 1];
      assert ItemOk(last);
      if !all && IsEmptyObject(last.value) then init
      else init[AofRewrite.Slot(j, last.key) := Entry(ValueOf(last.value), last.expire)]
  }

  ghost predicate ServerOk(server: Server) { forall j :: 0 <= j < |server| ==> DbOk(server[j]) }

  ghost function AllKeys(server: Server, all: bool): Keys
    requires ServerOk(server)
  {
    if server == [] then map[]
    else AllKeys(server[..|server| - 1], all) + KeysOf(|server| - 1, server[|server| - 1], all)
  }

  // The dataset of the server.
  ghost function Dataset(server: Server): Keys
    requires ServerOk(server)
  {
    AllKeys(server, true)
  }

  ghost predicate NoEmptyValues(server: Server) {
    forall j, i :: 0 <= j < |server| && 0 <= i < |server[j]| ==> !IsEmptyObject(server[j][i].value)
  }

  ghost predicate HasKey(db: Db, key: Bytes, all: bool) {
    exists i :: 0 <= i < |db| && db[i].key == key && (all || !IsEmptyObject(db[i].value))
  }

  lemma {:induction false} KeysOfHas(j: nat, db: Db, all: bool, s: AofRewrite.Slot)
    requires DbOk(db)
    ensures s in KeysOf(j, db, all) <==> s.db == j && HasKey(db, s.key, all)
  {
    hide ValueOf, ItemOk;
    if db != [] {
      var init, last := db[..|db| - 1], db[|db| - 1];
      KeysOfHas(j, init, all, s);
      assert HasKey(init, s.key, all) ==> HasKey(db, s.key, all);
      if HasKey(db, s.key, all) {
        var i :| 0 <= i < |db| && db[i].key == s.key && (all || !IsEmptyObject(db[i].value));
        if i < |init| { assert init[i] == db[i]; }
      }
      assert db[|db| - 1] == last;
    }
  }

  // The commands for the keys of a database build those that have a value.
  lemma {:induction false} DbBuilds(cx: Codec, keys: Keys, j: nat, db: Db)
    requires RoundTrips(cx) && DbOk(db) && forall s :: s in keys ==> s.db != j
    ensures ExecuteAll(cx, keys, Tag(j, ItemsCommands(cx, db))) == keys + KeysOf(j, db, false)
  {
    hide RoundTrips, ExecuteAll, ItemCommands, ValueOf, Tag, HasKey;
    if db == [] {
      ExecuteNone(cx, keys, j);
      assert keys + map[] == keys;
    } else {
      var init, last := db[..|db| - 1], db[|db| - 1];
      DbBuilds(cx, keys, j, init);
      var mid := keys + KeysOf(j, init, false);
      var s := AofRewrite.Slot(j, last.key);
      KeysOfHas(j, init, false, s);
      LastKeyIsNew(db);
      assert ItemOk(last);
      ItemBuilds(cx, mid, j, last);
      TagConcat(j, ItemsCommands(cx, init), ItemCommands(cx, last));
      ExecuteConcat(cx, keys, Tag(j, ItemsCommands(cx, init)), Tag(j, ItemCommands(cx, last)));
      assert !IsEmptyObject(last.value) ==> mid[s := Entry(ValueOf(last.value), last.expire)] == keys + KeysOf(j, db, false);
    }
  }

  lemma LastKeyIsNew(db: Db)
    requires DbOk(db) && db != []
    ensures !HasKey(db[..|db| - 1], db[|db| - 1].key, false)
  {}

  // What is executed for all databases.
  function Done(cx: Codec, server: Server): seq<(nat, Argv)> {
    if server == [] then []
    else Done(cx, server[..|server| - 1]) + Tag(|server| - 1, ItemsCommands(cx, server[|server| - 1]))
  }

  lemma {:induction false} SlotsBelow(server: Server, all: bool)
    requires ServerOk(server)
    ensures forall s :: s in AllKeys(server, all) ==> s.db < |server|
  {
    hide KeysOf, HasKey, DbOk;
    if server != [] {
      SlotsBelow(server[..|server| - 1], all);
      forall s | s in KeysOf(|server| - 1, server[|server| - 1], all) ensures s.db == |server| - 1 {
        KeysOfHas(|server| - 1, server[|server| - 1], all, s);
      }
    }
  }

  lemma {:induction false} ServerBuilds(cx: Codec, server: Server)
    requires RoundTrips(cx) && ServerOk(server)
    ensures ExecuteAll(cx, map[], Done(cx, server)) == AllKeys(server, false)
  {
    hide RoundTrips, KeysOf, ItemsCommands, Tag, DbOk, Execute;
    if server != [] {
      var init, last := server[..|server| - 1], server[|server| - 1];
      ServerBuilds(cx, init);
      SlotsBelow(init, false);
      DbBuilds(cx, AllKeys(init, false), |server| - 1, last);
      ExecuteConcat(cx, map[], Done(cx, init), Tag(|server| - 1, ItemsCommands(cx, last)));
    }
  }

  lemma {:induction false} SameKeysOf(j: nat, db: Db)
    requires DbOk(db) && forall i :: 0 <= i < |db| ==> !IsEmptyObject(db[i].value)
    ensures KeysOf(j, db, false) == KeysOf(j, db, true)
  {
    hide ValueOf, ItemOk;
    if db != [] {
      SameKeysOf(j, db[..|db| - 1]);
    }
  }

  lemma {:induction false} NothingLost(server: Server)
    requires ServerOk(server) && NoEmptyValues(server)
    ensures AllKeys(server, false) == AllKeys(server, true)
  {
    hide KeysOf, IsEmptyObject;
    if server != [] {
      NothingLost(server[..|server| - 1]);
      assert DbOk(server[|server| - 1]);
      SameKeysOf(|server| - 1, server[|server| - 1]);
    }
  }

  lemma {:induction false} AllKeysHas(server: Server, all: bool, s: AofRewrite.Slot)
    requires ServerOk(server)
    ensures s in AllKeys(server, all) <==> s.db < |server| && HasKey(server[s.db], s.key, all)
  {
    hide KeysOf, HasKey, DbOk;
    if server != [] {
      AllKeysHas(server[..|server| - 1], all, s);
      KeysOfHas(|server| - 1, server[|server| - 1], all, s);
    }
  }

  // The commands rebuild the dataset exactly when no key has an empty value.
  lemma RebuildsExactly(cx: Codec, server: Server)
    requires RoundTrips(cx) && ServerOk(server)
    ensures ExecuteAll(cx, map[], Done(cx, server)) == Dataset(server) <==> NoEmptyValues(server)
  {
    hide RoundTrips, AllKeys, Done, ExecuteAll, IsEmptyObject;
    ServerBuilds(cx, server);
    if NoEmptyValues(server) {
      NothingLost(server);
    } else {
      var j, i :| 0 <= j < |server| && 0 <= i < |server[j]| && IsEmptyObject(server[j][i].value);
      var s := AofRewrite.Slot(j, server[j][i].key);
      AllKeysHas(server, true, s);
      AllKeysHas(server, false, s);
      assert HasKey(server[j], s.key, true);
      assert DbOk(server[j]);
      assert !HasKey(server[j], s.key, false);
    }
  }

  // ---------------------------------------------------------------------------------------------
  // Loading the rewritten file
  // ---------------------------------------------------------------------------------------------

  predicate IsWrite(argv: Argv) {
    |argv| >= 3 && (argv[0] == SET || argv[0] == RPUSH || argv[0] == SADD || argv[0] == ZADD || argv[0] == HMSET || argv[0] == PEXPIREAT)
  }

  ghost predicate HasItems(cx: Codec, t: Aggregate, args: Argv) {
    args != [] && |args| % Width(t) == 0 && AreItems(cx, t, Unflatten(args, Width(t)))
  }

  // The commands of a rewrite as they are written: SET and PEXPIREAT without options, and whole items.
  ghost predicate IsEmitted(cx: Codec, argv: Argv) {
    |argv| >= 3 &&
    ((argv[0] == SET && |argv| == 3) ||
     (argv[0] == PEXPIREAT && |argv| == 3 && exists n :: HasLong(n) && argv[2] == ShowLong(n)) ||
     (exists t :: argv[0] == NameOf(t) && HasItems(cx, t, argv[2..])))
  }

  ghost predicate AllWrites(cs: seq<Argv>) { forall i :: 0 <= i < |cs| ==> IsWrite(cs[i]) && Resp.Fits(cs[i]) }

  // The command table has the commands that a rewrite uses.
  ghost predicate Knows(look: Lookup) { Selects(look) && forall argv :: IsWrite(argv) ==> look(argv) == Other }

  ghost predicate ArgsFit(argv: Argv) { forall i :: 0 <= i < |argv| ==> |argv[i]| <= LONG_MAX }

  ghost predicate ItemFits(cx: Codec, item: Item) {
    && |item.key| <= LONG_MAX
    && if item.value.StringObj? then |item.value.s| <= LONG_MAX
       else forall i :: 0 <= i < |ItemsOf(cx, item.value)| ==> ArgsFit(ItemsOf(cx, item.value)[i])
  }

  ghost predicate ServerFits(cx: Codec, server: Server) {
    |server| <= INT_MAX && forall j, i :: 0 <= j < |server| && 0 <= i < |server[j]| ==> ItemFits(cx, server[j][i])
  }

  lemma {:induction false} FlattenFits(us: seq<Argv>)
    requires forall i :: 0 <= i < |us| ==> ArgsFit(us[i])
    ensures ArgsFit(Flatten(us))
  {
    if us != [] {
      FlattenFits(us[1..]);
    }
  }

  lemma {:induction false} ChunksWrite(t: Aggregate, key: Bytes, us: seq<Argv>)
    requires |key| <= LONG_MAX && forall i :: 0 <= i < |us| ==> |us[i]| == Width(t) && ArgsFit(us[i])
    ensures AllWrites(Chunks(NameOf(t), key, us))
    decreases |us|
  {
    hide ArgsFit, Flatten;
    if us != [] {
      var k := ChunkSize(|us|);
      FlattenUnits(us[..k], Width(t));
      FlattenFits(us[..k]);
      ChunkWrites(t, key, Flatten(us[..k]));
      ChunksWrite(t, key, us[k..]);
    }
  }

  lemma ChunkWrites(t: Aggregate, key: Bytes, args: Argv)
    requires |key| <= LONG_MAX && ArgsFit(args) && 1 <= |args| <= 2 * ITEMS_PER_CMD
    ensures IsWrite([NameOf(t), key] + args) && Resp.Fits([NameOf(t), key] + args)
  {}

  lemma ItemWrites(cx: Codec, item: Item)
    requires RoundTrips(cx) && ItemOk(item) && ItemFits(cx, item)
    ensures AllWrites(ItemCommands(cx, item))
  {
    hide Chunks, AddAll, ArgsFit, MapOf, Distinct;
    var o := item.value;
    if !o.StringObj? {
      ObjectBuilds(cx, o);
      assert forall i :: 0 <= i < |ItemsOf(cx, o)| ==> IsItem(cx, TypeOf(o), ItemsOf(cx, o)[i]);
      ChunksWrite(TypeOf(o), item.key, ItemsOf(cx, o));
    }
    if item.expire.Some? {
      ExpireFits(item.expire.value);
    }
  }

  lemma ExpireFits(at: int)
    requires HasLong(at)
    ensures |ShowLong(at)| <= LONG_MAX
  {
    PowIs();
    DecimalShort(if at < 0 then -at else at, 19);
  }

  lemma PowIs()
    ensures Pow10(19) > LONG_MAX + 1
  {
    assert Pow10(6) == 1000000;
    assert Pow10(12) == 1000000_000000;
    assert Pow10(18) == 1000000_000000_000000;
  }

  lemma {:induction false} ItemsWrite(cx: Codec, db: Db)
    requires RoundTrips(cx) && DbOk(db) && forall i :: 0 <= i < |db| ==> ItemFits(cx, db[i])
    ensures AllWrites(ItemsCommands(cx, db))
  {
    hide RoundTrips, ItemFits, ItemCommands, ItemOk, IsWrite, Resp.Fits;
    if db != [] {
      ItemsWrite(cx, db[..|db| - 1]);
      assert ItemOk(db[|db| - 1]);
      ItemWrites(cx, db[|db| - 1]);
    }
  }

  lemma {:induction false} CallWrites(look: Lookup, c: AofLog.Client, cs: seq<Argv>)
    requires Knows(look) && AllWrites(cs)
    ensures CallAll(look, c, cs) == c.(done := c.done + Tag(c.db, cs))
  {
    hide IsWrite, Resp.Fits, Selects;
    if cs == [] {
      assert c.done + [] == c.done;
    } else {
      var init, last := cs[..|cs| - 1], cs[|cs| - 1];
      CallWrites(look, c, init);
      assert IsWrite(last);
      TagConcat(c.db, init, [last]);
      assert init + [last] == cs;
      assert Tag(c.db, [last]) == [(c.db, last)];
      assert c.done + Tag(c.db, init) + [(c.db, last)] == c.done + (Tag(c.db, init) + [(c.db, last)]);
    }
  }

  lemma {:induction false} CallAllConcat(look: Lookup, c: AofLog.Client, a: seq<Argv>, b: seq<Argv>)
    ensures CallAll(look, c, a + b) == CallAll(look, CallAll(look, c, a), b)
  {
    hide Call;
    if b == [] {
      assert a + b == a;
    } else {
      assert (a + b)[..|a + b| - 1] == a + b[..|b| - 1];
      CallAllConcat(look, c, a, b[..|b| - 1]);
    }
  }

  ghost predicate PlainLog(look: Lookup, cs: seq<Argv>) {
    forall i :: 0 <= i < |cs| ==> Resp.Fits(cs[i]) && (look(cs[i]).Select? || look(cs[i]).Other?)
  }

  lemma SelectFits(j: nat)
    requires j <= INT_MAX
    ensures Resp.Fits(SelectArgv(j))
  {
    DecimalFits(j);
  }

  // Executing the commands for a database, from wherever the client is.
  lemma CallDb(look: Lookup, cx: Codec, c: AofLog.Client, j: nat, db: Db)
    requires Knows(look) && RoundTrips(cx) && DbOk(db) && j <= INT_MAX && forall i :: 0 <= i < |db| ==> ItemFits(cx, db[i])
    ensures CallAll(look, c, DbCommands(cx, j, db)).done == c.done + Tag(j, ItemsCommands(cx, db))
    ensures PlainLog(look, DbCommands(cx, j, db))
  {
    hide RoundTrips, DbOk, ItemFits, SelectArgv, Resp.Fits, IsWrite, CallAll, Tag;
    if db == [] {
      CallAllNothing(look, c);
      assert ItemsCommands(cx, db) == [];
      TagNone(j);
      assert c.done + [] == c.done;
    } else {
      var cs := ItemsCommands(cx, db);
      ItemsWrite(cx, db);
      SelectFits(j);
      CallAllConcat(look, c, [SelectArgv(j)], cs);
      CallAllSnoc(look, c, [], SelectArgv(j));
      CallAllNothing(look, c);
      assert [] + [SelectArgv(j)] == [SelectArgv(j)];
      CallWrites(look, c.(db := j), cs);
    }
  }

  lemma TagNone(j: nat)
    ensures Tag(j, []) == []
  {}

  lemma FitsApart(cx: Codec, server: Server)
    requires ServerOk(server) && ServerFits(cx, server) && server != []
    ensures var init, last := server[..|server| - 1], server[|server| - 1];
      && ServerOk(init) && ServerFits(cx, init)
      && DbOk(last) && forall i :: 0 <= i < |last| ==> ItemFits(cx, last[i])
  {
    hide DbOk, ItemFits;
    var init, last := server[..|server| - 1], server[|server| - 1];
    forall j, i | 0 <= j < |init| && 0 <= i < |init[j]| ensures ItemFits(cx, init[j][i]) { assert ItemFits(cx, server[j][i]); }
  }

  lemma ServerSplits(cx: Codec, server: Server)
    requires server != []
    ensures var init, last, k := server[..|server| - 1], server[|server| - 1], |server| - 1;
      && ServerCommands(cx, server) == ServerCommands(cx, init) + DbCommands(cx, k, last)
      && Done(cx, server) == Done(cx, init) + Tag(k, ItemsCommands(cx, last))
  {}

  lemma PlainConcat(look: Lookup, a: seq<Argv>, b: seq<Argv>)
    requires PlainLog(look, a) && PlainLog(look, b)
    ensures PlainLog(look, a + b)
  {}

  lemma {:induction false} CallServer(look: Lookup, cx: Codec, server: Server)
    requires Knows(look) && RoundTrips(cx) && ServerOk(server) && ServerFits(cx, server)
    ensures CallAll(look, START, ServerCommands(cx, server)).done == Done(cx, server)
    ensures PlainLog(look, ServerCommands(cx, server))
  {
    if server == [] {
      CallAllNothing(look, START);
    } else {
      hide Knows, RoundTrips, DbOk, ItemFits, PlainLog, CallAll, DbCommands, ServerCommands, Done, ServerOk, Tag, ItemsCommands;
      var init, last := server[..|server| - 1], server[|server| - 1];
      FitsApart(cx, server);
      CallServer(look, cx, init);
      ServerSplits(cx, server);
      CallAllConcat(look, START, ServerCommands(cx, init), DbCommands(cx, |server| - 1, last));
      CallDb(look, cx, CallAll(look, START, ServerCommands(cx, init)), |server| - 1, last);
      PlainConcat(look, ServerCommands(cx, init), DbCommands(cx, |server| - 1, last));
    }
  }

  lemma {:induction false} NeverInMulti(look: Lookup, cs: seq<Argv>)
    requires PlainLog(look, cs)
    ensures !Run(look, cs).multi
  {
    hide Resp.Fits;
    if cs != [] {
      NeverInMulti(look, cs[..|cs| - 1]);
    }
  }

  // Loading the rewritten file succeeds, and what it executes on empty databases gives the dataset,
  // exactly when no key has an empty value.
  lemma RewriteLoads(look: Lookup, cx: Codec, server: Server)
    requires Knows(look) && RoundTrips(cx) && ServerOk(server) && ServerFits(cx, server)
    ensures var file := Log(ServerCommands(cx, server)); var r := Load(look, file);
      && !r.status.LoadFailed? && !r.status.LoadedTruncated? && r.size == |file|
      && (ExecuteAll(cx, map[], r.client.done) == Dataset(server) <==> NoEmptyValues(server))
  {
    hide Knows, RoundTrips, ServerOk, ServerFits, ServerCommands, Log, Load, Run, CallAll, Done, ExecuteAll, Dataset, NoEmptyValues;
    var cs := ServerCommands(cx, server);
    CallServer(look, cx, server);
    LoadPlain(look, cs);
    RebuildsExactly(cx, server);
  }

  lemma LoadPlain(look: Lookup, cs: seq<Argv>)
    requires PlainLog(look, cs)
    ensures var r := Load(look, Log(cs));
      !r.status.LoadFailed? && !r.status.LoadedTruncated? && r.size == |Log(cs)| && r.client == CallAll(look, START, cs)
  {
    hide Log, Load, Run, CallAll, Whole, LastMulti, Resp.Fits;
    var n := |Log(cs)|;
    assert Log(cs)[..n] == Log(cs);
    LoadRuns(look, cs, n);
    assert cs[..|cs|] == cs;
    WholeAt(cs, |cs|);
    NeverInMulti(look, cs);
    FlatRun(look, cs);
  }
}
