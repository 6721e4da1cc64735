// The file that a rewrite writes for a dataset loads to this dataset, whatever other commands do (aof.c).
module AofSnapshot {
  import opened Basics
  import opened Resp
  import opened AofLog
  import opened AofRewrite
  import opened AofRebuild
  import opened AofUnits

  // ---------------------------------------------------------------------------------------------
  // A dataset without empty aggregates
  // ---------------------------------------------------------------------------------------------

  lemma EmptyObjects(o: Object)
    requires AofRewrite.WellFormed(o) && IsEmptyObject(o)
    ensures EmptyValue(ValueOf(o))
  {}

  lemma {:induction false} KeysOfAt(j: nat, db: Db, i: nat)
    requires DbOk(db) && i < |db| && ItemOk(db[i])
    ensures var s := AofRewrite.Slot(j, db[i].key);
      s in KeysOf(j, db, true) && KeysOf(j, db, true)[s].value == ValueOf(db[i].value)
  {
    hide ValueOf, ItemOk;
    var k := |db| - 1;
    if i < k {
      assert db[..k][i] == db[i];
      KeysOfAt(j, db[..k], i);
    }
  }

  lemma {:induction false} AllKeysAt(server: Server, j: nat, i: nat)
    requires ServerOk(server) && j < |server| && i < |server[j]| && ItemOk(server[j][i])
    ensures var s := AofRewrite.Slot(j, server[j][i].key);
      s in AllKeys(server, true) && AllKeys(server, true)[s].value == ValueOf(server[j][i].value)
  {
    hide KeysOf, ValueOf, ItemOk, DbOk, HasKey;
    var k := |server| - 1;
    var s := AofRewrite.Slot(j, server[j][i].key);
    assert DbOk(server[k]);
    if j < k {
      AllKeysAt(server[..k], j, i);
      KeysOfHas(k, server[k], true, s);
    } else {
      KeysOfAt(j, server[j], i);
    }
  }

  lemma FullHasNone(server: Server)
    requires ServerOk(server) && Full(Dataset(server))
    ensures NoEmptyValues(server)
  {
    hide AllKeys, ValueOf, IsEmptyObject, EmptyValue;
    forall j, i | 0 <= j < |server| && 0 <= i < |server[j]| ensures !IsEmptyObject(server[j][i].value) {
      assert DbOk(server[j]);
      assert ItemOk(server[j][i]);
      AllKeysAt(server, j, i);
      if IsEmptyObject(server[j][i].value) { EmptyObjects(server[j][i].value); }
    }
  }

  // ---------------------------------------------------------------------------------------------
  // Loading the file of a rewrite
  // ---------------------------------------------------------------------------------------------

  ghost predicate AllEmitted(cx: Codec, cs: seq<Argv>) { forall i :: 0 <= i < |cs| ==> IsEmitted(cx, cs[i]) }

  ghost predicate AllDoneEmitted(cx: Codec, done: seq<(nat, Argv)>) { forall i :: 0 <= i < |done| ==> IsEmitted(cx, done[i].1) }

  lemma ChunkEmitted(cx: Codec, t: Aggregate, key: Bytes, us: seq<Argv>)
    requires us != [] && AreItems(cx, t, us)
    ensures IsEmitted(cx, [NameOf(t), key] + Flatten(us))
  {
    hide NameOf, Flatten, Unflatten, AreItems;
    ItemsHaveWidth(cx, t, us);
    FlattenUnits(us, Width(t));
    var argv := [NameOf(t), key] + Flatten(us);
    assert argv[2..] == Flatten(us) && argv[0] == NameOf(t);
    assert HasItems(cx, t, argv[2..]);
  }

  lemma ItemsHaveWidth(cx: Codec, t: Aggregate, us: seq<Argv>)
    requires AreItems(cx, t, us)
    ensures forall i :: 0 <= i < |us| ==> |us[i]| == Width(t)
  {
    forall i | 0 <= i < |us| ensures |us[i]| == Width(t) { assert IsItem(cx, t, us[i]); }
  }

  lemma {:induction false} ChunksEmitted(cx: Codec, t: Aggregate, key: Bytes, us: seq<Argv>)
    requires AreItems(cx, t, us)
    ensures AllEmitted(cx, Chunks(NameOf(t), key, us))
    decreases |us|
  {
    hide IsEmitted, AreItems, Flatten, NameOf;
    if us != [] {
      var k := ChunkSize(|us|);
      SplitItems(cx, t, us, k);
      ChunkEmitted(cx, t, key, us[..k]);
      ChunksEmitted(cx, t, key, us[k..]);
    }
  }

  // SET and PEXPIREAT without options.
  lemma PlainEmitted(cx: Codec, key: Bytes, s: Bytes, at: int)
    ensures IsEmitted(cx, [SET, key, s])
    ensures HasLong(at) ==> IsEmitted(cx, [PEXPIREAT, key, ShowLong(at)])
  {}

  lemma ItemEmitted(cx: Codec, item: Item)
    requires RoundTrips(cx) && ItemOk(item)
    ensures AllEmitted(cx, ItemCommands(cx, item))
  {
    hide RoundTrips, Chunks, IsEmitted, AddAll, AreItems, ValueOf, IsEmptyObject, HasLong, ShowLong;
    var o := item.value;
    PlainEmitted(cx, item.key, if o.StringObj? then o.s else [], if item.expire.Some? then item.expire.value else 0);
    if !o.StringObj? {
      ObjectBuilds(cx, o);
      ChunksEmitted(cx, TypeOf(o), item.key, ItemsOf(cx, o));
    }
  }

  lemma {:induction false} ItemsEmitted(cx: Codec, db: Db)
    requires RoundTrips(cx) && DbOk(db)
    ensures AllEmitted(cx, ItemsCommands(cx, db))
  {
    hide RoundTrips, ItemCommands, ItemOk, IsEmitted;
    if db != [] {
      ItemsEmitted(cx, db[..|db| - 1]);
      assert ItemOk(db[|db| - 1]);
      ItemEmitted(cx, db[|db| - 1]);
    }
  }

  // What a rewrite executes has the shape of what it writes.
  lemma {:induction false} DoneEmitted(cx: Codec, server: Server)
    requires RoundTrips(cx) && ServerOk(server)
    ensures AllDoneEmitted(cx, Done(cx, server))
  {
    hide RoundTrips, DbOk, IsEmitted, ItemsCommands;
    if server != [] {
      var k := |server| - 1;
      DoneEmitted(cx, server[..k]);
      assert DbOk(server[k]);
      ItemsEmitted(cx, server[k]);
    }
  }

  lemma {:induction false} ReplayIsExecute(m: Machine, d: Keys, done: seq<(nat, Argv)>)
    requires Works(m) && AllDoneEmitted(m.cx, done)
    ensures Replay(m, d, done) == ExecuteAll(m.cx, d, done)
  {
    hide Execute, IsEmitted, Full;
    if done != [] {
      ReplayIsExecute(m, d, done[..|done| - 1]);
      assert IsEmitted(m.cx, done[|done| - 1].1);
    }
  }

  lemma RewriteRebuilds(m: Machine, server: Server)
    requires Works(m) && ServerOk(server) && ServerFits(m.cx, server) && Full(Dataset(server))
    ensures var r := AofLog.Load(m.look, Log(ServerCommands(m.cx, server)));
      && !r.status.LoadFailed? && !r.status.LoadedTruncated?
      && Replay(m, map[], r.client.done) == Dataset(server)
  {
    hide ServerOk, ServerFits, ServerCommands, Log, Load, CallAll, Done, ExecuteAll, Dataset, NoEmptyValues, Full, Execute, IsEmitted, Replay;
    var cs := ServerCommands(m.cx, server);
    CallServer(m.look, m.cx, server);
    LoadPlain(m.look, cs);
    FullHasNone(server);
    RebuildsExactly(m.cx, server);
    DoneEmitted(m.cx, server);
    ReplayIsExecute(m, map[], Done(m.cx, server));
  }

  // ---------------------------------------------------------------------------------------------
  // A server that knows only the commands of a rewrite is one that works
  // ---------------------------------------------------------------------------------------------

  lemma {:induction false} AddedIsFull(cx: Codec, t: Aggregate, v: Value, us: seq<Argv>)
    requires Is(t, v) && AreItems(cx, t, us) && us != []
    ensures !EmptyValue(AddAll(cx, t, v, us))
  {
    hide AddAll;
    var w := AddAll(cx, t, v, us[..|us| - 1]);
    AddIsFull(cx, t, w, us[|us| - 1]);
    AddAllLast(cx, t, v, us);
  }

  lemma AddAllLast(cx: Codec, t: Aggregate, v: Value, us: seq<Argv>)
    requires Is(t, v) && AreItems(cx, t, us) && us != []
    ensures AddAll(cx, t, v, us) == Add(cx, t, AddAll(cx, t, v, us[..|us| - 1]), us[|us| - 1])
  {}

  lemma AddIsFull(cx: Codec, t: Aggregate, v: Value, u: Argv)
    requires Is(t, v) && IsItem(cx, t, u)
    ensures !EmptyValue(Add(cx, t, v, u))
  {
    match t
    case ListT =>
    case SetT => assert u[0] in v.members + {u[0]};
    case ZsetT => assert u[1] in v.scores[u[1] := cx.read(u[0]).value];
    case HashT => assert u[0] in v.fields[u[0] := u[1]];
  }

  lemma ExtendFull(cx: Codec, keys: Keys, s: AofRewrite.Slot, t: Aggregate, args: Argv)
    requires Full(keys)
    ensures Full(Extend(cx, keys, s, t, args))
  {
    hide AddAll, EmptyValue, AreItems, Is;
    var us := Unflatten(args, Width(t));
    if args != [] && |args| % Width(t) == 0 && AreItems(cx, t, us) {
      assert us != [];
      if s !in keys {
        EmptyIs(t);
        AddedIsFull(cx, t, Empty(t), us);
      } else if Is(t, keys[s].value) {
        AddedIsFull(cx, t, keys[s].value, us);
      }
    }
  }

  lemma ExecuteFull(cx: Codec, keys: Keys, db: nat, argv: Argv)
    requires Full(keys)
    ensures Full(Execute(cx, keys, db, argv))
  {
    hide Extend;
    if |argv| >= 3 {
      var s := AofRewrite.Slot(db, argv[1]);
      ExtendFull(cx, keys, s, ListT, argv[2..]);
      ExtendFull(cx, keys, s, SetT, argv[2..]);
      ExtendFull(cx, keys, s, ZsetT, argv[2..]);
      ExtendFull(cx, keys, s, HashT, argv[2..]);
    }
  }

  lemma ExecuteWorks(look: Lookup, cx: Codec)
    requires Knows(look) && Transacts(look) && RoundTrips(cx)
    ensures Works(Machine(look, cx, (keys: Keys, db: nat, argv: Argv) => Execute(cx, keys, db, argv)))
  {
    hide Knows, Transacts, RoundTrips, Execute, Full, IsEmitted;
    forall keys, db, argv | Full(keys) ensures Full(Execute(cx, keys, db, argv)) {
      ExecuteFull(cx, keys, db, argv);
    }
  }

  // A server that also sets keys with an expire time.
  const PXAT: Bytes := [80, 88, 65, 84]

  ghost function ExecuteMore(cx: Codec, keys: Keys, db: nat, argv: Argv): Keys {
    if |argv| == 5 && argv[0] == SET && argv[3] == PXAT
    then keys[AofRewrite.Slot(db, argv[1]) := Entry(StrV(argv[2]), Some(ReadLong(argv[4])))]
    else Execute(cx, keys, db, argv)
  }

  lemma EmittedIsNotLong(cx: Codec, argv: Argv)
    requires IsEmitted(cx, argv)
    ensures !(|argv| == 5 && argv[0] == SET)
  {}

  // What a rewrite relies on leaves room for the options of commands.
  lemma ExecuteMoreWorks(look: Lookup, cx: Codec)
    requires Knows(look) && Transacts(look) && RoundTrips(cx)
    ensures Works(Machine(look, cx, (keys: Keys, db: nat, argv: Argv) => ExecuteMore(cx, keys, db, argv)))
    ensures forall keys: Keys, db, k, v, at ::
      ExecuteMore(cx, keys, db, [SET, k, v, PXAT, at]) == keys[AofRewrite.Slot(db, k) := Entry(StrV(v), Some(ReadLong(at)))]
  {
    hide Knows, Transacts, RoundTrips, Execute, IsEmitted;
    forall keys, db, argv | Full(keys) ensures Full(ExecuteMore(cx, keys, db, argv)) {
      ExecuteFull(cx, keys, db, argv);
    }
    forall keys, db, argv | IsEmitted(cx, argv) ensures ExecuteMore(cx, keys, db, argv) == Execute(cx, keys, db, argv) {
      EmittedIsNotLong(cx, argv);
    }
  }
}
