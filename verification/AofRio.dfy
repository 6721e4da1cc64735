// Writing the rewritten append only file (aof.c).
module AofRio {
  import opened Basics
  import opened Resp
  import opened AofLog
  import opened AofFile
  import opened AofRewrite

  // ---------------------------------------------------------------------------------------------
  // What is left to write
  // ---------------------------------------------------------------------------------------------

  lemma {:induction false} FlattenConcat(a: seq<Argv>, b: seq<Argv>)
    ensures Flatten(a + b) == Flatten(a) + Flatten(b)
  {
    if a == [] {
      assert a + b == b;
    } else {
      assert (a + b)[1..] == a[1..] + b;
      FlattenConcat(a[1..], b);
    }
  }

  // The rest of a command, of which rest items are still to be written, and the commands after it.
  ghost function Pending(name: Bytes, key: Bytes, us: seq<Argv>, rest: nat): Bytes
    requires rest <= |us|
  {
    Bulks(Flatten(us[..rest])) + Log(Chunks(name, key, us[rest..]))
  }

  // A new command: its header, its name and its key come first.
  lemma BeginChunk(name: Bytes, key: Bytes, us: seq<Argv>, w: nat)
    requires us != [] && (w == 1 || w == 2) && forall i :: 0 <= i < |us| ==> |us[i]| == w
    ensures var k := ChunkSize(|us|);
      Pending(name, key, us, 0) == Header(STAR, 2 + k * w) + Bulk(name) + Bulk(key) + Pending(name, key, us, k)
  {
    hide Header, Bulk, Flatten;
    var k := ChunkSize(|us|);
    var argv, rest := [name, key] + Flatten(us[..k]), Chunks(name, key, us[k..]);
    FlattenUnits(us[..k], w);
    assert us[..0] == [] && us[0..] == us;
    NoItems();
    LogConcat([argv], rest);
    LogOne(argv);
    BulksConcat([name, key], Flatten(us[..k]));
    assert [name, key][1..] == [key];
    assert Bulks([name, key]) == Bulk(name) + Bulk(key);
    assert Encode(argv) == Header(STAR, 2 + k * w) + (Bulk(name) + Bulk(key) + Bulks(Flatten(us[..k])));
  }

  lemma NoItems()
    ensures Flatten([]) == [] && Bulks([]) == []
  {}

  // The next item of a command.
  lemma NextItem(name: Bytes, key: Bytes, us: seq<Argv>, rest: nat)
    requires 0 < rest <= |us|
    ensures Pending(name, key, us, rest) == Bulks(us[0]) + Pending(name, key, us[1..], rest - 1)
  {
    hide Bulk, Log, Chunks;
    assert us[..rest] == [us[0]] + us[1..][..rest - 1];
    FlattenConcat([us[0]], us[1..][..rest - 1]);
    assert [us[0]][1..] == [];
    assert Flatten([us[0]]) == us[0] + [];
    BulksConcat(us[0], Flatten(us[1..][..rest - 1]));
    assert us[1..][rest - 1..] == us[rest..];
  }

  lemma NothingPending(name: Bytes, key: Bytes)
    ensures Pending(name, key, [], 0) == []
  {}

  class Rio {
    var out: Bytes

    constructor ()
      ensures out == []
    {
      out := [];
    }

    // rioWriteBulkCount
    method WriteBulkCount(sign: Octet, n: nat)
      modifies this
      ensures out == old(out) + Header(sign, n)
    {
      out := out + Header(sign, n);
    }

    // rioWriteBulkString
    method WriteBulkString(s: Bytes)
      modifies this
      ensures out == old(out) + Bulk(s)
    {
      WriteBulkCount(DOLLAR, |s|);
      out := out + s;
      out := out + [CR, LF];
    }

    // The arguments of an item.
    method WriteItem(u: Argv)
      modifies this
      ensures out == old(out) + Bulks(u)
    {
      hide Bulk;
      var i := 0;
      assert u[..0] == [];
      while i < |u|
        invariant 0 <= i <= |u| && out == old(out) + Bulks(u[..i])
      {
        assert u[..i + 1] == u[..i] + [u[i]];
        BulksConcat(u[..i], [u[i]]);
        assert [u[i]][1..] == [];
        assert Bulks([u[i]]) == Bulk(u[i]) + [];
        WriteBulkString(u[i]);
        i := i + 1;
      }
      assert u[..i] == u;
    }

    // The loop that rewriteListObject, rewriteSetObject, rewriteSortedSetObject and rewriteHashObject
    // share: at most ITEMS_PER_CMD items for each command.
    method RewriteAggregate(name: Bytes, w: nat, key: Bytes, us: seq<Argv>)
      requires (w == 1 || w == 2) && forall i :: 0 <= i < |us| ==> |us[i]| == w
      modifies this
      ensures out == old(out) + Log(Chunks(name, key, us))
    {
      hide Header, Bulk, Bulks, Flatten, Chunks, Log, Pending;
      ghost var all := Log(Chunks(name, key, us));
      var count, items := 0, |us|;
      ghost var rest := 0;
      WholePending(name, key, us);
      var i := 0;
      assert us[0..] == us;
      while i < |us|
        invariant 0 <= i <= |us| && items == |us| - i && rest <= items && count < ITEMS_PER_CMD
        invariant count == 0 ==> rest == 0
        invariant count > 0 ==> rest == ChunkSize(items + count) - count
        invariant out + Pending(name, key, us[i..], rest) == old(out) + all
      {
        if count == 0 {
          var cmdItems := if items > ITEMS_PER_CMD then ITEMS_PER_CMD else items;
          BeginChunk(name, key, us[i..], w);
          WriteBulkCount(STAR, 2 + cmdItems * w);
          WriteBulkString(name);
          WriteBulkString(key);
          rest := cmdItems;
        }
        assert out + Pending(name, key, us[i..], rest) == old(out) + all;
        NextItem(name, key, us[i..], rest);
        assert us[i..][0] == us[i] && us[i..][1..] == us[i + 1..];
        WriteItem(us[i]);
        rest := rest - 1;
        count := count + 1;
        if count == ITEMS_PER_CMD {
          count := 0;
        }
        items := items - 1;
        i := i + 1;
      }
      assert us[i..] == [];
      NothingPending(name, key);
    }

    method RewriteObject(cx: Codec, key: Bytes, o: Object)
      modifies this
      ensures out == old(out) + Log(ObjectCommands(cx, key, o))
    {
      hide Header, Bulk, Chunks, Log;
      if o.StringObj? {
        WriteBulkCount(STAR, 3);
        WriteItem([SET, key, o.s]);
        LogOne([SET, key, o.s]);
        assert Encode([SET, key, o.s]) == Header(STAR, 3) + Bulks([SET, key, o.s]);
      } else {
        RewriteAggregate(NameOf(TypeOf(o)), Width(TypeOf(o)), key, ItemsOf(cx, o));
      }
    }

    method RewriteExpire(key: Bytes, expire: Option<int>)
      modifies this
      ensures out == old(out) + Log(ExpireCommands(key, expire))
    {
      hide Header, Bulks;
      if expire.Some? {
        var argv := [PEXPIREAT, key, ShowLong(expire.value)];
        WriteBulkCount(STAR, 3);
        WriteItem(argv);
        LogOne(argv);
      }
    }

    // The keys of a database.
    method RewriteItems(cx: Codec, db: Db)
      modifies this
      ensures out == old(out) + Log(ItemsCommands(cx, db))
    {
      hide Log, ObjectCommands, ExpireCommands;
      var i := 0;
      assert db[..0] == [];
      NoLog();
      while i < |db|
        invariant 0 <= i <= |db| && out == old(out) + Log(ItemsCommands(cx, db[..i]))
      {
        assert db[..i + 1][..i] == db[..i];
        LogConcat(ItemsCommands(cx, db[..i]), ItemCommands(cx, db[i]));
        LogConcat(ObjectCommands(cx, db[i].key, db[i].value), ExpireCommands(db[i].key, db[i].expire));
        RewriteObject(cx, db[i].key, db[i].value);
        RewriteExpire(db[i].key, db[i].expire);
        i := i + 1;
      }
      assert db[..i] == db;
    }

    // rewriteAppendOnlyFileRio, without functions and time stamps.
    method RewriteAppendOnlyFile(cx: Codec, server: Server)
      modifies this
      ensures out == old(out) + Log(ServerCommands(cx, server))
    {
      hide Log, ItemsCommands, Header, Bulks, SelectArgv;
      var j := 0;
      assert server[..0] == [];
      NoLog();
      while j < |server|
        invariant 0 <= j <= |server| && out == old(out) + Log(ServerCommands(cx, server[..j]))
      {
        var db := server[j];
        assert server[..j + 1][..j] == server[..j];
        LogConcat(ServerCommands(cx, server[..j]), DbCommands(cx, j, db));
        if |db| != 0 {
          LogConcat([SelectArgv(j)], ItemsCommands(cx, db));
          LogOne(SelectArgv(j));
          SelectIs(j);
          WriteBulkCount(STAR, 2);
          WriteItem(SelectArgv(j));
          RewriteItems(cx, db);
        }
        j := j + 1;
      }
      assert server[..j] == server;
    }
  }

  lemma SelectIs(j: nat)
    ensures Encode(SelectArgv(j)) == Header(STAR, 2) + Bulks(SelectArgv(j))
  {}

  lemma NoLog()
    ensures Log([]) == []
  {}

  lemma WholePending(name: Bytes, key: Bytes, us: seq<Argv>)
    ensures Pending(name, key, us, 0) == Log(Chunks(name, key, us))
  {
    assert us[..0] == [] && us[0..] == us;
    NoItems();
  }
}
