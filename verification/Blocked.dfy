// Blocking clients on keys, waking them up and serving them (blocked.c).
module Blocked {
  import opened Basics
  import opened BlockedIndex

  datatype ObjectType = STRING_OBJECT | LIST_OBJECT | SET_OBJECT | ZSET_OBJECT | HASH_OBJECT | MODULE_OBJECT | STREAM_OBJECT

  // getBlockedTypeByType
  function BlockedTypeOf(t: ObjectType): BlockType {
    match t
    case LIST_OBJECT => LIST
    case ZSET_OBJECT => ZSET
    case MODULE_OBJECT => MODULE
    case STREAM_OBJECT => STREAM
    case _ => NONE
  }

  predicate OnKeys(t: BlockType) { t == LIST || t == ZSET || t == STREAM }

  // What executing the command of a client again does: it may make keys ready, and the client may
  // have to wait again.
  datatype Signal = Signal(slot: Slot, otype: ObjectType, deleted: bool)

  datatype Reblock = Reblock(btype: BlockType, keys: seq<string>, onNoKey: bool)

  datatype Outcome = Outcome(signals: seq<Signal>, again: Option<Reblock>)

  ghost predicate Shape(c: Client) {
    && (c.blocked <==> c.btype != NONE) && c.btype != MODULE
    && (c.keys != map[] ==> OnKeys(c.btype))
    && (!OnKeys(c.btype) ==> !c.onNoKey)
  }

  ghost predicate Shaped(clients: map<nat, Client>) { forall id :: id in clients ==> Shape(clients[id]) }

  // A client that waits for keys has a command to execute again.
  ghost predicate Pending(clients: map<nat, Client>) {
    forall id :: id in clients && OnKeys(clients[id].btype) ==> clients[id].pending
  }

  ghost predicate NodesBelow(blocking: map<Slot, seq<Waiter>>, n: nat) {
    forall s, i :: s in blocking && 0 <= i < |blocking[s]| ==> blocking[s][i].node < n
  }

  ghost predicate Distinct<T>(l: seq<T>) { forall i, j :: 0 <= i < j < |l| ==> l[i] != l[j] }

  // CLIENT_UNBLOCKED says that a client is in the list.
  ghost predicate Queued(clients: map<nat, Client>, l: seq<nat>) {
    Distinct(l) && forall id :: id in l <==> id in clients && clients[id].queued
  }

  // A key is in the table of ready keys when it is in the list, and it is there once.
  ghost predicate Listed(l: seq<Slot>, table: set<Slot>) {
    Distinct(l) && forall s :: s in l <==> s in table
  }

  function Wanting(clients: map<nat, Client>, id: nat, onNoKey: bool): map<nat, Client>
    requires id in clients
  {
    clients[id := clients[id].(onNoKey := onNoKey)]
  }

  function WithoutKeys(clients: map<nat, Client>, id: nat, gone: set<string>): map<nat, Client>
    requires id in clients
  {
    clients[id := clients[id].(keys := clients[id].keys - gone)]
  }

  // The waiter of a client in the list of a key, if the client's table has the key.
  function Own(q: Slot, id: nat, db: nat, table: map<string, nat>): seq<Waiter> {
    if q.db == db && q.key in table then [Waiter(table[q.key], id)] else []
  }

  // A client was added at the end of the lists of its keys; the other lists are the same.
  ghost predicate Joined(before: map<Slot, seq<Waiter>>, after: map<Slot, seq<Waiter>>, id: nat, db: nat, table: map<string, nat>) {
    forall q :: Waiters(after, q) == Waiters(before, q) + Own(q, id, db, table)
  }

  ghost predicate Covers(table: map<string, nat>, keys: seq<string>) { forall k :: k in table <==> k in keys }

  lemma CoversNone()
    ensures Covers(map[], [])
  {}

  lemma CoversNext(table: map<string, nat>, keys: seq<string>, key: string, node: nat)
    requires Covers(table, keys)
    ensures Covers(table[key := node], keys + [key]) && (key in table ==> Covers(table, keys + [key]))
  {}

  // A client was taken out of all lists.
  ghost predicate Left(before: map<Slot, seq<Waiter>>, after: map<Slot, seq<Waiter>>, id: nat) {
    forall q :: Waiters(after, q) == Drop(Waiters(before, q), id)
  }

  const NO_COUNTS: map<BlockType, int> :=
    map[NONE := 0, LIST := 0, WAIT := 0, WAITAOF := 0, MODULE := 0, STREAM := 0, ZSET := 0, POSTPONE := 0, SHUTDOWN := 0]

  lemma NobodyBlocked()
    ensures Tallied(map[], 0, NO_COUNTS)
  {
    assert Counted(map[]) == {};
    forall t ensures t in NO_COUNTS && NO_COUNTS[t] == |OfType(map[], t)| {
      assert OfType(map[], t) == {};
      match t { case NONE => case LIST => case _ => }
    }
  }

  lemma EnterWanting(x: Index, id: nat, onNoKey: bool, key: string, node: nat)
    requires id in x.clients
    ensures var c := x.clients[id]; var s := Slot(c.db, key);
      Enter(x.(clients := Wanting(x.clients, id, onNoKey)), id, key, node) == Index(
        Wanting(x.clients[id := c.(keys := c.keys[key := node])], id, onNoKey),
        x.blocking[s := (if s in x.blocking then x.blocking[s] else []) + [Waiter(node, id)]],
        if onNoKey then x.noKey[s := if s in x.noKey then x.noKey[s] + 1 else 1] else x.noKey)
  {
    var c := x.clients[id];
    assert Wanting(x.clients, id, onNoKey)[id := c.(keys := c.keys[key := node], onNoKey := onNoKey)]
        == Wanting(x.clients[id := c.(keys := c.keys[key := node])], id, onNoKey);
  }

  lemma EnterJoins(x: Index, id: nat, key: string, node: nat)
    requires id in x.clients && NodesBelow(x.blocking, node)
    ensures FreshNode(x, node)
    ensures var y := Enter(x, id, key, node);
      Joined(x.blocking, y.blocking, id, x.clients[id].db, map[key := node]) && NodesBelow(y.blocking, node + 1)
  {}

  lemma WantingHas(clients: map<nat, Client>, id: nat, onNoKey: bool)
    requires id in clients
    ensures var w := Wanting(clients, id, onNoKey); id in w && w[id].db == clients[id].db && w[id].keys == clients[id].keys
  {}

  lemma JoinedNone(b: map<Slot, seq<Waiter>>, id: nat, db: nat)
    ensures Joined(b, b, id, db, map[])
  {}

  lemma JoinedMore(a: map<Slot, seq<Waiter>>, b: map<Slot, seq<Waiter>>, c: map<Slot, seq<Waiter>>,
                   id: nat, db: nat, table: map<string, nat>, key: string, node: nat)
    requires Joined(a, b, id, db, table) && Joined(b, c, id, db, map[key := node]) && key !in table
    ensures Joined(a, c, id, db, table[key := node])
  {
    hide Waiters;
    forall q ensures Waiters(c, q) == Waiters(a, q) + Own(q, id, db, table[key := node]) {
      assert Waiters(c, q) == Waiters(b, q) + Own(q, id, db, map[key := node]);
      assert Waiters(b, q) == Waiters(a, q) + Own(q, id, db, table);
    }
  }

  lemma QueuedSame(clients: map<nat, Client>, l: seq<nat>, id: nat, c: Client)
    requires Queued(clients, l) && id in clients && clients[id].queued == c.queued
    ensures Queued(clients[id := c], l)
  {}

  // A client was taken out of the lists of some of its keys.
  ghost predicate LeftSome(before: map<Slot, seq<Waiter>>, after: map<Slot, seq<Waiter>>, id: nat, db: nat, keys: set<string>) {
    forall q :: Waiters(after, q) == if q.db == db && q.key in keys then Drop(Waiters(before, q), id) else Waiters(before, q)
  }

  lemma LeftNone(b: map<Slot, seq<Waiter>>, id: nat, db: nat)
    ensures LeftSome(b, b, id, db, {})
  {}

  lemma LeftMore(a: map<Slot, seq<Waiter>>, b: map<Slot, seq<Waiter>>, c: map<Slot, seq<Waiter>>,
                 id: nat, db: nat, keys: set<string>, key: string)
    requires LeftSome(a, b, id, db, keys) && LeftSome(b, c, id, db, {key})
    ensures LeftSome(a, c, id, db, keys + {key})
  {
    hide Waiters, Drop;
    forall q ensures Waiters(c, q) == if q.db == db && q.key in keys + {key} then Drop(Waiters(a, q), id) else Waiters(a, q) {
      DropTwice(Waiters(a, q), id);
      assert Waiters(b, q) == if q.db == db && q.key in keys then Drop(Waiters(a, q), id) else Waiters(a, q);
      assert Waiters(c, q) == if q.db == db && q.key in {key} then Drop(Waiters(b, q), id) else Waiters(b, q);
    }
  }

  lemma LeftAll(x: Index, after: map<Slot, seq<Waiter>>, id: nat)
    requires Consistent(x) && id in x.clients && LeftSome(x.blocking, after, id, x.clients[id].db, x.clients[id].keys.Keys)
    ensures Left(x.blocking, after, id)
  {
    hide Consistent, Waiters, Drop;
    forall q ensures Waiters(after, q) == Drop(Waiters(x.blocking, q), id) {
      if q.db != x.clients[id].db || q.key !in x.clients[id].keys {
        NotInList(x, q, id);
      }
    }
  }

  // What releasing an entry does to the lists.
  lemma ReleaseLeaves(x: Index, id: nat, key: string, n: nat)
    requires Consistent(x) && id in x.clients && key in x.clients[id].keys && NodesBelow(x.blocking, n)
    ensures LeftSome(x.blocking, Release(x, id, key).blocking, id, x.clients[id].db, {key})
    ensures NodesBelow(Release(x, id, key).blocking, n)
    ensures Slot(x.clients[id].db, key) in x.blocking
  {
    hide Consistent, Release, Drop;
    var y := Release(x, id, key);
    forall q ensures Waiters(y.blocking, q) == if q.db == x.clients[id].db && q.key in {key} then Drop(Waiters(x.blocking, q), id) else Waiters(x.blocking, q) {
      ReleaseDrops(x, id, key, q);
    }
    var p := Position(x, id, key);
    forall s, i | s in y.blocking && 0 <= i < |y.blocking[s]| ensures y.blocking[s][i].node < n {
      var l := Waiters(x.blocking, s);
      ReleaseDrops(x, id, key, s);
      assert y.blocking[s] == Waiters(y.blocking, s);
      DropKeepsNodes(l, id, i);
    }
  }

  lemma {:induction false} DropKeepsNodes(l: seq<Waiter>, id: nat, i: nat)
    ensures i < |Drop(l, id)| ==> Drop(l, id)[i] in l
  {
    if l != [] && i < |Drop(l, id)| {
      if l[0].id == id {
        DropKeepsNodes(l[1..], id, i);
      } else if i > 0 {
        DropKeepsNodes(l[1..], id, i - 1);
      }
    }
  }

  lemma WithoutOneMore(clients: map<nat, Client>, id: nat, gone: set<string>, key: string)
    requires id in clients
    ensures WithoutKeys(WithoutKeys(clients, id, gone), id, {key}) == WithoutKeys(clients, id, gone + {key})
  {
    assert clients[id].keys - gone - {key} == clients[id].keys - (gone + {key});
  }

  lemma WithoutNone(clients: map<nat, Client>, id: nat)
    requires id in clients
    ensures WithoutKeys(clients, id, {}) == clients
  {
    assert clients[id].keys - {} == clients[id].keys;
  }

  // A client that waits for nothing.
  function Idle(c: Client): Client { c.(blocked := false, btype := NONE, keys := map[], onNoKey := false) }

  // A client went from where it was in all lists to the end of the lists of some keys.
  ghost predicate Moved(before: map<Slot, seq<Waiter>>, after: map<Slot, seq<Waiter>>, id: nat, db: nat, table: map<string, nat>) {
    forall q :: Waiters(after, q) == Drop(Waiters(before, q), id) + Own(q, id, db, table)
  }

  lemma MovedBack(a: map<Slot, seq<Waiter>>, b: map<Slot, seq<Waiter>>, c: map<Slot, seq<Waiter>>, id: nat, db: nat, table: map<string, nat>)
    requires Left(a, b, id) && Joined(b, c, id, db, table)
    ensures Moved(a, c, id, db, table)
  {
    hide Waiters, Drop, Own;
  }

  // Leaving one list and then all of them is leaving all of them.
  lemma LeftTwice(a: map<Slot, seq<Waiter>>, b: map<Slot, seq<Waiter>>, c: map<Slot, seq<Waiter>>, id: nat, db: nat, keys: set<string>)
    requires LeftSome(a, b, id, db, keys) && Left(b, c, id)
    ensures Left(a, c, id)
  {
    hide Waiters, Drop;
    forall q ensures Waiters(c, q) == Drop(Waiters(a, q), id) {
      DropTwice(Waiters(a, q), id);
    }
  }

  lemma QueuedMore(clients: map<nat, Client>, l: seq<nat>, id: nat)
    requires Queued(clients, l) && id in clients && !clients[id].queued
    ensures Queued(clients[id := clients[id].(queued := true)], l + [id])
  {
    assert id !in l;
  }

  lemma QueuedFirst(clients: map<nat, Client>, l: seq<nat>)
    requires Queued(clients, l) && l != [] && l[0] in clients
    ensures Queued(clients[l[0] := clients[l[0]].(queued := false)], l[1..])
  {
    assert l[0] !in l[1..];
    assert forall id :: id in l <==> id == l[0] || id in l[1..];
  }

  // listSearchKey and listDelNode
  function Without(l: seq<nat>, id: nat): seq<nat> {
    if l == [] then [] else (if l[0] == id then [] else [l[0]]) + Without(l[1..], id)
  }

  lemma {:induction false} WithoutHas(l: seq<nat>, id: nat)
    ensures forall d :: d in Without(l, id) <==> d in l && d != id
    ensures Distinct(l) ==> Distinct(Without(l, id))
    ensures id !in l ==> Without(l, id) == l
  {
    if l != [] {
      WithoutHas(l[1..], id);
      assert forall d :: d in l <==> d == l[0] || d in l[1..];
      if Distinct(l) {
        assert l[0] !in l[1..];
        assert Distinct(l[1..]);
        ConsDistinct(l[0], Without(l[1..], id));
      }
    }
  }

  lemma ConsDistinct(x: nat, l: seq<nat>)
    requires Distinct(l) && x !in l
    ensures Distinct([x] + l) && [] + l == l
  {}

  lemma {:induction false} WithoutSnoc(l: seq<nat>, id: nat)
    ensures Without(l + [id], id) == Without(l, id) && Without(l + [], id) == Without(l, id)
  {
    assert l + [] == l;
    if l == [] {
      assert [id][1..] == [];
    } else {
      WithoutSnoc(l[1..], id);
      assert (l + [id])[1..] == l[1..] + [id];
    }
  }

  lemma QueuedForget(clients: map<nat, Client>, l: seq<nat>, id: nat)
    requires Queued(clients, l) && id in clients
    ensures Queued(clients - {id}, Without(l, id)) && (!clients[id].queued ==> Without(l, id) == l)
  {
    WithoutHas(l, id);
  }

  lemma ShapedForget(clients: map<nat, Client>, id: nat)
    requires Shaped(clients)
    ensures Shaped(clients - {id})
  {}

  lemma PendingForget(clients: map<nat, Client>, id: nat)
    requires Pending(clients)
    ensures Pending(clients - {id})
  {}

  // A client that waits for nothing is in no list.
  lemma NeverIn(x: Index, id: nat)
    requires Consistent(x) && id in x.clients && x.clients[id].keys == map[]
    ensures Left(x.blocking, x.blocking, id)
  {
    hide Consistent, Drop, Waiters;
    forall q ensures Waiters(x.blocking, q) == Drop(Waiters(x.blocking, q), id) { NotInList(x, q, id); }
  }

  lemma ListedMore(l: seq<Slot>, table: set<Slot>, s: Slot)
    requires Listed(l, table) && s !in table
    ensures Listed(l + [s], table + {s})
  {}

  // A client waits for the key and would be served.
  ghost predicate Wanted(clients: map<nat, Client>, blocking: map<Slot, seq<Waiter>>, s: Slot, btype: BlockType, deleted: bool) {
    exists w :: w in Waiters(blocking, s) && w.id in clients && clients[w.id].btype == btype && (deleted ==> clients[w.id].onNoKey)
  }

  // A key becomes ready: some client waits for it, and some client, of whatever key, with the type of the object. When
  // the key goes away, one that waits for it must have asked to be called then.
  ghost predicate Raised(clients: map<nat, Client>, blocking: map<Slot, seq<Waiter>>, s: Slot, btype: BlockType, deleted: bool) {
    && btype != NONE && (exists id :: id in clients && clients[id].btype == btype)
    && (if deleted then exists w :: w in Waiters(blocking, s) && Asks(clients, w.id) else Waiters(blocking, s) != [])
  }

  // The tables that are looked at say so.
  lemma RaisedIsSeen(x: Index, total: int, byType: map<BlockType, int>, s: Slot, btype: BlockType, deleted: bool)
    requires Consistent(x) && Tallied(x.clients, total, byType) && Shaped(x.clients) && btype != NONE
    ensures byType[MODULE] == 0 || btype == MODULE
    ensures Raised(x.clients, x.blocking, s, btype, deleted) <==>
      byType[btype] != 0 && (if deleted then s in x.noKey else s in x.blocking)
  {
    SomeOfType(x.clients, btype);
    SomeOfType(x.clients, MODULE);
    assert CountOk(x, s);
    AskingSome(x.clients, Waiters(x.blocking, s));
    if s in x.blocking { assert ListOk(x, s, x.blocking[s]); }
  }

  lemma NotRaised(clients: map<nat, Client>, blocking: map<Slot, seq<Waiter>>, s: Slot, deleted: bool)
    ensures !Raised(clients, blocking, s, NONE, deleted)
  {}

  lemma SomeOfType(clients: map<nat, Client>, btype: BlockType)
    requires Shaped(clients) && btype != NONE
    ensures |OfType(clients, btype)| != 0 <==> exists id :: id in clients && clients[id].btype == btype
    ensures |OfType(clients, MODULE)| == 0
  {
    forall id | id in clients ensures Shape(clients[id]) {}
    if exists id :: id in clients && clients[id].btype == btype {
      var id :| id in clients && clients[id].btype == btype;
      assert Shape(clients[id]);
      assert id in OfType(clients, btype);
    } else {
      assert OfType(clients, btype) == {};
    }
    assert OfType(clients, MODULE) == {};
  }

  // A client other than the one given waits for the key and would be served.
  ghost predicate WantedBut(clients: map<nat, Client>, blocking: map<Slot, seq<Waiter>>, id: nat, s: Slot, btype: BlockType, deleted: bool) {
    exists w :: w in Waiters(blocking, s) && w.id != id && w.id in clients && clients[w.id].btype == btype && (deleted ==> clients[w.id].onNoKey)
  }

  // Every key that is signalled, and that a client other than the one given waits for, is ready.
  ghost predicate Heard(clients: map<nat, Client>, blocking: map<Slot, seq<Waiter>>, id: nat, signals: seq<Signal>, ready: set<Slot>) {
    forall i :: 0 <= i < |signals| && WantedBut(clients, blocking, id, signals[i].slot, BlockedTypeOf(signals[i].otype), signals[i].deleted) ==>
      signals[i].slot in ready
  }

  lemma {:induction false} DropHas(l: seq<Waiter>, id: nat, w: Waiter)
    requires w in l && w.id != id
    ensures w in Drop(l, id)
  {
    if l[0] != w { DropHas(l[1..], id, w); }
  }

  // The client itself makes no difference.
  lemma HeardApart(c: map<nat, Client>, b: map<Slot, seq<Waiter>>, c': map<nat, Client>, b': map<Slot, seq<Waiter>>,
                   id: nat, signals: seq<Signal>, ready: set<Slot>)
    requires Heard(c', b', id, signals, ready) && id in c' && c' == c[id := c'[id]] && (b' == b || Left(b, b', id))
    ensures Heard(c, b, id, signals, ready)
  {
    hide Drop, Waiters;
    forall i | 0 <= i < |signals| && WantedBut(c, b, id, signals[i].slot, BlockedTypeOf(signals[i].otype), signals[i].deleted)
      ensures signals[i].slot in ready
    {
      var s, btype, deleted := signals[i].slot, BlockedTypeOf(signals[i].otype), signals[i].deleted;
      var w :| w in Waiters(b, s) && w.id != id && w.id in c && c[w.id].btype == btype && (deleted ==> c[w.id].onNoKey);
      if b' != b { DropHas(Waiters(b, s), id, w); }
      assert w in Waiters(b', s);
      assert WantedBut(c', b', id, s, btype, deleted);
    }
  }

  // Then the tables that are looked at have it.
  lemma WantedIsSeen(x: Index, total: int, byType: map<BlockType, int>, s: Slot, btype: BlockType, deleted: bool)
    requires Consistent(x) && Tallied(x.clients, total, byType) && Shaped(x.clients)
    requires Wanted(x.clients, x.blocking, s, btype, deleted)
    ensures byType[btype] > 0 && s in x.blocking && (deleted ==> s in x.noKey) && btype != NONE
  {
    var w :| w in Waiters(x.blocking, s) && w.id in x.clients && x.clients[w.id].btype == btype && (deleted ==> x.clients[w.id].onNoKey);
    assert ListOk(x, s, x.blocking[s]);
    assert Points(x, s, w);
    assert Shape(x.clients[w.id]);
    assert w.id in OfType(x.clients, btype);
    if deleted {
      CountIsThere(x, w.id, s.key);
    }
  }

  lemma PendingOf(clients: map<nat, Client>, id: nat)
    requires Pending(clients) && Shaped(clients) && id in clients && clients[id].keys != map[]
    ensures clients[id].pending
  {
    assert Shape(clients[id]);
  }

  lemma PendingSet(clients: map<nat, Client>, id: nat, c: Client)
    requires Pending(clients) && !OnKeys(c.btype)
    ensures Pending(clients[id := c])
  {}

  // ---------------------------------------------------------------------------------------------
  // Serving
  // ---------------------------------------------------------------------------------------------

  // What becomes of a client that waits for a key, when the key is ready.
  datatype Fate = Skipped | Served | Again

  // The clients that had a fate, in order.
  ghost function Pick(ids: seq<nat>, fates: seq<Fate>, f: Fate): seq<nat>
    requires |ids| == |fates|
  {
    if ids == [] then []
    else Pick(ids[..|ids| - 1], fates[..|ids| - 1], f) + if fates[|ids| - 1] == f then [ids[|ids| - 1]] else []
  }

  // The clients that were not skipped, in order.
  ghost function Visited(ids: seq<nat>, fates: seq<Fate>): seq<nat>
    requires |ids| == |fates|
  {
    if ids == [] then []
    else Visited(ids[..|ids| - 1], fates[..|ids| - 1]) + if fates[|ids| - 1] != Skipped then [ids[|ids| - 1]] else []
  }

  lemma PickSnoc(ids: seq<nat>, fates: seq<Fate>, id: nat, fate: Fate)
    requires |ids| == |fates|
    ensures forall f :: Pick(ids + [id], fates + [fate], f) == Pick(ids, fates, f) + if fate == f then [id] else []
    ensures Visited(ids + [id], fates + [fate]) == Visited(ids, fates) + if fate != Skipped then [id] else []
  {
    assert (ids + [id])[..|ids|] == ids && (fates + [fate])[..|ids|] == fates;
  }

  // The condition of handleClientsBlockedOnKey, for a client that is not a module's.
  predicate Serves(c: Client, o: Option<ObjectType>) {
    (o.Some? && c.btype == BlockedTypeOf(o.value)) || c.onNoKey
  }

  ghost predicate HasNode(l: seq<Waiter>, node: nat) { exists i :: 0 <= i < |l| && l[i].node == node }

  // The waiters that are not in a set.
  ghost function Others(l: seq<Waiter>, ids: set<nat>): seq<Waiter> {
    if l == [] then [] else (if l[0].id in ids then [] else [l[0]]) + Others(l[1..], ids)
  }

  // In every list, those that are not in the set are the same and in the same order.
  ghost predicate OrderKept(before: map<Slot, seq<Waiter>>, after: map<Slot, seq<Waiter>>, ids: set<nat>) {
    forall q :: Others(Waiters(after, q), ids) == Others(Waiters(before, q), ids)
  }

  lemma {:induction false} OthersConcat(a: seq<Waiter>, b: seq<Waiter>, ids: set<nat>)
    ensures Others(a + b, ids) == Others(a, ids) + Others(b, ids)
  {
    if a == [] {
      assert a + b == b;
    } else {
      assert (a + b)[1..] == a[1..] + b;
      OthersConcat(a[1..], b, ids);
    }
  }

  lemma {:induction false} OthersOfDrop(l: seq<Waiter>, id: nat, ids: set<nat>)
    requires id in ids
    ensures Others(Drop(l, id), ids) == Others(l, ids)
  {
    if l != [] {
      OthersOfDrop(l[1..], id, ids);
      OthersConcat(if l[0].id == id then [] else [l[0]], Drop(l[1..], id), ids);
    }
  }

  lemma {:induction false} OthersOfOthers(l: seq<Waiter>, ids: set<nat>, more: set<nat>)
    requires ids <= more
    ensures Others(Others(l, ids), more) == Others(l, more)
  {
    if l != [] {
      OthersOfOthers(l[1..], ids, more);
      OthersConcat(if l[0].id in ids then [] else [l[0]], Others(l[1..], ids), more);
    }
  }

  lemma OrderKeptMore(a: map<Slot, seq<Waiter>>, b: map<Slot, seq<Waiter>>, c: map<Slot, seq<Waiter>>,
                      ids: set<nat>, id: nat, db: nat, table: map<string, nat>)
    requires OrderKept(a, b, ids) && Moved(b, c, id, db, table)
    ensures OrderKept(a, c, ids + {id})
  {
    hide Waiters, Drop, Others;
    var more := ids + {id};
    forall q ensures Others(Waiters(c, q), more) == Others(Waiters(a, q), more) {
      assert Waiters(c, q) == Drop(Waiters(b, q), id) + Own(q, id, db, table);
      OthersConcat(Drop(Waiters(b, q), id), Own(q, id, db, table), more);
      OthersOfOwn(q, id, db, table, more);
      OthersOfDrop(Waiters(b, q), id, more);
      assert Others(Waiters(b, q), ids) == Others(Waiters(a, q), ids);
      OthersOfOthers(Waiters(b, q), ids, more);
      OthersOfOthers(Waiters(a, q), ids, more);
    }
  }

  lemma OthersOfOwn(q: Slot, id: nat, db: nat, table: map<string, nat>, ids: set<nat>)
    requires id in ids
    ensures Others(Own(q, id, db, table), ids) == []
  {}

  // Taking the client at position p out of a list, and what it then is.
  lemma MovedAt(x: Index, s: Slot, p: nat, after: map<Slot, seq<Waiter>>, db: nat, table: map<string, nat>)
    requires Consistent(x) && p < |Waiters(x.blocking, s)|
    requires Moved(x.blocking, after, Waiters(x.blocking, s)[p].id, db, table)
    ensures var l := Waiters(x.blocking, s);
      Waiters(after, s) == l[..p] + l[p + 1..] + Own(s, l[p].id, db, table)
  {
    var l := Waiters(x.blocking, s);
    forall i | 0 <= i < |l| && i != p ensures l[i].id != l[p].id {
      if i < p { OnceInList(x, s, i, p); } else { OnceInList(x, s, p, i); }
    }
    hide Consistent, Drop;
    DropAt(l, p, l[p].id);
  }

  lemma NodeAt(x: Index, s: Slot, p: nat, k: nat)
    requires Consistent(x) && p < |Waiters(x.blocking, s)| && k < |Waiters(x.blocking, s)|
    requires Waiters(x.blocking, s)[p].node == Waiters(x.blocking, s)[k].node
    ensures p == k
  {
    assert ListOk(x, s, x.blocking[s]);
  }

  lemma WaiterIs(x: Index, s: Slot, p: nat)
    requires Consistent(x) && p < |Waiters(x.blocking, s)|
    ensures Points(x, s, Waiters(x.blocking, s)[p])
  {
    assert ListOk(x, s, x.blocking[s]);
  }

  lemma IdsConcat(a: seq<Waiter>, b: seq<Waiter>)
    ensures Ids(a + b) == Ids(a) + Ids(b)
  {}

  // A pass over a list: those that were kept where they are, those still to visit, those that came
  // back at the end.
  datatype Pass = Pass(start: seq<Waiter>, kept: seq<Waiter>, todo: seq<Waiter>, again: seq<Waiter>, fates: seq<Fate>)

  ghost function Done(p: Pass): (ids: seq<nat>)
    requires |p.fates| <= |p.start|
    ensures |ids| == |p.fates|
  {
    Ids(p.start)[..|p.fates|]
  }

  ghost predicate InPass(p: Pass, l: seq<Waiter>) {
    && |p.fates| + |p.todo| == |p.start| && p.todo == p.start[|p.fates|..]
    && l == p.kept + p.todo + p.again
    && Ids(p.kept) == Pick(Done(p), p.fates, Skipped)
    && Ids(p.again) == Pick(Done(p), p.fates, Again)
  }

  ghost function Advance(p: Pass, fate: Fate, own: seq<Waiter>): Pass
    requires p.todo != []
  {
    p.(kept := p.kept + if fate == Skipped then [p.todo[0]] else [], todo := p.todo[1..], again := p.again + own, fates := p.fates + [fate])
  }

  lemma BeginPass(l: seq<Waiter>)
    ensures InPass(Pass(l, [], l, [], []), l)
  {}

  lemma NextDone(p: Pass, fate: Fate)
    requires |p.fates| + |p.todo| == |p.start| && p.todo == p.start[|p.fates|..] && p.todo != []
    ensures Ids(p.start)[..|p.fates| + 1] == Done(p) + [p.todo[0].id]
    ensures forall f :: Pick(Done(p) + [p.todo[0].id], p.fates + [fate], f) == Pick(Done(p), p.fates, f) + if fate == f then [p.todo[0].id] else []
    ensures Visited(Done(p) + [p.todo[0].id], p.fates + [fate]) == Visited(Done(p), p.fates) + if fate != Skipped then [p.todo[0].id] else []
  {
    hide Pick, Visited;
    PickSnoc(Done(p), p.fates, p.todo[0].id, fate);
    assert Ids(p.start)[|p.fates|] == p.todo[0].id;
  }

  // The node after the one being visited.
  lemma NextNode(p: Pass, l: seq<Waiter>, fate: Fate, own: seq<Waiter>)
    requires InPass(p, l) && p.todo != []
    ensures var q := Advance(p, fate, own); var k := |p.kept|;
      && (q.todo != [] ==> k + 1 < |l| && l[k + 1] == q.todo[0])
      && (q.todo == [] && k + 1 < |l| ==> HasNode(q.again, l[k + 1].node))
  {
    hide Ids, Pick;
    var q, k := Advance(p, fate, own), |p.kept|;
    if q.todo == [] && k + 1 < |l| {
      assert l[k + 1] == p.again[0] == q.again[0];
    }
  }

  lemma AdvancePass(p: Pass, l: seq<Waiter>, fate: Fate, own: seq<Waiter>, after: seq<Waiter>)
    requires InPass(p, l) && p.todo != []
    requires fate == Skipped ==> own == [] && after == l
    requires var k := |p.kept|; fate != Skipped ==> after == l[..k] + l[k + 1..] + own
    requires own == [] || (|own| == 1 && own[0].id == p.todo[0].id)
    requires fate == Again <==> own != []
    ensures InPass(Advance(p, fate, own), after)
  {
    hide Ids, Pick, Visited;
    var q, k := Advance(p, fate, own), |p.kept|;
    NextDone(p, fate);
    assert Done(q) == Done(p) + [p.todo[0].id];
    IdsConcat(p.kept, [p.todo[0]]);
    IdsConcat(p.again, own);
    IdsOfOne(p.todo[0]);
    if fate == Skipped {
      assert q.again == p.again;
      assert after == q.kept + q.todo + q.again;
    } else {
      assert q.kept == p.kept;
      assert l[..k] == p.kept && l[k + 1..] == q.todo + p.again;
      assert after == q.kept + q.todo + q.again;
      if own == [] {
        assert q.again == p.again;
      } else {
        IdsOfOne(own[0]);
        assert own == [own[0]];
      }
    }
  }

  lemma IdsOfOne(w: Waiter)
    ensures Ids([w]) == [w.id]
  {}

  // Which of the visited clients were skipped.
  ghost predicate Decided(ids: seq<nat>, fates: seq<Fate>, clients: map<nat, Client>, finds: nat -> Option<ObjectType>, first: nat) {
    |fates| <= |ids| && forall i :: 0 <= i < |fates| ==> ids[i] in clients && (fates[i] == Skipped <==> !Serves(clients[ids[i]], finds(first + i)))
  }

  // Those still to visit are as they were.
  ghost predicate Waiting(todo: seq<Waiter>, clients: map<nat, Client>, before: map<nat, Client>) {
    forall i :: 0 <= i < |todo| ==> todo[i].id in before && todo[i].id in clients && clients[todo[i].id] == before[todo[i].id]
  }

  ghost predicate Apart(l: seq<Waiter>) { forall i, j :: 0 <= i < j < |l| ==> l[i].id != l[j].id }

  lemma BeginWaiting(x: Index, s: Slot)
    requires Consistent(x)
    ensures Apart(Waiters(x.blocking, s)) && Waiting(Waiters(x.blocking, s), x.clients, x.clients)
  {
    var l := Waiters(x.blocking, s);
    forall i, j | 0 <= i < j < |l| ensures l[i].id != l[j].id { OnceInList(x, s, i, j); }
    forall i | 0 <= i < |l| ensures l[i].id in x.clients { WaiterIs(x, s, i); }
  }

  lemma WaitingNext(p: Pass, clients: map<nat, Client>, before: map<nat, Client>, c: Client)
    requires p.todo != [] && |p.fates| + |p.todo| == |p.start| && p.todo == p.start[|p.fates|..]
    requires Apart(p.start) && Waiting(p.todo, clients, before)
    ensures Waiting(p.todo[1..], clients[p.todo[0].id := c], before) && p.todo[0].id in before && clients[p.todo[0].id] == before[p.todo[0].id]
  {
    forall i | 0 <= i < |p.todo[1..]| ensures p.todo[1..][i].id != p.todo[0].id {
      assert p.todo[1..][i] == p.start[|p.fates| + 1 + i] && p.todo[0] == p.start[|p.fates|];
    }
  }

  lemma DecidedNext(p: Pass, clients: map<nat, Client>, finds: nat -> Option<ObjectType>, first: nat, fate: Fate)
    requires p.todo != [] && |p.fates| + |p.todo| == |p.start| && p.todo == p.start[|p.fates|..]
    requires Decided(Ids(p.start), p.fates, clients, finds, first)
    requires p.todo[0].id in clients && (fate == Skipped <==> !Serves(clients[p.todo[0].id], finds(first + |p.fates|)))
    ensures Decided(Ids(p.start), p.fates + [fate], clients, finds, first)
  {}

  ghost function Elements(s: seq<nat>): set<nat> { set x | x in s }

  lemma ElementsSnoc(s: seq<nat>, x: nat)
    ensures Elements(s + [x]) == Elements(s) + {x}
  {}

  // What a pass has done so far: to the lists b, the clients c, the executed commands e and the
  // number t of lookups, which were b0, c0, e0 and t0.
  ghost predicate Passing(p: Pass, b0: map<Slot, seq<Waiter>>, c0: map<nat, Client>, e0: seq<nat>, t0: nat,
                          b: map<Slot, seq<Waiter>>, c: map<nat, Client>, e: seq<nat>, t: nat, finds: nat -> Option<ObjectType>) {
    && |p.fates| + |p.todo| == |p.start| && p.todo == p.start[|p.fates|..] && Apart(p.start)
    && e == e0 + Visited(Done(p), p.fates) && t == t0 + |p.fates|
    && Waiting(p.todo, c, c0)
    && Decided(Ids(p.start), p.fates, c0, finds, t0)
    && OrderKept(b0, b, Elements(Visited(Done(p), p.fates)))
    && Untouched(c0, c, Elements(Visited(Done(p), p.fates)))
  }

  // The clients that are not in the set are as they were.
  ghost predicate Untouched(before: map<nat, Client>, after: map<nat, Client>, ids: set<nat>) {
    forall id :: id in before && id !in ids ==> id in after && after[id] == before[id]
  }

  lemma PassingBegin(x: Index, s: Slot, e: seq<nat>, t: nat, finds: nat -> Option<ObjectType>)
    requires Consistent(x)
    ensures var l := Waiters(x.blocking, s);
      Passing(Pass(l, [], l, [], []), x.blocking, x.clients, e, t, x.blocking, x.clients, e, t, finds)
  {
    hide Consistent, Waiters, Ids;
    BeginWaiting(x, s);
  }

  lemma PassingNext(p: Pass, fate: Fate, own: seq<Waiter>, db: nat, table: map<string, nat>,
                    b0: map<Slot, seq<Waiter>>, c0: map<nat, Client>, e0: seq<nat>, t0: nat,
                    b: map<Slot, seq<Waiter>>, c: map<nat, Client>, e: seq<nat>, t: nat, finds: nat -> Option<ObjectType>,
                    b': map<Slot, seq<Waiter>>, c': map<nat, Client>, e': seq<nat>)
    requires p.todo != [] && Passing(p, b0, c0, e0, t0, b, c, e, t, finds)
    requires var id := p.todo[0].id;
      && id in c && (fate == Skipped <==> !Serves(c[id], finds(t)))
      && id in c' && c' == c[id := c'[id]]
      && (if fate == Skipped then c' == c && b' == b && e' == e else e' == e + [id] && Moved(b, b', id, db, table))
    ensures Passing(Advance(p, fate, own), b0, c0, e0, t0, b', c', e', t + 1, finds)
  {
    hide Ids, Visited, Serves, Decided, Waiting, Apart, OrderKept, Elements, Moved, Pick;
    var q := Advance(p, fate, own);
    var id := p.todo[0].id;
    NextDone(p, fate);
    assert Done(q) == Done(p) + [id];
    WaitingNext(p, c, c0, c'[id]);
    DecidedNext(p, c0, finds, t0, fate);
    if fate == Skipped {
      assert Visited(Done(q), q.fates) == Visited(Done(p), p.fates);
    } else {
      OrderKeptMore(b0, b, b', Elements(Visited(Done(p), p.fates)), id, db, table);
      ElementsSnoc(Visited(Done(p), p.fates), id);
    }
  }

  // ---------------------------------------------------------------------------------------------
  // Passes over several keys
  // ---------------------------------------------------------------------------------------------

  // A pass over the clients of a key: the list and the clients when it began, the number of its first lookup,
  // and what became of the clients.
  datatype KeyPass = KeyPass(slot: Slot, waiters: seq<Waiter>, clients: map<nat, Client>, first: nat, fates: seq<Fate>)

  // Who was executed in a pass, and in several.
  ghost function ExecutedIn(p: KeyPass): seq<nat> {
    if |p.fates| == |Ids(p.waiters)| then Visited(Ids(p.waiters), p.fates) else []
  }

  ghost function Executed(ps: seq<KeyPass>): seq<nat> {
    if ps == [] then [] else Executed(ps[..|ps| - 1]) + ExecutedIn(ps[|ps| - 1])
  }

  // The number of lookups.
  ghost function Looked(ps: seq<KeyPass>): nat {
    if ps == [] then 0 else Looked(ps[..|ps| - 1]) + |ps[|ps| - 1].fates|
  }

  // Every client in the list of a pass was looked at, and skipped exactly if what was found does not concern it.
  ghost predicate Passed(p: KeyPass, finds: nat -> Option<ObjectType>) {
    |p.fates| == |Ids(p.waiters)| && Decided(Ids(p.waiters), p.fates, p.clients, finds, p.first)
  }

  ghost predicate AllPassed(ps: seq<KeyPass>, finds: nat -> Option<ObjectType>, first: nat) {
    forall i :: 0 <= i < |ps| ==> Passed(ps[i], finds) && ps[i].first == first + Looked(ps[..i])
  }

  // The i-th pass is for the i-th key. Apart from clients that were executed in earlier passes, its list is that
  // of the beginning, in the same order, and the clients are as they were.
  ghost predicate InTurn(ps: seq<KeyPass>, keys: seq<Slot>, blocking: map<Slot, seq<Waiter>>, clients: map<nat, Client>) {
    |ps| <= |keys| && forall i :: 0 <= i < |ps| ==> TurnOf(ps[i], keys[i], Elements(Executed(ps[..i])), blocking, clients)
  }

  ghost predicate TurnOf(p: KeyPass, key: Slot, gone: set<nat>, blocking: map<Slot, seq<Waiter>>, clients: map<nat, Client>) {
    p.slot == key && Others(p.waiters, gone) == Others(Waiters(blocking, key), gone) && Untouched(clients, p.clients, gone)
  }

  // How far the passes over a list of keys have come.
  ghost predicate Handling(ps: seq<KeyPass>, keys: seq<Slot>, x: Index, e0: seq<nat>, t0: nat,
                           y: Index, e: seq<nat>, t: nat, finds: nat -> Option<ObjectType>) {
    && InTurn(ps, keys, x.blocking, x.clients) && AllPassed(ps, finds, t0)
    && e == e0 + Executed(ps) && t == t0 + Looked(ps)
    && OrderKept(x.blocking, y.blocking, Elements(Executed(ps))) && Untouched(x.clients, y.clients, Elements(Executed(ps)))
  }

  lemma NoPasses(keys: seq<Slot>, x: Index, finds: nat -> Option<ObjectType>, t: nat)
    ensures forall e: seq<nat> :: Handling([], keys, x, e, t, x, e, t, finds)
    ensures Executed([]) == [] && Looked([]) == 0 && AllPassed([], finds, t) && InTurn([], keys, x.blocking, x.clients)
  {
    assert forall e: seq<nat> :: e + [] == e;
  }

  lemma {:induction false} OthersTwice(l: seq<Waiter>, a: set<nat>, b: set<nat>)
    ensures Others(Others(l, a), b) == Others(l, a + b)
  {
    if l != [] {
      OthersTwice(l[1..], a, b);
      var head := if l[0].id in a then [] else [l[0]];
      OthersConcat(head, Others(l[1..], a), b);
      assert [l[0]][1..] == [];
    }
  }

  lemma OrderKeptThen(a: map<Slot, seq<Waiter>>, b: map<Slot, seq<Waiter>>, c: map<Slot, seq<Waiter>>, x: set<nat>, y: set<nat>)
    requires OrderKept(a, b, x) && OrderKept(b, c, y)
    ensures OrderKept(a, c, x + y)
  {
    hide Others, Waiters;
    forall q ensures Others(Waiters(c, q), x + y) == Others(Waiters(a, q), x + y) {
      OthersTwice(Waiters(c, q), y, x);
      OthersTwice(Waiters(b, q), y, x);
      OthersTwice(Waiters(b, q), x, y);
      OthersTwice(Waiters(a, q), x, y);
      assert y + x == x + y;
    }
  }

  lemma PassesSnoc(ps: seq<KeyPass>, p: KeyPass)
    ensures Executed(ps + [p]) == Executed(ps) + ExecutedIn(p) && Looked(ps + [p]) == Looked(ps) + |p.fates|
    ensures forall i :: 0 <= i <= |ps| ==> (ps + [p])[..i] == ps[..i]
  {
    assert (ps + [p])[..|ps|] == ps;
  }

  lemma HandlingNext(ps: seq<KeyPass>, keys: seq<Slot>, p: KeyPass, x: Index, e0: seq<nat>, t0: nat,
                     y: Index, e: seq<nat>, t: nat, finds: nat -> Option<ObjectType>, z: Index, e': seq<nat>, t': nat)
    requires Handling(ps, keys, x, e0, t0, y, e, t, finds) && |ps| < |keys| && p.slot == keys[|ps|]
    requires p.waiters == Waiters(y.blocking, p.slot) && p.clients == y.clients && p.first == t && Passed(p, finds)
    requires e' == e + ExecutedIn(p) && t' == t + |p.fates|
    requires OrderKept(y.blocking, z.blocking, Elements(ExecutedIn(p))) && Untouched(y.clients, z.clients, Elements(ExecutedIn(p)))
    ensures Handling(ps + [p], keys, x, e0, t0, z, e', t', finds)
  {
    hide Executed, Looked, ExecutedIn, Waiters, Others, Passed;
    PassesSnoc(ps, p);
    var done, more := Executed(ps), ExecutedIn(p);
    assert ps[..|ps|] == ps;
    assert Elements(done + more) == Elements(done) + Elements(more);
    OrderKeptThen(x.blocking, y.blocking, z.blocking, Elements(done), Elements(more));
    assert TurnOf(p, keys[|ps|], Elements(done), x.blocking, x.clients);
    forall i | 0 <= i < |ps + [p]| ensures TurnOf((ps + [p])[i], keys[i], Elements(Executed((ps + [p])[..i])), x.blocking, x.clients) {
      if i < |ps| { assert (ps + [p])[i] == ps[i]; }
    }
    assert e0 + (done + more) == (e0 + done) + more;
  }

  lemma HandlingEnd(ps: seq<KeyPass>, keys: seq<Slot>, x: Index, e0: seq<nat>, t0: nat,
                    y: Index, e: seq<nat>, t: nat, finds: nat -> Option<ObjectType>)
    requires Handling(ps, keys, x, e0, t0, y, e, t, finds)
    ensures InTurn(ps, keys, x.blocking, x.clients) && AllPassed(ps, finds, t0) && e == e0 + Executed(ps) && t == t0 + Looked(ps)
  {}

  lemma NoSums()
    ensures Executed([]) == [] && Looked([]) == 0
  {}

  lemma SumsSnoc(a: seq<KeyPass>, init: seq<KeyPass>, last: KeyPass)
    requires Looked(a + init) == Looked(a) + Looked(init) && Executed(a + init) == Executed(a) + Executed(init)
    ensures Looked((a + init) + [last]) == Looked(a) + Looked(init + [last])
    ensures Executed((a + init) + [last]) == Executed(a) + Executed(init + [last])
  {
    hide Executed, Looked, ExecutedIn;
    PassesSnoc(a + init, last);
    PassesSnoc(init, last);
    assert (Executed(a) + Executed(init)) + ExecutedIn(last) == Executed(a) + (Executed(init) + ExecutedIn(last));
  }

  lemma {:induction false} SumsConcat(a: seq<KeyPass>, b: seq<KeyPass>)
    ensures Looked(a + b) == Looked(a) + Looked(b) && Executed(a + b) == Executed(a) + Executed(b)
    decreases |b|
  {
    hide Executed, Looked, ExecutedIn;
    if b == [] {
      NoSums();
      assert a + b == a && Executed(a) + [] == Executed(a);
    } else {
      var init, last := b[..|b| - 1], b[|b| - 1];
      SumsConcat(a, init);
      assert a + b == (a + init) + [last];
      SumsSnoc(a, init, last);
      assert init + [last] == b;
    }
  }

  lemma PassesConcat(a: seq<KeyPass>, b: seq<KeyPass>, finds: nat -> Option<ObjectType>, t: nat)
    requires AllPassed(a, finds, t) && AllPassed(b, finds, t + Looked(a))
    ensures AllPassed(a + b, finds, t) && Looked(a + b) == Looked(a) + Looked(b) && Executed(a + b) == Executed(a) + Executed(b)
  {
    hide Passed, ExecutedIn, Looked, Executed;
    SumsConcat(a, b);
    forall i | 0 <= i < |a + b| ensures Passed((a + b)[i], finds) && (a + b)[i].first == t + Looked((a + b)[..i]) {
      if i < |a| {
        assert (a + b)[i] == a[i] && (a + b)[..i] == a[..i];
      } else {
        var j := i - |a|;
        assert (a + b)[i] == b[j] && (a + b)[..i] == a + b[..j];
        SumsConcat(a, b[..j]);
      }
    }
  }

  // Nobody who waits for a key that is handled is left out: the client was executed in an earlier pass, or it
  // was looked at in the pass of the key, as it was at the beginning, and was executed if and only if what was
  // found concerned it.
  lemma NobodyLeftOut(ps: seq<KeyPass>, keys: seq<Slot>, x: Index, finds: nat -> Option<ObjectType>, t: nat, i: nat, w: Waiter)
      returns (j: nat)
    requires InTurn(ps, keys, x.blocking, x.clients) && AllPassed(ps, finds, t)
    requires i < |ps| && w in Waiters(x.blocking, keys[i]) && w.id in x.clients && w.id !in Executed(ps[..i])
    ensures j < |ps[i].waiters| && ps[i].waiters[j] == w
    ensures w.id in ExecutedIn(ps[i]) || !Serves(x.clients[w.id], finds(ps[i].first + j))
  {
    hide Executed, Looked, Serves, Waiters;
    var p, gone := ps[i], Elements(Executed(ps[..i]));
    assert TurnOf(p, keys[i], gone, x.blocking, x.clients);
    assert Passed(p, finds);
    OthersHas(Waiters(x.blocking, keys[i]), gone, w);
    OthersHas(p.waiters, gone, w);
    j :| 0 <= j < |p.waiters| && p.waiters[j] == w;
    assert Ids(p.waiters)[j] == w.id && p.clients[w.id] == x.clients[w.id];
    if p.fates[j] != Skipped { VisitedHas(Ids(p.waiters), p.fates, j); }
  }

  // Whoever waits for one of the keys is executed, unless what was found in the pass of the key did not concern it.
  ghost predicate AllServed(ps: seq<KeyPass>, keys: seq<Slot>, x: Index, finds: nat -> Option<ObjectType>) {
    forall i, w :: 0 <= i < |keys| && w in Waiters(x.blocking, keys[i]) ==> ServedIn(ps, i, w, x, finds)
  }

  ghost predicate ServedIn(ps: seq<KeyPass>, i: nat, w: Waiter, x: Index, finds: nat -> Option<ObjectType>) {
    w.id in Executed(ps) || (i < |ps| && w.id in x.clients && exists j :: LookedAt(ps[i], j, w) && !Serves(x.clients[w.id], finds(ps[i].first + j)))
  }

  ghost predicate LookedAt(p: KeyPass, j: nat, w: Waiter) {
    j < |p.waiters| && p.waiters[j] == w
  }

  lemma ServeAll(ps: seq<KeyPass>, keys: seq<Slot>, x: Index, finds: nat -> Option<ObjectType>, t: nat)
    requires |ps| >= |keys| && InTurn(ps[..|keys|], keys, x.blocking, x.clients) && AllPassed(ps, finds, t) && Consistent(x)
    ensures AllServed(ps, keys, x, finds)
  {
    hide InTurn, AllPassed, Consistent, Executed, Serves, Waiters;
    var turn := ps[..|keys|];
    assert AllPassed(turn, finds, t) by { TakePassed(ps, |keys|, finds, t); }
    forall i, w | 0 <= i < |keys| && w in Waiters(x.blocking, keys[i]) ensures ServedIn(ps, i, w, x, finds) {
      var k :| 0 <= k < |Waiters(x.blocking, keys[i])| && Waiters(x.blocking, keys[i])[k] == w;
      WaiterIs(x, keys[i], k);
      assert turn[..i] == ps[..i] && turn[i] == ps[i];
      ExecutedBy(ps, i);
      if w.id !in Executed(turn[..i]) {
        var j := NobodyLeftOut(turn, keys, x, finds, t, i, w);
        assert LookedAt(ps[i], j, w);
      }
    }
  }

  lemma TakePassed(ps: seq<KeyPass>, n: nat, finds: nat -> Option<ObjectType>, t: nat)
    requires n <= |ps| && AllPassed(ps, finds, t)
    ensures AllPassed(ps[..n], finds, t)
  {
    hide Passed;
    forall i | 0 <= i < n ensures Passed(ps[..n][i], finds) && ps[..n][i].first == t + Looked(ps[..n][..i]) {
      assert ps[..n][i] == ps[i] && ps[..n][..i] == ps[..i];
    }
  }

  // What was executed in a pass, and before it, was executed.
  lemma ExecutedBy(ps: seq<KeyPass>, i: nat)
    requires i < |ps|
    ensures forall id :: id in Executed(ps[..i]) || id in ExecutedIn(ps[i]) ==> id in Executed(ps)
  {
    hide ExecutedIn;
    SumsConcat(ps[..i + 1], ps[i + 1..]);
    assert ps == ps[..i + 1] + ps[i + 1..];
    PassesSnoc(ps[..i], ps[i]);
    assert ps[..i + 1] == ps[..i] + [ps[i]];
  }

  lemma {:induction false} OthersHas(l: seq<Waiter>, ids: set<nat>, w: Waiter)
    requires w.id !in ids
    ensures w in Others(l, ids) <==> w in l
  {
    if l != [] {
      OthersHas(l[1..], ids, w);
      assert w in l <==> w == l[0] || w in l[1..];
    }
  }

  lemma {:induction false} VisitedHas(ids: seq<nat>, fates: seq<Fate>, j: nat)
    requires |ids| == |fates| && j < |ids| && fates[j] != Skipped
    ensures ids[j] in Visited(ids, fates)
  {
    if j < |ids| - 1 { VisitedHas(ids[..|ids| - 1], fates[..|ids| - 1], j); }
  }

  class Server {
    // What the n-th command executed again does, and what the n-th lookup of a key finds.
    const behaves: nat -> Outcome
    const finds: nat -> Option<ObjectType>

    var clients: map<nat, Client>
    // blocking_keys, blocking_keys_unblock_on_nokey and ready_keys, of all databases
    var blocking: map<Slot, seq<Waiter>>
    var noKey: map<Slot, nat>
    var readyTable: set<Slot>
    // ready_keys, blocked_clients, blocked_clients_by_type, unblocked_clients of the server
    var readyKeys: seq<Slot>
    var blockedClients: int
    var byType: map<BlockType, int>
    var unblockedClients: seq<nat>
    var handling: bool
    // Nodes, lookups and commands so far.
    var nextNode: nat
    var lookups: nat
    var executed: seq<nat>

    ghost function View(): Index
      reads this
    {
      Index(clients, blocking, noKey)
    }

    ghost predicate Sound()
      reads this
    {
      && Consistent(View())
      && NodesBelow(blocking, nextNode)
      && Shaped(clients)
      && Tallied(clients, blockedClients, byType)
      && Queued(clients, unblockedClients)
      && forall n :: behaves(n).again.Some? ==> OnKeys(behaves(n).again.value.btype)
    }

    ghost predicate Valid()
      reads this
    {
      Sound() && Pending(clients) && Listed(readyKeys, readyTable)
    }

    constructor (behaves: nat -> Outcome, finds: nat -> Option<ObjectType>)
      requires forall n :: behaves(n).again.Some? ==> OnKeys(behaves(n).again.value.btype)
      ensures Valid() && clients == map[] && blocking == map[] && readyKeys == [] && executed == []
      ensures this.behaves == behaves && this.finds == finds && !handling
    {
      this.behaves, this.finds := behaves, finds;
      clients, blocking, noKey, readyTable, readyKeys := map[], map[], map[], {}, [];
      blockedClients, byType, unblockedClients, handling := 0, NO_COUNTS, [], false;
      nextNode, lookups, executed := 0, 0, [];
      new;
      NobodyBlocked();
    }

    // initClientBlockingState
    method NewClient(id: nat, db: nat, isModule: bool)
      requires Valid() && id !in clients
      modifies `clients
      ensures Valid() && clients == old(clients)[id := Client(db, false, isModule, false, false, NONE, map[], false)]
    {
      hide Consistent, Tallied;
      var c := Client(db, false, isModule, false, false, NONE, map[], false);
      TallySame(clients, blockedClients, byType, id, c);
      OtherFields(View(), clients[id := c]);
      clients := clients[id := c];
    }

    // blockClient
    method BlockClient(id: nat, btype: BlockType)
      requires id in clients && !clients[id].blocked && Tallied(clients, blockedClients, byType)
      modifies `clients, `blockedClients, `byType
      ensures Tallied(clients, blockedClients, byType)
      ensures clients == old(clients)[id := old(clients)[id].(blocked := true, btype := btype)]
    {
      hide Tallied;
      var c := clients[id].(blocked := true, btype := btype);
      TallyBlock(clients, blockedClients, byType, id, c);
      TallyHas(clients, blockedClients, byType, btype);
      clients := clients[id := c];
      if !c.isModule {
        blockedClients := blockedClients + 1;
      }
      byType := byType[btype := byType[btype] + 1];
    }

    // One key of blockForKeys.
    method EnterKey(id: nat, key: string, onNoKey: bool)
      requires id in clients && key !in clients[id].keys
      requires Consistent(Index(Wanting(clients, id, onNoKey), blocking, noKey)) && NodesBelow(blocking, nextNode)
      modifies `clients, `blocking, `noKey, `nextNode
      ensures id in clients && clients == old(clients)[id := old(clients)[id].(keys := clients[id].keys)]
      ensures clients[id].keys == old(clients[id].keys)[key := old(nextNode)]
      ensures Consistent(Index(Wanting(clients, id, onNoKey), blocking, noKey)) && NodesBelow(blocking, nextNode)
      ensures Joined(old(blocking), blocking, id, clients[id].db, map[key := clients[id].keys[key]])
    {
      hide Consistent, NodesBelow, Joined, FreshNode, Enter, Wanting;
      EnterWanting(View(), id, onNoKey, key, nextNode);
      ghost var x := Index(Wanting(clients, id, onNoKey), blocking, noKey);
      WantingHas(clients, id, onNoKey);
      EnterJoins(x, id, key, nextNode);
      EnterConsistent(x, id, key, nextNode);
      var c := clients[id];
      var s := Slot(c.db, key);
      clients := clients[id := c.(keys := c.keys[key := nextNode])];
      var l := if s in blocking then blocking[s] else [];
      l := l + [Waiter(nextNode, id)];
      blocking := blocking[s := l];
      if onNoKey {
        if s !in noKey {
          noKey := noKey[s := 1];
        } else {
          noKey := noKey[s := noKey[s] + 1];
        }
      }
      assert Enter(x, id, key, nextNode) == Index(Wanting(clients, id, onNoKey), blocking, noKey);
      nextNode := nextNode + 1;
    }

    // The loop of blockForKeys; a key that was given before is skipped.
    method EnterKeys(id: nat, keys: seq<string>, onNoKey: bool)
      requires id in clients && clients[id].keys == map[]
      requires Consistent(Index(Wanting(clients, id, onNoKey), blocking, noKey)) && NodesBelow(blocking, nextNode)
      modifies `clients, `blocking, `noKey, `nextNode
      ensures id in clients && clients == old(clients)[id := old(clients)[id].(keys := clients[id].keys)]
      ensures Consistent(Index(Wanting(clients, id, onNoKey), blocking, noKey)) && NodesBelow(blocking, nextNode)
      ensures Covers(clients[id].keys, keys)
      ensures Joined(old(blocking), blocking, id, clients[id].db, clients[id].keys)
    {
      hide Consistent, NodesBelow, Joined, Wanting, Covers;
      ghost var c := clients[id];
      JoinedNone(blocking, id, c.db);
      CoversNone();
      var j := 0;
      while j < |keys|
        invariant 0 <= j <= |keys| && id in clients && clients == old(clients)[id := c.(keys := clients[id].keys)]
        invariant Covers(clients[id].keys, keys[..j])
        invariant Consistent(Index(Wanting(clients, id, onNoKey), blocking, noKey)) && NodesBelow(blocking, nextNode)
        invariant Joined(old(blocking), blocking, id, c.db, clients[id].keys)
      {
        assert keys[..j + 1] == keys[..j] + [keys[j]];
        CoversNext(clients[id].keys, keys[..j], keys[j], nextNode);
        if keys[j] !in clients[id].keys {
          ghost var b, table, node := blocking, clients[id].keys, nextNode;
          EnterKey(id, keys[j], onNoKey);
          JoinedMore(old(blocking), b, blocking, id, c.db, table, keys[j], node);
        }
        j := j + 1;
      }
      assert keys[..j] == keys;
    }

    // blockForKeys
    method BlockForKeys(id: nat, btype: BlockType, keys: seq<string>, onNoKey: bool)
      requires Sound() && id in clients && !clients[id].blocked && OnKeys(btype)
      modifies `clients, `blocking, `noKey, `nextNode, `blockedClients, `byType
      ensures Sound() && id in clients
      ensures clients == old(clients)[id := old(clients)[id].(
        blocked := true, btype := btype, pending := true, onNoKey := onNoKey, keys := clients[id].keys)]
      ensures Covers(clients[id].keys, keys)
      ensures Joined(old(blocking), blocking, id, clients[id].db, clients[id].keys)
    {
      hide Consistent, NodesBelow, Joined, Tallied, Queued, OnKeys, Shaped;
      ghost var c := clients[id];
      NotBlocked(clients, id);
      OneChanges(View(), id, c.(onNoKey := onNoKey));
      EnterKeys(id, keys, onNoKey);
      ghost var d := clients[id].(onNoKey := onNoKey, pending := true);
      TallySame(old(clients), blockedClients, byType, id, d);
      ghost var e := d.(blocked := true, btype := btype);
      OneChanges(Index(Wanting(clients, id, onNoKey), blocking, noKey), id, e);
      assert Wanting(clients, id, onNoKey)[id := e] == old(clients)[id := e];
      QueuedSame(old(clients), unblockedClients, id, e);
      OnKeysBlocks(btype);
      ShapedSet(old(clients), id, e);
      clients := clients[id := clients[id].(onNoKey := onNoKey, pending := true)];
      assert clients == old(clients)[id := d];
      BlockClient(id, btype);
      assert clients == old(clients)[id := e];
    }

    // releaseBlockedEntry. The entries of the keys in gone were released before, and are still in
    // the client's table.
    method ReleaseBlockedEntry(id: nat, key: string, removeKey: bool, ghost gone: set<string>)
      requires id in clients && key in clients[id].keys && key !in gone
      requires Consistent(Index(WithoutKeys(clients, id, gone), blocking, noKey)) && NodesBelow(blocking, nextNode)
      modifies `clients, `blocking, `noKey
      ensures clients == if removeKey then WithoutKeys(old(clients), id, {key}) else old(clients)
      ensures Consistent(Index(WithoutKeys(old(clients), id, gone + {key}), blocking, noKey)) && NodesBelow(blocking, nextNode)
      ensures LeftSome(old(blocking), blocking, id, old(clients)[id].db, {key})
    {
      hide Consistent, NodesBelow, LeftSome, Unlink;
      ghost var x := Index(WithoutKeys(clients, id, gone), blocking, noKey);
      ReleaseLeaves(x, id, key, nextNode);
      ReleaseConsistent(x, id, key);
      WithoutOneMore(clients, id, gone, key);
      var c := clients[id];
      if c.onNoKey {
        CountIsThere(x, id, key);
      }
      var s := Slot(c.db, key);
      var l := Unlink(blocking[s], c.keys[key]);
      blocking := blocking[s := l];
      if |l| == 0 {
        blocking := blocking - {s};
        noKey := noKey - {s};
      } else if c.onNoKey {
        noKey := noKey[s := noKey[s] - 1];
        if noKey[s] == 0 {
          noKey := noKey - {s};
        }
      }
      ghost var y := Release(x, id, key);
      assert blocking == y.blocking;
      assert noKey == y.noKey;
      if removeKey {
        clients := clients[id := c.(keys := c.keys - {key})];
      }
    }

    // unblockClientWaitingData
    method UnblockClientWaitingData(id: nat)
      requires id in clients && Consistent(View()) && NodesBelow(blocking, nextNode)
      modifies `clients, `blocking, `noKey
      ensures clients == old(clients)[id := old(clients)[id].(keys := map[])]
      ensures Consistent(View()) && NodesBelow(blocking, nextNode)
      ensures Left(old(blocking), blocking, id)
    {
      hide Consistent, NodesBelow, LeftSome, Left;
      var c := clients[id];
      ghost var x := View();
      ghost var gone: set<string> := {};
      WithoutNone(clients, id);
      LeftNone(blocking, id, c.db);
      var rest := c.keys.Keys;
      while rest != {}
        invariant clients == old(clients) && gone + rest == c.keys.Keys && gone !! rest
        invariant Consistent(Index(WithoutKeys(clients, id, gone), blocking, noKey)) && NodesBelow(blocking, nextNode)
        invariant LeftSome(old(blocking), blocking, id, c.db, gone)
        decreases rest
      {
        var key :| key in rest;
        ghost var b := blocking;
        ReleaseBlockedEntry(id, key, false, gone);
        LeftMore(old(blocking), b, blocking, id, c.db, gone, key);
        rest := rest - {key};
        gone := gone + {key};
      }
      clients := clients[id := c.(keys := map[])];
      assert c.keys - gone == map[];
      LeftAll(x, blocking, id);
    }

    // queueClientForReprocessing
    method QueueClientForReprocessing(id: nat)
      requires Sound() && id in clients
      modifies `clients, `unblockedClients
      ensures Sound() && clients == old(clients)[id := old(clients)[id].(queued := true)]
      ensures unblockedClients == old(unblockedClients) + if old(clients)[id].queued then [] else [id]
    {
      hide Consistent, Tallied, Queued, Shaped, NodesBelow;
      if !clients[id].queued {
        var c := clients[id].(queued := true);
        OneChanges(View(), id, c);
        TallySame(clients, blockedClients, byType, id, c);
        QueuedMore(clients, unblockedClients, id);
        ShapeOf(clients, id);
        ShapedSet(clients, id, c);
        clients := clients[id := c];
        unblockedClients := unblockedClients + [id];
      }
    }

    // The first part of unblockClient, by the kind of operation.
    method StopWaiting(id: nat)
      requires id in clients && Shape(clients[id]) && Consistent(View()) && NodesBelow(blocking, nextNode)
      modifies `clients, `blocking, `noKey
      ensures clients == old(clients)[id := old(clients)[id].(keys := map[])]
      ensures Consistent(View()) && NodesBelow(blocking, nextNode)
      ensures Left(old(blocking), blocking, id)
    {
      hide Consistent, NodesBelow, Left, LeftSome;
      if OnKeys(clients[id].btype) {
        UnblockClientWaitingData(id);
      } else {
        LeftNone(blocking, id, clients[id].db);
        assert clients[id].keys.Keys == {};
        LeftAll(View(), blocking, id);
      }
    }

    // unblockClient
    method UnblockClient(id: nat, requeue: bool)
      requires Sound() && id in clients && clients[id].blocked
      modifies `clients, `blocking, `noKey, `blockedClients, `byType, `unblockedClients
      ensures Sound() && id in clients && Left(old(blocking), blocking, id)
      ensures clients == old(clients)[id := Idle(old(clients)[id]).(queued := clients[id].queued)]
      ensures !clients[id].blocked && clients[id].btype == NONE && clients[id].keys == map[] && !clients[id].onNoKey
      ensures clients[id].queued == (requeue || old(clients)[id].queued)
      ensures unblockedClients == old(unblockedClients) + if !requeue || old(clients)[id].queued then [] else [id]
    {
      hide Consistent, Tallied, Queued, Shaped, NodesBelow, Left;
      ghost var d := Idle(clients[id]);
      ShapeOf(clients, id);
      TallyUnblock(clients, blockedClients, byType, id, d);
      TallyHas(clients, blockedClients, byType, clients[id].btype);
      QueuedSame(clients, unblockedClients, id, d);
      ShapedSet(clients, id, d);
      StopWaiting(id);
      OneChanges(View(), id, d);
      var c := clients[id];
      if !c.isModule {
        blockedClients := blockedClients - 1;
      }
      byType := byType[c.btype := byType[c.btype] - 1];
      clients := clients[id := c.(blocked := false, btype := NONE, onNoKey := false)];
      assert clients == old(clients)[id := d];
      if requeue {
        QueueClientForReprocessing(id);
      }
    }

    // unblockClientOnTimeout and unblockClientOnError, without the replies.
    method UnblockClientOnTimeout(id: nat)
      requires Valid() && id in clients && clients[id].blocked
      modifies `clients, `blocking, `noKey, `blockedClients, `byType, `unblockedClients
      ensures Valid() && Left(old(blocking), blocking, id)
      ensures clients == old(clients)[id := Idle(old(clients)[id]).(pending := false, queued := true)]
    {
      hide Consistent, Tallied, Queued, NodesBelow, Left, Shaped, Listed;
      var c := clients[id].(pending := false);
      OneChanges(View(), id, c);
      TallySame(clients, blockedClients, byType, id, c);
      QueuedSame(clients, unblockedClients, id, c);
      ShapeOf(clients, id);
      ShapedSet(clients, id, c);
      clients := clients[id := c];
      UnblockClient(id, true);
    }

    // One turn of processUnblockedClients, up to the commands that the client then sends.
    method TakeUnblocked() returns (id: nat)
      requires Valid() && unblockedClients != []
      modifies `clients, `unblockedClients
      ensures Valid() && id == old(unblockedClients[0]) && unblockedClients == old(unblockedClients[1..])
      ensures id in old(clients) && clients == old(clients)[id := old(clients)[id].(queued := false)]
    {
      hide Consistent, Tallied, NodesBelow, Shaped, Listed, Distinct;
      id := unblockedClients[0];
      assert id in unblockedClients;
      var c := clients[id].(queued := false);
      OneChanges(View(), id, c);
      TallySame(clients, blockedClients, byType, id, c);
      QueuedFirst(clients, unblockedClients);
      ShapeOf(clients, id);
      ShapedSet(clients, id, c);
      clients := clients[id := c];
      unblockedClients := unblockedClients[1..];
    }

    // freeClient, with unlinkClient, as far as blocking goes.
    method FreeClient(id: nat)
      requires Valid() && id in clients
      modifies `clients, `blocking, `noKey, `blockedClients, `byType, `unblockedClients
      ensures Valid() && clients == old(clients) - {id} && Left(old(blocking), blocking, id)
      ensures unblockedClients == Without(old(unblockedClients), id)
    {
      hide Consistent, Tallied, NodesBelow, Left, Listed, Queued, Distinct, Shaped, Pending;
      ghost var was, l := clients, unblockedClients;
      PendingForget(was, id);
      if clients[id].blocked {
        UnblockClient(id, true);
        WithoutSnoc(l, id);
      } else {
        NotBlocked(clients, id);
        NeverIn(View(), id);
      }
      NotBlocked(clients, id);
      QueuedForget(clients, unblockedClients, id);
      if clients[id].queued {
        unblockedClients := Without(unblockedClients, id);
      }
      ForgetConsistent(View(), id);
      TallyForget(clients, blockedClients, byType, id);
      ShapedForget(clients, id);
      assert clients - {id} == was - {id};
      clients := clients - {id};
    }

    // signalKeyAsReadyLogic. The list rest was taken from the server to be worked off.
    method SignalKeyAsReady(s: Slot, otype: ObjectType, deleted: bool, ghost rest: seq<Slot>)
      requires Sound() && Listed(rest + readyKeys, readyTable)
      modifies `readyKeys, `readyTable
      ensures Sound() && Listed(rest + readyKeys, readyTable)
      ensures readyKeys == old(readyKeys) +
        if s !in old(readyTable) && Raised(clients, blocking, s, BlockedTypeOf(otype), deleted) then [s] else []
      ensures Wanted(clients, blocking, s, BlockedTypeOf(otype), deleted) ==> s in readyTable
      ensures old(readyTable) <= readyTable
    {
      hide Consistent, Tallied, Queued, Shaped, NodesBelow, Listed, Wanted, Raised;
      var btype := BlockedTypeOf(otype);
      assert readyKeys + [] == readyKeys;
      if Wanted(clients, blocking, s, btype, deleted) {
        WantedIsSeen(View(), blockedClients, byType, s, btype, deleted);
      }
      if btype == NONE {
        NotRaised(clients, blocking, s, deleted);
        return;
      }
      RaisedIsSeen(View(), blockedClients, byType, s, btype, deleted);
      TallyHas(clients, blockedClients, byType, btype);
      TallyHas(clients, blockedClients, byType, MODULE);
      if byType[btype] == 0 && byType[MODULE] == 0 {
        return;
      }
      if deleted {
        if s !in noKey {
          return;
        }
        NoKeyIsBlocking(View(), s);
      } else {
        if s !in blocking {
          return;
        }
      }
      if s in readyTable {
        return;
      }
      ListedMore(rest + readyKeys, readyTable, s);
      assert rest + readyKeys + [s] == rest + (readyKeys + [s]);
      readyTable := readyTable + {s};
      readyKeys := readyKeys + [s];
    }

    // The keys that a command makes ready.
    method SignalAll(signals: seq<Signal>, ghost rest: seq<Slot>)
      requires Sound() && Listed(rest + readyKeys, readyTable)
      modifies `readyKeys, `readyTable
      ensures Sound() && Listed(rest + readyKeys, readyTable)
      ensures signals == [] ==> readyKeys == old(readyKeys)
      ensures forall i :: 0 <= i < |signals| && Wanted(clients, blocking, signals[i].slot, BlockedTypeOf(signals[i].otype), signals[i].deleted) ==>
        signals[i].slot in readyTable
    {
      hide Consistent, Tallied, Queued, Shaped, NodesBelow, Listed, Wanted;
      var i := 0;
      while i < |signals|
        invariant 0 <= i <= |signals|
        invariant Sound() && Listed(rest + readyKeys, readyTable)
        invariant forall j :: 0 <= j < i && Wanted(clients, blocking, signals[j].slot, BlockedTypeOf(signals[j].otype), signals[j].deleted) ==>
          signals[j].slot in readyTable
        invariant i == 0 ==> readyKeys == old(readyKeys)
      {
        SignalKeyAsReady(signals[i].slot, signals[i].otype, signals[i].deleted, rest);
        i := i + 1;
      }
    }

    // processCommandAndResetClient: the command may make keys ready, and the client may have to
    // wait again.
    method Reexecute(id: nat, ghost rest: seq<Slot>)
      requires Sound() && Pending(clients) && Listed(rest + readyKeys, readyTable) && id in clients && !clients[id].blocked
      modifies `clients, `blocking, `noKey, `nextNode, `blockedClients, `byType, `readyKeys, `readyTable, `executed
      ensures Sound() && Pending(clients) && Listed(rest + readyKeys, readyTable)
      ensures executed == old(executed) + [id]
      ensures id in clients && clients == old(clients)[id := clients[id]] && clients[id].db == old(clients)[id].db
      ensures var out := behaves(|old(executed)|);
        && (out.signals == [] ==> readyKeys == old(readyKeys))
        && (if out.again.Some? then clients[id].blocked && Covers(clients[id].keys, out.again.value.keys) else clients == old(clients))
        && (out.again.Some? ==> clients[id].btype == out.again.value.btype && clients[id].onNoKey == out.again.value.onNoKey)
        && Heard(old(clients), old(blocking), id, out.signals, readyTable)
      ensures Joined(old(blocking), blocking, id, clients[id].db, clients[id].keys)
    {
      hide Consistent, Tallied, Queued, Shaped, NodesBelow, Listed, Joined, Covers;
      NotBlocked(clients, id);
      JoinedNone(blocking, id, clients[id].db);
      var out := behaves(|executed|);
      executed := executed + [id];
      SignalAll(out.signals, rest);
      assert Heard(clients, blocking, id, out.signals, readyTable);
      if out.again.Some? {
        BlockForKeys(id, out.again.value.btype, out.again.value.keys, out.again.value.onNoKey);
      }
      assert clients == old(clients)[id := clients[id]];
    }

    // The first part of unblockClientOnKey: the client waits for nothing any more.
    method ReleaseClient(id: nat, key: string)
      requires Sound() && id in clients && key in clients[id].keys
      modifies `clients, `blocking, `noKey, `blockedClients, `byType, `unblockedClients
      ensures Sound() && Left(old(blocking), blocking, id)
      ensures clients == old(clients)[id := Idle(old(clients)[id])]
    {
      hide Consistent, Tallied, Queued, Shaped, NodesBelow, Left, LeftSome;
      ghost var c := clients[id];
      ShapeOf(clients, id);
      WithoutNone(clients, id);
      assert {} + {key} == {key};
      ghost var d := c.(keys := c.keys - {key});
      TallySame(clients, blockedClients, byType, id, d);
      QueuedSame(clients, unblockedClients, id, d);
      ShapedSet(clients, id, d);
      ReleaseBlockedEntry(id, key, true, {});
      ghost var b := blocking;
      // serverAssert
      assert OnKeys(clients[id].btype);
      UnblockClient(id, false);
      LeftTwice(old(blocking), b, blocking, id, c.db, {key});
      assert clients == old(clients)[id := Idle(c)];
    }

    method ClearPending(id: nat)
      requires Sound() && id in clients && !clients[id].blocked
      modifies `clients
      ensures Sound() && clients == old(clients)[id := old(clients)[id].(pending := false)]
    {
      hide Consistent, Tallied, Queued, Shaped, NodesBelow;
      var d := clients[id].(pending := false);
      ShapeOf(clients, id);
      OneChanges(View(), id, d);
      TallySame(clients, blockedClients, byType, id, d);
      QueuedSame(clients, unblockedClients, id, d);
      ShapedSet(clients, id, d);
      clients := clients[id := d];
    }

    // The second part of unblockClientOnKey: the command is executed again.
    method RunPending(id: nat, ghost rest: seq<Slot>)
      requires Sound() && Pending(clients) && Listed(rest + readyKeys, readyTable) && id in clients && !clients[id].blocked
      modifies `clients, `blocking, `noKey, `nextNode, `blockedClients, `byType, `unblockedClients, `readyKeys, `readyTable, `executed
      ensures Sound() && Pending(clients) && Listed(rest + readyKeys, readyTable)
      ensures executed == old(executed) + [id]
      ensures id in clients && clients == old(clients)[id := clients[id]] && clients[id].db == old(clients)[id].db
      ensures var out := behaves(|old(executed)|);
        && (out.signals == [] ==> readyKeys == old(readyKeys))
        && (clients[id].blocked <==> out.again.Some?)
        && (if out.again.Some? then Covers(clients[id].keys, out.again.value.keys) else clients[id].keys == map[])
        && (if out.again.Some? then clients[id].btype == out.again.value.btype && clients[id].onNoKey == out.again.value.onNoKey
            else clients[id].isModule || clients[id].queued)
        && Heard(old(clients), old(blocking), id, out.signals, readyTable)
      ensures Joined(old(blocking), blocking, id, clients[id].db, clients[id].keys)
    {
      hide Consistent, Tallied, Queued, Shaped, NodesBelow, Listed, Joined, Covers, Pending, Heard;
      ShapeOf(clients, id);
      PendingSet(clients, id, clients[id].(pending := false));
      ClearPending(id);
      ghost var c := clients;
      Reexecute(id, rest);
      HeardApart(old(clients), old(blocking), c, old(blocking), id, behaves(|old(executed)|).signals, readyTable);
      if !clients[id].blocked && !clients[id].isModule {
        ShapeOf(clients, id);
        PendingSet(clients, id, clients[id].(queued := true));
        QueueClientForReprocessing(id);
      }
    }

    // unblockClientOnKey
    method UnblockClientOnKey(id: nat, key: string, ghost rest: seq<Slot>)
      requires Sound() && Pending(clients) && Listed(rest + readyKeys, readyTable) && id in clients && key in clients[id].keys
      modifies `clients, `blocking, `noKey, `nextNode, `blockedClients, `byType, `unblockedClients, `readyKeys, `readyTable, `executed
      ensures Sound() && Pending(clients) && Listed(rest + readyKeys, readyTable)
      ensures executed == old(executed) + [id]
      ensures id in clients && clients == old(clients)[id := clients[id]] && clients[id].db == old(clients)[id].db
      ensures var out := behaves(|old(executed)|);
        && (out.signals == [] ==> readyKeys == old(readyKeys))
        && (clients[id].blocked <==> out.again.Some?)
        && (if out.again.Some? then Covers(clients[id].keys, out.again.value.keys) else clients[id].keys == map[])
        && (if out.again.Some? then clients[id].btype == out.again.value.btype && clients[id].onNoKey == out.again.value.onNoKey
            else clients[id].isModule || clients[id].queued)
        && Heard(old(clients), old(blocking), id, out.signals, readyTable)
      ensures Moved(old(blocking), blocking, id, clients[id].db, clients[id].keys)
    {
      hide Consistent, Tallied, Queued, Shaped, NodesBelow, Listed, Left, Joined, Covers, Moved, Pending, Heard;
      ghost var c := clients[id];
      PendingOf(clients, id);
      ReleaseClient(id, key);
      ghost var b, released := blocking, clients;
      // The flag that says so is set for every client that waits for keys.
      assert clients[id].pending;
      PendingSet(old(clients), id, clients[id]);
      RunPending(id, rest);
      MovedBack(old(blocking), b, blocking, id, c.db, clients[id].keys);
      HeardApart(old(clients), old(blocking), released, b, id, behaves(|old(executed)|).signals, readyTable);
    }

    // A command that makes its client wait again makes no key ready.
    ghost predicate Tame()
    {
      forall n :: behaves(n).again.Some? ==> behaves(n).signals == []
    }

    // The position of a node that a list iterator holds.
    method FindNode(l: seq<Waiter>, node: nat) returns (p: nat)
      requires HasNode(l, node)
      ensures p < |l| && l[p].node == node
    {
      p := 0;
      while l[p].node != node
        invariant p < |l| && forall i :: 0 <= i < p ==> l[i].node != node
        decreases |l| - p
      {
        p := p + 1;
      }
    }

    // The body of the loop of handleClientsBlockedOnKey, for the waiter at position p.
    method Visit(s: Slot, p: nat, ghost rest: seq<Slot>) returns (ghost fate: Fate)
      requires Sound() && Pending(clients) && Listed(rest + readyKeys, readyTable) && p < |Waiters(blocking, s)|
      requires Waiters(blocking, s)[p].id in clients
      modifies `clients, `blocking, `noKey, `nextNode, `blockedClients, `byType, `unblockedClients, `readyKeys, `readyTable, `executed, `lookups
      ensures Sound() && Pending(clients) && Listed(rest + readyKeys, readyTable)
      ensures lookups == old(lookups) + 1
      ensures fate == Skipped <==> !Serves(old(clients)[old(Waiters(blocking, s))[p].id], finds(old(lookups)))
      ensures var c, o := old(clients)[old(Waiters(blocking, s))[p].id], finds(old(lookups));
        fate != Skipped <==>
          || c.onNoKey
          || (o == Some(LIST_OBJECT) && c.btype == LIST) || (o == Some(ZSET_OBJECT) && c.btype == ZSET)
          || (o == Some(STREAM_OBJECT) && c.btype == STREAM)
      ensures var l, id := old(Waiters(blocking, s)), old(Waiters(blocking, s))[p].id;
        if fate == Skipped then clients == old(clients) && blocking == old(blocking) && executed == old(executed)
        else
          && executed == old(executed) + [id] && id in clients && clients == old(clients)[id := clients[id]]
          && Moved(old(blocking), blocking, id, s.db, clients[id].keys)
          && Waiters(blocking, s) == l[..p] + l[p + 1..] + Own(s, id, s.db, clients[id].keys)
          && (fate == Again <==> s.key in clients[id].keys)
      ensures Blocked(clients) <= old(Blocked(clients))
      ensures Tame() && Blocked(clients) == old(Blocked(clients)) ==> readyKeys == old(readyKeys)
    {
      hide Consistent, Tallied, Queued, Shaped, NodesBelow, Listed, Covers, Moved, Waiters;
      ghost var x := View();
      var id := Waiters(blocking, s)[p].id;
      WaiterIs(x, s, p);
      ShapeOf(clients, id);
      var o := finds(lookups);
      lookups := lookups + 1;
      if Serves(clients[id], o) {
        ShapeOf(clients, id);
        UnblockClientOnKey(id, s.key, rest);
        MovedAt(x, s, p, blocking, s.db, clients[id].keys);
        fate := if s.key in clients[id].keys then Again else Served;
        BlockedOnly(old(clients), id, clients[id]);
      } else {
        fate := Skipped;
      }
    }

    // One turn of the loop of handleClientsBlockedOnKey: listNext, and the visit.
    method VisitNext(s: Slot, next: nat, ghost pass: Pass, ghost rest: seq<Slot>) returns (next': Option<nat>, ghost pass': Pass)
      requires Sound() && Pending(clients) && Listed(rest + readyKeys, readyTable)
      requires InPass(pass, Waiters(blocking, s)) && pass.todo != [] && next == pass.todo[0].node
      modifies `clients, `blocking, `noKey, `nextNode, `blockedClients, `byType, `unblockedClients, `readyKeys, `readyTable, `executed, `lookups
      ensures Sound() && Pending(clients) && Listed(rest + readyKeys, readyTable)
      ensures InPass(pass', Waiters(blocking, s))
      ensures exists fate, own :: pass' == Advance(pass, fate, own)
      ensures if pass'.todo != [] then next' == Some(pass'.todo[0].node) else next'.Some? ==> HasNode(pass'.again, next'.value)
      ensures lookups == old(lookups) + 1
      ensures var id, skipped := pass.todo[0].id, pass'.fates[|pass.fates|] == Skipped;
        && id in old(clients) && (skipped <==> !Serves(old(clients)[id], finds(old(lookups))))
        && id in clients && clients == old(clients)[id := clients[id]]
        && (if skipped then clients == old(clients) && blocking == old(blocking) && executed == old(executed)
            else executed == old(executed) + [id] && Moved(old(blocking), blocking, id, s.db, clients[id].keys))
      ensures Blocked(clients) <= old(Blocked(clients))
      ensures Tame() && Blocked(clients) == old(Blocked(clients)) ==> readyKeys == old(readyKeys)
    {
      hide Consistent, Tallied, Queued, Shaped, NodesBelow, Listed, Moved, Waiters, Ids, Pick, Serves, Pending;
      var l := Waiters(blocking, s);
      var k: nat := |pass.kept|;
      assert l[k] == pass.todo[0];
      var p := FindNode(l, next);
      NodeAt(View(), s, p, k);
      WaiterIs(View(), s, p);
      next' := if p + 1 < |l| then Some(l[p + 1].node) else None;
      ghost var fate := Visit(s, p, rest);
      ghost var own := if fate == Skipped then [] else Own(s, l[p].id, s.db, clients[l[p].id].keys);
      AdvancePass(pass, l, fate, own, Waiters(blocking, s));
      NextNode(pass, l, fate, own);
      pass' := Advance(pass, fate, own);
    }

    // handleClientsBlockedOnKey. Each client that waits when it starts is visited once, in the order
    // of the list, and is skipped exactly when what the lookup finds does not concern it. In the end
    // the list has those that were skipped, then those that wait again, both in their old order.
    method HandleClientsBlockedOnKey(s: Slot, ghost rest: seq<Slot>) returns (ghost fates: seq<Fate>)
      requires Sound() && Pending(clients) && Listed(rest + readyKeys, readyTable)
      modifies `clients, `blocking, `noKey, `nextNode, `blockedClients, `byType, `unblockedClients, `readyKeys, `readyTable, `executed, `lookups
      ensures Sound() && Pending(clients) && Listed(rest + readyKeys, readyTable)
      ensures |fates| == |old(Queue(blocking, s))|
      ensures executed == old(executed) + Visited(old(Queue(blocking, s)), fates)
      ensures Queue(blocking, s) == Pick(old(Queue(blocking, s)), fates, Skipped) + Pick(old(Queue(blocking, s)), fates, Again)
      ensures Decided(old(Queue(blocking, s)), fates, old(clients), finds, old(lookups))
      ensures OrderKept(old(blocking), blocking, Elements(Visited(old(Queue(blocking, s)), fates)))
      ensures Untouched(old(clients), clients, Elements(Visited(old(Queue(blocking, s)), fates)))
      ensures lookups == old(lookups) + |fates|
      ensures Blocked(clients) <= old(Blocked(clients))
      ensures Tame() && Blocked(clients) == old(Blocked(clients)) ==> readyKeys == old(readyKeys)
    {
      hide Consistent, Tallied, Queued, Shaped, NodesBelow, Listed, Moved, Ids, Pick, Visited, Serves, Pending,
        HasNode, Elements, Waiters, Blocked, Passing, InPass, Untouched;
      ghost var x, e0, t0 := View(), executed, lookups;
      // listRewind and listLength
      var l := Waiters(blocking, s);
      var next := if l == [] then None else Some(l[0].node);
      var count := |l|;
      ghost var pass := Pass(l, [], l, [], []);
      BeginPass(l);
      PassingBegin(x, s, executed, lookups, finds);
      while next.Some? && count > 0
        invariant Sound() && Pending(clients) && Listed(rest + readyKeys, readyTable)
        invariant pass.start == l && InPass(pass, Waiters(blocking, s)) && count == |pass.todo|
        invariant if pass.todo != [] then next == Some(pass.todo[0].node) else next.Some? ==> HasNode(pass.again, next.value)
        invariant Passing(pass, x.blocking, x.clients, e0, t0, blocking, clients, executed, lookups, finds)
        invariant Blocked(clients) <= old(Blocked(clients))
        invariant Tame() && Blocked(clients) == old(Blocked(clients)) ==> readyKeys == old(readyKeys)
        decreases count
      {
        ghost var before, y, e, t := pass, View(), executed, lookups;
        ghost var id := pass.todo[0].id;
        next, pass := VisitNext(s, next.value, pass, rest);
        ghost var fate, own :| pass == Advance(before, fate, own);
        PassingNext(before, fate, own, s.db, clients[id].keys, x.blocking, x.clients, e0, t0,
                    y.blocking, y.clients, e, t, finds, blocking, clients, executed);
        count := count - 1;
      }
      fates := pass.fates;
      EndPass(pass, Waiters(blocking, s));
      EndPassing(pass, x.blocking, x.clients, e0, t0, blocking, clients, executed, lookups, finds);
    }

    // The keys of a list that was taken from the server. A key is taken out of the table of ready keys
    // before its clients are visited, so that it can become ready again meanwhile. There is a pass for every
    // key, in order, over the clients that wait for it then.
    method HandleList(keys: seq<Slot>) returns (ghost passes: seq<KeyPass>)
      requires Sound() && Pending(clients) && Listed(keys + readyKeys, readyTable) && readyKeys == []
      modifies `clients, `blocking, `noKey, `nextNode, `blockedClients, `byType, `unblockedClients, `readyKeys, `readyTable, `executed, `lookups
      ensures Valid() && Blocked(clients) <= old(Blocked(clients))
      ensures Tame() && Blocked(clients) == old(Blocked(clients)) ==> readyKeys == []
      ensures |passes| == |keys| && InTurn(passes, keys, old(blocking), old(clients))
      ensures AllPassed(passes, finds, old(lookups)) && lookups == old(lookups) + Looked(passes)
      ensures executed == old(executed) + Executed(passes)
    {
      hide Consistent, Tallied, Queued, Shaped, NodesBelow, Listed, Pending, Waiters, Blocked, Ids, Visited, Pick, Decided, OrderKept, Elements, Untouched,
        InTurn, AllPassed, Executed, Looked;
      ghost var x, e0, t0 := View(), executed, lookups;
      var l := keys;
      passes := [];
      NoPasses(keys, x, finds, t0);
      while |l| != 0
        invariant Sound() && Pending(clients) && Listed(l + readyKeys, readyTable)
        invariant Blocked(clients) <= old(Blocked(clients))
        invariant Tame() && Blocked(clients) == old(Blocked(clients)) ==> readyKeys == []
        invariant |passes| + |l| == |keys| && l == keys[|passes|..]
        invariant Handling(passes, keys, x, e0, t0, View(), executed, lookups, finds)
        decreases |l|
      {
        TakeFirst(l, readyKeys, readyTable);
        readyTable := readyTable - {l[0]};
        ghost var y, e, t := View(), executed, lookups;
        ghost var fates := HandleClientsBlockedOnKey(l[0], l[1..]);
        ghost var pass := KeyPass(l[0], Waiters(y.blocking, l[0]), y.clients, t, fates);
        HandlingNext(passes, keys, pass, x, e0, t0, y, e, t, finds, View(), executed, lookups);
        passes := passes + [pass];
        l := l[1..];
      }
      assert l + readyKeys == readyKeys;
      HandlingEnd(passes, keys, x, e0, t0, View(), executed, lookups, finds);
    }

    // handleClientsBlockedOnKeys. It ends, with no key left to handle. The first passes are those over the
    // keys that were ready, in order.
    method HandleClientsBlockedOnKeys() returns (ghost passes: seq<KeyPass>)
      requires Valid() && Tame()
      modifies this
      ensures Valid()
      ensures if old(handling) then unchanged(this) && passes == []
        else readyKeys == [] && !handling && Blocked(clients) <= old(Blocked(clients))
      ensures !old(handling) ==> |passes| >= |old(readyKeys)| && InTurn(passes[..|old(readyKeys)|], old(readyKeys), old(blocking), old(clients))
      ensures AllPassed(passes, finds, old(lookups)) && lookups == old(lookups) + Looked(passes)
      ensures executed == old(executed) + Executed(passes)
      ensures !old(handling) ==> AllServed(passes, old(readyKeys), old(View()), finds)
    {
      hide Consistent, Tallied, Queued, Shaped, NodesBelow, Listed, Pending, Blocked, InTurn, AllPassed, Executed, Looked, AllServed;
      passes := [];
      NoPasses([], View(), finds, lookups);
      assert executed + [] == executed;
      if handling {
        return;
      }
      handling := true;
      ghost var first := true;
      while |readyKeys| != 0
        invariant Valid() && Blocked(clients) <= old(Blocked(clients))
        invariant if first then passes == [] && View() == old(View()) && readyKeys == old(readyKeys)
          else |passes| >= |old(readyKeys)| && InTurn(passes[..|old(readyKeys)|], old(readyKeys), old(blocking), old(clients))
        invariant AllPassed(passes, finds, old(lookups)) && lookups == old(lookups) + Looked(passes)
        invariant executed == old(executed) + Executed(passes)
        decreases Blocked(clients), |readyKeys|
      {
        var l := readyKeys;
        readyKeys := [];
        assert l + [] == l;
        ghost var more := HandleList(l);
        PassesConcat(passes, more, finds, old(lookups));
        if first {
          assert passes + more == more && more[..|l|] == more;
        } else {
          assert (passes + more)[..|old(readyKeys)|] == passes[..|old(readyKeys)|];
        }
        passes := passes + more;
        first := false;
      }
      if first { assert passes[..0] == []; }
      ServeAll(passes, old(readyKeys), old(View()), finds, old(lookups));
      handling := false;
    }
  }

  lemma TakeFirst(l: seq<Slot>, ready: seq<Slot>, table: set<Slot>)
    requires l != [] && Listed(l + ready, table)
    ensures Listed(l[1..] + ready, table - {l[0]})
  {
    var all := l + ready;
    assert l[1..] + ready == all[1..];
    forall s ensures s in all[1..] <==> s in table - {l[0]} {
      if s in all[1..] {
        var i :| 0 <= i < |all[1..]| && all[1..][i] == s;
        assert all[i + 1] == s && all[0] == l[0];
      }
      if s in table && s != l[0] {
        var i :| 0 <= i < |all| && all[i] == s;
        assert all[1..][i - 1] == s;
      }
    }
  }

  lemma EndPassing(p: Pass, b0: map<Slot, seq<Waiter>>, c0: map<nat, Client>, e0: seq<nat>, t0: nat,
                   b: map<Slot, seq<Waiter>>, c: map<nat, Client>, e: seq<nat>, t: nat, finds: nat -> Option<ObjectType>)
    requires Passing(p, b0, c0, e0, t0, b, c, e, t, finds) && p.todo == []
    ensures |p.fates| == |Ids(p.start)| && e == e0 + Visited(Ids(p.start), p.fates)
    ensures Decided(Ids(p.start), p.fates, c0, finds, t0)
    ensures OrderKept(b0, b, Elements(Visited(Ids(p.start), p.fates))) && Untouched(c0, c, Elements(Visited(Ids(p.start), p.fates)))
    ensures t == t0 + |p.fates|
  {
    assert Done(p) == Ids(p.start);
  }

  lemma EndPass(p: Pass, l: seq<Waiter>)
    requires InPass(p, l) && p.todo == []
    ensures |p.fates| == |Ids(p.start)| && Done(p) == Ids(p.start)
    ensures Ids(l) == Pick(Ids(p.start), p.fates, Skipped) + Pick(Ids(p.start), p.fates, Again)
  {
    hide Pick;
    assert l == p.kept + p.again;
    IdsConcat(p.kept, p.again);
  }

  lemma BlockedOnly(clients: map<nat, Client>, id: nat, c: Client)
    requires id in clients && clients[id].blocked
    ensures Blocked(clients[id := c]) <= Blocked(clients)
    ensures !c.blocked ==> Blocked(clients[id := c]) != Blocked(clients)
  {
    assert id in Blocked(clients);
    assert !c.blocked ==> id !in Blocked(clients[id := c]);
  }

  lemma NotBlocked(clients: map<nat, Client>, id: nat)
    requires Shaped(clients) && id in clients && !clients[id].blocked
    ensures clients[id].keys == map[] && !clients[id].onNoKey
  {
    assert Shape(clients[id]);
  }

  lemma NoKeyIsBlocking(x: Index, s: Slot)
    requires Consistent(x) && s in x.noKey
    ensures s in x.blocking
  {
    assert CountOk(x, s);
  }

  lemma ShapeOf(clients: map<nat, Client>, id: nat)
    requires Shaped(clients) && id in clients
    ensures Shape(clients[id])
  {}

  lemma ShapedSet(clients: map<nat, Client>, id: nat, c: Client)
    requires Shaped(clients) && Shape(c)
    ensures Shaped(clients[id := c])
  {}

  lemma OnKeysBlocks(t: BlockType)
    requires OnKeys(t)
    ensures t != NONE && t != MODULE
  {}

  lemma TallyHas(clients: map<nat, Client>, total: int, byType: map<BlockType, int>, t: BlockType)
    requires Tallied(clients, total, byType)
    ensures t in byType
  {}
}
