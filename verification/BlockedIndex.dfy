// Who waits for which key: the waiting lists of keys and the key tables of clients (blocked.c).
module BlockedIndex {

  // A key of a database.
  datatype Slot = Slot(db: nat, key: string)

  // A node of a waiting list.
  datatype Waiter = Waiter(node: nat, id: nat)

  datatype BlockType = NONE | LIST | WAIT | WAITAOF | MODULE | STREAM | ZSET | POSTPONE | SHUTDOWN

  datatype Client = Client(
    db: nat,
    // CLIENT_BLOCKED, CLIENT_MODULE, CLIENT_PENDING_COMMAND, CLIENT_UNBLOCKED
    blocked: bool, isModule: bool, pending: bool, queued: bool,
    // bstate
    btype: BlockType, keys: map<string, nat>, onNoKey: bool)

  datatype Index = Index(clients: map<nat, Client>, blocking: map<Slot, seq<Waiter>>, noKey: map<Slot, nat>)

  // ---------------------------------------------------------------------------------------------
  // Lists
  // ---------------------------------------------------------------------------------------------

  function Waiters(blocking: map<Slot, seq<Waiter>>, s: Slot): seq<Waiter> {
    if s in blocking then blocking[s] else []
  }

  function Ids(l: seq<Waiter>): seq<nat> { seq(|l|, i requires 0 <= i < |l| => l[i].id) }

  // The clients that wait for a key, the first to block first.
  function Queue(blocking: map<Slot, seq<Waiter>>, s: Slot): seq<nat> { Ids(Waiters(blocking, s)) }

  // The list without the nodes of a client.
  function Drop(l: seq<Waiter>, id: nat): seq<Waiter> {
    if l == [] then [] else (if l[0].id == id then [] else [l[0]]) + Drop(l[1..], id)
  }

  // listUnlinkNode
  function Unlink(l: seq<Waiter>, node: nat): seq<Waiter> {
    if l == [] then [] else if l[0].node == node then l[1..] else [l[0]] + Unlink(l[1..], node)
  }

  // How many of the waiters asked to be woken when the key goes away.
  ghost function Asking(clients: map<nat, Client>, l: seq<Waiter>): nat {
    if l == [] then 0
    else Asking(clients, l[..|l| - 1]) + if Asks(clients, l[|l| - 1].id) then 1 else 0
  }

  predicate Asks(clients: map<nat, Client>, id: nat) { id in clients && clients[id].onNoKey }

  // ---------------------------------------------------------------------------------------------
  // The invariant
  // ---------------------------------------------------------------------------------------------

  // The waiter is the one that its client's table has for the key.
  predicate Points(x: Index, s: Slot, w: Waiter) {
    && w.id in x.clients && x.clients[w.id].db == s.db
    && s.key in x.clients[w.id].keys && x.clients[w.id].keys[s.key] == w.node
  }

  ghost predicate ListOk(x: Index, s: Slot, l: seq<Waiter>) {
    && l != []
    && (forall i :: 0 <= i < |l| ==> Points(x, s, l[i]))
    && (forall i, j :: 0 <= i < j < |l| ==> l[i].node != l[j].node)
  }

  ghost predicate CountOk(x: Index, s: Slot) {
    var n := Asking(x.clients, Waiters(x.blocking, s));
    if n == 0 then s !in x.noKey else s in x.noKey && x.noKey[s] == n
  }

  ghost predicate EntryOk(x: Index, id: nat, key: string)
    requires id in x.clients && key in x.clients[id].keys
  {
    var s := Slot(x.clients[id].db, key);
    s in x.blocking && Waiter(x.clients[id].keys[key], id) in x.blocking[s]
  }

  ghost predicate Consistent(x: Index) {
    && (forall s :: s in x.blocking ==> ListOk(x, s, x.blocking[s]))
    && (forall id, key :: id in x.clients && key in x.clients[id].keys ==> EntryOk(x, id, key))
    && (forall s :: CountOk(x, s))
  }

  // A client is in a list at most once.
  lemma OnceInList(x: Index, s: Slot, i: nat, j: nat)
    requires Consistent(x) && s in x.blocking && i < j < |x.blocking[s]|
    ensures x.blocking[s][i].id != x.blocking[s][j].id
  {
    var l := x.blocking[s];
    assert ListOk(x, s, l);
    assert Points(x, s, l[i]) && Points(x, s, l[j]);
  }

  lemma {:induction false} CountDistinct(s: seq<nat>, id: nat)
    requires forall i, j :: 0 <= i < j < |s| ==> s[i] != s[j]
    ensures multiset(s)[id] == if id in s then 1 else 0
  {
    if s != [] {
      var init, last := s[..|s| - 1], s[|s| - 1];
      assert s == init + [last];
      CountDistinct(init, id);
      assert last !in init;
    }
  }

  // A client is in the waiting list of a key exactly once if the key is in the client's table, and
  // not at all otherwise.
  lemma TwoWay(x: Index, s: Slot, id: nat)
    requires Consistent(x)
    ensures multiset(Queue(x.blocking, s))[id] ==
      if id in x.clients && x.clients[id].db == s.db && s.key in x.clients[id].keys then 1 else 0
  {
    var l := Waiters(x.blocking, s);
    var q := Queue(x.blocking, s);
    forall i, j | 0 <= i < j < |q| ensures q[i] != q[j] { OnceInList(x, s, i, j); }
    CountDistinct(q, id);
    if id in q {
      var i :| 0 <= i < |q| && q[i] == id;
      assert ListOk(x, s, l) && Points(x, s, l[i]);
    }
    if id in x.clients && x.clients[id].db == s.db && s.key in x.clients[id].keys {
      assert EntryOk(x, id, s.key);
      var i :| 0 <= i < |l| && l[i] == Waiter(x.clients[id].keys[s.key], id);
      assert q[i] == id;
    }
  }

  // ---------------------------------------------------------------------------------------------
  // Facts about counting and unlinking
  // ---------------------------------------------------------------------------------------------

  lemma {:induction false} AskingFrame(a: map<nat, Client>, b: map<nat, Client>, l: seq<Waiter>)
    requires forall i :: 0 <= i < |l| ==> Asks(a, l[i].id) == Asks(b, l[i].id)
    ensures Asking(a, l) == Asking(b, l)
  {
    if l != [] {
      AskingFrame(a, b, l[..|l| - 1]);
    }
  }

  lemma AskingSnoc(clients: map<nat, Client>, l: seq<Waiter>, w: Waiter)
    ensures Asking(clients, l + [w]) == Asking(clients, l) + if Asks(clients, w.id) then 1 else 0
  {
    assert (l + [w])[..|l|] == l;
  }

  lemma {:induction false} AskingConcat(clients: map<nat, Client>, a: seq<Waiter>, b: seq<Waiter>)
    ensures Asking(clients, a + b) == Asking(clients, a) + Asking(clients, b)
  {
    if b == [] {
      assert a + b == a;
    } else {
      assert (a + b)[..|a + b| - 1] == a + b[..|b| - 1];
      AskingConcat(clients, a, b[..|b| - 1]);
    }
  }

  lemma {:induction false} AskingSome(clients: map<nat, Client>, l: seq<Waiter>)
    ensures Asking(clients, l) > 0 <==> exists w :: w in l && Asks(clients, w.id)
  {
    if l != [] {
      var init, last := l[..|l| - 1], l[|l| - 1];
      AskingSome(clients, init);
      assert l == init + [last];
    }
  }

  lemma {:induction false} UnlinkAt(l: seq<Waiter>, p: nat)
    requires p < |l| && forall i :: 0 <= i < p ==> l[i].node != l[p].node
    ensures Unlink(l, l[p].node) == l[..p] + l[p + 1..]
  {
    if p > 0 {
      UnlinkAt(l[1..], p - 1);
      assert l[1..][..p - 1] == l[1..p] && l[1..][p..] == l[p + 1..];
      assert l[..p] == [l[0]] + l[1..p];
    }
  }

  // ---------------------------------------------------------------------------------------------
  // One more entry
  // ---------------------------------------------------------------------------------------------

  // The body of the loop of blockForKeys.
  function Enter(x: Index, id: nat, key: string, node: nat): Index
    requires id in x.clients
  {
    var c := x.clients[id];
    var s := Slot(c.db, key);
    Index(
      x.clients[id := c.(keys := c.keys[key := node])],
      x.blocking[s := Waiters(x.blocking, s) + [Waiter(node, id)]],
      if c.onNoKey then x.noKey[s := if s in x.noKey then x.noKey[s] + 1 else 1] else x.noKey)
  }

  ghost predicate FreshNode(x: Index, node: nat) {
    forall s, i :: s in x.blocking && 0 <= i < |x.blocking[s]| ==> x.blocking[s][i].node != node
  }

  lemma EnterCounts(x: Index, id: nat, key: string, node: nat, s: Slot)
    requires CountOk(x, s) && id in x.clients
    ensures CountOk(Enter(x, id, key, node), s)
  {
    var y := Enter(x, id, key, node);
    var l := Waiters(x.blocking, s);
    AskingFrame(x.clients, y.clients, l);
    AskingSnoc(y.clients, l, Waiter(node, id));
  }

  lemma EnterLists(x: Index, id: nat, key: string, node: nat, s: Slot)
    requires Consistent(x) && FreshNode(x, node) && id in x.clients && key !in x.clients[id].keys
    requires s in Enter(x, id, key, node).blocking
    ensures ListOk(Enter(x, id, key, node), s, Enter(x, id, key, node).blocking[s])
  {
    hide CountOk, EntryOk;
    var y := Enter(x, id, key, node);
    var l, l' := Waiters(x.blocking, s), y.blocking[s];
    assert s in x.blocking ==> ListOk(x, s, l);
    forall i | 0 <= i < |l| ensures Points(y, s, l[i]) {
      assert Points(x, s, l[i]);
    }
    if s == Slot(x.clients[id].db, key) {
      assert l' == l + [Waiter(node, id)];
    }
  }

  lemma EnterEntries(x: Index, id: nat, key: string, node: nat, d: nat, k: string)
    requires Consistent(x) && id in x.clients && key !in x.clients[id].keys
    requires d in x.clients && (k in x.clients[d].keys || (d == id && k == key))
    ensures EntryOk(Enter(x, id, key, node), d, k)
  {
    hide CountOk, ListOk;
    var y := Enter(x, id, key, node);
    var s := Slot(x.clients[d].db, k);
    if d == id && k == key {
      assert y.blocking[s][|Waiters(x.blocking, s)|] == Waiter(node, id);
    } else {
      assert EntryOk(x, d, k);
    }
  }

  lemma EnterConsistent(x: Index, id: nat, key: string, node: nat)
    requires Consistent(x) && FreshNode(x, node) && id in x.clients && key !in x.clients[id].keys
    ensures Consistent(Enter(x, id, key, node))
  {
    hide ListOk, EntryOk, CountOk, FreshNode;
    var y := Enter(x, id, key, node);
    forall s | s in y.blocking ensures ListOk(y, s, y.blocking[s]) { EnterLists(x, id, key, node, s); }
    forall d, k | d in y.clients && k in y.clients[d].keys ensures EntryOk(y, d, k) { EnterEntries(x, id, key, node, d, k); }
    forall s ensures CountOk(y, s) { EnterCounts(x, id, key, node, s); }
  }

  // ---------------------------------------------------------------------------------------------
  // One entry less
  // ---------------------------------------------------------------------------------------------

  // releaseBlockedEntry, with the key removed from the client's table.
  function Release(x: Index, id: nat, key: string): Index
    requires id in x.clients && key in x.clients[id].keys
  {
    var c := x.clients[id];
    var s := Slot(c.db, key);
    var l := Unlink(Waiters(x.blocking, s), c.keys[key]);
    Index(
      x.clients[id := c.(keys := c.keys - {key})],
      if l == [] then x.blocking - {s} else x.blocking[s := l],
      if l == [] then x.noKey - {s}
      else if !c.onNoKey || s !in x.noKey then x.noKey
      else if x.noKey[s] == 1 then x.noKey - {s}
      else x.noKey[s := if x.noKey[s] == 0 then 0 else x.noKey[s] - 1])
  }

  // Where the client's node is in the list, and the list without it.
  lemma Position(x: Index, id: nat, key: string) returns (p: nat)
    requires Consistent(x) && id in x.clients && key in x.clients[id].keys
    ensures var s := Slot(x.clients[id].db, key); var l := Waiters(x.blocking, s); var node := x.clients[id].keys[key];
      && p < |l| && l[p] == Waiter(node, id) && Unlink(l, node) == l[..p] + l[p + 1..]
      && (forall i :: 0 <= i < |l| && i != p ==> l[i].id != id && l[i].node != node)
  {
    var s := Slot(x.clients[id].db, key);
    assert EntryOk(x, id, key);
    var l := x.blocking[s];
    assert ListOk(x, s, l);
    p :| 0 <= p < |l| && l[p] == Waiter(x.clients[id].keys[key], id);
    UnlinkAt(l, p);
    forall i | 0 <= i < |l| && i != p ensures l[i].id != id && l[i].node != l[p].node {
      assert Points(x, s, l[i]);
    }
  }

  lemma ReleaseCounts(x: Index, id: nat, key: string, s: Slot)
    requires Consistent(x) && id in x.clients && key in x.clients[id].keys
    ensures CountOk(Release(x, id, key), s)
  {
    hide ListOk, EntryOk, Unlink;
    var y := Release(x, id, key);
    var l := Waiters(x.blocking, s);
    assert CountOk(x, s);
    AskingFrame(x.clients, y.clients, l);
    if s == Slot(x.clients[id].db, key) {
      var p := Position(x, id, key);
      assert l == l[..p] + [l[p]] + l[p + 1..];
      AskingConcat(y.clients, l[..p] + [l[p]], l[p + 1..]);
      AskingSnoc(y.clients, l[..p], l[p]);
      AskingConcat(y.clients, l[..p], l[p + 1..]);
    }
  }

  lemma ReleaseLists(x: Index, id: nat, key: string, s: Slot)
    requires Consistent(x) && id in x.clients && key in x.clients[id].keys
    requires s in Release(x, id, key).blocking
    ensures ListOk(Release(x, id, key), s, Release(x, id, key).blocking[s])
  {
    hide CountOk, Unlink;
    var y := Release(x, id, key);
    assert EntryOk(x, id, key);
    var l, l' := x.blocking[s], y.blocking[s];
    assert ListOk(x, s, l);
    if s == Slot(x.clients[id].db, key) {
      var p := Position(x, id, key);
      forall i | 0 <= i < |l'| ensures Points(y, s, l'[i]) {
        assert l'[i] == if i < p then l[i] else l[i + 1];
        assert Points(x, s, l'[i]);
      }
    } else {
      forall i | 0 <= i < |l| ensures Points(y, s, l[i]) {
        assert Points(x, s, l[i]);
      }
    }
  }

  lemma ReleaseEntries(x: Index, id: nat, key: string, d: nat, k: string)
    requires Consistent(x) && id in x.clients && key in x.clients[id].keys
    requires d in x.clients && k in x.clients[d].keys && !(d == id && k == key)
    ensures EntryOk(Release(x, id, key), d, k)
  {
    hide CountOk, ListOk, Unlink;
    var y := Release(x, id, key);
    var s := Slot(x.clients[d].db, k);
    assert EntryOk(x, d, k);
    if s == Slot(x.clients[id].db, key) {
      var p := Position(x, id, key);
      var l := x.blocking[s];
      var w := Waiter(x.clients[d].keys[k], d);
      var q :| 0 <= q < |l| && l[q] == w;
      assert (l[..p] + l[p + 1..])[if q < p then q else q - 1] == w;
    }
  }

  lemma ReleaseConsistent(x: Index, id: nat, key: string)
    requires Consistent(x) && id in x.clients && key in x.clients[id].keys
    ensures Consistent(Release(x, id, key))
  {
    hide ListOk, EntryOk, CountOk, Unlink;
    var y := Release(x, id, key);
    forall s | s in y.blocking ensures ListOk(y, s, y.blocking[s]) { ReleaseLists(x, id, key, s); }
    forall d, k | d in y.clients && k in y.clients[d].keys ensures EntryOk(y, d, k) { ReleaseEntries(x, id, key, d, k); }
    forall s ensures CountOk(y, s) { ReleaseCounts(x, id, key, s); }
  }

  // The count of a key for which a client asked is there, and is positive.
  lemma CountIsThere(x: Index, id: nat, key: string)
    requires Consistent(x) && id in x.clients && key in x.clients[id].keys && x.clients[id].onNoKey
    ensures var s := Slot(x.clients[id].db, key); s in x.noKey && x.noKey[s] > 0
  {
    var s := Slot(x.clients[id].db, key);
    var l := Waiters(x.blocking, s);
    var p := Position(x, id, key);
    assert CountOk(x, s);
    assert l == l[..p] + [l[p]] + l[p + 1..];
    AskingConcat(x.clients, l[..p] + [l[p]], l[p + 1..]);
    AskingSnoc(x.clients, l[..p], l[p]);
  }

  // ---------------------------------------------------------------------------------------------
  // Fields that the index does not look at
  // ---------------------------------------------------------------------------------------------

  // Both wait for the same; a client that waits for nothing may change its mind about missing keys.
  predicate SameWaiting(c: Client, d: Client) {
    c.keys == d.keys && (c.keys == map[] || (c.db == d.db && c.onNoKey == d.onNoKey))
  }

  lemma OtherFields(x: Index, clients: map<nat, Client>)
    requires Consistent(x) && x.clients.Keys <= clients.Keys
    requires forall id :: id in clients && id !in x.clients ==> clients[id].keys == map[]
    requires forall id :: id in x.clients ==> SameWaiting(x.clients[id], clients[id])
    ensures Consistent(x.(clients := clients))
  {
    hide CountOk, ListOk, EntryOk;
    var y := x.(clients := clients);
    forall s | s in y.blocking ensures ListOk(y, s, y.blocking[s]) { SameLists(x, clients, s); }
    forall d, k | d in y.clients && k in y.clients[d].keys ensures EntryOk(y, d, k) { assert EntryOk(x, d, k); SameEntry(x, clients, d, k); }
    forall s ensures CountOk(y, s) {
      assert CountOk(x, s);
      if s in x.blocking { SameLists(x, clients, s); }
      SameCount(x, clients, s);
    }
  }

  lemma OneChanges(x: Index, id: nat, c: Client)
    requires Consistent(x) && if id in x.clients then SameWaiting(x.clients[id], c) else c.keys == map[]
    ensures Consistent(x.(clients := x.clients[id := c]))
  {
    hide Consistent;
    OtherFields(x, x.clients[id := c]);
  }

  // A client that waits for nothing goes away.
  lemma ForgetConsistent(x: Index, id: nat)
    requires Consistent(x) && id in x.clients && x.clients[id].keys == map[]
    ensures Consistent(x.(clients := x.clients - {id}))
  {
    hide CountOk;
    var clients := x.clients - {id};
    var y := x.(clients := clients);
    forall s, i | s in x.blocking && 0 <= i < |x.blocking[s]| ensures x.blocking[s][i].id != id && Points(y, s, x.blocking[s][i]) {
      assert ListOk(x, s, x.blocking[s]) && Points(x, s, x.blocking[s][i]);
    }
    forall s | s in y.blocking ensures ListOk(y, s, y.blocking[s]) { assert ListOk(x, s, x.blocking[s]); }
    forall d, k | d in y.clients && k in y.clients[d].keys ensures EntryOk(y, d, k) { assert EntryOk(x, d, k); }
    forall s ensures CountOk(y, s) {
      assert CountOk(x, s);
      SameCount(x, clients, s);
    }
  }

  lemma SameEntry(x: Index, clients: map<nat, Client>, d: nat, k: string)
    requires d in x.clients && k in x.clients[d].keys && EntryOk(x, d, k)
    requires d in clients && clients[d].keys == x.clients[d].keys && clients[d].db == x.clients[d].db
    ensures EntryOk(x.(clients := clients), d, k)
  {}

  lemma SameLists(x: Index, clients: map<nat, Client>, s: Slot)
    requires s in x.blocking && ListOk(x, s, x.blocking[s]) && x.clients.Keys <= clients.Keys
    requires forall id :: id in x.clients ==> SameWaiting(x.clients[id], clients[id])
    ensures ListOk(x.(clients := clients), s, x.blocking[s])
    ensures forall i :: 0 <= i < |x.blocking[s]| ==> Asks(clients, x.blocking[s][i].id) == Asks(x.clients, x.blocking[s][i].id)
  {
    forall i | 0 <= i < |x.blocking[s]|
      ensures Points(x.(clients := clients), s, x.blocking[s][i])
      ensures Asks(clients, x.blocking[s][i].id) == Asks(x.clients, x.blocking[s][i].id)
    {
      assert Points(x, s, x.blocking[s][i]);
    }
  }

  lemma SameCount(x: Index, clients: map<nat, Client>, s: Slot)
    requires CountOk(x, s)
    requires forall i :: 0 <= i < |Waiters(x.blocking, s)| ==> Asks(clients, Waiters(x.blocking, s)[i].id) == Asks(x.clients, Waiters(x.blocking, s)[i].id)
    ensures CountOk(x.(clients := clients), s)
  {
    AskingFrame(x.clients, clients, Waiters(x.blocking, s));
  }

  // ---------------------------------------------------------------------------------------------
  // The lists, after entering and releasing
  // ---------------------------------------------------------------------------------------------

  lemma {:induction false} DropAbsent(l: seq<Waiter>, id: nat)
    requires forall i :: 0 <= i < |l| ==> l[i].id != id
    ensures Drop(l, id) == l
  {
    if l != [] {
      DropAbsent(l[1..], id);
    }
  }

  lemma {:induction false} DropConcat(a: seq<Waiter>, b: seq<Waiter>, id: nat)
    ensures Drop(a + b, id) == Drop(a, id) + Drop(b, id)
  {
    if a == [] {
      assert a + b == b;
    } else {
      assert (a + b)[1..] == a[1..] + b;
      DropConcat(a[1..], b, id);
    }
  }

  lemma DropHead(l: seq<Waiter>, id: nat)
    requires l != [] && l[0].id == id
    ensures Drop(l, id) == Drop(l[1..], id)
  {}

  lemma DropAt(l: seq<Waiter>, p: nat, id: nat)
    requires p < |l| && l[p].id == id && forall i :: 0 <= i < |l| && i != p ==> l[i].id != id
    ensures Drop(l, id) == l[..p] + l[p + 1..]
  {
    hide Drop;
    DropConcat(l[..p], l[p..], id);
    assert l == l[..p] + l[p..];
    DropHead(l[p..], id);
    assert l[p..][1..] == l[p + 1..];
    DropAbsent(l[..p], id);
    DropAbsent(l[p + 1..], id);
  }

  lemma DropTwice(l: seq<Waiter>, id: nat)
    ensures Drop(Drop(l, id), id) == Drop(l, id)
    decreases |l|
  {
    if l != [] {
      DropTwice(l[1..], id);
      DropConcat(if l[0].id == id then [] else [l[0]], Drop(l[1..], id), id);
    }
  }

  // A list in which a client has no entry does not hold it.
  lemma NotInList(x: Index, s: Slot, id: nat)
    requires Consistent(x) && id in x.clients && (s.db != x.clients[id].db || s.key !in x.clients[id].keys)
    ensures Drop(Waiters(x.blocking, s), id) == Waiters(x.blocking, s)
  {
    var l := Waiters(x.blocking, s);
    forall i | 0 <= i < |l| ensures l[i].id != id {
      assert ListOk(x, s, l) && Points(x, s, l[i]);
    }
    DropAbsent(l, id);
  }

  lemma ReleaseDrops(x: Index, id: nat, key: string, q: Slot)
    requires Consistent(x) && id in x.clients && key in x.clients[id].keys
    ensures var s := Slot(x.clients[id].db, key);
      Waiters(Release(x, id, key).blocking, q) ==
      if q == s then Drop(Waiters(x.blocking, q), id) else Waiters(x.blocking, q)
  {
    hide Consistent, Unlink, Drop;
    if q == Slot(x.clients[id].db, key) {
      var p := Position(x, id, key);
      DropAt(Waiters(x.blocking, q), p, id);
    }
  }

  // ---------------------------------------------------------------------------------------------
  // Counting blocked clients
  // ---------------------------------------------------------------------------------------------

  ghost function Blocked(clients: map<nat, Client>): set<nat> { set id | id in clients && clients[id].blocked }

  ghost function Counted(clients: map<nat, Client>): set<nat> {
    set id | id in clients && clients[id].blocked && !clients[id].isModule
  }

  ghost function OfType(clients: map<nat, Client>, t: BlockType): set<nat> {
    set id | id in clients && clients[id].blocked && clients[id].btype == t
  }

  // The counters of the server agree with the clients.
  ghost predicate Tallied(clients: map<nat, Client>, total: int, byType: map<BlockType, int>) {
    && total == |Counted(clients)|
    && forall t :: t in byType && byType[t] == |OfType(clients, t)|
  }

  function Unit(b: bool): nat { if b then 1 else 0 }

  lemma SizeAfter(before: set<nat>, after: set<nat>, id: nat)
    requires forall d :: d != id ==> (d in before <==> d in after)
    ensures |after| == |before| - Unit(id in before) + Unit(id in after)
  {
    if id in before && id !in after {
      assert after == before - {id};
    } else if id !in before && id in after {
      assert after == before + {id};
    } else {
      assert after == before;
    }
  }

  // Changing one client changes a count by what that client adds to it.
  lemma CountsAfter(clients: map<nat, Client>, id: nat, c: Client)
    requires id in clients
    ensures var b := clients[id];
      |Counted(clients[id := c])| == |Counted(clients)| - Unit(b.blocked && !b.isModule) + Unit(c.blocked && !c.isModule)
  {
    SizeAfter(Counted(clients), Counted(clients[id := c]), id);
  }

  lemma TypeAfter(clients: map<nat, Client>, id: nat, c: Client, t: BlockType)
    requires id in clients
    ensures var b := clients[id];
      |OfType(clients[id := c], t)| == |OfType(clients, t)| - Unit(b.blocked && b.btype == t) + Unit(c.blocked && c.btype == t)
  {
    SizeAfter(OfType(clients, t), OfType(clients[id := c], t), id);
  }

  lemma TallyBlock(clients: map<nat, Client>, total: int, byType: map<BlockType, int>, id: nat, c: Client)
    requires Tallied(clients, total, byType) && id in clients && !clients[id].blocked && c.blocked && c.isModule == clients[id].isModule
    ensures Tallied(clients[id := c], if c.isModule then total else total + 1, byType[c.btype := byType[c.btype] + 1])
  {
    hide OfType, Counted;
    CountsAfter(clients, id, c);
    forall t { TypeAfter(clients, id, c, t); }
  }

  lemma TallyUnblock(clients: map<nat, Client>, total: int, byType: map<BlockType, int>, id: nat, c: Client)
    requires Tallied(clients, total, byType) && id in clients && clients[id].blocked && !c.blocked
    ensures var b := clients[id];
      Tallied(clients[id := c], if b.isModule then total else total - 1, byType[b.btype := byType[b.btype] - 1])
  {
    hide OfType, Counted;
    CountsAfter(clients, id, c);
    forall t { TypeAfter(clients, id, c, t); }
  }

  lemma TallySame(clients: map<nat, Client>, total: int, byType: map<BlockType, int>, id: nat, c: Client)
    requires Tallied(clients, total, byType)
    requires if id in clients then c.blocked == clients[id].blocked && c.btype == clients[id].btype && c.isModule == clients[id].isModule else !c.blocked
    ensures Tallied(clients[id := c], total, byType)
  {
    var after := clients[id := c];
    assert Counted(after) == Counted(clients);
    forall t ensures OfType(after, t) == OfType(clients, t) {}
  }

  lemma TallyForget(clients: map<nat, Client>, total: int, byType: map<BlockType, int>, id: nat)
    requires Tallied(clients, total, byType) && id in clients && !clients[id].blocked
    ensures Tallied(clients - {id}, total, byType)
  {
    var after := clients - {id};
    assert Counted(after) == Counted(clients);
    forall t ensures OfType(after, t) == OfType(clients, t) {}
  }
}
