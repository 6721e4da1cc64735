// Rewriting the append only file from the dataset (aof.c): the commands for the values, and what they
// build when they are executed on empty databases.
module AofRewrite {
  import opened Basics
  import opened Resp
  import opened AofLog

  // ---------------------------------------------------------------------------------------------
  // Values
  // ---------------------------------------------------------------------------------------------

  // A score, which is a double but not NaN, by its bits, and the way it is written and read; reading what was
  // written gives it back.
  datatype Score = Score(bits: nat)

  datatype Codec = Codec(show: Score -> Bytes, read: Bytes -> Option<Score>)

  ghost predicate RoundTrips(cx: Codec) { forall s :: cx.read(cx.show(s)) == Some(s) }

  datatype Value =
    | StrV(s: Bytes)
    | ListV(items: seq<Bytes>)
    | SetV(members: set<Bytes>)
    | ZsetV(scores: map<Bytes, Score>)
    | HashV(fields: map<Bytes, Bytes>)

  datatype Entry = Entry(value: Value, expire: Option<int>)

  datatype Slot = Slot(db: nat, key: Bytes)

  type Keys = map<Slot, Entry>

  // ---------------------------------------------------------------------------------------------
  // Commands that add to an aggregate
  // ---------------------------------------------------------------------------------------------

  datatype Aggregate = ListT | SetT | ZsetT | HashT

  // The number of arguments for one item.
  function Width(t: Aggregate): nat { if t.ListT? || t.SetT? then 1 else 2 }

  predicate Is(t: Aggregate, v: Value) {
    match t
    case ListT => v.ListV?
    case SetT => v.SetV?
    case ZsetT => v.ZsetV?
    case HashT => v.HashV?
  }

  function Empty(t: Aggregate): Value {
    match t
    case ListT => ListV([])
    case SetT => SetV({})
    case ZsetT => ZsetV(map[])
    case HashT => HashV(map[])
  }

  predicate IsItem(cx: Codec, t: Aggregate, u: Argv) { |u| == Width(t) && (t.ZsetT? ==> cx.read(u[0]).Some?) }

  ghost predicate AreItems(cx: Codec, t: Aggregate, us: seq<Argv>) { forall i :: 0 <= i < |us| ==> IsItem(cx, t, us[i]) }

  function Add(cx: Codec, t: Aggregate, v: Value, u: Argv): (r: Value)
    requires Is(t, v) && IsItem(cx, t, u)
    ensures Is(t, r)
  {
    match t
    case ListT => ListV(v.items + [u[0]])
    case SetT => SetV(v.members + {u[0]})
    case ZsetT => ZsetV(v.scores[u[1] := cx.read(u[0]).value])
    case HashT => HashV(v.fields[u[0] := u[1]])
  }

  ghost function AddAll(cx: Codec, t: Aggregate, v: Value, us: seq<Argv>): (r: Value)
    requires Is(t, v) && AreItems(cx, t, us)
    ensures Is(t, r)
  {
    if us == [] then v else Add(cx, t, AddAll(cx, t, v, us[..|us| - 1]), us[|us| - 1])
  }

  lemma {:induction false} AddAllConcat(cx: Codec, t: Aggregate, v: Value, a: seq<Argv>, b: seq<Argv>)
    requires Is(t, v) && AreItems(cx, t, a) && AreItems(cx, t, b)
    ensures AreItems(cx, t, a + b) && AddAll(cx, t, v, a + b) == AddAll(cx, t, AddAll(cx, t, v, a), b)
  {
    hide Is, IsItem, Add;
    if b == [] {
      assert a + b == a;
    } else {
      assert (a + b)[..|a + b| - 1] == a + b[..|b| - 1];
      AddAllConcat(cx, t, v, a, b[..|b| - 1]);
    }
  }

  function Flatten(us: seq<Argv>): Argv { if us == [] then [] else us[0] + Flatten(us[1..]) }

  function Unflatten(args: Argv, w: nat): seq<Argv>
    requires w > 0
  {
    if |args| < w then [] else [args[..w]] + Unflatten(args[w..], w)
  }

  lemma {:induction false} FlattenUnits(us: seq<Argv>, w: nat)
    requires (w == 1 || w == 2) && forall i :: 0 <= i < |us| ==> |us[i]| == w
    ensures |Flatten(us)| == |us| * w && |Flatten(us)| % w == 0
    ensures Unflatten(Flatten(us), w) == us
  {
    if us != [] {
      FlattenUnits(us[1..], w);
      var rest := Flatten(us[1..]);
      assert Flatten(us)[..w] == us[0] && Flatten(us)[w..] == rest;
      assert us == [us[0]] + us[1..];
    }
  }

  // ---------------------------------------------------------------------------------------------
  // Executing commands on the keys
  // ---------------------------------------------------------------------------------------------

  const SET: Bytes := [83, 69, 84]
  const RPUSH: Bytes := [82, 80, 85, 83, 72]
  const SADD: Bytes := [83, 65, 68, 68]
  const ZADD: Bytes := [90, 65, 68, 68]
  const HMSET: Bytes := [72, 77, 83, 69, 84]
  const PEXPIREAT: Bytes := [80, 69, 88, 80, 73, 82, 69, 65, 84]

  function NameOf(t: Aggregate): Bytes {
    match t
    case ListT => RPUSH
    case SetT => SADD
    case ZsetT => ZADD
    case HashT => HMSET
  }

  // A number in decimal, with a sign if it is negative.
  function ShowLong(n: int): Bytes { if n < 0 then [45] + Decimal(-n) else Decimal(n) }

  function ReadLong(s: Bytes): int { StrTol(s) }

  ghost predicate HasLong(n: int) { -(LONG_MAX as int) - 1 <= n <= LONG_MAX }

  lemma ReadShown(n: int)
    requires HasLong(n)
    ensures ReadLong(ShowLong(n)) == n
  {
    var d := Decimal(if n < 0 then -n else n);
    DecimalDigits(if n < 0 then -n else n);
    DigitsThen(d, []);
    assert d + [] == d;
    if n < 0 {
      var s := [45] + d;
      assert s[0] == 45 && s[1..] == d && SkipSpace(s) == s;
    } else {
      StrTolDigits(d, []);
    }
  }

  // RPUSH, SADD, ZADD and HMSET: they make the key if it is missing, and fail on the wrong type and on
  // arguments that are not items.
  ghost function Extend(cx: Codec, keys: Keys, s: Slot, t: Aggregate, args: Argv): Keys {
    var us := Unflatten(args, Width(t));
    if args == [] || |args| % Width(t) != 0 || !AreItems(cx, t, us) then keys
    else if s !in keys then keys[s := Entry(AddAll(cx, t, Empty(t), us), None)]
    else if !Is(t, keys[s].value) then keys
    else keys[s := keys[s].(value := AddAll(cx, t, keys[s].value, us))]
  }

  ghost function Execute(cx: Codec, keys: Keys, db: nat, argv: Argv): Keys {
    if |argv| < 3 then keys
    else
      var s, args := Slot(db, argv[1]), argv[2..];
      if argv[0] == SET && |args| == 1 then keys[s := Entry(StrV(args[0]), None)]
      else if argv[0] == RPUSH then Extend(cx, keys, s, ListT, args)
      else if argv[0] == SADD then Extend(cx, keys, s, SetT, args)
      else if argv[0] == ZADD then Extend(cx, keys, s, ZsetT, args)
      else if argv[0] == HMSET then Extend(cx, keys, s, HashT, args)
      else if argv[0] == PEXPIREAT && |args| == 1 && s in keys then keys[s := keys[s].(expire := Some(ReadLong(args[0])))]
      else keys
  }

  // The commands that a client executed, each in its database.
  ghost function ExecuteAll(cx: Codec, keys: Keys, done: seq<(nat, Argv)>): Keys {
    if done == [] then keys
    else
      var last := done[|done| - 1];
      Execute(cx, ExecuteAll(cx, keys, done[..|done| - 1]), last.0, last.1)
  }

  lemma {:induction false} ExecuteConcat(cx: Codec, keys: Keys, a: seq<(nat, Argv)>, b: seq<(nat, Argv)>)
    ensures ExecuteAll(cx, keys, a + b) == ExecuteAll(cx, ExecuteAll(cx, keys, a), b)
  {
    hide Execute;
    if b == [] {
      assert a + b == a;
    } else {
      assert (a + b)[..|a + b| - 1] == a + b[..|b| - 1];
      ExecuteConcat(cx, keys, a, b[..|b| - 1]);
    }
  }

  lemma ExecuteExtend(cx: Codec, keys: Keys, db: nat, t: Aggregate, key: Bytes, us: seq<Argv>)
    requires us != [] && AreItems(cx, t, us)
    ensures var s := Slot(db, key);
      Execute(cx, keys, db, [NameOf(t), key] + Flatten(us)) ==
      if s !in keys then keys[s := Entry(AddAll(cx, t, Empty(t), us), None)]
      else if !Is(t, keys[s].value) then keys
      else keys[s := keys[s].(value := AddAll(cx, t, keys[s].value, us))]
  {
    hide AddAll, Is, Unflatten, Flatten;
    assert forall i :: 0 <= i < |us| ==> IsItem(cx, t, us[i]);
    FlattenUnits(us, Width(t));
    var argv := [NameOf(t), key] + Flatten(us);
    assert argv[2..] == Flatten(us);
    assert argv[0] == NameOf(t) && argv[1] == key;
  }

  // ---------------------------------------------------------------------------------------------
  // The dataset
  // ---------------------------------------------------------------------------------------------

  // A value as it is stored, in the order in which it is iterated.
  datatype Object =
    | StringObj(s: Bytes)
    | ListObj(items: seq<Bytes>)
    | SetObj(members: seq<Bytes>)
    | ZsetObj(scores: seq<(Bytes, Score)>)
    | HashObj(fields: seq<(Bytes, Bytes)>)

  ghost predicate Distinct<T(!new)>(s: seq<(Bytes, T)>) { forall i, j :: 0 <= i < j < |s| ==> s[i].0 != s[j].0 }

  ghost function MapOf<T(!new)>(s: seq<(Bytes, T)>): map<Bytes, T>
    requires Distinct(s)
  {
    map p | p in s :: p.0 := p.1
  }

  ghost predicate WellFormed(o: Object) {
    match o
    case ZsetObj(scores) => Distinct(scores)
    case HashObj(fields) => Distinct(fields)
    case _ => true
  }

  ghost function ValueOf(o: Object): Value
    requires WellFormed(o)
  {
    match o
    case StringObj(s) => StrV(s)
    case ListObj(items) => ListV(items)
    case SetObj(members) => SetV(set m | m in members)
    case ZsetObj(scores) => ZsetV(MapOf(scores))
    case HashObj(fields) => HashV(MapOf(fields))
  }

  function TypeOf(o: Object): Aggregate
    requires !o.StringObj?
  {
    match o
    case ListObj(_) => ListT
    case SetObj(_) => SetT
    case ZsetObj(_) => ZsetT
    case HashObj(_) => HashT
  }

  // The arguments for the items of an aggregate.
  function ItemsOf(cx: Codec, o: Object): seq<Argv>
    requires !o.StringObj?
  {
    match o
    case ListObj(items) => seq(|items|, i requires 0 <= i < |items| => [items[i]])
    case SetObj(members) => seq(|members|, i requires 0 <= i < |members| => [members[i]])
    case ZsetObj(scores) => seq(|scores|, i requires 0 <= i < |scores| => [cx.show(scores[i].1), scores[i].0])
    case HashObj(fields) => seq(|fields|, i requires 0 <= i < |fields| => [fields[i].0, fields[i].1])
  }

  predicate IsEmptyObject(o: Object) {
    match o
    case StringObj(_) => false
    case ListObj(items) => items == []
    case SetObj(members) => members == []
    case ZsetObj(scores) => scores == []
    case HashObj(fields) => fields == []
  }

  // A key of a database, and the databases of a server, in the order of iteration.
  datatype Item = Item(key: Bytes, value: Object, expire: Option<int>)

  type Db = seq<Item>

  type Server = seq<Db>

  // ---------------------------------------------------------------------------------------------
  // The commands of a rewrite
  // ---------------------------------------------------------------------------------------------

  // AOF_REWRITE_ITEMS_PER_CMD
  const ITEMS_PER_CMD: nat := 64

  function ChunkSize(n: nat): nat { if n > ITEMS_PER_CMD then ITEMS_PER_CMD else n }

  function Chunks(name: Bytes, key: Bytes, us: seq<Argv>): seq<Argv> {
    if us == [] then []
    else
      var k := ChunkSize(|us|);
      [[name, key] + Flatten(us[..k])] + Chunks(name, key, us[k..])
  }

  // Commands for a key, all with 64 items but the last, which has at most as many and not none.
  ghost predicate Filled(cs: seq<Argv>, name: Bytes, key: Bytes, w: nat) {
    forall i :: 0 <= i < |cs| ==> FilledOne(cs[i], name, key, w) && (i < |cs| - 1 ==> |cs[i]| == 2 + 64 * w)
  }

  ghost predicate FilledOne(c: Argv, name: Bytes, key: Bytes, w: nat) {
    2 + w <= |c| <= 2 + 64 * w && c[0] == name && c[1] == key
  }

  lemma {:induction false} ChunksAreSmall(name: Bytes, key: Bytes, us: seq<Argv>, w: nat)
    requires (w == 1 || w == 2) && forall i :: 0 <= i < |us| ==> |us[i]| == w
    ensures Filled(Chunks(name, key, us), name, key, w)
    decreases |us|
  {
    if us != [] {
      var k := ChunkSize(|us|);
      FlattenUnits(us[..k], w);
      ChunksAreSmall(name, key, us[k..], w);
      var cs, first, rest := Chunks(name, key, us), [name, key] + Flatten(us[..k]), Chunks(name, key, us[k..]);
      assert cs == [first] + rest && (us[k..] == [] || k == 64);
      assert us[k..] == [] ==> rest == [];
      assert FilledOne(first, name, key, w);
      forall i | 0 <= i < |cs| ensures FilledOne(cs[i], name, key, w) && (i < |cs| - 1 ==> |cs[i]| == 2 + 64 * w) {
        if i > 0 { assert cs[i] == rest[i - 1]; }
      }
    }
  }

  function ObjectCommands(cx: Codec, key: Bytes, o: Object): seq<Argv> {
    if o.StringObj? then [[SET, key, o.s]] else Chunks(NameOf(TypeOf(o)), key, ItemsOf(cx, o))
  }

  function ExpireCommands(key: Bytes, expire: Option<int>): seq<Argv> {
    if expire.Some? then [[PEXPIREAT, key, ShowLong(expire.value)]] else []
  }

  function ItemCommands(cx: Codec, item: Item): seq<Argv> {
    ObjectCommands(cx, item.key, item.value) + ExpireCommands(item.key, item.expire)
  }

  function ItemsCommands(cx: Codec, db: Db): seq<Argv> {
    if db == [] then [] else ItemsCommands(cx, db[..|db| - 1]) + ItemCommands(cx, db[|db| - 1])
  }

  function DbCommands(cx: Codec, j: nat, db: Db): seq<Argv> {
    if db == [] then [] else [SelectArgv(j)] + ItemsCommands(cx, db)
  }

  function ServerCommands(cx: Codec, server: Server): seq<Argv> {
    if server == [] then []
    else ServerCommands(cx, server[..|server| - 1]) + DbCommands(cx, |server| - 1, server[|server| - 1])
  }

  // ---------------------------------------------------------------------------------------------
  // Building one value
  // ---------------------------------------------------------------------------------------------

  function Tag(j: nat, cs: seq<Argv>): seq<(nat, Argv)> { seq(|cs|, i requires 0 <= i < |cs| => (j, cs[i])) }

  lemma TagConcat(j: nat, a: seq<Argv>, b: seq<Argv>)
    ensures Tag(j, a + b) == Tag(j, a) + Tag(j, b)
  {}

  // Items added to a key, one command after the other.
  ghost function Grown(cx: Codec, keys: Keys, s: Slot, t: Aggregate, us: seq<Argv>): Keys
    requires AreItems(cx, t, us) && (s in keys ==> Is(t, keys[s].value))
  {
    if us == [] then keys
    else if s !in keys then keys[s := Entry(AddAll(cx, t, Empty(t), us), None)]
    else keys[s := keys[s].(value := AddAll(cx, t, keys[s].value, us))]
  }

  lemma GrownTwice(cx: Codec, keys: Keys, s: Slot, t: Aggregate, a: seq<Argv>, b: seq<Argv>)
    requires AreItems(cx, t, a) && AreItems(cx, t, b) && (s in keys ==> Is(t, keys[s].value))
    ensures AreItems(cx, t, a + b)
    ensures var mid := Grown(cx, keys, s, t, a);
      (s in mid ==> Is(t, mid[s].value)) && Grown(cx, mid, s, t, b) == Grown(cx, keys, s, t, a + b)
  {
    hide AddAll, Is, AreItems;
    var v := if s in keys then keys[s].value else Empty(t);
    EmptyIs(t);
    AddAllConcat(cx, t, v, a, b);
    if a == [] {
      assert a + b == b;
    } else if b == [] {
      assert a + b == a;
    }
  }

  lemma EmptyIs(t: Aggregate)
    ensures Is(t, Empty(t))
  {}

  lemma SplitItems(cx: Codec, t: Aggregate, us: seq<Argv>, k: nat)
    requires AreItems(cx, t, us) && k <= |us|
    ensures AreItems(cx, t, us[..k]) && AreItems(cx, t, us[k..]) && us[..k] + us[k..] == us
  {}

  lemma {:induction false} ChunksBuild(cx: Codec, keys: Keys, j: nat, t: Aggregate, key: Bytes, us: seq<Argv>)
    requires AreItems(cx, t, us) && (Slot(j, key) in keys ==> Is(t, keys[Slot(j, key)].value))
    ensures ExecuteAll(cx, keys, Tag(j, Chunks(NameOf(t), key, us))) == Grown(cx, keys, Slot(j, key), t, us)
    decreases |us|
  {
    hide AddAll, Is, AreItems, Execute, NameOf;
    var s, cs := Slot(j, key), Chunks(NameOf(t), key, us);
    if us != [] {
      var k := ChunkSize(|us|);
      SplitItems(cx, t, us, k);
      var first := [NameOf(t), key] + Flatten(us[..k]);
      var rest := Chunks(NameOf(t), key, us[k..]);
      var mid := Grown(cx, keys, s, t, us[..k]);
      ExecuteExtend(cx, keys, j, t, key, us[..k]);
      assert mid == Execute(cx, keys, j, first);
      GrownTwice(cx, keys, s, t, us[..k], us[k..]);
      ChunksBuild(cx, mid, j, t, key, us[k..]);
      TagConcat(j, [first], rest);
      ExecuteConcat(cx, keys, Tag(j, [first]), Tag(j, rest));
      ExecuteOne(cx, keys, j, first);
    }
  }

  lemma ExecuteOne(cx: Codec, keys: Keys, j: nat, argv: Argv)
    ensures ExecuteAll(cx, keys, Tag(j, [argv])) == Execute(cx, keys, j, argv)
  {
    assert Tag(j, [argv]) == [(j, argv)];
    assert Tag(j, [argv])[..0] == [];
  }

  // Adding the items of a value to an empty one gives the value.
  lemma {:induction false} ListBuilds(cx: Codec, items: seq<Bytes>)
    ensures var o := ListObj(items); AreItems(cx, ListT, ItemsOf(cx, o)) && AddAll(cx, ListT, Empty(ListT), ItemsOf(cx, o)) == ListV(items)
  {
    if items != [] {
      var init := items[..|items| - 1];
      ListBuilds(cx, init);
      assert ItemsOf(cx, ListObj(items))[..|items| - 1] == ItemsOf(cx, ListObj(init));
      assert init + [items[|items| - 1]] == items;
    }
  }

  lemma {:induction false} SetBuilds(cx: Codec, members: seq<Bytes>)
    ensures var o := SetObj(members);
      AreItems(cx, SetT, ItemsOf(cx, o)) && AddAll(cx, SetT, Empty(SetT), ItemsOf(cx, o)) == SetV(set m | m in members)
  {
    if members != [] {
      var init, last := members[..|members| - 1], members[|members| - 1];
      SetBuilds(cx, init);
      assert ItemsOf(cx, SetObj(members))[..|members| - 1] == ItemsOf(cx, SetObj(init));
      assert members == init + [last];
      assert (set m | m in members) == (set m | m in init) + {last};
    }
  }

  lemma NothingToMap<T(!new)>()
    ensures Distinct<T>([]) && MapOf<T>([]) == map[]
  {}

  lemma {:induction false} HashBuilds(cx: Codec, fields: seq<(Bytes, Bytes)>)
    requires Distinct(fields)
    ensures var o := HashObj(fields);
      AreItems(cx, HashT, ItemsOf(cx, o)) && AddAll(cx, HashT, Empty(HashT), ItemsOf(cx, o)) == HashV(MapOf(fields))
  {
    hide MapOf, Distinct;
    if fields == [] {
      NothingToMap<Bytes>();
    } else {
      var init, last := fields[..|fields| - 1], fields[|fields| - 1];
      assert fields == init + [last];
      MapSnoc(init, last);
      HashBuilds(cx, init);
      assert ItemsOf(cx, HashObj(fields))[..|fields| - 1] == ItemsOf(cx, HashObj(init));
    }
  }

  lemma {:induction false} ZsetBuilds(cx: Codec, scores: seq<(Bytes, Score)>)
    requires RoundTrips(cx) && Distinct(scores)
    ensures var o := ZsetObj(scores);
      AreItems(cx, ZsetT, ItemsOf(cx, o)) && AddAll(cx, ZsetT, Empty(ZsetT), ItemsOf(cx, o)) == ZsetV(MapOf(scores))
  {
    hide MapOf, Distinct;
    if scores == [] {
      NothingToMap<Score>();
    } else {
      var init, last := scores[..|scores| - 1], scores[|scores| - 1];
      assert scores == init + [last];
      MapSnoc(init, last);
      ZsetBuilds(cx, init);
      assert ItemsOf(cx, ZsetObj(scores))[..|scores| - 1] == ItemsOf(cx, ZsetObj(init));
    }
  }

  lemma MapSnoc<T(!new)>(s: seq<(Bytes, T)>, last: (Bytes, T))
    requires Distinct(s + [last])
    ensures Distinct(s)
    ensures MapOf(s + [last]) == MapOf(s)[last.0 := last.1]
  {
    var all := s + [last];
    forall i, j | 0 <= i < j < |s| ensures s[i].0 != s[j].0 { assert all[i] == s[i] && all[j] == s[j]; }
    forall p | p in s ensures p.0 != last.0 {
      var i :| 0 <= i < |s| && s[i] == p;
      assert all[i] == p && all[|s|] == last;
    }
    assert last in all;
    assert forall p :: p in all <==> p in s || p == last;
  }

  lemma ObjectBuilds(cx: Codec, o: Object)
    requires RoundTrips(cx) && WellFormed(o) && !o.StringObj?
    ensures AreItems(cx, TypeOf(o), ItemsOf(cx, o)) && AddAll(cx, TypeOf(o), Empty(TypeOf(o)), ItemsOf(cx, o)) == ValueOf(o)
    ensures IsEmptyObject(o) <==> ItemsOf(cx, o) == []
  {
    hide AddAll, AreItems, RoundTrips, MapOf, Distinct;
    match o {
      case ListObj(items) => ListBuilds(cx, items);
      case SetObj(members) => SetBuilds(cx, members);
      case ZsetObj(scores) => ZsetBuilds(cx, scores);
      case HashObj(fields) => HashBuilds(cx, fields);
    }
  }
}
