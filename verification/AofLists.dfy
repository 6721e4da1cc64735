// The manifest operations of aof.c that walk and edit the linked lists of the manifest.
module AofLists {
  import opened AdList
  import opened AofManifest

  lemma SnocSplit<T>(rest: seq<T>, init: seq<T>, x: T, after: seq<T>)
    requires rest != [] && init == rest[..|rest| - 1] && x == rest[|rest| - 1]
    ensures rest + after == init + [x] + after
    ensures init + ([x] + after) == rest + after
  {}

  // A copy of the entry goes to the front of HISTORY, and the node leaves INCR.
  method MoveToHistory(incr: List<AofInfo>, history: List<AofInfo>, ln: Node<AofInfo>,
      ghost init: seq<Node<AofInfo>>, ghost kept: seq<Node<AofInfo>>)
    requires incr != history && incr.Valid() && history.Valid() && Apart(incr.nodes, history.nodes)
    requires incr.nodes == init + [ln] + kept
    modifies incr, history, (if history.nodes == [] then {} else {history.nodes[0]}), ln, (if init == [] then {} else {Last(init)}), (if kept == [] then {} else {kept[0]})
    ensures incr.Valid() && history.Valid() && Apart(incr.nodes, history.nodes)
    ensures incr.nodes == init + kept
    ensures |history.nodes| == |old(history.nodes)| + 1 && history.nodes[1..] == old(history.nodes) && fresh(history.nodes[0])
    ensures history.Values() == [AsHistory(ln.value)] + old(history.Values())
  {
    hide Chain, ValuesOf;
    assert history.nodes != [] ==> history.nodes[0] in history.nodes && history.nodes[0] !in incr.nodes;
    assert ln == incr.nodes[|init|];
    assert init != [] ==> Last(init) == incr.nodes[|init| - 1];
    assert kept != [] ==> kept[0] == incr.nodes[|init| + 1];
    history.AddNodeHead(AsHistory(ln.value));
    assert history.nodes == [history.nodes[0]] + old(history.nodes);
    assert Apart(incr.nodes, history.nodes);
    assert ln in incr.nodes && (init != [] ==> Last(init) in incr.nodes) && (kept != [] ==> kept[0] in incr.nodes);
    incr.DelNode(ln, init, kept);
  }

  // The body of the loop.
  method MoveNext(incr: List<AofInfo>, history: List<AofInfo>, li: Iter<AofInfo>,
      ghost rest: seq<Node<AofInfo>>, ghost kept: seq<Node<AofInfo>>)
    requires incr != history && incr.Valid() && history.Valid() && Apart(incr.nodes, history.nodes)
    requires rest != [] && incr.nodes == rest + kept && li.direction == FromTail && li.next == Last(rest)
    modifies li, incr, history, (if history.nodes == [] then {} else {history.nodes[0]}), Last(rest),
      (if |rest| == 1 then {} else {rest[|rest| - 2]}), (if kept == [] then {} else {kept[0]})
    ensures incr.Valid() && history.Valid() && Apart(incr.nodes, history.nodes)
    ensures incr.nodes == rest[..|rest| - 1] + kept
    ensures li.direction == FromTail && li.next == LastOf(rest[..|rest| - 1])
    ensures |history.nodes| == |old(history.nodes)| + 1 && history.nodes[1..] == old(history.nodes) && fresh(history.nodes[0])
    ensures history.Values() == [AsHistory(Last(rest).value)] + old(history.Values())
  {
    hide Chain, ValuesOf;
    ghost var init := rest[..|rest| - 1];
    SnocSplit(rest, init, Last(rest), kept);
    SplitAt(null, init, Last(rest), kept, null);
    var ln := li.Next();
    assert ln == incr.nodes[|init|];
    assert init != [] ==> Last(init) == incr.nodes[|init| - 1];
    assert kept != [] ==> kept[0] == incr.nodes[|init| + 1];
    MoveToHistory(incr, history, ln, init, kept);
  }

  // markRewrittenIncrAofAsHistory: walks the INCR list from its tail, skipping the file that is
  // being written, and moves each node it meets to the front of the HISTORY list.
  method MarkRewrittenIncrAofAsHistory(incr: List<AofInfo>, history: List<AofInfo>, fdOpen: bool)
    requires incr != history && incr.Valid() && history.Valid() && Apart(incr.nodes, history.nodes)
    modifies incr, history, incr.nodes, history.nodes
    ensures incr.Valid() && history.Valid()
    ensures var am := WithIncrAsHistory(EmptyManifest.(incr := old(incr.Values()), history := old(history.Values())), fdOpen);
      incr.Values() == am.incr && history.Values() == am.history
  {
    hide Chain, ValuesOf, AllAsHistory, WithIncrAsHistory;
    NoneMoved(history.Values());
    Marked(incr.nodes, history.Values(), fdOpen);
    if incr.len == 0 {
      assert incr.nodes[0..] == [] && incr.nodes[..0] == [];
      return;
    }
    ghost var all := incr.nodes;
    ghost var keep := if fdOpen then |all| - 1 else |all|;
    var li := new Iter(incr, FromTail);
    if fdOpen {
      assert all == all[..keep] + [Last(all)] + [];
      SplitAt(null, all[..keep], Last(all), [], null);
      var last := li.Next();
    }
    MoveRest(incr, history, li, all[..keep], all[keep..]);
  }

  lemma Marked(all: seq<Node<AofInfo>>, history: seq<AofInfo>, fdOpen: bool)
    ensures var am := WithIncrAsHistory(EmptyManifest.(incr := ValuesOf(all), history := history), fdOpen);
      var keep := if fdOpen && all != [] then |all| - 1 else |all|;
      am.incr == ValuesOf(all[keep..]) && am.history == AllAsHistory(ValuesOf(all[..keep])) + history
  {
    var keep := if fdOpen && all != [] then |all| - 1 else |all|;
    assert ValuesOf(all)[keep..] == ValuesOf(all[keep..]);
    assert ValuesOf(all)[..keep] == ValuesOf(all[..keep]);
  }

  // The loop, which runs until the iterator has passed the head.
  method MoveRest(incr: List<AofInfo>, history: List<AofInfo>, li: Iter<AofInfo>,
      ghost toMove: seq<Node<AofInfo>>, ghost kept: seq<Node<AofInfo>>)
    requires incr != history && incr.Valid() && history.Valid() && Apart(incr.nodes, history.nodes)
    requires incr.nodes == toMove + kept && li.direction == FromTail && li.next == LastOf(toMove)
    modifies li, incr, history, incr.nodes, history.nodes
    ensures incr.Valid() && history.Valid()
    ensures incr.nodes == kept
    ensures history.Values() == AllAsHistory(ValuesOf(toMove)) + old(history.Values())
  {
    hide Chain, ValuesOf, AllAsHistory;
    NoneMoved(history.Values());
    ghost var rest := toMove;
    ghost var moved: seq<Node<AofInfo>> := [];
    assert rest + moved == toMove;
    while li.next != null
      invariant li.direction == FromTail && li.next == LastOf(rest)
      invariant incr.Valid() && history.Valid() && Apart(incr.nodes, history.nodes)
      invariant incr.nodes == rest + kept && rest + moved == toMove
      invariant history.Values() == AllAsHistory(ValuesOf(moved)) + old(history.Values())
      invariant history.nodes == old(history.nodes) || (history.nodes != [] && fresh(history.nodes[0]))
      decreases |rest|
    {
      SnocSplit(rest, rest[..|rest| - 1], Last(rest), kept);
      SnocSplit(rest, rest[..|rest| - 1], Last(rest), moved);
      ConsMoved(Last(rest), moved);
      assert Last(rest) == old(incr.nodes)[|rest| - 1];
      assert |rest| > 1 ==> rest[|rest| - 2] == old(incr.nodes)[|rest| - 2];
      assert kept != [] ==> kept[0] == old(incr.nodes)[|toMove|];
      MoveNext(incr, history, li, rest, kept);
      moved := [Last(rest)] + moved;
      rest := rest[..|rest| - 1];
    }
    assert [] + kept == kept;
    assert [] + moved == moved;
  }

  lemma ConsMoved(ln: Node<AofInfo>, moved: seq<Node<AofInfo>>)
    ensures AllAsHistory(ValuesOf([ln] + moved)) == [AsHistory(ln.value)] + AllAsHistory(ValuesOf(moved))
  {
    assert ValuesOf([ln] + moved) == [ln.value] + ValuesOf(moved);
  }

  lemma NoneMoved(history: seq<AofInfo>)
    ensures AllAsHistory(ValuesOf([])) == []
    ensures [] + history == history
  {}
}
