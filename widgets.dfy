/**
 * Enumerating the containers and terminals beneath a widget.
 *
 * The widget tree is a value: a split container owns its children, a
 * terminal is a leaf, and any other widget is a node the walk does not
 * descend into (it is only looked through when it is the starting widget).
 */
module Widgets {
  import opened Wrappers

  datatype Node =
    | Container(children: seq<Node>)
    | Terminal(id: nat)
    | Other(children: seq<Node>)

  /** What `get_children` returns for a widget. */
  function Children(n: Node): seq<Node>
  {
    if n.Terminal? then [] else n.children
  }

  /** The pair (containers, terminals) the walk builds up. */
  type Collected = (seq<Node>, seq<Node>)

  function Join(a: Collected, b: Collected): Collected
  {
    (a.0 + b.0, a.1 + b.1)
  }

  // ---------------------------------------------------------------------
  // Sizes, for termination of the work-list loop
  // ---------------------------------------------------------------------

  function Size(n: Node): nat
    decreases n
  {
    match n
    case Terminal(_) => 1
    case Container(cs) => 1 + TotalSize(cs)
    case Other(cs) => 1 + TotalSize(cs)
  }

  function TotalSize(s: seq<Node>): nat
    decreases s
  {
    if s == [] then 0 else Size(s[0]) + TotalSize(s[1..])
  }

  lemma {:induction false} TotalSizeConcat(a: seq<Node>, b: seq<Node>)
    ensures TotalSize(a + b) == TotalSize(a) + TotalSize(b)
  {
    if a != [] {
      assert (a + b)[0] == a[0];
      assert (a + b)[1..] == a[1..] + b;
      TotalSizeConcat(a[1..], b);
    } else {
      assert a + b == b;
    }
  }

  lemma TotalSizeSnoc(s: seq<Node>, x: Node)
    ensures TotalSize(s + [x]) == TotalSize(s) + Size(x)
  {
    TotalSizeConcat(s, [x]);
    assert [x][1..] == [];
  }

  // ---------------------------------------------------------------------
  // Sorting children by kind, in order
  // ---------------------------------------------------------------------

  function ContainersOf(s: seq<Node>): (r: seq<Node>)
    ensures forall i :: 0 <= i < |r| ==> r[i].Container?
  {
    if s == [] then []
    else ContainersOf(s[..|s| - 1]) + (if s[|s| - 1].Container? then [s[|s| - 1]] else [])
  }

  function TerminalsOf(s: seq<Node>): (r: seq<Node>)
    ensures forall i :: 0 <= i < |r| ==> r[i].Terminal?
  {
    if s == [] then []
    else TerminalsOf(s[..|s| - 1]) + (if s[|s| - 1].Terminal? then [s[|s| - 1]] else [])
  }

  lemma {:induction false} ContainersOfSmaller(s: seq<Node>)
    ensures TotalSize(ContainersOf(s)) <= TotalSize(s)
  {
    if s != [] {
      var init, last := s[..|s| - 1], s[|s| - 1];
      assert s == init + [last];
      ContainersOfSmaller(init);
      TotalSizeSnoc(init, last);
      if last.Container? {
        assert ContainersOf(s) == ContainersOf(init) + [last];
        TotalSizeSnoc(ContainersOf(init), last);
      } else {
        assert ContainersOf(s) == ContainersOf(init);
      }
    }
  }

  /** Popping a widget and queueing its container children shrinks the work. */
  lemma DrainStepDecreases(queue: seq<Node>)
    requires queue != []
    ensures TotalSize(queue[1..] + ContainersOf(Children(queue[0]))) < TotalSize(queue)
  {
    TotalSizeConcat(queue[1..], ContainersOf(Children(queue[0])));
    ContainersOfSmaller(Children(queue[0]));
  }

  // ---------------------------------------------------------------------
  // The walk, in the order the Python code performs it
  // ---------------------------------------------------------------------

  /**
   * Drains a FIFO work list: each popped container has its terminal
   * children collected and its container children queued, and is then
   * collected itself.
   */
  function Drain(queue: seq<Node>): Collected
    decreases TotalSize(queue)
  {
    if queue == [] then ([], [])
    else
      var child := queue[0];
      var kids := Children(child);
      DrainStepDecreases(queue);
      var rest := Drain(queue[1..] + ContainersOf(kids));
      ([child] + rest.0, TerminalsOf(kids) + rest.1)
  }

  lemma DrainStep(queue: seq<Node>)
    requires queue != []
    ensures var kids := Children(queue[0]);
      var rest := Drain(queue[1..] + ContainersOf(kids));
      Drain(queue) == ([queue[0]] + rest.0, TerminalsOf(kids) + rest.1)
  {
  }

  /**
   * One round of the outer loop: a terminal child is collected; a container
   * child is queued and its whole subtree drained before the next child is
   * looked at; any other child is dropped.
   */
  function Step(d: Node): Collected
  {
    var drained := Drain(if d.Container? then [d] else []);
    (drained.0, (if d.Terminal? then [d] else []) + drained.1)
  }

  /** The outer loop over the starting widget's children, one Step each. */
  function Walk(kids: seq<Node>): Collected
  {
    if kids == [] then ([], [])
    else Join(Walk(kids[..|kids| - 1]), Step(kids[|kids| - 1]))
  }

  lemma WalkSnoc(kids: seq<Node>, i: nat)
    requires i < |kids|
    ensures Walk(kids[..i + 1]) == Join(Walk(kids[..i]), Step(kids[i]))
  {
    assert kids[..i + 1][..i] == kids[..i];
  }

  /**
   * The inner `for` over a popped container's children: container children
   * join the work list, terminal children join the terminals, others are
   * dropped.
   */
  method SortChildren(kids: seq<Node>, queue: seq<Node>, terminals: seq<Node>)
    returns (queue': seq<Node>, terminals': seq<Node>)
    ensures queue' == queue + ContainersOf(kids)
    ensures terminals' == terminals + TerminalsOf(kids)
  {
    queue', terminals' := queue, terminals;
    for j := 0 to |kids|
      invariant queue' == queue + ContainersOf(kids[..j])
      invariant terminals' == terminals + TerminalsOf(kids[..j])
    {
      assert kids[..j + 1][..j] == kids[..j];
      var descendant := kids[j];
      if descendant.Container? {
        queue' := queue' + [descendant];
      } else if descendant.Terminal? {
        terminals' := terminals' + [descendant];
      }
    }
    assert kids[..|kids|] == kids;
  }

  /** One round of the `while` keeps what is collected plus what is still to drain. */
  lemma DrainLoopStep(queue: seq<Node>, containers: seq<Node>, terminals: seq<Node>)
    requires queue != []
    ensures var kids := Children(queue[0]);
      var rest := Drain(queue[1..] + ContainersOf(kids));
      && (containers + [queue[0]]) + rest.0 == containers + Drain(queue).0
      && (terminals + TerminalsOf(kids)) + rest.1 == terminals + Drain(queue).1
  {
    DrainStep(queue);
    var kids := Children(queue[0]);
    var rest := Drain(queue[1..] + ContainersOf(kids));
    AppendAssoc(containers, [queue[0]], rest.0);
    AppendAssoc(terminals, TerminalsOf(kids), rest.1);
  }

  lemma AppendAssoc(a: seq<Node>, b: seq<Node>, c: seq<Node>)
    ensures (a + b) + c == a + (b + c)
  {
  }

  /**
   * The `while` that drains the work list: pop the front container, sort its
   * children, then collect the container itself.
   */
  method DrainQueue(queue: seq<Node>, containers: seq<Node>, terminals: seq<Node>)
    returns (queue': seq<Node>, containers': seq<Node>, terminals': seq<Node>)
    ensures queue' == []
    ensures containers' == containers + Drain(queue).0
    ensures terminals' == terminals + Drain(queue).1
  {
    queue', containers', terminals' := queue, containers, terminals;
    while queue' != []
      invariant containers' + Drain(queue').0 == containers + Drain(queue).0
      invariant terminals' + Drain(queue').1 == terminals + Drain(queue).1
      decreases TotalSize(queue')
    {
      ghost var before := queue';
      var child := queue'[0];
      DrainLoopStep(before, containers', terminals');
      DrainStepDecreases(before);
      queue', terminals' := SortChildren(Children(child), queue'[1..], terminals');
      containers' := containers' + [child];
    }
  }

  /**
   * The body of the outer `for`: classify one child of the starting widget
   * and, the work list being empty, drain whatever it queued.
   */
  method VisitChild(descendant: Node, containers: seq<Node>, terminals: seq<Node>)
    returns (containers': seq<Node>, terminals': seq<Node>)
    ensures (containers', terminals') == Join((containers, terminals), Step(descendant))
  {
    var containersTmp: seq<Node> := [];
    terminals' := terminals;
    if descendant.Container? {
      containersTmp := containersTmp + [descendant];
    } else if descendant.Terminal? {
      terminals' := terminals' + [descendant];
    }
    ghost var found := if descendant.Terminal? then [descendant] else [];
    assert containersTmp == if descendant.Container? then [descendant] else [];
    assert terminals' == terminals + found;
    ghost var drained := Drain(containersTmp);
    assert Step(descendant) == (drained.0, found + drained.1);
    containersTmp, containers', terminals' := DrainQueue(containersTmp, containers, terminals');
    assert terminals' == terminals + (found + drained.1);
  }

  /**
   * enumerate_descendants: no result for a missing parent; otherwise the
   * containers and terminals beneath it, in exactly the order the nested
   * loops visit them.
   */
  method EnumerateDescendants(parent: Option<Node>) returns (result: Option<Collected>)
    ensures parent.None? <==> result.None?
    ensures parent.Some? ==> result.value == Walk(Children(parent.value))
  {
    var containers: seq<Node> := [];
    var terminals: seq<Node> := [];
    if parent.None? {
      return None;
    }
    var kids := Children(parent.value);
    for i := 0 to |kids|
      invariant (containers, terminals) == Walk(kids[..i])
    {
      WalkSnoc(kids, i);
      containers, terminals := VisitChild(kids[i], containers, terminals);
    }
    assert kids[..|kids|] == kids;
    result := Some((containers, terminals));
  }

  // ---------------------------------------------------------------------
  // Reference: the descendants the walk must find
  // ---------------------------------------------------------------------

  /**
   * The nodes of a subtree that the walk reaches, depth first: a container
   * and everything reached below it, a terminal, and nothing for any other
   * widget. A widget of another kind is neither queued nor collected, so
   * nothing below it is reached either.
   */
  function Reached(n: Node): seq<Node>
    decreases n
  {
    match n
    case Container(cs) => [n] + ReachedAll(cs)
    case Terminal(_) => [n]
    case Other(_) => []
  }

  function ReachedAll(s: seq<Node>): seq<Node>
    decreases s
  {
    if s == [] then [] else Reached(s[0]) + ReachedAll(s[1..])
  }

  /**
   * The container and terminal descendants of a widget that are reached
   * through containers alone, the widget itself excluded.
   */
  function ReachedDescendants(parent: Node): seq<Node>
  {
    ReachedAll(Children(parent))
  }

  predicate AllContainers(s: seq<Node>)
  {
    forall i :: 0 <= i < |s| ==> s[i].Container?
  }

  predicate AllTerminals(s: seq<Node>)
  {
    forall i :: 0 <= i < |s| ==> s[i].Terminal?
  }

  lemma {:induction false} ReachedAllConcat(a: seq<Node>, b: seq<Node>)
    ensures ReachedAll(a + b) == ReachedAll(a) + ReachedAll(b)
  {
    if a != [] {
      assert (a + b)[0] == a[0];
      assert (a + b)[1..] == a[1..] + b;
      ReachedAllConcat(a[1..], b);
    } else {
      assert a + b == b;
    }
  }

  lemma ReachedAllSingle(n: Node)
    ensures ReachedAll([n]) == Reached(n)
  {
    assert [n][1..] == [];
  }

  /** Below a list of siblings: its terminals, and what is reached below its containers. */
  lemma {:induction false} ReachedAllSplit(s: seq<Node>)
    ensures multiset(ReachedAll(s)) == multiset(TerminalsOf(s)) + multiset(ReachedAll(ContainersOf(s)))
  {
    if s != [] {
      var init, last := s[..|s| - 1], s[|s| - 1];
      assert s == init + [last];
      ReachedAllSplit(init);
      ReachedAllConcat(init, [last]);
      ReachedAllSingle(last);
      var cs := if last.Container? then [last] else [];
      var ts := if last.Terminal? then [last] else [];
      assert ContainersOf(s) == ContainersOf(init) + cs;
      assert TerminalsOf(s) == TerminalsOf(init) + ts;
      ReachedAllConcat(ContainersOf(init), cs);
      if last.Container? {
        assert ReachedAll(cs) == Reached(last);
      } else {
        assert ReachedAll(cs) == [];
        assert Reached(last) == ts;
      }
    }
  }

  lemma {:induction false} DrainKinds(queue: seq<Node>)
    requires AllContainers(queue)
    ensures AllContainers(Drain(queue).0) && AllTerminals(Drain(queue).1)
    decreases TotalSize(queue)
  {
    if queue != [] {
      var next := queue[1..] + ContainersOf(Children(queue[0]));
      DrainStepDecreases(queue);
      DrainKinds(next);
    }
  }

  lemma {:induction false} DrainPartition(queue: seq<Node>)
    requires AllContainers(queue)
    ensures multiset(Drain(queue).0) + multiset(Drain(queue).1) == multiset(ReachedAll(queue))
    decreases TotalSize(queue)
  {
    if queue != [] {
      var child := queue[0];
      var kids := Children(child);
      var next := queue[1..] + ContainersOf(kids);
      DrainStepDecreases(queue);
      DrainPartition(next);
      var rest := Drain(next);
      assert Drain(queue) == ([child] + rest.0, TerminalsOf(kids) + rest.1);
      ReachedAllConcat(queue[1..], ContainersOf(kids));
      ReachedAllSplit(kids);
      assert ReachedAll(queue) == Reached(child) + ReachedAll(queue[1..]);
      assert Reached(child) == [child] + ReachedAll(kids);
    }
  }

  lemma StepPartition(d: Node)
    ensures AllContainers(Step(d).0) && AllTerminals(Step(d).1)
    ensures multiset(Step(d).0) + multiset(Step(d).1) == multiset(Reached(d))
  {
    var queued := if d.Container? then [d] else [];
    DrainKinds(queued);
    DrainPartition(queued);
    if d.Container? {
      ReachedAllSingle(d);
    } else {
      assert Drain([]) == ([], []);
    }
  }

  lemma JoinCounts(a: Collected, b: Collected)
    ensures multiset(Join(a, b).0) + multiset(Join(a, b).1)
         == (multiset(a.0) + multiset(a.1)) + (multiset(b.0) + multiset(b.1))
  {
  }

  lemma ReachedAllSnoc(s: seq<Node>)
    requires s != []
    ensures ReachedAll(s) == ReachedAll(s[..|s| - 1]) + Reached(s[|s| - 1])
  {
    assert s == s[..|s| - 1] + [s[|s| - 1]];
    ReachedAllConcat(s[..|s| - 1], [s[|s| - 1]]);
    ReachedAllSingle(s[|s| - 1]);
  }

  lemma {:induction false} WalkKinds(kids: seq<Node>)
    ensures AllContainers(Walk(kids).0) && AllTerminals(Walk(kids).1)
  {
    if kids != [] {
      WalkKinds(kids[..|kids| - 1]);
      StepPartition(kids[|kids| - 1]);
    }
  }

  lemma {:induction false} WalkPartition(kids: seq<Node>)
    ensures multiset(Walk(kids).0) + multiset(Walk(kids).1) == multiset(ReachedAll(kids))
  {
    if kids != [] {
      var init, last := kids[..|kids| - 1], kids[|kids| - 1];
      WalkPartition(init);
      StepPartition(last);
      ReachedAllSnoc(kids);
      JoinCounts(Walk(init), Step(last));
    }
  }

  /**
   * enumerate_descendants sorts the reached descendants of a widget: every
   * container reached through containers appears in the first list as often
   * as it is reached, every such terminal likewise in the second, nothing
   * else appears, and the two lists together are exactly as long as the
   * reached descendants.
   */
  lemma WalkCollectsEachOnce(parent: Node)
    ensures var (cs, ts) := Walk(Children(parent));
      && AllContainers(cs) && AllTerminals(ts)
      && (forall n: Node :: n.Container? ==> multiset(cs)[n] == multiset(ReachedDescendants(parent))[n])
      && (forall n: Node :: n.Terminal? ==> multiset(ts)[n] == multiset(ReachedDescendants(parent))[n])
      && |cs| + |ts| == |ReachedDescendants(parent)|
  {
    var (cs, ts) := Walk(Children(parent));
    WalkKinds(Children(parent));
    WalkPartition(Children(parent));
    assert |multiset(cs) + multiset(ts)| == |multiset(ReachedDescendants(parent))|;
    forall n: Node | n.Container? ensures multiset(cs)[n] == multiset(ReachedDescendants(parent))[n] {
      assert n !in ts;
    }
    forall n: Node | n.Terminal? ensures multiset(ts)[n] == multiset(ReachedDescendants(parent))[n] {
      assert n !in cs;
    }
  }

  lemma {:induction false} ReachedAllSmaller(s: seq<Node>)
    ensures forall x :: x in ReachedAll(s) ==> Size(x) <= TotalSize(s)
  {
    if s != [] {
      var n := s[0];
      ReachedAllSmaller(s[1..]);
      assert ReachedAll(s) == Reached(n) + ReachedAll(s[1..]);
      if n.Container? {
        ReachedAllSmaller(n.children);
        assert Reached(n) == [n] + ReachedAll(n.children);
      }
    }
  }

  /**
   * A direct child of any other kind adds nothing to the walk, whatever lies
   * below it: it is neither queued nor collected, so containers and
   * terminals underneath it are never reached.
   */
  lemma OtherChildIgnored(kids: seq<Node>, below: seq<Node>)
    ensures Walk(kids + [Other(below)]) == Walk(kids)
    ensures ReachedAll(kids + [Other(below)]) == ReachedAll(kids)
  {
    var k := kids + [Other(below)];
    assert k[..|k| - 1] == kids;
    var none: seq<Node> := [];
    assert Drain(none) == (none, none);
    var st := Step(Other(below));
    assert st.0 == none;
    assert st.1 == none + Drain(none).1 == none;
    var w := Walk(kids);
    assert w.0 + none == w.0 && w.1 + none == w.1;
    ReachedAllSnoc(k);
  }

  /**
   * The starting widget is never among its own reached descendants, so
   * neither list the walk returns holds it.
   */
  lemma RootNotCollected(parent: Node)
    ensures parent !in ReachedDescendants(parent)
    ensures parent !in Walk(Children(parent)).0 && parent !in Walk(Children(parent)).1
  {
    ReachedAllSmaller(Children(parent));
    WalkPartition(Children(parent));
    var (cs, ts) := Walk(Children(parent));
    var all := ReachedAll(Children(parent));
    assert parent !in all;
    assert parent !in multiset(all);
    assert multiset(cs) + multiset(ts) == multiset(all);
    assert parent !in multiset(cs) && parent !in multiset(ts);
  }
}
