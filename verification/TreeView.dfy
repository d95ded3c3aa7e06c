/** The GUI's row list: `flatten_tree`, `flatten_node` and `subtree_matches`. The
    reference `Rows` depends on the parent links only, so agreeing with it means
    that neither map order nor child-list order shows. */
module TreeView {
  import opened Model
  import opened Seqs
  import opened Forest
  import opened Traversal
  import Numerals

  datatype Row = Row(pid: Pid, depth: nat, hasChildren: bool)

  /** The search box: `needle` is already trimmed and lower-cased by `lower`. */
  datatype Filter = Filter(lower: string -> string, needle: string)

  predicate SelfMatches(nodes: Nodes, filter: Filter, p: Pid) {
    && p in nodes
    && (Seqs.Contains(filter.lower(nodes[p].name), filter.needle) || Numerals.IntText(p) == filter.needle)
  }

  ghost predicate SomeMatch(nodes: Nodes, filter: Filter, p: Pid) {
    filter.needle == "" || exists q :: q in Family(nodes, p) && SelfMatches(nodes, filter, q)
  }

  // ---- Sorting --------------------------------------------------------------------

  predicate Ascending(s: seq<Pid>) {
    forall i, j :: 0 <= i < j < |s| ==> s[i] < s[j]
  }

  function Insert(s: seq<Pid>, p: Pid): seq<Pid> {
    if s == [] then [p]
    else if p < s[0] then [p] + s
    else [s[0]] + Insert(s[1..], p)
  }

  lemma {:induction false} InsertElements(s: seq<Pid>, p: Pid)
    ensures Elements(Insert(s, p)) == Elements(s) + {p}
    decreases |s|
  {
    if s != [] {
      InsertElements(s[1..], p);
      assert s == [s[0]] + s[1..];
      forall x ensures x in Insert(s, p) <==> x in Elements(s) + {p} {
        assert x in Insert(s[1..], p) <==> x in Elements(Insert(s[1..], p));
        assert x in s <==> x == s[0] || x in s[1..];
      }
    }
  }

  lemma {:induction false} InsertAscending(s: seq<Pid>, p: Pid)
    requires Ascending(s) && p !in s
    ensures Ascending(Insert(s, p))
    decreases |s|
  {
    if s != [] && p > s[0] {
      var rest := Insert(s[1..], p);
      InsertAscending(s[1..], p);
      InsertElements(s[1..], p);
      forall j | 0 <= j < |rest| ensures s[0] < rest[j] {
        assert rest[j] in Elements(rest);
      }
    }
  }

  /** `sort()` on a vector of pids. */
  function Sort(s: seq<Pid>): seq<Pid> {
    if s == [] then [] else Insert(Sort(Front(s)), Last(s))
  }

  lemma {:induction false} SortSorts(s: seq<Pid>)
    ensures Elements(Sort(s)) == Elements(s)
    ensures NoDup(s) ==> Ascending(Sort(s))
  {
    hide Insert;
    if s != [] {
      var f := Front(s);
      SortSorts(f);
      InsertElements(Sort(f), Last(s));
      assert s == f + [Last(s)];
      if NoDup(s) {
        assert Last(s) !in f;
        assert Last(s) in Sort(f) <==> Last(s) in Elements(Sort(f));
        InsertAscending(Sort(f), Last(s));
      }
    }
  }

  lemma AscendingFront(a: seq<Pid>)
    requires Ascending(a) && a != []
    ensures Ascending(Front(a)) && Elements(Front(a)) == Elements(a) - {Last(a)}
    ensures forall x :: x in Elements(a) ==> x <= Last(a)
  {
    assert a == Front(a) + [Last(a)];
  }

  /** An ascending listing of a set is unique: sorting forgets the original order. */
  lemma {:induction false} AscendingUnique(a: seq<Pid>, b: seq<Pid>)
    requires Ascending(a) && Ascending(b) && Elements(a) == Elements(b)
    ensures a == b
  {
    NoDupCardinality(a);
    NoDupCardinality(b);
    if a != [] {
      AscendingFront(a);
      AscendingFront(b);
      assert Last(a) in Elements(b) && Last(b) in Elements(a);
      AscendingUnique(Front(a), Front(b));
      assert a == Front(a) + [Last(a)] && b == Front(b) + [Last(b)];
    }
  }

  lemma {:induction false} OrderExists(xs: set<Pid>)
    ensures exists s: seq<Pid> :: Ascending(s) && Elements(s) == xs
  {
    if xs == {} {
      var s: seq<Pid> := [];
      assert Ascending(s) && Elements(s) == xs;
    } else {
      var x :| x in xs;
      OrderExists(xs - {x});
      var s: seq<Pid> :| Ascending(s) && Elements(s) == xs - {x};
      assert x !in Elements(s);
      InsertElements(s, x);
      InsertAscending(s, x);
      assert Ascending(Insert(s, x)) && Elements(Insert(s, x)) == xs;
    }
  }

  /** The members of a set of pids in ascending order. */
  ghost function InOrder(xs: set<Pid>): (s: seq<Pid>)
    ensures Ascending(s) && Elements(s) == xs
  {
    OrderExists(xs);
    var s: seq<Pid> :| Ascending(s) && Elements(s) == xs;
    s
  }

  lemma SortsToOrder(s: seq<Pid>, xs: set<Pid>)
    requires Enumerates(s, xs)
    ensures Sort(s) == InOrder(xs)
  {
    SortSorts(s);
    AscendingUnique(Sort(s), InOrder(xs));
  }

  // ---- The reference rows ------------------------------------------------------------

  /** Everything listed can be descended into: within the nodes and off every cycle. */
  ghost predicate Descendable(nodes: Nodes, pids: seq<Pid>) {
    forall p :: p in pids ==> p in nodes && !OnCycle(nodes, p)
  }

  lemma KidsDescendable(nodes: Nodes, p: Pid)
    requires !OnCycle(nodes, p)
    ensures Descendable(nodes, InOrder(Kids(nodes, p)))
    ensures forall c :: c in InOrder(Kids(nodes, p)) <==> c in Kids(nodes, p)
  {
    forall c | c in InOrder(Kids(nodes, p)) ensures c in nodes && !OnCycle(nodes, c) {
      assert c in Elements(InOrder(Kids(nodes, p)));
      KidOffCycle(nodes, p, c);
    }
    forall c | c in Kids(nodes, p) ensures c in InOrder(Kids(nodes, p)) {
      assert c in Elements(InOrder(Kids(nodes, p)));
    }
  }

  /** The rows of p's subtree. */
  ghost function Rows(nodes: Nodes, expanded: set<Pid>, filter: Filter, p: Pid, depth: nat): seq<Row>
    requires p in nodes && !OnCycle(nodes, p)
    decreases |Family(nodes, p)|, 1, 0
  {
    if !SomeMatch(nodes, filter, p) then []
    else
      KidsDescendable(nodes, p);
      var kids := InOrder(Kids(nodes, p));
      [Row(p, depth, Kids(nodes, p) != {})] +
      if filter.needle != "" || p in expanded then
        KidsSmaller(nodes, p, kids);
        RowsOfAll(nodes, expanded, filter, kids, depth + 1, |Family(nodes, p)|)
      else []
  }

  /** The rows of a list of siblings' subtrees, one after the other. */
  ghost function RowsOfAll(nodes: Nodes, expanded: set<Pid>, filter: Filter, pids: seq<Pid>, depth: nat,
                           bound: nat): seq<Row>
    requires Descendable(nodes, pids)
    requires forall p :: p in pids ==> |Family(nodes, p)| < bound
    decreases bound, 0, |pids|
  {
    if pids == [] then []
    else
      assert forall p :: p in Front(pids) ==> p in pids;
      RowsOfAll(nodes, expanded, filter, Front(pids), depth, bound)
      + Rows(nodes, expanded, filter, Last(pids), depth)
  }

  lemma KidsSmaller(nodes: Nodes, p: Pid, kids: seq<Pid>)
    requires p in nodes && !OnCycle(nodes, p) && forall c :: c in kids ==> c in Kids(nodes, p)
    ensures forall c :: c in kids ==> |Family(nodes, c)| < |Family(nodes, p)|
  {
    forall c | c in kids ensures |Family(nodes, c)| < |Family(nodes, p)| {
      KidFamilySmaller(nodes, p, c);
    }
  }

  // ---- The code -----------------------------------------------------------------------

  /** A subtree matches when its top does or one of the child subtrees does. */
  lemma MatchDown(nodes: Nodes, filter: Filter, p: Pid)
    requires p in nodes && !OnCycle(nodes, p) && filter.needle != ""
    ensures SomeMatch(nodes, filter, p) <==>
            SelfMatches(nodes, filter, p) || exists c :: c in Kids(nodes, p) && SomeMatch(nodes, filter, c)
  {
    SelfUnder(nodes, p);
    if q :| q in Family(nodes, p) && SelfMatches(nodes, filter, q) && q != p {
      var c := BelowOneKid(nodes, p, q);
      assert SomeMatch(nodes, filter, c);
    }
    if c :| c in Kids(nodes, p) && SomeMatch(nodes, filter, c) {
      KidFamilySmaller(nodes, p, c);
    }
  }

  lemma ChildrenDescend(t: Tree, p: Pid)
    requires Built(t) && p in t.nodes && !OnCycle(t.nodes, p)
    ensures Descendable(t.nodes, ChildList(t, p))
    ensures forall c :: c in ChildList(t, p) <==> c in Kids(t.nodes, p)
    ensures forall c :: c in ChildList(t, p) ==> |Family(t.nodes, c)| < |Family(t.nodes, p)|
  {
    forall c ensures c in ChildList(t, p) <==> c in Kids(t.nodes, p) {
      assert c in ChildList(t, p) <==> c in Elements(ChildList(t, p));
    }
    forall c | c in ChildList(t, p) ensures !OnCycle(t.nodes, c) {
      KidOffCycle(t.nodes, p, c);
    }
    KidsSmaller(t.nodes, p, ChildList(t, p));
  }

  predicate SubtreeMatches(t: Tree, p: Pid, filter: Filter): (r: bool)
    requires Built(t) && p in t.nodes && !OnCycle(t.nodes, p)
    ensures r <==> SomeMatch(t.nodes, filter, p)
    decreases |Family(t.nodes, p)|, 1, 0
  {
    if filter.needle == "" then true
    else
      ChildrenDescend(t, p);
      MatchDown(t.nodes, filter, p);
      SelfMatches(t.nodes, filter, p)
      || AnyMatches(t, ChildList(t, p), filter, |Family(t.nodes, p)|)
  }

  predicate AnyMatches(t: Tree, pids: seq<Pid>, filter: Filter, ghost bound: nat): (r: bool)
    requires Built(t) && Descendable(t.nodes, pids)
    requires forall p :: p in pids ==> |Family(t.nodes, p)| < bound
    ensures r <==> exists p :: p in pids && SomeMatch(t.nodes, filter, p)
    decreases bound, 0, |pids|
  {
    if pids == [] then false
    else
      assert pids == [pids[0]] + pids[1..];
      SubtreeMatches(t, pids[0], filter) || AnyMatches(t, pids[1..], filter, bound)
  }

  class RowBuffer {
    var rows: seq<Row>

    constructor ()
      ensures rows == []
    {
      rows := [];
    }

    method Push(row: Row)
      modifies this
      ensures rows == old(rows) + [row]
    {
      rows := rows + [row];
    }
  }

  lemma RowsOfNext(nodes: Nodes, expanded: set<Pid>, filter: Filter, pids: seq<Pid>, i: nat, depth: nat, bound: nat)
    requires i < |pids| && Descendable(nodes, pids)
    requires forall p :: p in pids ==> |Family(nodes, p)| < bound
    ensures Descendable(nodes, pids[..i]) && Descendable(nodes, pids[..i + 1])
    ensures RowsOfAll(nodes, expanded, filter, pids[..i + 1], depth, bound) ==
            RowsOfAll(nodes, expanded, filter, pids[..i], depth, bound) + Rows(nodes, expanded, filter, pids[i], depth)
  {
    assert Front(pids[..i + 1]) == pids[..i];
  }

  /** The loop that flattens siblings one after the other. */
  method FlattenEach(t: Tree, pids: seq<Pid>, depth: nat, expanded: set<Pid>, filter: Filter, buffer: RowBuffer,
                     ghost bound: nat)
    requires Built(t) && Descendable(t.nodes, pids)
    requires forall p :: p in pids ==> |Family(t.nodes, p)| < bound
    modifies buffer
    ensures buffer.rows == old(buffer.rows) + RowsOfAll(t.nodes, expanded, filter, pids, depth, bound)
    decreases bound, 0
  {
    hide Built, OnCycle, Family, Rows, RowsOfAll;
    EmptyRows(t.nodes, expanded, filter, depth, bound);
    for i := 0 to |pids|
      invariant Descendable(t.nodes, pids[..i])
      invariant buffer.rows == old(buffer.rows) + RowsOfAll(t.nodes, expanded, filter, pids[..i], depth, bound)
    {
      assert pids[i] in pids;
      RowsOfNext(t.nodes, expanded, filter, pids, i, depth, bound);
      FlattenNode(t, pids[i], depth, expanded, filter, buffer);
    }
    assert pids[..|pids|] == pids;
  }

  lemma EmptyRows(nodes: Nodes, expanded: set<Pid>, filter: Filter, depth: nat, bound: nat)
    ensures RowsOfAll(nodes, expanded, filter, [], depth, bound) == []
  {
  }

  method FlattenNode(t: Tree, pid: Pid, depth: nat, expanded: set<Pid>, filter: Filter, buffer: RowBuffer)
    requires Built(t) && pid in t.nodes && !OnCycle(t.nodes, pid)
    modifies buffer
    ensures buffer.rows == old(buffer.rows) + Rows(t.nodes, expanded, filter, pid, depth)
    decreases |Family(t.nodes, pid)|, 1
  {
    hide Kids, Built, OnCycle, Family, RowsOfAll, Sort;
    if !SubtreeMatches(t, pid, filter) {
      return;
    }
    var children := Sort(ChildList(t, pid));
    SortsToOrder(ChildList(t, pid), Kids(t.nodes, pid));
    SortSorts(ChildList(t, pid));
    KidsDescendable(t.nodes, pid);
    KidsSmaller(t.nodes, pid, children);
    assert Elements(children) == Kids(t.nodes, pid);
    assert children != [] ==> children[0] in Elements(children);
    buffer.Push(Row(pid, depth, children != []));
    if filter.needle != "" || pid in expanded {
      FlattenEach(t, children, depth + 1, expanded, filter, buffer, |Family(t.nodes, pid)|);
    }
  }

  lemma RootsDescendable(nodes: Nodes, pids: seq<Pid>)
    requires forall p :: p in pids ==> p in Roots(nodes)
    ensures Descendable(nodes, pids)
    ensures forall p :: p in pids ==> |Family(nodes, p)| < |nodes| + 1
  {
    forall p | p in pids ensures !OnCycle(nodes, p) && |Family(nodes, p)| < |nodes| + 1 {
      RootOffCycle(nodes, p);
      SubsetCardinality(Family(nodes, p), nodes.Keys);
      assert |nodes.Keys| == |nodes|;
    }
  }

  /** All rows: the roots' subtrees in pid order. */
  ghost function AllRows(nodes: Nodes, expanded: set<Pid>, filter: Filter): seq<Row> {
    var roots := InOrder(Roots(nodes));
    assert forall p :: p in roots <==> p in Elements(roots);
    RootsDescendable(nodes, roots);
    RowsOfAll(nodes, expanded, filter, roots, 0, |nodes| + 1)
  }

  /** Terminates for every built tree, cycles or not: cyclic pids are not below any
      root. The result depends on the parent links only. */
  method FlattenTree(t: Tree, expanded: set<Pid>, filter: Filter) returns (rows: seq<Row>)
    requires Built(t)
    ensures rows == AllRows(t.nodes, expanded, filter)
  {
    hide Built, OnCycle, Family, RowsOfAll, Sort, Roots;
    var roots := RootsOf(t);
    SortsToOrder(roots, Roots(t.nodes));
    SortSorts(roots);
    roots := Sort(roots);
    assert forall p :: p in roots <==> p in Elements(roots);
    RootsDescendable(t.nodes, roots);
    var buffer := new RowBuffer();
    FlattenEach(t, roots, 0, expanded, filter, buffer, |t.nodes| + 1);
    rows := buffer.rows;
  }
}
