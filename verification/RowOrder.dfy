/** The row list in full: which depth and marker a row has, in what order siblings come,
    and what a search shows. */
module RowOrder {
  import opened Results
  import opened Model
  import opened Seqs
  import opened Forest
  import opened TreeView
  import opened RowFacts
  import opened KernelLog

  // ---- Siblings ---------------------------------------------------------------------------

  /** Of two rows under one parent, or of two roots, the earlier has the smaller pid. */
  ghost predicate SiblingsAscend(nodes: Nodes, rows: seq<Row>) {
    forall i, j :: 0 <= i < j < |rows| && Parent(nodes, rows[i].pid) == Parent(nodes, rows[j].pid) ==>
      rows[i].pid < rows[j].pid
  }

  /** The pids have one parent, if any, and it is in none of their families. */
  ghost predicate SiblingsOf(nodes: Nodes, pids: seq<Pid>, parent: Option<Pid>) {
    forall p :: p in pids ==>
      p in nodes && Parent(nodes, p) == parent && (parent.Some? ==> parent.value !in Family(nodes, p))
  }

  /** A process below p, other than p, has its parent in p's family. */
  lemma ParentBelow(nodes: Nodes, p: Pid, q: Pid)
    requires q in Family(nodes, p) && q != p
    ensures Parent(nodes, q).Some? && Parent(nodes, q).value in Family(nodes, p)
  {
    var n: nat :| Anc(nodes, q, n) == Some(p);
    var above := Parent(nodes, q).value;
    assert Anc(nodes, above, n - 1) == Some(p);
    assert Under(nodes, above, p);
  }

  /** Rows of different siblings' subtrees with one parent are the siblings themselves. */
  lemma AcrossSiblings(nodes: Nodes, p: Pid, q: Pid, x: Pid, y: Pid, parent: Option<Pid>)
    requires SiblingsOf(nodes, [p, q], parent) && Family(nodes, p) !! Family(nodes, q)
    requires x in Family(nodes, p) && y in Family(nodes, q) && Parent(nodes, x) == Parent(nodes, y)
    ensures x == p && y == q
  {
    hide Family;
    assert p in [p, q] && q in [p, q];
    if x != p { ParentBelow(nodes, p, x); }
    if y != q { ParentBelow(nodes, q, y); }
  }

  lemma AscendJoin(nodes: Nodes, a: seq<Row>, b: seq<Row>)
    requires SiblingsAscend(nodes, a) && SiblingsAscend(nodes, b)
    requires forall x, y :: x in a && y in b && Parent(nodes, x.pid) == Parent(nodes, y.pid) ==> x.pid < y.pid
    ensures SiblingsAscend(nodes, a + b)
  {
    hide Parent;
    var rows := a + b;
    forall i, j | 0 <= i < j < |rows| && Parent(nodes, rows[i].pid) == Parent(nodes, rows[j].pid)
      ensures rows[i].pid < rows[j].pid
    {
      if i < |a| <= j {
        assert rows[i] in a && rows[j] in b;
      }
    }
  }

  lemma KidsAreSiblings(nodes: Nodes, p: Pid, kids: seq<Pid>)
    requires p in nodes && !OnCycle(nodes, p) && forall c :: c in kids ==> c in Kids(nodes, p)
    ensures SiblingsOf(nodes, kids, Some(p))
  {
    forall c | c in kids ensures p !in Family(nodes, c) {
      KidFamilySmaller(nodes, p, c);
    }
  }

  lemma {:induction false} RowsAscend(nodes: Nodes, expanded: set<Pid>, filter: Filter, p: Pid, depth: nat)
    requires p in nodes && !OnCycle(nodes, p)
    ensures SiblingsAscend(nodes, Rows(nodes, expanded, filter, p, depth))
    decreases |Family(nodes, p)|, 1, 0
  {
    hide SomeMatch, OnCycle, Family, Kids, RowsOfAll, Parent, SiblingsAscend, SiblingsOf;
    var kids, bound := InOrder(Kids(nodes, p)), |Family(nodes, p)|;
    KidsDescendable(nodes, p);
    KidsSmaller(nodes, p, kids);
    KidsApart(nodes, p);
    KidsAreSiblings(nodes, p, kids);
    EachAscend(nodes, expanded, filter, kids, depth + 1, bound, Some(p));
    var top, rest := Row(p, depth, Kids(nodes, p) != {}), RowsOfAll(nodes, expanded, filter, kids, depth + 1, bound);
    forall y | y in rest && Parent(nodes, p) == Parent(nodes, y.pid) ensures false {
      var c := EachRowBelongs(nodes, expanded, filter, kids, depth + 1, bound, y);
      BelongsToFamily(nodes, filter, c, depth + 1, y);
      TopNotSibling(nodes, p, c, y.pid);
    }
    SingleAscends(nodes, top);
    AscendJoin(nodes, [top], rest);
    NoneAscend(nodes);
  }

  lemma SingleAscends(nodes: Nodes, row: Row)
    ensures SiblingsAscend(nodes, [row])
  {
  }

  lemma NoneAscend(nodes: Nodes)
    ensures SiblingsAscend(nodes, [])
    ensures forall rows: seq<Row> :: rows + [] == rows
  {
  }

  /** A process below a child of p has another parent than p. */
  lemma TopNotSibling(nodes: Nodes, p: Pid, c: Pid, y: Pid)
    requires p in nodes && !OnCycle(nodes, p) && c in Kids(nodes, p) && y in Family(nodes, c)
    ensures Parent(nodes, p) != Parent(nodes, y)
  {
    var n: nat :| Anc(nodes, y, n) == Some(c);
    KidUnder(nodes, y, c, p, n);
    assert Anc(nodes, y, n + 1) == Some(p);
    assert Anc(nodes, p, n + 1) != Some(p);
  }

  lemma FrontSiblings(nodes: Nodes, pids: seq<Pid>, parent: Option<Pid>)
    requires pids != [] && Apart(nodes, pids) && Ascending(pids) && SiblingsOf(nodes, pids, parent)
    ensures Apart(nodes, Front(pids)) && Ascending(Front(pids)) && SiblingsOf(nodes, Front(pids), parent)
  {
    hide Family, Parent;
  }

  lemma LastSibling(nodes: Nodes, pids: seq<Pid>, c: Pid, parent: Option<Pid>)
    requires pids != [] && Apart(nodes, pids) && Ascending(pids) && SiblingsOf(nodes, pids, parent)
    requires c in Front(pids)
    ensures c < Last(pids) && Family(nodes, c) !! Family(nodes, Last(pids))
    ensures SiblingsOf(nodes, [c, Last(pids)], parent)
  {
    hide Family, Parent;
    var i :| 0 <= i < |pids| - 1 && pids[i] == c;
    assert Family(nodes, pids[i]) !! Family(nodes, pids[|pids| - 1]);
    assert c in pids && Last(pids) in pids;
  }

  lemma {:induction false} EachAscend(nodes: Nodes, expanded: set<Pid>, filter: Filter, pids: seq<Pid>,
                                      depth: nat, bound: nat, parent: Option<Pid>)
    requires Descendable(nodes, pids) && forall p :: p in pids ==> |Family(nodes, p)| < bound
    requires Apart(nodes, pids) && Ascending(pids) && SiblingsOf(nodes, pids, parent)
    ensures SiblingsAscend(nodes, RowsOfAll(nodes, expanded, filter, pids, depth, bound))
    decreases bound, 0, |pids|
  {
    hide Rows, OnCycle, Family, Parent, SiblingsAscend, SiblingsOf, Apart, Ascending, Belongs;
    NoneAscend(nodes);
    if pids != [] {
      var f, last := Front(pids), Last(pids);
      assert forall p :: p in f ==> p in pids;
      FrontSiblings(nodes, pids, parent);
      EachAscend(nodes, expanded, filter, f, depth, bound, parent);
      RowsAscend(nodes, expanded, filter, last, depth);
      var a := RowsOfAll(nodes, expanded, filter, f, depth, bound);
      var b := Rows(nodes, expanded, filter, last, depth);
      forall x, y | x in a && y in b && Parent(nodes, x.pid) == Parent(nodes, y.pid) ensures x.pid < y.pid {
        var c := EachRowBelongs(nodes, expanded, filter, f, depth, bound, x);
        BelongsToFamily(nodes, filter, c, depth, x);
        RowBelongs(nodes, expanded, filter, last, depth, y);
        BelongsToFamily(nodes, filter, last, depth, y);
        LastSibling(nodes, pids, c, parent);
        AcrossSiblings(nodes, c, last, x.pid, y.pid, parent);
      }
      AscendJoin(nodes, a, b);
    }
  }

  /** Roots and siblings come in ascending order of pid. */
  lemma RowsInPidOrder(nodes: Nodes, expanded: set<Pid>, filter: Filter)
    ensures SiblingsAscend(nodes, AllRows(nodes, expanded, filter))
  {
    var roots := InOrder(Roots(nodes));
    RootsInOrder(nodes);
    RootsApart(nodes);
    assert forall p :: p in roots ==> p in Elements(roots);
    EachAscend(nodes, expanded, filter, roots, 0, |nodes| + 1, None);
  }

  // ---- Depth and marker ----------------------------------------------------------------------

  /** A row's depth is its process's distance from its root, and the marker says whether
      the process has children, shown or not. */
  lemma RowIsTrue(nodes: Nodes, expanded: set<Pid>, filter: Filter, row: Row)
    requires row in AllRows(nodes, expanded, filter)
    ensures row.pid in nodes
    ensures Anc(nodes, row.pid, row.depth).Some? && Anc(nodes, row.pid, row.depth).value in Roots(nodes)
    ensures row.hasChildren <==> exists c :: c in nodes && c != row.pid && nodes[c].ppid == row.pid
  {
    hide Anc;
    var roots := InOrder(Roots(nodes));
    RootsInOrder(nodes);
    assert forall p :: p in roots ==> p in Elements(roots);
    RootsDescendable(nodes, roots);
    var r := EachRowBelongs(nodes, expanded, filter, roots, 0, |nodes| + 1, row);
    assert r in Roots(nodes);
    if c :| c in nodes && c != row.pid && nodes[c].ppid == row.pid {
      assert c in Kids(nodes, row.pid);
    }
  }

  // ---- Search --------------------------------------------------------------------------------

  /** The process's name, in lower case, has the needle in it, or the needle is its pid. */
  ghost predicate Found(nodes: Nodes, filter: Filter, p: Pid) {
    p in nodes
    && ((exists a: string, b: string :: filter.lower(nodes[p].name) == a + filter.needle + b)
        || filter.needle == Numerals.IntText(p))
  }

  lemma SelfMatchesIffFound(nodes: Nodes, filter: Filter, p: Pid)
    ensures SelfMatches(nodes, filter, p) <==> Found(nodes, filter, p)
  {
    hide Seqs.Contains, Numerals.IntText;
    if p in nodes {
      InText(filter.lower(nodes[p].name), filter.needle);
    }
  }

  lemma InText(s: string, part: string)
    ensures Seqs.Contains(s, part) <==> exists a: string, b: string :: s == a + part + b
  {
    hide Seqs.Contains;
    ContainsIffAt(s, part);
    if i: nat :| At(s, part, i) {
      AtSplits(s, part, i);
    }
    if a: string, b: string :| s == a + part + b {
      assert At(s, part, |a|);
    }
  }

  lemma AtSplits(s: string, part: string, i: nat)
    requires At(s, part, i)
    ensures s == s[..i] + part + s[i + |part|..]
  {
    assert s[i..i + |part|] == part;
  }

  /** A search shows exactly the processes below a root that are found themselves or have
      one found below them. */
  lemma SearchShows(nodes: Nodes, expanded: set<Pid>, filter: Filter, q: Pid)
    requires q in nodes && filter.needle != ""
    ensures HasRow(AllRows(nodes, expanded, filter), q) <==>
            q in Rooted(nodes) && exists d :: d in Family(nodes, q) && Found(nodes, filter, d)
  {
    hide SelfMatches, Found, AllRows, Rooted, Family;
    ShownIff(nodes, expanded, filter, q);
    forall d ensures SelfMatches(nodes, filter, d) <==> Found(nodes, filter, d) {
      SelfMatchesIffFound(nodes, filter, d);
    }
  }
}
