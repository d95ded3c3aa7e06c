/** What the row list shows: exactly the visible processes, each once, in an order
    from which the hierarchy can be read back. */
module RowFacts {
  import opened Results
  import opened Model
  import opened Seqs
  import opened Forest
  import opened Traversal
  import opened TreeView

  /** The row stands for a process below p, at its true distance from p. */
  ghost predicate Belongs(nodes: Nodes, filter: Filter, p: Pid, depth: nat, row: Row) {
    && row.pid in nodes
    && row.depth >= depth && Anc(nodes, row.pid, row.depth - depth) == Some(p)
    && SomeMatch(nodes, filter, row.pid)
    && (row.hasChildren <==> Kids(nodes, row.pid) != {})
  }

  lemma {:induction false} RowBelongs(nodes: Nodes, expanded: set<Pid>, filter: Filter, p: Pid, depth: nat, row: Row)
    requires p in nodes && !OnCycle(nodes, p) && row in Rows(nodes, expanded, filter, p, depth)
    ensures Belongs(nodes, filter, p, depth, row)
    decreases |Family(nodes, p)|, 1, 0
  {
    hide SomeMatch, Kids, OnCycle, Family, RowsOfAll, Parent;
    var kids := InOrder(Kids(nodes, p));
    KidsDescendable(nodes, p);
    KidsSmaller(nodes, p, kids);
    if row == Row(p, depth, Kids(nodes, p) != {}) {
      assert Anc(nodes, p, 0) == Some(p);
    } else {
      var c := EachRowBelongs(nodes, expanded, filter, kids, depth + 1, |Family(nodes, p)|, row);
      KidParent(nodes, p, c);
      KidUnder(nodes, row.pid, c, p, row.depth - depth - 1);
    }
  }

  lemma KidParent(nodes: Nodes, p: Pid, c: Pid)
    requires c in Kids(nodes, p)
    ensures Parent(nodes, c) == Some(p)
  {
  }

  lemma {:induction false} EachRowBelongs(nodes: Nodes, expanded: set<Pid>, filter: Filter, pids: seq<Pid>,
                                          depth: nat, bound: nat, row: Row)
    returns (c: Pid)
    requires Descendable(nodes, pids) && forall p :: p in pids ==> |Family(nodes, p)| < bound
    requires row in RowsOfAll(nodes, expanded, filter, pids, depth, bound)
    ensures c in pids && row in Rows(nodes, expanded, filter, c, depth) && Belongs(nodes, filter, c, depth, row)
    decreases bound, 0, |pids|
  {
    hide Rows, Belongs, OnCycle, Family;
    assert forall p :: p in Front(pids) ==> p in pids;
    if row in Rows(nodes, expanded, filter, Last(pids), depth) {
      c := Last(pids);
      RowBelongs(nodes, expanded, filter, c, depth, row);
    } else {
      c := EachRowBelongs(nodes, expanded, filter, Front(pids), depth, bound, row);
    }
  }

  lemma {:induction false} EachIncludes(nodes: Nodes, expanded: set<Pid>, filter: Filter, pids: seq<Pid>,
                                        depth: nat, bound: nat, c: Pid, row: Row)
    requires Descendable(nodes, pids) && forall p :: p in pids ==> |Family(nodes, p)| < bound
    requires c in pids && row in Rows(nodes, expanded, filter, c, depth)
    ensures row in RowsOfAll(nodes, expanded, filter, pids, depth, bound)
    decreases |pids|
  {
    hide Rows, OnCycle, Family;
    assert forall p :: p in Front(pids) ==> p in pids;
    assert pids == Front(pids) + [Last(pids)];
    if c != Last(pids) {
      EachIncludes(nodes, expanded, filter, Front(pids), depth, bound, c, row);
    }
  }

  lemma BelongsToFamily(nodes: Nodes, filter: Filter, p: Pid, depth: nat, row: Row)
    requires Belongs(nodes, filter, p, depth, row)
    ensures row.pid in Family(nodes, p)
  {
  }

  // ---- Which processes have a row -------------------------------------------------------

  ghost predicate HasRow(rows: seq<Row>, q: Pid) {
    exists row :: row in rows && row.pid == q
  }

  /** The first m proper ancestors of q are all expanded. */
  ghost predicate OpenAbove(nodes: Nodes, expanded: set<Pid>, q: Pid, m: nat) {
    forall n :: 0 < n <= m && Anc(nodes, q, n).Some? ==> Anc(nodes, q, n).value in expanded
  }

  lemma MatchAbove(nodes: Nodes, filter: Filter, p: Pid, q: Pid)
    requires q in Family(nodes, p) && SomeMatch(nodes, filter, q)
    ensures SomeMatch(nodes, filter, p)
  {
    if filter.needle != "" {
      var d :| d in Family(nodes, q) && SelfMatches(nodes, filter, d);
      var m: nat :| Anc(nodes, d, m) == Some(q);
      var n: nat :| Anc(nodes, q, n) == Some(p);
      AncAdd(nodes, d, m, n);
      assert d in Family(nodes, p);
    }
  }

  /** Below p, a process has a row exactly when its subtree matches the filter and,
      without a filter, everything between it and p (inclusive) is expanded. */
  lemma {:induction false} RowIff(nodes: Nodes, expanded: set<Pid>, filter: Filter, p: Pid, depth: nat, q: Pid, m: nat)
    requires p in nodes && !OnCycle(nodes, p) && q in nodes && Anc(nodes, q, m) == Some(p)
    ensures HasRow(Rows(nodes, expanded, filter, p, depth), q) <==>
            SomeMatch(nodes, filter, q) && (filter.needle != "" || OpenAbove(nodes, expanded, q, m))
    decreases m
  {
    hide SomeMatch, OnCycle, Family, RowsOfAll, Kids;
    var rows := Rows(nodes, expanded, filter, p, depth);
    assert q in Family(nodes, p) by { FamilyMember(nodes, p, q, m); }
    if SomeMatch(nodes, filter, q) { MatchAbove(nodes, filter, p, q); }
    if m == 0 {
      assert SomeMatch(nodes, filter, p) ==> rows[0].pid == q;
      if row :| row in rows && row.pid == q { RowBelongs(nodes, expanded, filter, p, depth, row); }
    } else {
      assert q != p by { SelfAnc(nodes, p); if q == p { LevelUnique(nodes, p, q, 0, m); } }
      var c := BelowOneKid(nodes, p, q);
      KidParent(nodes, p, c);
      KidOffCycle(nodes, p, c);
      var n := LevelBelow(nodes, p, q, c, m);
      RowIff(nodes, expanded, filter, c, depth + 1, q, m - 1);
      RowThroughKid(nodes, expanded, filter, p, depth, q, c);
      OpenAboveNext(nodes, expanded, q, m, p);
    }
  }

  lemma FamilyMember(nodes: Nodes, p: Pid, q: Pid, m: nat)
    requires q in nodes && Anc(nodes, q, m) == Some(p)
    ensures q in Family(nodes, p)
  {
  }

  lemma OpenAboveNext(nodes: Nodes, expanded: set<Pid>, q: Pid, m: nat, p: Pid)
    requires m > 0 && Anc(nodes, q, m) == Some(p)
    ensures OpenAbove(nodes, expanded, q, m) <==> OpenAbove(nodes, expanded, q, m - 1) && p in expanded
  {
  }

  lemma LevelBelow(nodes: Nodes, p: Pid, q: Pid, c: Pid, m: nat) returns (n: nat)
    requires !OnCycle(nodes, p) && Anc(nodes, q, m) == Some(p)
    requires q in Family(nodes, c) && Parent(nodes, c) == Some(p)
    ensures n == m - 1 && Anc(nodes, q, n) == Some(c)
  {
    n :| Anc(nodes, q, n) == Some(c);
    KidUnder(nodes, q, c, p, n);
    LevelUnique(nodes, p, q, n + 1, m);
  }

  lemma RowThroughKid(nodes: Nodes, expanded: set<Pid>, filter: Filter, p: Pid, depth: nat, q: Pid, c: Pid)
    requires p in nodes && !OnCycle(nodes, p) && q != p
    requires c in Kids(nodes, p) && c in nodes && !OnCycle(nodes, c)
    requires forall other :: other in Kids(nodes, p) && q in Family(nodes, other) ==> other == c
    ensures HasRow(Rows(nodes, expanded, filter, p, depth), q) <==>
            && SomeMatch(nodes, filter, p) && (filter.needle != "" || p in expanded)
            && HasRow(Rows(nodes, expanded, filter, c, depth + 1), q)
  {
    hide SomeMatch, OnCycle, Family, Kids, RowsOfAll;
    var kids, bound := InOrder(Kids(nodes, p)), |Family(nodes, p)|;
    KidsDescendable(nodes, p);
    KidsSmaller(nodes, p, kids);
    var rest := RowsOfAll(nodes, expanded, filter, kids, depth + 1, bound);
    if row :| row in rest && row.pid == q {
      var other := EachRowBelongs(nodes, expanded, filter, kids, depth + 1, bound, row);
      BelongsToFamily(nodes, filter, other, depth + 1, row);
    }
    if row :| row in Rows(nodes, expanded, filter, c, depth + 1) && row.pid == q {
      EachIncludes(nodes, expanded, filter, kids, depth + 1, bound, c, row);
    }
    assert HasRow(rest, q) <==> HasRow(Rows(nodes, expanded, filter, c, depth + 1), q);
    var head := [Row(p, depth, Kids(nodes, p) != {})];
    assert HasRow(head + rest, q) <==> HasRow(rest, q);
  }

  lemma RootsInOrder(nodes: Nodes)
    ensures var roots := InOrder(Roots(nodes));
            && (forall p :: p in roots <==> p in Roots(nodes))
            && Descendable(nodes, roots)
            && forall p :: p in roots ==> |Family(nodes, p)| < |nodes| + 1
  {
    var roots := InOrder(Roots(nodes));
    forall p ensures p in roots <==> p in Roots(nodes) {
      assert p in roots <==> p in Elements(roots);
    }
    RootsDescendable(nodes, roots);
  }

  /** Every proper ancestor of q is expanded. */
  ghost predicate OpenToRoot(nodes: Nodes, expanded: set<Pid>, q: Pid) {
    forall n: nat :: n > 0 && Anc(nodes, q, n).Some? ==> Anc(nodes, q, n).value in expanded
  }

  /** A process has a row exactly when it is reachable from a root and either a
      search is active and its subtree matches, or none is and all its proper
      ancestors are expanded. Processes on or below a ppid cycle never show. */
  lemma ShownIff(nodes: Nodes, expanded: set<Pid>, filter: Filter, q: Pid)
    requires q in nodes
    ensures HasRow(AllRows(nodes, expanded, filter), q) <==>
            && q in Rooted(nodes)
            && if filter.needle != "" then SomeMatch(nodes, filter, q)
               else OpenToRoot(nodes, expanded, q)
  {
    hide Rows, Family, OnCycle, RowsOfAll, Roots;
    RootsInOrder(nodes);
    var roots, bound := InOrder(Roots(nodes)), |nodes| + 1;
    if row :| row in AllRows(nodes, expanded, filter) && row.pid == q {
      var r := EachRowBelongs(nodes, expanded, filter, roots, 0, bound, row);
      ShownUnderRoot(nodes, expanded, filter, r, q, row.depth);
    }
    if q in Rooted(nodes) {
      var r :| r in Roots(nodes) && Under(nodes, q, r);
      var m: nat :| Anc(nodes, q, m) == Some(r);
      ShownUnderRoot(nodes, expanded, filter, r, q, m);
      if row :| row in Rows(nodes, expanded, filter, r, 0) && row.pid == q {
        EachIncludes(nodes, expanded, filter, roots, 0, bound, r, row);
      }
    }
  }

  lemma ShownUnderRoot(nodes: Nodes, expanded: set<Pid>, filter: Filter, r: Pid, q: Pid, m: nat)
    requires r in Roots(nodes) && r in nodes && !OnCycle(nodes, r) && q in nodes && Anc(nodes, q, m) == Some(r)
    ensures q in Rooted(nodes)
    ensures HasRow(Rows(nodes, expanded, filter, r, 0), q) <==>
            if filter.needle != "" then SomeMatch(nodes, filter, q)
            else OpenToRoot(nodes, expanded, q)
  {
    hide Rows, OnCycle;
    RowIff(nodes, expanded, filter, r, 0, q, m);
    forall n: nat | n > m ensures Anc(nodes, q, n) == None {
      AncAdd(nodes, q, m, n - m);
    }
    assert OpenAbove(nodes, expanded, q, m) <==> OpenToRoot(nodes, expanded, q);
    assert Under(nodes, q, r);
  }

  // ---- Each process once -----------------------------------------------------------------

  /** The row list shows no process twice. */
  ghost predicate Once(rows: seq<Row>) {
    forall i, j :: 0 <= i < j < |rows| ==> rows[i].pid != rows[j].pid
  }

  /** Siblings' families share no process. */
  ghost predicate Apart(nodes: Nodes, pids: seq<Pid>) {
    forall i, j :: 0 <= i < j < |pids| ==> Family(nodes, pids[i]) !! Family(nodes, pids[j])
  }

  lemma KidsApart(nodes: Nodes, p: Pid)
    requires !OnCycle(nodes, p)
    ensures Apart(nodes, InOrder(Kids(nodes, p)))
  {
    var kids := InOrder(Kids(nodes, p));
    forall i, j | 0 <= i < j < |kids| ensures Family(nodes, kids[i]) !! Family(nodes, kids[j]) {
      assert kids[i] in Elements(kids) && kids[j] in Elements(kids);
      if q :| q in Family(nodes, kids[i]) && q in Family(nodes, kids[j]) {
        var m: nat :| Anc(nodes, q, m) == Some(kids[i]);
        var n: nat :| Anc(nodes, q, n) == Some(kids[j]);
        KidUnder(nodes, q, kids[i], p, m);
        KidUnder(nodes, q, kids[j], p, n);
        LevelUnique(nodes, p, q, m + 1, n + 1);
      }
    }
  }

  lemma RootsApart(nodes: Nodes)
    ensures Apart(nodes, InOrder(Roots(nodes)))
  {
    var roots := InOrder(Roots(nodes));
    forall i, j | 0 <= i < j < |roots| ensures Family(nodes, roots[i]) !! Family(nodes, roots[j]) {
      assert roots[i] in Elements(roots) && roots[j] in Elements(roots);
      RootFamiliesDisjoint(nodes, roots[i], roots[j]);
    }
  }

  lemma OnceJoin(a: seq<Row>, b: seq<Row>)
    requires Once(a) && Once(b) && forall x, y :: x in a && y in b ==> x.pid != y.pid
    ensures Once(a + b)
  {
    forall i, j | 0 <= i < j < |a + b| ensures (a + b)[i].pid != (a + b)[j].pid {
      if i < |a| <= j {
        assert (a + b)[i] in a && (a + b)[j] in b;
      }
    }
  }

  lemma {:induction false} RowsOnce(nodes: Nodes, expanded: set<Pid>, filter: Filter, p: Pid, depth: nat)
    requires p in nodes && !OnCycle(nodes, p)
    ensures Once(Rows(nodes, expanded, filter, p, depth))
    decreases |Family(nodes, p)|, 1, 0
  {
    hide SomeMatch, OnCycle, Family, Kids, RowsOfAll;
    var kids, bound := InOrder(Kids(nodes, p)), |Family(nodes, p)|;
    KidsDescendable(nodes, p);
    KidsSmaller(nodes, p, kids);
    KidsApart(nodes, p);
    EachOnce(nodes, expanded, filter, kids, depth + 1, bound);
    var rest := RowsOfAll(nodes, expanded, filter, kids, depth + 1, bound);
    forall row | row in rest ensures row.pid != p {
      var c := EachRowBelongs(nodes, expanded, filter, kids, depth + 1, bound, row);
      BelongsToFamily(nodes, filter, c, depth + 1, row);
      KidParent(nodes, p, c);
      KidFamilySmaller(nodes, p, c);
    }
    OnceJoin([Row(p, depth, Kids(nodes, p) != {})], rest);
  }

  lemma {:induction false} EachOnce(nodes: Nodes, expanded: set<Pid>, filter: Filter, pids: seq<Pid>,
                                    depth: nat, bound: nat)
    requires Descendable(nodes, pids) && forall p :: p in pids ==> |Family(nodes, p)| < bound
    requires Apart(nodes, pids)
    ensures Once(RowsOfAll(nodes, expanded, filter, pids, depth, bound))
    decreases bound, 0, |pids|
  {
    hide Rows, OnCycle, Family;
    if pids != [] {
      var f, last := Front(pids), Last(pids);
      assert forall p :: p in f ==> p in pids;
      EachOnce(nodes, expanded, filter, f, depth, bound);
      RowsOnce(nodes, expanded, filter, last, depth);
      var a := RowsOfAll(nodes, expanded, filter, f, depth, bound);
      var b := Rows(nodes, expanded, filter, last, depth);
      forall x, y | x in a && y in b ensures x.pid != y.pid {
        var c := EachRowBelongs(nodes, expanded, filter, f, depth, bound, x);
        BelongsToFamily(nodes, filter, c, depth, x);
        RowBelongs(nodes, expanded, filter, last, depth, y);
        BelongsToFamily(nodes, filter, last, depth, y);
        var i :| 0 <= i < |f| && f[i] == c;
        assert Family(nodes, pids[i]) !! Family(nodes, pids[|pids| - 1]);
      }
      OnceJoin(a, b);
    }
  }

  // ---- Reading the hierarchy back ----------------------------------------------------------

  /** Row j is the nearest earlier row one level up from row i, and its parent. */
  ghost predicate ParentRow(nodes: Nodes, rows: seq<Row>, j: nat, i: nat) {
    && j < i < |rows|
    && rows[j].depth + 1 == rows[i].depth
    && Parent(nodes, rows[i].pid) == Some(rows[j].pid)
    && forall m :: j < m < i ==> rows[m].depth >= rows[i].depth
  }

  ghost predicate Preorder(nodes: Nodes, rows: seq<Row>, depth: nat) {
    forall i :: 0 <= i < |rows| ==>
      rows[i].depth >= depth && (rows[i].depth > depth ==> exists j: nat :: ParentRow(nodes, rows, j, i))
  }

  lemma PreorderJoin(nodes: Nodes, a: seq<Row>, b: seq<Row>, depth: nat)
    requires Preorder(nodes, a, depth) && Preorder(nodes, b, depth)
    ensures Preorder(nodes, a + b, depth)
  {
    forall i | 0 <= i < |a + b| && (a + b)[i].depth > depth
      ensures exists j: nat :: ParentRow(nodes, a + b, j, i)
    {
      if i < |a| {
        var j: nat :| ParentRow(nodes, a, j, i);
        assert ParentRow(nodes, a + b, j, i);
      } else {
        var j: nat :| ParentRow(nodes, b, j, i - |a|);
        assert ParentRow(nodes, a + b, j + |a|, i);
      }
    }
  }

  lemma ParentRowShift(nodes: Nodes, top: Row, rest: seq<Row>, j: nat, i: nat)
    requires ParentRow(nodes, rest, j, i)
    ensures ParentRow(nodes, [top] + rest, j + 1, i + 1)
  {
    var rows := [top] + rest;
    forall m | j + 1 < m < i + 1 ensures rows[m].depth >= rows[i + 1].depth {
      assert rows[m] == rest[m - 1];
    }
  }

  lemma TopIsParentRow(nodes: Nodes, top: Row, rest: seq<Row>, i: nat)
    requires i < |rest| && rest[i].depth == top.depth + 1 && Parent(nodes, rest[i].pid) == Some(top.pid)
    requires forall m :: 0 <= m < i ==> rest[m].depth >= top.depth + 1
    ensures ParentRow(nodes, [top] + rest, 0, i + 1)
  {
    var rows := [top] + rest;
    forall m | 0 < m < i + 1 ensures rows[m].depth >= rows[i + 1].depth {
      assert rows[m] == rest[m - 1];
    }
  }

  lemma PreorderUnder(nodes: Nodes, top: Row, rest: seq<Row>)
    requires Preorder(nodes, rest, top.depth + 1)
    requires forall row :: row in rest && row.depth == top.depth + 1 ==> Parent(nodes, row.pid) == Some(top.pid)
    ensures Preorder(nodes, [top] + rest, top.depth)
  {
    hide Parent, ParentRow;
    var rows := [top] + rest;
    forall i | 0 <= i < |rows|
      ensures rows[i].depth >= top.depth
      ensures rows[i].depth > top.depth ==> exists j: nat :: ParentRow(nodes, rows, j, i)
    {
      if i > 0 {
        assert rows[i] == rest[i - 1] && rest[i - 1] in rest;
        if rest[i - 1].depth == top.depth + 1 {
          TopIsParentRow(nodes, top, rest, i - 1);
        } else {
          var j: nat :| ParentRow(nodes, rest, j, i - 1);
          ParentRowShift(nodes, top, rest, j, i - 1);
        }
      }
    }
  }

  lemma {:induction false} RowsPreorder(nodes: Nodes, expanded: set<Pid>, filter: Filter, p: Pid, depth: nat)
    requires p in nodes && !OnCycle(nodes, p)
    ensures Preorder(nodes, Rows(nodes, expanded, filter, p, depth), depth)
    decreases |Family(nodes, p)|, 1, 0
  {
    hide SomeMatch, OnCycle, Family, Kids, RowsOfAll;
    var kids, bound := InOrder(Kids(nodes, p)), |Family(nodes, p)|;
    KidsDescendable(nodes, p);
    KidsSmaller(nodes, p, kids);
    EachPreorder(nodes, expanded, filter, kids, depth + 1, bound);
    var top, rest := Row(p, depth, Kids(nodes, p) != {}), RowsOfAll(nodes, expanded, filter, kids, depth + 1, bound);
    forall row | row in rest && row.depth == depth + 1 ensures Parent(nodes, row.pid) == Some(p) {
      var c := EachRowBelongs(nodes, expanded, filter, kids, depth + 1, bound, row);
      KidParent(nodes, p, c);
    }
    PreorderUnder(nodes, top, rest);
    PreorderUnder(nodes, top, []);
    assert [top] + [] == [top];
  }

  lemma {:induction false} EachPreorder(nodes: Nodes, expanded: set<Pid>, filter: Filter, pids: seq<Pid>,
                                        depth: nat, bound: nat)
    requires Descendable(nodes, pids) && forall p :: p in pids ==> |Family(nodes, p)| < bound
    ensures Preorder(nodes, RowsOfAll(nodes, expanded, filter, pids, depth, bound), depth)
    decreases bound, 0, |pids|
  {
    hide Rows, OnCycle, Family;
    if pids != [] {
      assert forall p :: p in Front(pids) ==> p in pids;
      EachPreorder(nodes, expanded, filter, Front(pids), depth, bound);
      RowsPreorder(nodes, expanded, filter, Last(pids), depth);
      PreorderJoin(nodes, RowsOfAll(nodes, expanded, filter, Front(pids), depth, bound),
                   Rows(nodes, expanded, filter, Last(pids), depth), depth);
    }
  }

  /** For every set of parent links, expansion and filter: no process has two rows,
      and the parent of a row below the top level is the nearest earlier row one
      level up, so the indented list determines the hierarchy it shows. */
  lemma RowsReadBack(nodes: Nodes, expanded: set<Pid>, filter: Filter)
    ensures Once(AllRows(nodes, expanded, filter))
    ensures Preorder(nodes, AllRows(nodes, expanded, filter), 0)
  {
    RootsInOrder(nodes);
    RootsApart(nodes);
    EachOnce(nodes, expanded, filter, InOrder(Roots(nodes)), 0, |nodes| + 1);
    EachPreorder(nodes, expanded, filter, InOrder(Roots(nodes)), 0, |nodes| + 1);
  }

  // ---- Fully expanded --------------------------------------------------------------------------

  function Pids(rows: seq<Row>): seq<Pid> {
    seq(|rows|, i requires 0 <= i < |rows| => rows[i].pid)
  }

  /** Without a filter and with everything expanded, the rows under a process list
      the same processes as its breadth-first family, in another order. */
  lemma ExpandedRowsAreFamily(nodes: Nodes, expanded: set<Pid>, filter: Filter, p: Pid, family: seq<Pid>)
    requires p in nodes && !OnCycle(nodes, p) && filter.needle == "" && nodes.Keys <= expanded
    requires Enumerates(family, Family(nodes, p))
    ensures multiset(Pids(Rows(nodes, expanded, filter, p, 0))) == multiset(family)
  {
    hide Rows, OnCycle;
    var rows := Rows(nodes, expanded, filter, p, 0);
    RowsOnce(nodes, expanded, filter, p, 0);
    forall q ensures q in Pids(rows) <==> q in Family(nodes, p) {
      if q in Pids(rows) {
        var i :| 0 <= i < |rows| && rows[i].pid == q;
        RowBelongs(nodes, expanded, filter, p, 0, rows[i]);
        BelongsToFamily(nodes, filter, p, 0, rows[i]);
      }
      if q in Family(nodes, p) {
        var m: nat :| Anc(nodes, q, m) == Some(p);
        forall n | 0 < n <= m && Anc(nodes, q, n).Some? ensures Anc(nodes, q, n).value in expanded {
          AncInNodes(nodes, q, n);
        }
        RowIff(nodes, expanded, filter, p, 0, q, m);
        var row :| row in rows && row.pid == q;
        var i :| 0 <= i < |rows| && rows[i] == row;
        assert Pids(rows)[i] == q;
      }
    }
    assert Elements(Pids(rows)) == Family(nodes, p);
    EnumerationsPermute(Pids(rows), family);
  }
}
