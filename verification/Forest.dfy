/** The process hierarchy (sher-pe-model's `ProcessTree`). Parent links come from
    reads taken at different moments, so they may form cycles; the theory here is
    about the `ppid` links alone, whatever they are. */
module Forest {
  import opened Results
  import opened Model
  import opened Seqs

  type Nodes = map<Pid, Snapshot>

  datatype Tree = Tree(nodes: Nodes, children: map<Pid, seq<Pid>>)

  function Parent(nodes: Nodes, p: Pid): Option<Pid> {
    if p in nodes && nodes[p].ppid in nodes && nodes[p].ppid != p then Some(nodes[p].ppid) else None
  }

  function Kids(nodes: Nodes, p: Pid): set<Pid> {
    set c | c in nodes && Parent(nodes, c) == Some(p)
  }

  function Roots(nodes: Nodes): set<Pid> {
    set p | p in nodes && Parent(nodes, p) == None
  }

  /** What `build` produces: the child lists enumerate the parent links. */
  predicate Built(t: Tree) {
    && (forall p :: p in t.nodes ==> t.nodes[p].pid == p)
    && (forall p :: p in t.children <==> p in t.nodes && Kids(t.nodes, p) != {})
    && (forall p :: p in t.children ==> Enumerates(t.children[p], Kids(t.nodes, p)))
  }

  function ChildList(t: Tree, p: Pid): (kids: seq<Pid>)
    ensures Built(t) ==> Enumerates(kids, Kids(t.nodes, p))
  {
    assert Built(t) && p !in t.nodes ==> Kids(t.nodes, p) == {};
    if p in t.children then t.children[p] else []
  }

  // ---- Ancestors ------------------------------------------------------------------

  /** The n-th ancestor of p, if its parent chain is that long. */
  function Anc(nodes: Nodes, p: Pid, n: nat): Option<Pid>
    decreases n
  {
    if n == 0 then Some(p)
    else match Parent(nodes, p)
      case None => None
      case Some(q) => Anc(nodes, q, n - 1)
  }

  ghost predicate Under(nodes: Nodes, q: Pid, p: Pid) {
    exists n: nat :: Anc(nodes, q, n) == Some(p)
  }

  /** p together with all its descendants. */
  ghost function Family(nodes: Nodes, p: Pid): set<Pid> {
    set q | q in nodes && Under(nodes, q, p)
  }

  ghost predicate OnCycle(nodes: Nodes, p: Pid) {
    exists n: nat :: n > 0 && Anc(nodes, p, n) == Some(p)
  }

  lemma {:induction false} AncAdd(nodes: Nodes, p: Pid, m: nat, n: nat)
    requires Anc(nodes, p, m).Some?
    ensures Anc(nodes, p, m + n) == Anc(nodes, Anc(nodes, p, m).value, n)
    decreases m
  {
    if m > 0 {
      AncAdd(nodes, Parent(nodes, p).value, m - 1, n);
    }
  }

  /** A chain that reaches further reached every shorter distance too. */
  lemma {:induction false} AncShorter(nodes: Nodes, p: Pid, m: nat, n: nat)
    requires m <= n && Anc(nodes, p, n).Some?
    ensures Anc(nodes, p, m).Some?
    decreases m
  {
    if m > 0 {
      AncShorter(nodes, Parent(nodes, p).value, m - 1, n - 1);
    }
  }

  /** Off cycles, a descendant's distance is unique. */
  lemma LevelUnique(nodes: Nodes, p: Pid, q: Pid, m: nat, n: nat)
    requires !OnCycle(nodes, p) && Anc(nodes, q, m) == Some(p) && Anc(nodes, q, n) == Some(p)
    ensures m == n
  {
    var less, gap := if m < n then m else n, if m < n then n - m else m - n;
    AncAdd(nodes, q, less, gap);
  }

  /** No cycle can be entered from outside: a child of a pid off every cycle is off
      every cycle. */
  lemma KidOffCycle(nodes: Nodes, p: Pid, c: Pid)
    requires !OnCycle(nodes, p) && Parent(nodes, c) == Some(p)
    ensures !OnCycle(nodes, c)
  {
    if OnCycle(nodes, c) {
      var n: nat :| n > 0 && Anc(nodes, c, n) == Some(c);
      assert Anc(nodes, c, 1) == Some(p) by {
        assert Anc(nodes, p, 0) == Some(p);
      }
      AncAdd(nodes, c, n, 1);
      AncAdd(nodes, c, 1, n);
    }
  }

  lemma RootOffCycle(nodes: Nodes, r: Pid)
    requires Parent(nodes, r) == None
    ensures !OnCycle(nodes, r)
  {
  }

  lemma KidUnder(nodes: Nodes, q: Pid, c: Pid, p: Pid, n: nat)
    requires Anc(nodes, q, n) == Some(c) && Parent(nodes, c) == Some(p)
    ensures Anc(nodes, q, n + 1) == Some(p)
  {
    AncAdd(nodes, q, n, 1);
    assert Anc(nodes, c, 1) == Some(p);
  }

  lemma SelfUnder(nodes: Nodes, p: Pid)
    requires p in nodes
    ensures p in Family(nodes, p)
  {
    assert Anc(nodes, p, 0) == Some(p);
  }

  /** Each child's family is strictly smaller: what makes every descent end. */
  lemma KidFamilySmaller(nodes: Nodes, p: Pid, c: Pid)
    requires p in nodes && !OnCycle(nodes, p) && Parent(nodes, c) == Some(p)
    ensures Family(nodes, c) <= Family(nodes, p) - {p}
    ensures |Family(nodes, c)| < |Family(nodes, p)|
  {
    forall q | q in Family(nodes, c) ensures q in Family(nodes, p) && q != p {
      var n: nat :| Anc(nodes, q, n) == Some(c);
      KidUnder(nodes, q, c, p, n);
    }
    SelfUnder(nodes, p);
    SubsetCardinality(Family(nodes, c), Family(nodes, p));
  }

  /** Every proper descendant of p is below exactly one of p's children. */
  lemma BelowOneKid(nodes: Nodes, p: Pid, q: Pid) returns (c: Pid)
    requires !OnCycle(nodes, p) && q in Family(nodes, p) && q != p
    ensures c in Kids(nodes, p) && q in Family(nodes, c)
    ensures forall other :: other in Kids(nodes, p) && q in Family(nodes, other) ==> other == c
  {
    var n: nat :| Anc(nodes, q, n) == Some(p);
    AncShorter(nodes, q, n - 1, n);
    c := Anc(nodes, q, n - 1).value;
    AncAdd(nodes, q, n - 1, 1);
    assert Parent(nodes, c) == Some(p) by {
      assert Anc(nodes, c, 1) == Some(p);
      assert Parent(nodes, c).Some? && Anc(nodes, Parent(nodes, c).value, 0) == Some(p);
    }
    forall other | other in Kids(nodes, p) && q in Family(nodes, other) ensures other == c {
      var m: nat :| Anc(nodes, q, m) == Some(other);
      KidUnder(nodes, q, other, p, m);
      LevelUnique(nodes, p, q, m + 1, n);
    }
  }

  // ---- Roots ------------------------------------------------------------------------

  /** The pids whose parent chain ends at a root. */
  ghost function Rooted(nodes: Nodes): set<Pid> {
    set q | q in nodes && exists r :: r in Roots(nodes) && Under(nodes, q, r)
  }

  /** No pid belongs to the families of two roots. */
  lemma RootFamiliesDisjoint(nodes: Nodes, a: Pid, b: Pid)
    requires a in Roots(nodes) && b in Roots(nodes) && a != b
    ensures Family(nodes, a) !! Family(nodes, b)
  {
    if q :| q in Family(nodes, a) && q in Family(nodes, b) {
      var m: nat :| Anc(nodes, q, m) == Some(a);
      var n: nat :| Anc(nodes, q, n) == Some(b);
      if m <= n {
        AncAdd(nodes, q, m, n - m);
      } else {
        AncAdd(nodes, q, n, m - n);
      }
    }
  }

  function Chain(nodes: Nodes, q: Pid, n: nat): (s: seq<Pid>)
    requires Anc(nodes, q, n).Some?
    ensures |s| == n + 1
    decreases n
  {
    if n == 0 then [q] else [q] + Chain(nodes, Parent(nodes, q).value, n - 1)
  }

  lemma {:induction false} ChainAt(nodes: Nodes, q: Pid, n: nat, i: nat)
    requires q in nodes && Anc(nodes, q, n).Some? && i <= n
    ensures Anc(nodes, q, i) == Some(Chain(nodes, q, n)[i]) && Chain(nodes, q, n)[i] in nodes
    decreases n
  {
    if i > 0 {
      ChainAt(nodes, Parent(nodes, q).value, n - 1, i - 1);
    }
  }

  /** A parent chain longer than the number of processes has entered a cycle. */
  lemma LongChainCycles(nodes: Nodes, q: Pid)
    requires q in nodes && Anc(nodes, q, |nodes|).Some?
    ensures exists i: nat :: Anc(nodes, q, i).Some? && OnCycle(nodes, Anc(nodes, q, i).value)
  {
    var s := Chain(nodes, q, |nodes|);
    forall i | 0 <= i < |s| ensures s[i] in nodes {
      ChainAt(nodes, q, |nodes|, i);
    }
    if NoDup(s) {
      assert |nodes.Keys| == |nodes|;
      EnumeratesBound(s, nodes.Keys);
    } else {
      var i, j :| 0 <= i < j < |s| && s[i] == s[j];
      ChainAt(nodes, q, |nodes|, i);
      ChainAt(nodes, q, |nodes|, j);
      AncAdd(nodes, q, i, j - i);
    }
  }

  lemma {:induction false} ChainEnds(nodes: Nodes, q: Pid, n: nat)
    requires q in nodes && Anc(nodes, q, n) == None
    ensures q in Rooted(nodes)
    decreases n
  {
    if Parent(nodes, q) == None {
      assert Anc(nodes, q, 0) == Some(q);
      assert q in Roots(nodes) && Under(nodes, q, q);
    } else {
      var p := Parent(nodes, q).value;
      ChainEnds(nodes, p, n - 1);
      var r :| r in Roots(nodes) && Under(nodes, p, r);
      var m: nat :| Anc(nodes, p, m) == Some(r);
      assert Anc(nodes, q, m + 1) == Some(r);
      assert Under(nodes, q, r);
    }
  }

  /** A pid is reachable from a root exactly when no ancestor of it is on a cycle. */
  lemma RootedIffNoCycleAbove(nodes: Nodes, q: Pid)
    requires q in nodes
    ensures q in Rooted(nodes) <==>
            forall i: nat :: Anc(nodes, q, i).Some? ==> !OnCycle(nodes, Anc(nodes, q, i).value)
  {
    if q in Rooted(nodes) {
      var r :| r in Roots(nodes) && Under(nodes, q, r);
      var n: nat :| Anc(nodes, q, n) == Some(r);
      forall i: nat | Anc(nodes, q, i).Some? ensures !OnCycle(nodes, Anc(nodes, q, i).value) {
        if OnCycle(nodes, Anc(nodes, q, i).value) {
          AncAdd(nodes, q, n, 1);
          assert Anc(nodes, r, 1) == None;
          CycleNeverEnds(nodes, q, i, n + 1);
        }
      }
    } else if Anc(nodes, q, |nodes|).Some? {
      LongChainCycles(nodes, q);
    } else {
      ChainEnds(nodes, q, |nodes|);
    }
  }

  /** From a cycle the parent chain goes on for ever. */
  lemma {:induction false} CycleNeverEnds(nodes: Nodes, q: Pid, i: nat, n: nat)
    requires Anc(nodes, q, i).Some? && OnCycle(nodes, Anc(nodes, q, i).value)
    ensures Anc(nodes, q, n).Some?
    decreases n - i
  {
    if n <= i {
      AncShorter(nodes, q, n, i);
    } else {
      var c := Anc(nodes, q, i).value;
      var l: nat :| l > 0 && Anc(nodes, c, l) == Some(c);
      AncAdd(nodes, q, i, l);
      CycleNeverEnds(nodes, q, i + l, n);
    }
  }
}
