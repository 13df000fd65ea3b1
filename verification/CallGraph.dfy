/** The profiler's call graph as it lies in memory, over every run of calls
    recorded and blocks given to others. */
module CallGraph {
  import opened Heap
  import opened Options

  datatype Arc = Arc(at: nat, pc: int)
  datatype Fn = Fn(at: nat, pc: int, arcs: seq<Arc>)

  /** What a node is: a function of some bucket, or an arc of the function at
      some node, counted from the end of its list. */
  datatype Role = FnRole(bucket: nat, rank: nat) | ArcRole(owner: nat, rank: nat)

  /** The functions of each bucket and their arcs, the latest first, and what
      each node is. */
  datatype Graph = Graph(lists: seq<seq<Fn>>, role: map<nat, Role>)

  function FnAt(fns: seq<Fn>, i: nat): nat { if i < |fns| then fns[i].at else 0 }
  function ArcAt(arcs: seq<Arc>, j: nat): nat { if j < |arcs| then arcs[j].at else 0 }

  /** Arc `j` of function `f` is in memory as the graph has it. */
  predicate ArcHolds(p: Profile, role: map<nat, Role>, f: Fn, j: nat)
    requires j < |f.arcs|
  {
    var a := f.arcs[j];
    && a.at in role && role[a.at] == ArcRole(f.at, |f.arcs| - 1 - j)
    && Word(p, a.at) == ArcAt(f.arcs, j + 1) && Word(p, a.at + 4) == a.pc
  }

  predicate ArcsHold(p: Profile, role: map<nat, Role>, f: Fn) {
    && Word(p, f.at + 8) == ArcAt(f.arcs, 0)
    && forall j :: 0 <= j < |f.arcs| ==> ArcHolds(p, role, f, j)
  }

  predicate FnHolds(p: Profile, role: map<nat, Role>, fns: seq<Fn>, b: nat, i: nat)
    requires i < |fns|
  {
    var f := fns[i];
    && f.at in role && role[f.at] == FnRole(b, |fns| - 1 - i)
    && Word(p, f.at) == FnAt(fns, i + 1) && Word(p, f.at + 4) == f.pc
    && ArcsHold(p, role, f)
  }

  predicate ListHolds(p: Profile, role: map<nat, Role>, fns: seq<Fn>, b: nat) {
    && b < |p.heads| && p.heads[b] == FnAt(fns, 0)
    && forall i :: 0 <= i < |fns| ==> FnHolds(p, role, fns, b, i)
  }

  predicate NodesHold(p: Profile, role: map<nat, Role>) {
    forall x: nat :: x in role ==> IsNode(p, x)
  }

  /** Memory holds exactly the graph, on nodes of its own. */
  predicate Holds(p: Profile, g: Graph) {
    && Inv(p.heap) && |p.heads| == |g.lists| && NodesHold(p, g.role)
    && forall b :: 0 <= b < |g.lists| ==> ListHolds(p, g.role, g.lists[b], b)
  }

  /** No node is two things: different functions and arcs are at different nodes. */
  lemma NodesDiffer(p: Profile, g: Graph, b: nat, i: nat, c: nat, k: nat)
    requires Holds(p, g) && b < |g.lists| && i < |g.lists[b]| && c < |g.lists| && k < |g.lists[c]|
    ensures g.lists[b][i].at == g.lists[c][k].at ==> b == c && i == k
    ensures forall j :: 0 <= j < |g.lists[b][i].arcs| ==> g.lists[b][i].arcs[j].at != g.lists[c][k].at
    ensures forall j, l :: 0 <= j < |g.lists[b][i].arcs| && 0 <= l < |g.lists[c][k].arcs| ==>
              g.lists[b][i].arcs[j].at == g.lists[c][k].arcs[l].at ==> b == c && i == k && j == l
  {
    hide Word, IsNode, Inv;
    var f, h := g.lists[b][i], g.lists[c][k];
    assert ListHolds(p, g.role, g.lists[b], b) && ListHolds(p, g.role, g.lists[c], c);
    assert FnHolds(p, g.role, g.lists[b], b, i) && FnHolds(p, g.role, g.lists[c], c, k);
    forall j | 0 <= j < |f.arcs| ensures f.arcs[j].at != h.at {
      assert ArcHolds(p, g.role, f, j);
    }
    forall j, l | 0 <= j < |f.arcs| && 0 <= l < |h.arcs| && f.arcs[j].at == h.arcs[l].at
      ensures b == c && i == k && j == l
    {
      assert ArcHolds(p, g.role, f, j) && ArcHolds(p, g.role, h, l);
    }
  }

  // ------------------------------------------------------------------
  // Memory says which graph it holds
  // ------------------------------------------------------------------

  /** No node is at the null pointer. */
  lemma NodeNotNull(p: Profile, x: nat)
    requires Inv(p.heap) && IsNode(p, x)
    ensures x > 0
  {
  }

  lemma {:induction false} SameArcs(p: Profile, role: map<nat, Role>, role': map<nat, Role>, f: Fn, h: Fn, j: nat)
    requires Inv(p.heap) && NodesHold(p, role) && NodesHold(p, role')
    requires ArcsHold(p, role, f) && ArcsHold(p, role', h)
    requires j <= |f.arcs| && j <= |h.arcs| && ArcAt(f.arcs, j) == ArcAt(h.arcs, j)
    ensures f.arcs[j..] == h.arcs[j..]
    decreases |f.arcs| - j
  {
    hide Word, IsNode, Inv;
    if j < |f.arcs| {
      assert ArcHolds(p, role, f, j);
      NodeNotNull(p, f.arcs[j].at);
      assert ArcHolds(p, role', h, j);
      SameArcs(p, role, role', f, h, j + 1);
      assert f.arcs[j..] == [f.arcs[j]] + f.arcs[j + 1..] && h.arcs[j..] == [h.arcs[j]] + h.arcs[j + 1..];
    } else if j < |h.arcs| {
      assert ArcHolds(p, role', h, j);
      NodeNotNull(p, h.arcs[j].at);
    }
  }

  lemma {:induction false} SameFns(
      p: Profile, role: map<nat, Role>, role': map<nat, Role>, fns: seq<Fn>, more: seq<Fn>, b: nat, i: nat)
    requires Inv(p.heap) && NodesHold(p, role) && NodesHold(p, role')
    requires ListHolds(p, role, fns, b) && ListHolds(p, role', more, b)
    requires i <= |fns| && i <= |more| && FnAt(fns, i) == FnAt(more, i)
    ensures fns[i..] == more[i..]
    decreases |fns| - i
  {
    hide Word, IsNode, Inv, ArcsHold;
    if i < |fns| {
      assert FnHolds(p, role, fns, b, i);
      NodeNotNull(p, fns[i].at);
      assert FnHolds(p, role', more, b, i);
      SameArcLists(p, role, role', fns[i], more[i]);
      SameFns(p, role, role', fns, more, b, i + 1);
      assert fns[i..] == [fns[i]] + fns[i + 1..] && more[i..] == [more[i]] + more[i + 1..];
    } else if i < |more| {
      assert FnHolds(p, role', more, b, i);
      NodeNotNull(p, more[i].at);
    }
  }

  lemma SameArcLists(p: Profile, role: map<nat, Role>, role': map<nat, Role>, f: Fn, h: Fn)
    requires Inv(p.heap) && NodesHold(p, role) && NodesHold(p, role')
    requires ArcsHold(p, role, f) && ArcsHold(p, role', h) && f.at == h.at
    ensures f.arcs == h.arcs
  {
    SameArcs(p, role, role', f, h, 0);
    assert f.arcs[0..] == f.arcs && h.arcs[0..] == h.arcs;
  }

  /** Memory holds one call graph only: following the links from the heads of the
      buckets to the null pointers finds exactly these functions and arcs. */
  lemma HoldsOne(p: Profile, g: Graph, g': Graph)
    requires Holds(p, g) && Holds(p, g')
    ensures g.lists == g'.lists
  {
    hide Word, IsNode, Inv, ListHolds;
    forall b | 0 <= b < |g.lists| ensures g.lists[b] == g'.lists[b] {
      OneList(p, g, g', b);
    }
  }

  lemma OneList(p: Profile, g: Graph, g': Graph, b: nat)
    requires Holds(p, g) && Holds(p, g') && b < |g.lists|
    ensures g.lists[b] == g'.lists[b]
  {
    hide Word, IsNode, Inv, FnHolds;
    var fns, more := g.lists[b], g'.lists[b];
    assert ListHolds(p, g.role, fns, b) && ListHolds(p, g'.role, more, b);
    SameFns(p, g.role, g'.role, fns, more, b, 0);
    assert fns[0..] == fns && more[0..] == more;
  }

  // ------------------------------------------------------------------
  // What leaves the graph as it is
  // ------------------------------------------------------------------

  /** Memory as far as the graph sees it. */
  predicate Alike(p: Profile, q: Profile, role: map<nat, Role>) {
    forall x: nat :: x in role ==> IsNode(q, x) && Same(p, q, x)
  }

  lemma ListStaysAlike(p: Profile, q: Profile, role: map<nat, Role>, fns: seq<Fn>, b: nat)
    requires ListHolds(p, role, fns, b) && Alike(p, q, role) && b < |q.heads| && q.heads[b] == p.heads[b]
    ensures ListHolds(q, role, fns, b)
  {
    hide Word, IsNode;
    forall i | 0 <= i < |fns| ensures FnHolds(q, role, fns, b, i) {
      assert FnHolds(p, role, fns, b, i);
      ArcsStayAlike(p, q, role, fns[i]);
    }
  }

  lemma ArcsStayAlike(p: Profile, q: Profile, role: map<nat, Role>, f: Fn)
    requires ArcsHold(p, role, f) && f.at in role && Alike(p, q, role)
    ensures ArcsHold(q, role, f)
  {
    hide Word, IsNode;
    forall j | 0 <= j < |f.arcs| ensures ArcHolds(q, role, f, j) {
      assert ArcHolds(p, role, f, j);
    }
  }

  lemma GraphStaysAlike(p: Profile, q: Profile, g: Graph)
    requires Holds(p, g) && Inv(q.heap) && q.heads == p.heads && Alike(p, q, g.role)
    ensures Holds(q, g)
  {
    hide Word, IsNode, Inv, ListHolds;
    forall b | 0 <= b < |g.lists| ensures ListHolds(q, g.role, g.lists[b], b) {
      ListStaysAlike(p, q, g.role, g.lists[b], b);
    }
  }

  /** A node more in the roles changes nothing for those there are. */
  lemma ListMoreRoles(p: Profile, role: map<nat, Role>, fns: seq<Fn>, b: nat, n: nat, r: Role)
    requires ListHolds(p, role, fns, b) && n !in role
    ensures ListHolds(p, role[n := r], fns, b)
  {
    hide Word;
    var role' := role[n := r];
    forall i | 0 <= i < |fns| ensures FnHolds(p, role', fns, b, i) {
      assert FnHolds(p, role, fns, b, i);
      ArcsMoreRoles(p, role, fns[i], n, r);
    }
  }

  lemma ArcsMoreRoles(p: Profile, role: map<nat, Role>, f: Fn, n: nat, r: Role)
    requires ArcsHold(p, role, f) && n !in role
    ensures ArcsHold(p, role[n := r], f)
  {
    hide Word;
    var role' := role[n := r];
    forall j | 0 <= j < |f.arcs| ensures ArcHolds(p, role', f, j) {
      assert ArcHolds(p, role, f, j);
    }
  }

  // ------------------------------------------------------------------
  // A new function, a new arc
  // ------------------------------------------------------------------

  function WithFn(g: Graph, b: nat, e: nat, selfPc: int): Graph
    requires b < |g.lists|
  {
    Graph(g.lists[b := [Fn(e, selfPc, [])] + g.lists[b]], g.role[e := FnRole(b, |g.lists[b]|)])
  }

  lemma EntryHolds(p: Profile, g: Graph, selfPc: int, b: nat)
    requires Holds(p, g) && Room(p.heap, NODE) && b < |g.lists|
    ensures var (q, e) := NewEntry(p, selfPc, b);
            Holds(q, WithFn(g, b, e, selfPc)) && e !in g.role
  {
    NewEntryFresh(p, selfPc, b);
    hide Word, IsNode, Inv, NewEntry, Allocate, Room, ListHolds;
    var (q, e) := NewEntry(p, selfPc, b);
    var role := g.role[e := FnRole(b, |g.lists[b]|)];
    var fns := g.lists[b];
    var g' := WithFn(g, b, e, selfPc);
    forall c | 0 <= c < |g'.lists| ensures ListHolds(q, role, g'.lists[c], c) {
      if c != b {
        ListStaysAlike(p, q, g.role, g.lists[c], c);
        ListMoreRoles(q, g.role, g.lists[c], c, e, FnRole(b, |fns|));
      } else {
        var r := q.(heads := p.heads);
        AlikeHeads(p, q, p.heads, g.role);
        ListStaysAlike(p, r, g.role, fns, b);
        ListMoreRoles(r, g.role, fns, b, e, FnRole(b, |fns|));
        FnInFront(q, r, role, fns, b, Fn(e, selfPc, []));
      }
    }
  }

  lemma AlikeHeads(p: Profile, q: Profile, heads: seq<nat>, role: map<nat, Role>)
    requires Alike(p, q, role)
    ensures Alike(p, q.(heads := heads), role)
  {
  }

  /** A function put in front of a list. */
  lemma FnInFront(q: Profile, r: Profile, role: map<nat, Role>, fns: seq<Fn>, b: nat, f: Fn)
    requires ListHolds(r, role, fns, b) && r.mem == q.mem
    requires b < |q.heads| && q.heads[b] == f.at && f.arcs == []
    requires f.at in role && role[f.at] == FnRole(b, |fns|)
    requires Word(q, f.at) == FnAt(fns, 0) && Word(q, f.at + 4) == f.pc && Word(q, f.at + 8) == 0
    ensures ListHolds(q, role, [f] + fns, b)
  {
    var more := [f] + fns;
    forall i | 0 <= i < |more| ensures FnHolds(q, role, more, b, i) {
      if i > 0 {
        assert more[i] == fns[i - 1] && FnAt(more, i + 1) == FnAt(fns, i);
        assert FnHolds(r, role, fns, b, i - 1);
        SameMemory(q, r, role, fns[i - 1]);
      } else {
        assert FnAt(more, 1) == FnAt(fns, 0);
      }
    }
  }

  lemma SameMemory(q: Profile, r: Profile, role: map<nat, Role>, f: Fn)
    requires r.mem == q.mem && ArcsHold(r, role, f)
    ensures ArcsHold(q, role, f)
    ensures Word(q, f.at) == Word(r, f.at) && Word(q, f.at + 4) == Word(r, f.at + 4)
  {
    forall j | 0 <= j < |f.arcs| ensures ArcHolds(q, role, f, j) {
      assert ArcHolds(r, role, f, j);
    }
  }

  function MoreArcs(f: Fn, a: nat, fromPc: int): Fn {
    f.(arcs := [Arc(a, fromPc)] + f.arcs)
  }

  function WithArc(g: Graph, b: nat, i: nat, a: nat, fromPc: int): Graph
    requires b < |g.lists| && i < |g.lists[b]|
  {
    var f := g.lists[b][i];
    Graph(g.lists[b := g.lists[b][i := MoreArcs(f, a, fromPc)]], g.role[a := ArcRole(f.at, |f.arcs|)])
  }

  /** Memory as the graph sees it, but for the head of the arcs of function `x`. */
  predicate AlikeBut(p: Profile, q: Profile, role: map<nat, Role>, x: nat) {
    && (forall y: nat :: y in role ==> IsNode(q, y) && (y != x ==> Same(p, q, y)))
    && Word(q, x) == Word(p, x) && Word(q, x + 4) == Word(p, x + 4)
  }

  predicate Extends(role: map<nat, Role>, role': map<nat, Role>) {
    forall y: nat :: y in role ==> y in role' && role'[y] == role[y]
  }

  /** Another function stays as it was: it is not at `x`, and neither are its arcs. */
  lemma FnKept(
      p: Profile, q: Profile, role: map<nat, Role>, role': map<nat, Role>, fns: seq<Fn>, b: nat, k: nat, x: nat)
    requires k < |fns| && FnHolds(p, role, fns, b, k) && fns[k].at != x
    requires x in role && role[x].FnRole? && AlikeBut(p, q, role, x) && Extends(role, role')
    ensures FnHolds(q, role', fns, b, k)
  {
    hide Word, IsNode;
    var f := fns[k];
    forall j | 0 <= j < |f.arcs| ensures ArcHolds(q, role', f, j) {
      assert ArcHolds(p, role, f, j);
    }
  }

  /** The function at `x` with the new arc in front of its others. */
  lemma FnGrows(p: Profile, q: Profile, role: map<nat, Role>, role': map<nat, Role>, fns: seq<Fn>, b: nat, k: nat,
                a: nat, fromPc: int)
    requires k < |fns| && FnHolds(p, role, fns, b, k)
    requires AlikeBut(p, q, role, fns[k].at) && Extends(role, role') && a !in role
    requires role[fns[k].at].FnRole? && a in role' && role'[a] == ArcRole(fns[k].at, |fns[k].arcs|)
    requires Word(q, a) == Word(p, fns[k].at + 8) && Word(q, a + 4) == fromPc && Word(q, fns[k].at + 8) == a
    ensures FnHolds(q, role', fns[k := MoreArcs(fns[k], a, fromPc)], b, k)
  {
    hide Word, IsNode;
    var f := fns[k];
    var h := MoreArcs(f, a, fromPc);
    var more := fns[k := h];
    assert FnAt(more, k + 1) == FnAt(fns, k + 1);
    forall j | 0 <= j < |h.arcs| ensures ArcHolds(q, role', h, j) {
      if j > 0 {
        assert h.arcs[j] == f.arcs[j - 1] && ArcAt(h.arcs, j + 1) == ArcAt(f.arcs, j);
        assert ArcHolds(p, role, f, j - 1);
      } else {
        assert ArcAt(h.arcs, 1) == ArcAt(f.arcs, 0);
      }
    }
  }

  lemma ArcEntryHolds(p: Profile, g: Graph, fromPc: int, b: nat, i: nat)
    requires Holds(p, g) && Room(p.heap, NODE) && b < |g.lists| && i < |g.lists[b]|
    ensures var (q, a) := NewArc(p, fromPc, g.lists[b][i].at);
            Holds(q, WithArc(g, b, i, a, fromPc)) && a !in g.role
  {
    hide Word, Inv, NewArc, Allocate, Room, ListHolds, AlikeBut, Extends;
    var f := g.lists[b][i];
    FnIsNode(p, g, b, i);
    NewArcAlike(p, g, fromPc, f.at);
    var (q, a) := NewArc(p, fromPc, f.at);
    var g' := WithArc(g, b, i, a, fromPc);
    RoleMore(g.role, a, ArcRole(f.at, |f.arcs|));
    forall c | 0 <= c < |g'.lists| ensures ListHolds(q, g'.role, g'.lists[c], c) {
      ListWithArc(p, q, g, g'.role, b, i, c, a, fromPc);
    }
  }

  lemma RoleMore(role: map<nat, Role>, n: nat, r: Role)
    requires n !in role
    ensures Extends(role, role[n := r])
  {
  }

  lemma NewArcAlike(p: Profile, g: Graph, fromPc: int, x: nat)
    requires Holds(p, g) && Room(p.heap, NODE) && IsNode(p, x) && x in g.role
    ensures var (q, a) := NewArc(p, fromPc, x);
            && Inv(q.heap) && q.heads == p.heads && a !in g.role && IsNode(q, a) && NodesHold(q, g.role)
            && AlikeBut(p, q, g.role, x)
            && Word(q, a) == Word(p, x + 8) && Word(q, a + 4) == fromPc && Word(q, x + 8) == a
  {
    NewArcFresh(p, fromPc, x);
    hide Word, IsNode, Inv, NewArc, Allocate, Room, ListHolds;
  }

  lemma ListWithArc(
      p: Profile, q: Profile, g: Graph, role': map<nat, Role>, b: nat, i: nat, c: nat, a: nat, fromPc: int)
    requires Holds(p, g) && b < |g.lists| && i < |g.lists[b]| && c < |g.lists| && q.heads == p.heads
    requires var x, arcs := g.lists[b][i].at, g.lists[b][i].arcs;
             && x in g.role && AlikeBut(p, q, g.role, x) && Extends(g.role, role') && a !in g.role
             && a in role' && role'[a] == ArcRole(x, |arcs|)
             && Word(q, a) == Word(p, x + 8) && Word(q, a + 4) == fromPc && Word(q, x + 8) == a
    ensures ListHolds(q, role', WithArc(g, b, i, a, fromPc).lists[c], c)
  {
    hide Word, IsNode, Inv;
    var f := g.lists[b][i];
    var fns, more := g.lists[c], WithArc(g, b, i, a, fromPc).lists[c];
    FnIsNode(p, g, b, i);
    assert ListHolds(p, g.role, fns, c);
    forall k | 0 <= k < |more| ensures FnHolds(q, role', more, c, k) {
      assert FnHolds(p, g.role, fns, c, k);
      if c == b && k == i {
        FnGrows(p, q, g.role, role', fns, b, k, a, fromPc);
      } else {
        FnKept(p, q, g.role, role', fns, c, k, f.at);
        assert more[k] == fns[k] && FnAt(more, k + 1) == FnAt(fns, k + 1);
      }
    }
    assert FnAt(more, 0) == FnAt(fns, 0);
  }

  lemma FnIsNode(p: Profile, g: Graph, b: nat, i: nat)
    requires Holds(p, g) && b < |g.lists| && i < |g.lists[b]|
    ensures g.lists[b][i].at in g.role && IsNode(p, g.lists[b][i].at)
    ensures g.role[g.lists[b][i].at] == FnRole(b, |g.lists[b]| - 1 - i)
  {
    assert ListHolds(p, g.role, g.lists[b], b);
    assert FnHolds(p, g.role, g.lists[b], b, i);
  }

  // ------------------------------------------------------------------
  // Every run
  // ------------------------------------------------------------------

  /** A call is recorded for the function at place `found` of its bucket, or for
      a new one; or blocks are given to others. */
  datatype Event =
    | Call(selfPc: int, fromPc: int, bucket: nat, found: Option<nat>)
    | Other(op: Op)

  predicate CanHappen(p: Profile, g: Graph, ev: Event) {
    match ev
    case Call(_, _, b, found) =>
      && b < |g.lists| && |p.heads| == |g.lists| && (found.Some? ==> found.value < |g.lists[b]|)
      && CanRecord(p, if found.Some? then Some(g.lists[b][found.value].at) else None, b)
    case Other(op) => Legal(p.heap, op)
  }

  function Happens(p: Profile, g: Graph, ev: Event): (Profile, Graph)
    requires CanHappen(p, g, ev)
  {
    match ev
    case Other(op) => (p.(heap := Step(p.heap, op)), g)
    case Call(selfPc, fromPc, b, found) =>
      match found
      case Some(i) =>
        var (r, _, a) := Record(p, selfPc, fromPc, Some(g.lists[b][i].at), b);
        (r, WithArc(g, b, i, a, fromPc))
      case None =>
        var (r, e, a) := Record(p, selfPc, fromPc, None, b);
        (r, WithArc(WithFn(g, b, e, selfPc), b, 0, a, fromPc))
  }

  lemma HappensKeeps(p: Profile, g: Graph, ev: Event)
    requires Holds(p, g) && CanHappen(p, g, ev)
    ensures Holds(Happens(p, g, ev).0, Happens(p, g, ev).1)
  {
    hide Inv, Allocate, Room, NewEntry, NewArc, IsNode, Word, ListHolds;
    match ev
    case Other(op) =>
      OtherAlike(p, g.role, op);
      hide Step;
      GraphStaysAlike(p, p.(heap := Step(p.heap, op)), g);
    case Call(selfPc, fromPc, b, found) =>
      match found {
        case Some(i) => ArcEntryHolds(p, g, fromPc, b, i);
        case None =>
          EntryHolds(p, g, selfPc, b);
          NewEntryFresh(p, selfPc, b);
          var (q, e) := NewEntry(p, selfPc, b);
          ArcEntryHolds(q, WithFn(g, b, e, selfPc), fromPc, b, 0);
      }
  }

  lemma OtherAlike(p: Profile, role: map<nat, Role>, op: Op)
    requires Inv(p.heap) && Legal(p.heap, op) && NodesHold(p, role)
    ensures var q := p.(heap := Step(p.heap, op));
            Inv(q.heap) && Alike(p, q, role)
  {
    hide Inv, Room, Sbrk, Allocate;
    match op
    case DoSbrk(incr) => SbrkKeeps(p.heap, incr);
    case DoAllocate(size) => AllocateKeeps(p.heap, size);
  }

  predicate CanRun(p: Profile, g: Graph, evs: seq<Event>)
    decreases |evs|
  {
    evs != [] ==>
      && CanHappen(p, g, evs[0])
      && CanRun(Happens(p, g, evs[0]).0, Happens(p, g, evs[0]).1, evs[1..])
  }

  function RunAll(p: Profile, g: Graph, evs: seq<Event>): (Profile, Graph)
    requires CanRun(p, g, evs)
    decreases |evs|
  {
    if evs == [] then (p, g) else RunAll(Happens(p, g, evs[0]).0, Happens(p, g, evs[0]).1, evs[1..])
  }

  function Empty(): Graph { Graph(seq(BUCKETS, _ => []), map[]) }

  /** Over every run, memory holds exactly the calls recorded, each function and
      each arc on a node of its own, whatever blocks others were given between. */
  lemma {:induction false} RunHolds(p: Profile, g: Graph, evs: seq<Event>)
    requires Holds(p, g) && CanRun(p, g, evs)
    ensures Holds(RunAll(p, g, evs).0, RunAll(p, g, evs).1)
    decreases |evs|
  {
    hide Holds, Happens, CanHappen;
    if evs != [] {
      HappensKeeps(p, g, evs[0]);
      RunHolds(Happens(p, g, evs[0]).0, Happens(p, g, evs[0]).1, evs[1..]);
    }
  }

  /** And it begins so. */
  lemma BeginsEmpty(p: Profile)
    requires Inv(p.heap) && p.heads == seq(BUCKETS, _ => 0)
    ensures Holds(p, Empty())
  {
    hide Inv, Word, IsNode;
  }
}
