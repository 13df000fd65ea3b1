/** The heap: a bump allocator, the slabs the profiler cuts its records from,
    and the call graph it links out of them. */
module Heap {
  import opened Options

  /** A block somebody was given. */
  datatype Block = Block(at: nat, size: nat)

  /** `blocks` are all the blocks given so far.  The slab's pointer and size are
      32-bit words. */
  datatype State = State(start: nat, limit: nat, end: nat, slabPtr: nat, slabSize: nat, blocks: seq<Block>)

  const SLAB: nat := 1020
  const WORD: nat := 0x1_0000_0000

  function Aligned(a: nat): (r: nat)
    ensures a <= r < a + 4 && r % 4 == 0
  {
    (a + 3) / 4 * 4
  }

  // ------------------------------------------------------------------
  // The allocators
  // ------------------------------------------------------------------

  /** Move the end of the heap.  It stays aligned even when the call fails. */
  function Bump(h: State, incr: nat): (State, Option<nat>) {
    var e := Aligned(h.end);
    if e + incr > h.limit then (h.(end := e), None) else (h.(end := e + incr), Some(e))
  }

  function Sbrk(h: State, incr: nat): (State, Option<nat>) {
    var (h', at) := Bump(h, incr);
    if at.None? then (h', at) else (h'.(blocks := h.blocks + [Block(at.value, incr)]), at)
  }

  /** The slab the next piece comes from.  When the heap has no more to give,
      the pointer is what the failed call returned, minus one as a word. */
  function Refilled(h: State, size: nat): State {
    if size <= h.slabSize then h
    else
      var (h', at) := Bump(h, SLAB);
      h'.(slabPtr := if at.Some? then at.value else WORD - 1, slabSize := SLAB)
  }

  /** Cut a piece off the slab, whether or not it fits. */
  function Allocate(h: State, size: nat): (State, nat) {
    var g := Refilled(h, size);
    (g.(slabPtr := (g.slabPtr + size) % WORD, slabSize := (g.slabSize - size) % WORD,
        blocks := g.blocks + [Block(g.slabPtr, size)]),
     g.slabPtr)
  }

  /** The heap can give the profiler `size` bytes. */
  predicate Room(h: State, size: nat) {
    0 < size && (size <= h.slabSize || (size <= SLAB && Aligned(h.end) + SLAB <= h.limit))
  }

  // ------------------------------------------------------------------
  // Blocks never overlap
  // ------------------------------------------------------------------

  predicate Apart(a: Block, b: Block) {
    a.at + a.size <= b.at || b.at + b.size <= a.at
  }

  predicate Inside(h: State, b: Block) {
    h.start <= b.at && b.at + b.size <= h.end && b.at + b.size <= h.limit
  }

  /** All blocks are inside the heap and apart from each other and from what is
      left of the slab.  The heap does not begin at the null pointer. */
  predicate Inv(h: State) {
    var slab := Block(h.slabPtr, h.slabSize);
    && 0 < h.start <= h.end && h.limit < WORD && h.slabSize < WORD
    && (h.slabSize > 0 ==> Inside(h, slab))
    && (forall i :: 0 <= i < |h.blocks| ==> Inside(h, h.blocks[i]) && (h.slabSize > 0 ==> Apart(h.blocks[i], slab)))
    && (forall i, j :: 0 <= i < j < |h.blocks| ==> Apart(h.blocks[i], h.blocks[j]))
  }

  lemma SbrkKeeps(h: State, incr: nat)
    requires Inv(h)
    ensures var (h', at) := Sbrk(h, incr);
            && Inv(h')
            && (at.Some? <==> Aligned(h.end) + incr <= h.limit)
            && (at.Some? ==> at.value % 4 == 0 && h'.blocks == h.blocks + [Block(at.value, incr)])
            && (at.None? ==> h'.blocks == h.blocks)
            && (at.Some? ==> h.end <= at.value < h.end + 4 && h'.end == at.value + incr)
            && (at.None? ==> h'.end % 4 == 0 && h.end <= h'.end < h.end + 4)
            && h' == h.(end := h'.end, blocks := h'.blocks)
  {
  }

  /** A request that fails takes nothing: the next one is answered, and leaves the
      heap, as if it had not been made. */
  lemma FailedRequestIsFree(h: State, incr: nat, next: nat)
    requires Sbrk(h, incr).1.None?
    ensures Sbrk(Sbrk(h, incr).0, next) == Sbrk(h, next)
  {
    assert Aligned(Aligned(h.end)) == Aligned(h.end);
  }

  lemma AllocateKeeps(h: State, size: nat)
    requires Inv(h) && Room(h, size)
    ensures var (h', at) := Allocate(h, size);
            && Inv(h') && h'.blocks == h.blocks + [Block(at, size)]
            && (if size <= h.slabSize then at == h.slabPtr && h'.end == h.end && h'.slabSize == h.slabSize - size
                else at % 4 == 0 && h.end <= at < h.end + 4 && h'.end == at + SLAB && h'.slabSize == SLAB - size)
            && h'.slabPtr == at + size
  {
    RefilledKeeps(h, size);
    var g := Refilled(h, size);
    CutKeeps(g, size);
  }

  lemma RefilledKeeps(h: State, size: nat)
    requires Inv(h) && Room(h, size)
    ensures var g := Refilled(h, size);
            && Inv(g) && g.blocks == h.blocks && size <= g.slabSize
            && (size > h.slabSize ==>
                  && g.slabPtr % 4 == 0 && h.end <= g.slabPtr < h.end + 4
                  && g.end == g.slabPtr + SLAB && g.slabSize == SLAB)
  {
  }

  lemma CutKeeps(g: State, size: nat)
    requires Inv(g) && 0 < size <= g.slabSize
    ensures var (h', at) := Allocate(g, size);
            && Inv(h') && h'.blocks == g.blocks + [Block(at, size)]
            && at == g.slabPtr && h'.end == g.end && h'.slabSize == g.slabSize - size && h'.slabPtr == at + size
  {
    var (h', at) := Allocate(g, size);
    assert g.slabPtr + size <= g.limit;
    assert h'.slabSize == g.slabSize - size;
    assert h'.slabSize > 0 ==> h'.slabPtr == g.slabPtr + size;
  }

  /** A piece is inside the heap exactly if there was room for it: a request
      longer than a slab, or made when the heap is exhausted, is answered with
      a piece that is not. */
  lemma AllocateExactly(h: State, size: nat)
    requires Inv(h) && 0 < size
    ensures var (h', at) := Allocate(h, size);
            Inside(h', Block(at, size)) <==> Room(h, size)
  {
    if Room(h, size) {
      RefilledKeeps(h, size);
    }
  }

  /** So it is from the start with a heap smaller than one slab: whatever the
      request, the first piece is at the last address there is. */
  lemma SmallHeapGivesNoPiece(start: nat, limit: nat, size: nat)
    requires 0 < start && limit < WORD && Aligned(start) + SLAB > limit && 0 < size
    ensures var h := State(start, limit, start, 0, 0, []);
            var (h', at) := Allocate(h, size);
            && Inv(h) && at == WORD - 1 && !Inside(h', Block(at, size))
  {
  }

  datatype Op = DoSbrk(incr: nat) | DoAllocate(size: nat)

  predicate Legal(h: State, op: Op) {
    op.DoAllocate? ==> Room(h, op.size)
  }

  function Step(h: State, op: Op): State {
    match op
    case DoSbrk(incr) => Sbrk(h, incr).0
    case DoAllocate(size) => Allocate(h, size).0
  }

  predicate LegalRun(h: State, ops: seq<Op>)
    decreases |ops|
  {
    ops == [] || (Legal(h, ops[0]) && LegalRun(Step(h, ops[0]), ops[1..]))
  }

  function Run(h: State, ops: seq<Op>): State
    requires LegalRun(h, ops)
    decreases |ops|
  {
    if ops == [] then h else Run(Step(h, ops[0]), ops[1..])
  }

  /** Over every run, blocks once given stay, and all are inside the heap and
      pairwise apart. */
  lemma {:induction false} RunKeeps(h: State, ops: seq<Op>)
    requires Inv(h) && LegalRun(h, ops)
    ensures Inv(Run(h, ops)) && h.blocks <= Run(h, ops).blocks
    decreases |ops|
  {
    hide Inv, Sbrk, Allocate, Room;
    if ops != [] {
      match ops[0] {
        case DoSbrk(incr) => SbrkKeeps(h, incr);
        case DoAllocate(size) => AllocateKeeps(h, size);
      }
      RunKeeps(Step(h, ops[0]), ops[1..]);
    }
  }

  // ------------------------------------------------------------------
  // The call graph
  // ------------------------------------------------------------------

  const NODE: nat := 12
  const BUCKETS: nat := 64

  /** Memory by word address; the heads of the lists of functions. */
  datatype Profile = Profile(heap: State, mem: map<nat, int>, heads: seq<nat>)

  function Word(p: Profile, a: nat): int {
    if a in p.mem then p.mem[a] else 0
  }

  function Poke(p: Profile, a: nat, w: int): Profile {
    p.(mem := p.mem[a := w])
  }

  /** A new function at the front of list `b`. */
  function NewEntry(p: Profile, selfPc: int, b: nat): (Profile, nat)
    requires b < |p.heads|
  {
    var (h, e) := Allocate(p.heap, NODE);
    var p' := Poke(Poke(Poke(p.(heap := h), e + 4, selfPc), e + 8, 0), e, p.heads[b]);
    (p'.(heads := p.heads[b := e]), e)
  }

  /** A new arc at the front of the function's list. */
  function NewArc(p: Profile, fromPc: int, e: nat): (Profile, nat) {
    var (h, a) := Allocate(p.heap, NODE);
    var p' := Poke(Poke(p.(heap := h), a + 4, fromPc), a + 8, 1);
    (Poke(Poke(p', a, Word(p', e + 8)), e + 8, a), a)
  }

  /** Record a call: a new function if there is none yet, and a new arc. */
  function Record(p: Profile, selfPc: int, fromPc: int, entry: Option<nat>, b: nat): (Profile, nat, nat)
    requires CanRecord(p, entry, b)
  {
    var (q, e) := if entry.None? then NewEntry(p, selfPc, b) else (p, entry.value);
    var (r, a) := NewArc(q, fromPc, e);
    (r, e, a)
  }

  predicate CanRecord(p: Profile, entry: Option<nat>, b: nat) {
    && b < |p.heads|
    && Room(p.heap, NODE) && (entry.None? ==> Room(Allocate(p.heap, NODE).0, NODE))
  }

  predicate IsNode(p: Profile, x: nat) {
    Block(x, NODE) in p.heap.blocks
  }

  /** The words of node `x` are the same. */
  predicate Same(p: Profile, q: Profile, x: nat) {
    Word(q, x) == Word(p, x) && Word(q, x + 4) == Word(p, x + 4) && Word(q, x + 8) == Word(p, x + 8)
  }

  /** The list that begins at `first` runs through exactly `nodes`. */
  predicate IsList(p: Profile, first: int, nodes: seq<nat>) {
    && first == (if nodes == [] then 0 else nodes[0])
    && forall i :: 0 <= i < |nodes| ==>
         IsNode(p, nodes[i]) && Word(p, nodes[i]) == After(nodes, i)
  }

  /** The node after node `i`, or the null pointer. */
  function After(nodes: seq<nat>, i: nat): nat {
    if i + 1 < |nodes| then nodes[i + 1] else 0
  }

  lemma AllocatedApart(h: State, size: nat, x: nat)
    requires Inv(h) && Room(h, size) && Block(x, NODE) in h.blocks
    ensures Apart(Block(x, NODE), Block(Allocate(h, size).1, size))
  {
    AllocateKeeps(h, size);
    var (h', at) := Allocate(h, size);
    var i :| 0 <= i < |h.blocks| && h.blocks[i] == Block(x, NODE);
    assert h'.blocks[i] == Block(x, NODE) && h'.blocks[|h.blocks|] == Block(at, size);
  }

  lemma NodesApart(h: State, x: nat, y: nat)
    requires Inv(h) && Block(x, NODE) in h.blocks && Block(y, NODE) in h.blocks && x != y
    ensures Apart(Block(x, NODE), Block(y, NODE))
  {
    var i :| 0 <= i < |h.blocks| && h.blocks[i] == Block(x, NODE);
    var j :| 0 <= j < |h.blocks| && h.blocks[j] == Block(y, NODE);
    assert i != j;
  }

  /** A new function is a fresh node; every other node stays as it was. */
  lemma NewEntryFresh(p: Profile, selfPc: int, b: nat)
    requires Inv(p.heap) && Room(p.heap, NODE) && b < |p.heads|
    ensures var (q, e) := NewEntry(p, selfPc, b);
            && Inv(q.heap) && q.heap.blocks == p.heap.blocks + [Block(e, NODE)]
            && q.heads == p.heads[b := e] && q.heap == Allocate(p.heap, NODE).0
            && !IsNode(p, e) && IsNode(q, e)
            && Word(q, e) == p.heads[b] && Word(q, e + 4) == selfPc && Word(q, e + 8) == 0
            && forall x: nat :: IsNode(p, x) ==> IsNode(q, x) && Same(p, q, x)
  {
    AllocateKeeps(p.heap, NODE);
    var (h, e) := Allocate(p.heap, NODE);
    forall x: nat | IsNode(p, x) ensures Apart(Block(x, NODE), Block(e, NODE)) {
      AllocatedApart(p.heap, NODE, x);
    }
    hide Inv, Allocate, Room;
  }

  /** A new arc is a fresh node; of the others only the function's changes, and
      of that only the head of its arcs. */
  lemma NewArcFresh(p: Profile, fromPc: int, e: nat)
    requires Inv(p.heap) && Room(p.heap, NODE) && IsNode(p, e)
    ensures var (q, a) := NewArc(p, fromPc, e);
            && Inv(q.heap) && q.heap.blocks == p.heap.blocks + [Block(a, NODE)]
            && q.heads == p.heads
            && !IsNode(p, a) && IsNode(q, a) && a != e
            && Word(q, a) == Word(p, e + 8) && Word(q, a + 4) == fromPc && Word(q, a + 8) == 1
            && Word(q, e) == Word(p, e) && Word(q, e + 4) == Word(p, e + 4) && Word(q, e + 8) == a
            && forall x: nat :: IsNode(p, x) ==> IsNode(q, x) && (x != e ==> Same(p, q, x))
  {
    AllocateKeeps(p.heap, NODE);
    var (h, a) := Allocate(p.heap, NODE);
    forall x: nat | IsNode(p, x)
      ensures Apart(Block(x, NODE), Block(a, NODE)) && (x != e ==> Apart(Block(x, NODE), Block(e, NODE)))
    {
      AllocatedApart(p.heap, NODE, x);
      if x != e {
        NodesApart(p.heap, x, e);
      }
    }
    hide Inv, Allocate, Room;
  }

  lemma ListStays(p: Profile, q: Profile, first: int, nodes: seq<nat>)
    requires IsList(p, first, nodes)
    requires forall i :: 0 <= i < |nodes| ==> IsNode(q, nodes[i]) && Word(q, nodes[i]) == Word(p, nodes[i])
    ensures IsList(q, first, nodes)
  {
  }

  lemma ListGrows(q: Profile, n: nat, first: int, nodes: seq<nat>)
    requires IsList(q, first, nodes) && IsNode(q, n) && Word(q, n) == first
    ensures IsList(q, n, [n] + nodes)
  {
    hide IsNode, Word;
    var more := [n] + nodes;
    forall i | 0 <= i < |more| ensures IsNode(q, more[i]) && Word(q, more[i]) == After(more, i) {
      if i > 0 {
        assert more[i] == nodes[i - 1] && After(more, i) == After(nodes, i - 1);
      }
    }
  }

  /** Recording a call leaves every list of functions as it was, but for the
      new function at the front of its own. */
  lemma RecordKeepsFunctions(p: Profile, selfPc: int, fromPc: int, entry: Option<nat>, b: nat, c: nat, nodes: seq<nat>)
    requires Inv(p.heap) && CanRecord(p, entry, b) && c < |p.heads| && IsList(p, p.heads[c], nodes)
    requires entry.Some? ==> IsNode(p, entry.value)
    ensures var (r, e, a) := Record(p, selfPc, fromPc, entry, b);
            && Inv(r.heap) && |r.heads| == |p.heads|
            && IsList(r, r.heads[c], if entry.None? && c == b then [e] + nodes else nodes)
            && (forall x :: x in nodes ==> Word(r, x + 4) == Word(p, x + 4))
            && (entry.None? ==> Word(r, e + 4) == selfPc && !IsNode(p, e) && e !in nodes)
            && !IsNode(p, a) && a !in nodes && a != e
  {
    hide Allocate, Room, NewEntry, NewArc, IsNode, Inv, Word;
    if entry.None? {
      NewEntryFresh(p, selfPc, b);
      var (q, e) := NewEntry(p, selfPc, b);
      NewArcFresh(q, fromPc, e);
      var (r, a) := NewArc(q, fromPc, e);
      assert forall i :: 0 <= i < |nodes| ==> nodes[i] != e && Same(p, q, nodes[i]) && Same(q, r, nodes[i]);
      ListStays(p, r, p.heads[c], nodes);
      if c == b {
        ListGrows(r, e, p.heads[b], nodes);
      }
    } else {
      NewArcFresh(p, fromPc, entry.value);
      var (r, a) := NewArc(p, fromPc, entry.value);
      assert forall i :: 0 <= i < |nodes| ==> nodes[i] == entry.value || Same(p, r, nodes[i]);
      ListStays(p, r, p.heads[c], nodes);
    }
  }

  /** And every function's list of arcs, but for the new arc at the front of its
      own.  No recorded node is ever another. */
  lemma RecordKeepsArcs(p: Profile, selfPc: int, fromPc: int, entry: Option<nat>, b: nat, x: nat, arcs: seq<nat>)
    requires Inv(p.heap) && CanRecord(p, entry, b) && (entry.Some? ==> IsNode(p, entry.value))
    requires IsNode(p, x) && IsList(p, Word(p, x + 8), arcs) && x !in arcs && (entry.Some? ==> entry.value !in arcs)
    ensures var (r, e, a) := Record(p, selfPc, fromPc, entry, b);
            && IsList(r, Word(r, x + 8), if entry == Some(x) then [a] + arcs else arcs)
            && (forall y :: y in arcs ==> Word(r, y + 4) == Word(p, y + 4) && Word(r, y + 8) == Word(p, y + 8))
            && Word(r, a + 4) == fromPc && Word(r, a + 8) == 1
            && !IsNode(p, a) && a !in arcs && a != e && a != x
            && (entry.None? ==> !IsNode(p, e) && e !in arcs && e != x)
            && (entry.None? ==> IsList(r, Word(r, e + 8), [a]))
  {
    hide Allocate, Room, NewEntry, NewArc, IsNode, Inv, Word;
    if entry.None? {
      NewEntryFresh(p, selfPc, b);
      var (q, e) := NewEntry(p, selfPc, b);
      NewArcFresh(q, fromPc, e);
      var (r, a) := NewArc(q, fromPc, e);
      assert Same(p, q, x) && Same(q, r, x);
      assert forall i :: 0 <= i < |arcs| ==> arcs[i] != e && Same(p, q, arcs[i]) && Same(q, r, arcs[i]);
      ListStays(p, r, Word(p, x + 8), arcs);
      ListGrows(r, a, 0, []);
      assert [a] + [] == [a];
    } else {
      NewArcFresh(p, fromPc, entry.value);
      var (r, a) := NewArc(p, fromPc, entry.value);
      assert x != entry.value ==> Same(p, r, x);
      assert forall i :: 0 <= i < |arcs| ==> arcs[i] != entry.value && Same(p, r, arcs[i]);
      ListStays(p, r, Word(p, x + 8), arcs);
      if entry.value == x {
        ListGrows(r, a, Word(p, x + 8), arcs);
      }
    }
  }
}
