/** The heap and the profiler's records, updated in place. */
module HeapProfiler {
  import opened Heap
  import opened Options

  class Profiler {
    const start: nat
    const limit: nat
    var heapEnd: nat
    var slabPtr: nat
    var slabSize: nat
    var mem: map<nat, int>
    const heads: array<nat>
    /** Every block given so far. */
    ghost var blocks: seq<Block>

    ghost function Area(): State
      reads this
    {
      State(start, limit, heapEnd, slabPtr, slabSize, blocks)
    }

    ghost function View(): Profile
      reads this, heads
    {
      Profile(Area(), mem, heads[..])
    }

    ghost predicate Valid()
      reads this, heads
    {
      Inv(Area()) && heads.Length == BUCKETS
    }

    constructor (start: nat, limit: nat)
      requires 0 < start && limit < WORD
      ensures Valid() && blocks == [] && fresh(heads)
    {
      this.start, this.limit, heapEnd := start, limit, start;
      slabPtr, slabSize, mem, blocks := 0, 0, map[], [];
      heads := new nat[BUCKETS](_ => 0);
    }

    /** Move the end of the heap, or fail. */
    method Extend(incr: nat) returns (at: Option<nat>)
      modifies this`heapEnd
      ensures (Area(), at) == Bump(old(Area()), incr)
    {
      heapEnd := (heapEnd + 3) / 4 * 4;
      if heapEnd + incr > limit {
        return None;
      }
      var previous := heapEnd;
      heapEnd := heapEnd + incr;
      at := Some(previous);
    }

    method SbrkBlock(incr: nat) returns (at: Option<nat>)
      requires Valid()
      modifies this`heapEnd, this`blocks
      ensures Valid() && (Area(), at) == Sbrk(old(Area()), incr)
    {
      SbrkKeeps(Area(), incr);
      at := Extend(incr);
      if at.Some? {
        blocks := blocks + [Block(at.value, incr)];
      }
      assert (Area(), at) == Sbrk(old(Area()), incr);
      hide Inv;
    }

    /** Cut a piece off the slab.  Without room the routine goes on all the same,
        and the piece is not inside the heap. */
    method AllocateBlock(size: nat) returns (data: nat)
      requires Valid() && size > 0
      modifies this`heapEnd, this`slabPtr, this`slabSize, this`blocks
      ensures (Area(), data) == Allocate(old(Area()), size)
      ensures Room(old(Area()), size) ==> Valid()
      ensures Inside(Area(), Block(data, size)) <==> Room(old(Area()), size)
    {
      AllocateExactly(Area(), size);
      if Room(Area(), size) {
        AllocateKeeps(Area(), size);
      }
      hide Inv, Room, Inside;
      if size > slabSize {
        var slab := Extend(SLAB);
        slabPtr := if slab.Some? then slab.value else WORD - 1;
        slabSize := SLAB;
      }
      data := slabPtr;
      slabPtr := (slabPtr + size) % WORD;
      slabSize := (slabSize - size) % WORD;
      blocks := blocks + [Block(data, size)];
      assert (Area(), data) == Allocate(old(Area()), size);
    }

    /** Add a function to the list of bucket `b`. */
    method AddEntry(selfPc: int, b: nat) returns (e: nat)
      requires Valid() && Room(Area(), NODE) && b < BUCKETS
      modifies this, heads
      ensures Valid() && (View(), e) == NewEntry(old(View()), selfPc, b)
    {
      hide Inv, Allocate, Room;
      e := AllocateBlock(NODE);
      mem := mem[e + 4 := selfPc];
      mem := mem[e + 8 := 0];
      mem := mem[e := heads[b]];
      heads[b] := e;
    }

    /** Add an arc to function `e`. */
    method AddArc(fromPc: int, e: nat)
      requires Valid() && Room(Area(), NODE)
      modifies this
      ensures Valid() && View() == NewArc(old(View()), fromPc, e).0
    {
      hide Inv, Allocate, Room;
      var a := AllocateBlock(NODE);
      mem := mem[a + 4 := fromPc];
      mem := mem[a + 8 := 1];
      mem := mem[a := if e + 8 in mem then mem[e + 8] else 0];
      mem := mem[e + 8 := a];
    }

    method RecordCall(selfPc: int, fromPc: int, entry: Option<nat>, b: nat)
      requires Valid() && CanRecord(View(), entry, b)
      modifies this, heads
      ensures Valid() && View() == Record(old(View()), selfPc, fromPc, entry, b).0
    {
      var e: nat;
      if entry.None? {
        NewEntryFresh(View(), selfPc, b);
        e := AddEntry(selfPc, b);
      } else {
        e := entry.value;
      }
      hide Inv, Allocate, Room, NewEntry, NewArc, IsNode;
      AddArc(fromPc, e);
    }
  }
}
