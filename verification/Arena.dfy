/**
 The caller-backed scoped allocator (src/core/arena.c, include/sloppy/arena.h).

 Addresses are numbers and zero is no buffer.  A ghost list of blocks says which allocations
 are still valid, and a ghost history of offsets what the cursor has been through since the
 arena was set up; the source keeps neither.  `Do` says what each call does to the cursor and
 the valid blocks, and the results about marks are about runs of it.
*/
module Arena {
  import opened Prelude
  import Runs

  const GENERATIONS: nat := 0xFFFF_FFFF

  datatype Status = Fine | InvalidArgument | Internal | OutOfMemory | Overflow | OutOfRange

  datatype Mark = Mark(offset: nat, generation: nat)

  /** An allocation, with the number of allocations made before it. */
  datatype Block = Block(id: nat, start: nat, size: nat)

  /** Bytes to skip; masking by a power of two less one is a remainder. */
  function Padding(address: nat, alignment: nat): (r: nat)
    requires alignment > 0
    ensures r < alignment
  {
    var misalignment := address % alignment;
    if misalignment == 0 then 0 else alignment - misalignment
  }

  lemma MultipleSizes(k: nat, n: int)
    requires k > 0
    ensures n >= 1 ==> k * n >= k
    ensures n <= 0 ==> k * n <= 0
  {
    if n >= 1 {
      assert k * n == k * (n - 1) + k;
    }
  }

  lemma MultipleHasNoRemainder(k: nat, q: nat)
    requires k > 0
    ensures (k * q) % k == 0
  {
    var d := (k * q) / k;
    assert k * q == k * d + (k * q) % k;
    assert k * (q - d) == k * q - k * d;
    MultipleSizes(k, q - d);
  }

  /** The padded address is aligned. */
  lemma PaddingAligns(address: nat, alignment: nat)
    requires alignment > 0
    ensures (address + Padding(address, alignment)) % alignment == 0
  {
    var r, q := address % alignment, address / alignment;
    assert address == alignment * q + r;
    if r != 0 {
      assert address + (alignment - r) == alignment * q + alignment == alignment * (q + 1);
      MultipleHasNoRemainder(alignment, q + 1);
    }
  }

  lemma PaddingIsLeast(address: nat, alignment: nat, skip: nat)
    requires alignment > 0 && (address + skip) % alignment == 0
    ensures Padding(address, alignment) <= skip
  {
    if skip < Padding(address, alignment) {
      var r, q := address % alignment, address / alignment;
      assert address == alignment * q + r;
      var sum := address + skip;
      assert sum == alignment * (sum / alignment);
      assert alignment * q < sum < alignment * q + alignment;
      BetweenMultiples(alignment, q, sum / alignment);
    }
  }

  /** No multiple lies strictly between two consecutive ones. */
  lemma BetweenMultiples(k: nat, q: int, d: int)
    requires k > 0
    ensures !(k * q < k * d < k * q + k)
  {
    assert k * (d - q) == k * d - k * q;
    MultipleSizes(k, d - q);
  }

  // ----- valid blocks -----

  /** Blocks in address order, none overlapping, all within `[lo, hi)`. */
  predicate Packed(blocks: seq<Block>, lo: nat, hi: nat) {
    && (forall i :: 0 <= i < |blocks| ==>
          lo <= blocks[i].start && blocks[i].size > 0 && blocks[i].start + blocks[i].size <= hi)
    && (forall i, j :: 0 <= i < j < |blocks| ==> blocks[i].start + blocks[i].size <= blocks[j].start)
  }

  /** The blocks that end at or before `limit`. */
  function Below(blocks: seq<Block>, limit: nat): seq<Block> {
    if blocks == [] then []
    else
      var last := blocks[|blocks| - 1];
      if last.start + last.size <= limit then blocks else Below(blocks[..|blocks| - 1], limit)
  }

  lemma {:induction false} BelowIsPacked(blocks: seq<Block>, lo: nat, hi: nat, limit: nat)
    requires Packed(blocks, lo, hi)
    ensures Packed(Below(blocks, limit), lo, limit)
  {
    if blocks != [] {
      var last := blocks[|blocks| - 1];
      if last.start + last.size > limit {
        BelowIsPacked(blocks[..|blocks| - 1], lo, hi, limit);
      } else {
        assert forall i :: 0 <= i < |blocks| - 1 ==> blocks[i].start + blocks[i].size <= last.start;
      }
    }
  }

  lemma {:induction false} BelowIsPrefix(blocks: seq<Block>, limit: nat)
    ensures Below(blocks, limit) <= blocks
  {
    if blocks != [] {
      BelowIsPrefix(blocks[..|blocks| - 1], limit);
    }
  }

  /** Of packed blocks, the ones kept are a prefix: those, and only those, that fit below. */
  lemma {:induction false} BelowExactly(blocks: seq<Block>, lo: nat, hi: nat, limit: nat)
    requires Packed(blocks, lo, hi)
    ensures Below(blocks, limit) <= blocks
    ensures forall b :: b in Below(blocks, limit) <==> b in blocks && b.start + b.size <= limit
  {
    if blocks != [] {
      var init, last := blocks[..|blocks| - 1], blocks[|blocks| - 1];
      assert blocks == init + [last];
      if last.start + last.size > limit {
        BelowExactly(init, lo, hi, limit);
      } else {
        assert forall i :: 0 <= i < |blocks| - 1 ==> blocks[i].start + blocks[i].size <= last.start;
      }
    }
  }

  // ----- what each call does -----

  function NextGeneration(g: nat): nat {
    if g >= GENERATIONS then 1 else g + 1
  }

  datatype Cursor = Cursor(base: nat, capacity: nat, offset: nat, generation: nat, made: nat, live: seq<Block>)

  datatype Step = Alloc(size: nat, alignment: nat) | ResetTo(mark: Mark) | Reset | Dispose

  /** Where an allocation would start. */
  function Start(c: Cursor, alignment: nat): (r: nat)
    requires alignment > 0
    ensures c.base + c.offset <= r
  {
    c.base + c.offset + Padding(c.base + c.offset, alignment)
  }

  lemma StartIsAligned(c: Cursor, alignment: nat)
    requires alignment > 0
    ensures Start(c, alignment) % alignment == 0
  {
    PaddingAligns(c.base + c.offset, alignment);
  }

  predicate Fits(c: Cursor, size: nat, alignment: nat) {
    size != 0 && PowerOfTwo(alignment) && c.base != 0 && Start(c, alignment) + size <= c.base + c.capacity
  }

  /** sl_arena_mark */
  function MarkOf(c: Cursor): Mark {
    Mark(c.offset, c.generation)
  }

  /** The test of sl_arena_reset_to. */
  predicate Accepts(c: Cursor, mark: Mark) {
    mark.generation == c.generation && mark.offset <= c.offset
  }

  /** A block at `start` is handed out. */
  function Grow(c: Cursor, start: nat, size: nat): Cursor
    requires c.base + c.offset <= start
  {
    c.(offset := start + size - c.base, made := c.made + 1, live := c.live + [Block(c.made, start, size)])
  }

  function DoAlloc(c: Cursor, size: nat, alignment: nat): Cursor {
    if Fits(c, size, alignment) then Grow(c, Start(c, alignment), size) else c
  }

  function DoResetTo(c: Cursor, mark: Mark): Cursor {
    if Accepts(c, mark) then c.(offset := mark.offset, live := Below(c.live, c.base + mark.offset)) else c
  }

  function DoReset(c: Cursor): Cursor {
    c.(offset := 0, generation := NextGeneration(c.generation), live := [])
  }

  function DoDispose(c: Cursor): Cursor {
    c.(base := 0, capacity := 0, offset := 0, generation := NextGeneration(c.generation), live := [])
  }

  function Do(c: Cursor, step: Step): Cursor {
    match step
    case Alloc(size, alignment) => DoAlloc(c, size, alignment)
    case ResetTo(mark) => DoResetTo(c, mark)
    case Reset => DoReset(c)
    case Dispose => DoDispose(c)
  }

  ghost predicate Sound(c: Cursor) {
    && 1 <= c.generation <= GENERATIONS && Packed(c.live, c.base, c.base + c.offset)
    && forall i :: 0 <= i < |c.live| ==> c.live[i].id < c.made
  }

  lemma PackedSnoc(blocks: seq<Block>, lo: nat, hi: nat, b: Block)
    requires Packed(blocks, lo, hi) && lo <= hi <= b.start && b.size > 0
    ensures Packed(blocks + [b], lo, b.start + b.size)
  {
  }

  lemma GrowKeeps(c: Cursor, start: nat, size: nat)
    requires Sound(c) && c.base + c.offset <= start && size > 0
    ensures Sound(Grow(c, start, size))
  {
    PackedSnoc(c.live, c.base, c.base + c.offset, Block(c.made, start, size));
  }

  lemma ResetToKeeps(c: Cursor, mark: Mark)
    requires Sound(c)
    ensures Sound(DoResetTo(c, mark))
  {
    var limit := c.base + mark.offset;
    BelowIsPacked(c.live, c.base, c.base + c.offset, limit);
    BelowIsPrefix(c.live, limit);
  }

  lemma DoKeeps(c: Cursor, step: Step)
    requires Sound(c)
    ensures Sound(Do(c, step)) && Do(c, step).made >= c.made
  {
    match step
    case Alloc(size, alignment) =>
      if Fits(c, size, alignment) {
        GrowKeeps(c, Start(c, alignment), size);
      }
    case ResetTo(mark) => ResetToKeeps(c, mark);
    case _ =>
  }

  /** The largest of the offsets gone through. */
  predicate Highest(history: seq<nat>, high: nat) {
    high in history && forall i :: 0 <= i < |history| ==> history[i] <= high
  }

  lemma HighestSnoc(history: seq<nat>, high: nat, offset: nat)
    requires Highest(history, high)
    ensures Highest(history + [offset], if high < offset then offset else high)
  {
    var k :| 0 <= k < |history| && history[k] == high;
    assert (history + [offset])[k] == high && (history + [offset])[|history|] == offset;
  }

  class ScopedArena {
    var base: nat
    var capacity: nat
    var offset: nat
    var highWater: nat
    var generation: nat
    ghost var made: nat
    ghost var live: seq<Block>
    ghost var history: seq<nat>

    ghost predicate Valid()
      reads this
    {
      && offset <= highWater <= capacity && base + capacity <= SIZE_MAX + 1
      && (capacity != 0 ==> base != 0)
      && Sound(View())
      && Highest(history, highWater)
    }

    ghost function View(): Cursor
      reads this
    {
      Cursor(base, capacity, offset, generation, made, live)
    }

    /** sl_arena_init over a buffer that lies in the address space. */
    constructor (buffer: nat, size: nat)
      requires buffer + size <= SIZE_MAX + 1 && (size != 0 ==> buffer != 0)
      ensures Valid() && View() == Cursor(buffer, size, 0, 1, 0, []) && highWater == 0 && history == [0]
    {
      base, capacity, offset, highWater, generation := buffer, size, 0, 0, 1;
      made, live, history := 0, [], [0];
    }

    /**
     sl_arena_alloc.  It succeeds exactly when the aligned block fits; the block is aligned,
     inside the buffer, apart from every valid block, and starts at the first aligned address.
    */
    method Alloc(size: nat, alignment: nat) returns (status: Status, out: nat)
      requires Valid() && size <= SIZE_MAX && alignment <= SIZE_MAX
      modifies this
      ensures Valid() && View() == DoAlloc(old(View()), size, alignment)
      ensures status == InvalidArgument <==> size == 0 || !PowerOfTwo(alignment)
      ensures status == Fine <==> Fits(old(View()), size, alignment)
      ensures status == Fine ==> out == Start(old(View()), alignment) && out % alignment == 0
      ensures status == Fine ==> live == old(live) + [Block(old(made), out, size)] && base + offset == out + size
      ensures highWater == if old(highWater) < offset then offset else old(highWater)
      ensures history == if status == Fine then old(history) + [offset] else old(history)
    {
      if size == 0 || !PowerOfTwo(alignment) {
        return InvalidArgument, 0;
      }
      if offset > capacity || (base == 0 && capacity != 0) {
        return Internal, 0;
      }
      if base == 0 {
        return OutOfMemory, 0;
      }
      if offset > SIZE_MAX - base {
        return Internal, 0;
      }
      var padding := Padding(base + offset, alignment);
      if padding + size > SIZE_MAX || offset + padding > SIZE_MAX || offset + (padding + size) > SIZE_MAX {
        return Overflow, 0;
      }
      var final := offset + (padding + size);
      if final > capacity {
        return OutOfMemory, 0;
      }
      ghost var start := Start(View(), alignment);
      StartIsAligned(View(), alignment);
      GrowKeeps(View(), start, size);
      out := base + (offset + padding);
      assert out == start;
      offset := final;
      if highWater < offset {
        highWater := offset;
      }
      live, made := live + [Block(made, out, size)], made + 1;
      HighestSnoc(history, old(highWater), offset);
      history := history + [offset];
      status := Fine;
    }

    method TakeMark() returns (m: Mark)
      ensures m == MarkOf(View())
    {
      m := Mark(offset, generation);
    }

    /** sl_arena_reset_to: exactly the blocks below the mark stay valid. */
    method ResetTo(mark: Mark) returns (status: Status)
      requires Valid()
      modifies this
      ensures Valid() && View() == DoResetTo(old(View()), mark) && highWater == old(highWater)
      ensures status == Fine <==> Accepts(old(View()), mark)
      ensures status == InvalidArgument <==> mark.generation != old(generation)
      ensures live == if status == Fine then Below(old(live), base + mark.offset) else old(live)
      ensures history == if status == Fine then old(history) + [offset] else old(history)
    {
      if mark.generation != generation {
        return InvalidArgument;
      }
      if mark.offset > offset || mark.offset > capacity {
        return OutOfRange;
      }
      ResetToKeeps(View(), mark);
      live := Below(live, base + mark.offset);
      offset := mark.offset;
      HighestSnoc(history, highWater, offset);
      history := history + [offset];
      status := Fine;
    }

    /** sl_arena_reset */
    method Reset()
      requires Valid()
      modifies this
      ensures Valid() && View() == DoReset(old(View()))
      ensures highWater == old(highWater) && history == old(history) + [0]
    {
      generation := (generation + 1) % (GENERATIONS + 1);
      if generation == 0 {
        generation := 1;
      }
      offset := 0;
      HighestSnoc(history, highWater, 0);
      live, history := [], history + [0];
    }

    /** sl_arena_dispose */
    method Dispose()
      requires Valid()
      modifies this
      ensures Valid() && View() == DoDispose(old(View())) && highWater == 0 && history == [0]
    {
      base, capacity, offset, highWater := 0, 0, 0, 0;
      generation := (generation + 1) % (GENERATIONS + 1);
      if generation == 0 {
        generation := 1;
      }
      live, history := [], [0];
    }

    /** sl_arena_remaining: used and remaining always make up the capacity. */
    method Remaining() returns (r: nat)
      requires Valid()
      ensures r + offset == capacity
    {
      r := capacity - offset;
    }
  }

  // ----- every run -----

  /** The cursor after the steps, in order. */
  function Run(c: Cursor, steps: seq<Step>): Cursor {
    Runs.After(Do, c, steps)
  }

  lemma {:induction false} RunKeeps(c: Cursor, steps: seq<Step>)
    requires Sound(c)
    ensures Sound(Run(c, steps)) && Run(c, steps).made >= c.made
  {
    if steps != [] {
      RunKeeps(c, steps[..|steps| - 1]);
      DoKeeps(Run(c, steps[..|steps| - 1]), steps[|steps| - 1]);
    }
  }

  lemma {:induction false} DisposedRun(c: Cursor, steps: seq<Step>)
    ensures var t := Run(DoDispose(c), steps); t.base == 0 && t.live == []
  {
    if steps != [] {
      DisposedRun(c, steps[..|steps| - 1]);
    }
  }

  /** After a dispose no allocation succeeds and no block is valid, whatever is called. */
  lemma DisposedRefuses(c: Cursor, steps: seq<Step>, size: nat, alignment: nat)
    ensures var t := Run(DoDispose(c), steps);
            !Fits(t, size, alignment) && Do(t, Alloc(size, alignment)) == t && t.live == []
  {
    DisposedRun(c, steps);
  }

  /** An allocation fits exactly when some aligned address from the cursor on leaves room for it. */
  lemma FitsExactly(c: Cursor, size: nat, alignment: nat)
    requires PowerOfTwo(alignment)
    ensures Fits(c, size, alignment) <==>
            && size != 0 && c.base != 0
            && exists start: nat :: start % alignment == 0 && c.base + c.offset <= start
                                    && start + size <= c.base + c.capacity
  {
    StartIsAligned(c, alignment);
    if Fits(c, size, alignment) {
      assert Start(c, alignment) % alignment == 0;
    }
    if start: nat :| start % alignment == 0 && c.base + c.offset <= start && start + size <= c.base + c.capacity {
      PaddingIsLeast(c.base + c.offset, alignment, start - (c.base + c.offset));
    }
  }

  // ----- marks and generations -----

  predicate Advances(step: Step) {
    step.Reset? || step.Dispose?
  }

  /** How often a run moves on to another generation. */
  function Resets(steps: seq<Step>): nat {
    if steps == [] then 0
    else Resets(steps[..|steps| - 1]) + if Advances(steps[|steps| - 1]) then 1 else 0
  }

  lemma {:induction false} GenerationAfter(c: Cursor, steps: seq<Step>)
    requires 1 <= c.generation <= GENERATIONS
    ensures Run(c, steps).generation == 1 + (c.generation - 1 + Resets(steps)) % GENERATIONS
  {
    if steps != [] {
      GenerationAfter(c, steps[..|steps| - 1]);
    }
  }

  /**
   The header promises that marks from before a reset are rejected.  A mark taken before any
   run is accepted after it exactly when the run's resets are a multiple of the number of
   generations and the cursor stands at or beyond the mark.
  */
  lemma MarkAcceptedExactly(c: Cursor, steps: seq<Step>)
    requires 1 <= c.generation <= GENERATIONS
    ensures Accepts(Run(c, steps), MarkOf(c)) <==> Resets(steps) % GENERATIONS == 0 && c.offset <= Run(c, steps).offset
  {
    GenerationAfter(c, steps);
  }

  /** A number of resets. */
  function ResetTimes(n: nat): (r: seq<Step>)
    ensures |r| == n
  {
    if n == 0 then [] else ResetTimes(n - 1) + [Reset]
  }

  lemma {:induction false} ResetsOnly(c: Cursor, n: nat)
    ensures Resets(ResetTimes(n)) == n
    ensures n > 0 ==> Run(c, ResetTimes(n)).(generation := 0) == c.(offset := 0, live := [], generation := 0)
  {
    if n > 0 {
      ResetsOnly(c, n - 1);
      Runs.AfterSnoc(Do, c, ResetTimes(n - 1), Reset);
      assert ResetTimes(n)[..n - 1] == ResetTimes(n - 1);
    }
  }

  /** Resets through all generations, then one allocation. */
  function FullRound(size: nat): seq<Step> {
    ResetTimes(GENERATIONS) + [Alloc(size, 1)]
  }

  /**
   So a stale mark can be taken for a current one.  After a full round the one valid block
   reaches across the old mark, and going back to the mark cuts it: it is no longer valid and
   the bytes from the mark on are given out again.
  */
  lemma StaleMarkCuts(c: Cursor, size: nat)
    requires Sound(c) && c.base != 0 && 0 < c.offset < size <= c.capacity
    ensures var t, mark := Run(c, FullRound(size)), MarkOf(c);
            && Resets(FullRound(size)) == GENERATIONS
            && t.live == [Block(c.made, c.base, size)] && Accepts(t, mark)
            && c.base < c.base + mark.offset < c.base + size
            && Do(t, ResetTo(mark)).live == []
            && Do(t, ResetTo(mark)).offset < size
  {
    var resets := ResetTimes(GENERATIONS);
    ResetsOnly(c, GENERATIONS);
    Runs.AfterSnoc(Do, c, resets, Alloc(size, 1));
    assert FullRound(size)[..GENERATIONS] == resets;
    AllocPlain(Run(c, resets), size);
    MarkAcceptedExactly(c, FullRound(size));
    CutLast(Run(c, FullRound(size)), MarkOf(c), [], Block(c.made, c.base, size));
  }

  // ----- marks undo allocations -----

  /** The run never moves on to another generation and never goes back below `low`. */
  predicate StaysAbove(c: Cursor, steps: seq<Step>, low: nat) {
    Resets(steps) == 0 && forall n :: 0 <= n <= |steps| ==> Run(c, steps[..n]).offset >= low
  }

  /** The blocks valid at first are a prefix of those valid now, and the others end beyond `low`. */
  ghost predicate Grown(kept: seq<Block>, c: Cursor, low: nat) {
    kept <= c.live && forall i :: |kept| <= i < |c.live| ==> c.base + low < c.live[i].start + c.live[i].size
  }

  /** Cutting at or above `low` leaves the blocks below it, and cutting there leaves only them. */
  lemma {:induction false} BelowGrown(kept: seq<Block>, live: seq<Block>, low: nat, limit: nat)
    requires kept <= live && low <= limit
    requires forall i :: 0 <= i < |kept| ==> kept[i].start + kept[i].size <= low
    requires forall i :: |kept| <= i < |live| ==> low < live[i].start + live[i].size
    ensures kept <= Below(live, limit) <= live
    ensures limit == low ==> Below(live, limit) == kept
  {
    if |kept| < |live| {
      BelowGrown(kept, live[..|live| - 1], low, limit);
    } else if live != [] {
      assert live == kept;
    }
  }

  lemma GrownStep(kept: seq<Block>, c: Cursor, step: Step, low: nat)
    requires Sound(c) && Packed(kept, c.base, c.base + low) && Grown(kept, c, low)
    requires !Advances(step) && low <= c.offset && low <= Do(c, step).offset
    ensures Grown(kept, Do(c, step), low)
  {
    if step.ResetTo? && Accepts(c, step.mark) {
      BelowGrown(kept, c.live, c.base + low, c.base + step.mark.offset);
    }
  }

  lemma {:induction false} RunGrows(c: Cursor, steps: seq<Step>, low: nat)
    requires Sound(c) && Packed(c.live, c.base, c.base + low) && StaysAbove(c, steps, low)
    ensures Run(c, steps).base == c.base && Grown(c.live, Run(c, steps), low)
  {
    if steps != [] {
      var init := steps[..|steps| - 1];
      assert forall n :: 0 <= n <= |init| ==> init[..n] == steps[..n];
      assert steps[..|steps|] == steps;
      RunGrows(c, init, low);
      RunKeeps(c, init);
      GrownStep(c.live, Run(c, init), steps[|steps| - 1], low);
    }
  }

  /** A block that was given up is never valid again. */
  lemma {:induction false} GoneIsGone(c: Cursor, steps: seq<Step>, b: Block)
    requires Sound(c) && b.id < c.made && b !in c.live
    ensures b !in Run(c, steps).live
  {
    if steps != [] {
      var init, step := steps[..|steps| - 1], steps[|steps| - 1];
      GoneIsGone(c, init, b);
      RunKeeps(c, init);
      var u := Run(c, init);
      if step.ResetTo? {
        BelowExactly(u.live, u.base, u.base + u.offset, u.base + step.mark.offset);
      }
    }
  }

  /** Where the last valid block ends; a reset to an older mark may leave the cursor beyond it. */
  function LastEnd(c: Cursor): (r: nat)
    requires Sound(c)
    ensures r <= c.offset
  {
    if c.live == [] then 0 else c.live[|c.live| - 1].start + c.live[|c.live| - 1].size - c.base
  }

  /** Every block of `t` that ends at or below the mark of `c` was valid in `c`. */
  predicate NoneBelow(c: Cursor, t: Cursor) {
    forall i :: 0 <= i < |t.live| && t.live[i].start + t.live[i].size <= c.base + c.offset ==> t.live[i] in c.live
  }

  /**
   Going back to a mark within its generation restores the cursor and exactly the blocks valid
   then, if and only if the cursor ends at or beyond the mark, the run never went back below the
   last block valid then, and no other block that is valid now ends at or below the mark.
  */
  lemma MarkRestoresExactly(c: Cursor, steps: seq<Step>)
    requires Sound(c) && Resets(steps) == 0
    ensures var t := Run(c, steps);
            Do(t, ResetTo(MarkOf(c))).(made := c.made) == c
            <==> c.offset <= t.offset && StaysAbove(c, steps, LastEnd(c)) && NoneBelow(c, t)
  {
    var t := Run(c, steps);
    RunBuffer(c, steps);
    if !StaysAbove(c, steps, LastEnd(c)) {
      var n :| 0 <= n <= |steps| && Run(c, steps[..n]).offset < LastEnd(c);
      DroppedIsLost(c, steps, n);
    } else if c.offset <= t.offset {
      RunKeeps(c, steps);
      if NoneBelow(c, t) {
        MarkRestores(c, steps);
      } else {
        OthersStay(c, t);
      }
    }
  }

  lemma LastIsPacked(c: Cursor)
    requires Sound(c)
    ensures Packed(c.live, c.base, c.base + LastEnd(c))
  {
    assert c.live != [] ==> forall i :: 0 <= i < |c.live| - 1 ==>
        c.live[i].start + c.live[i].size <= c.live[|c.live| - 1].start;
  }

  lemma MarkRestores(c: Cursor, steps: seq<Step>)
    requires Sound(c) && StaysAbove(c, steps, LastEnd(c))
    requires c.offset <= Run(c, steps).offset && NoneBelow(c, Run(c, steps))
    ensures DoResetTo(Run(c, steps), MarkOf(c)).(made := c.made) == c
  {
    var t := Run(c, steps);
    RunBuffer(c, steps);
    LastIsPacked(c);
    RunGrows(c, steps, LastEnd(c));
    RunKeeps(c, steps);
    CutsToKept(c, t);
    RestoredAt(c, t);
  }

  lemma CutsToKept(c: Cursor, t: Cursor)
    requires Packed(c.live, c.base, c.base + c.offset) && Packed(t.live, t.base, t.base + t.offset)
    requires c.live <= t.live && NoneBelow(c, t)
    ensures Below(t.live, c.base + c.offset) == c.live
  {
    OthersEndAbove(c, t);
    BelowGrown(c.live, t.live, c.base + c.offset, c.base + c.offset);
  }

  lemma OthersEndAbove(c: Cursor, t: Cursor)
    requires Packed(t.live, t.base, t.base + t.offset) && c.live <= t.live && NoneBelow(c, t)
    ensures forall i :: |c.live| <= i < |t.live| ==> c.base + c.offset < t.live[i].start + t.live[i].size
  {
    forall i | |c.live| <= i < |t.live|
      ensures c.base + c.offset < t.live[i].start + t.live[i].size
    {
      AppearsOnce(t.live, t.base, t.base + t.offset, |c.live|, i);
      assert t.live[..|c.live|] == c.live;
    }
  }

  lemma AppearsOnce(blocks: seq<Block>, lo: nat, hi: nat, n: nat, i: nat)
    requires Packed(blocks, lo, hi) && n <= i < |blocks|
    ensures blocks[i] !in blocks[..n]
  {
  }

  lemma BelowHas(blocks: seq<Block>, lo: nat, hi: nat, limit: nat, i: nat)
    requires Packed(blocks, lo, hi) && i < |blocks| && blocks[i].start + blocks[i].size <= limit
    ensures blocks[i] in Below(blocks, limit)
  {
    BelowExactly(blocks, lo, hi, limit);
  }

  /** A block that ends at or below the mark survives going back to it. */
  lemma OthersStay(c: Cursor, t: Cursor)
    requires Packed(t.live, t.base, t.base + t.offset) && t.base == c.base && Accepts(t, MarkOf(c)) && !NoneBelow(c, t)
    ensures DoResetTo(t, MarkOf(c)).live != c.live
  {
    var i :| 0 <= i < |t.live| && t.live[i].start + t.live[i].size <= c.base + c.offset && t.live[i] !in c.live;
    BelowHas(t.live, t.base, t.base + t.offset, c.base + c.offset, i);
  }

  lemma RestoredAt(c: Cursor, t: Cursor)
    requires t.base == c.base && t.capacity == c.capacity && t.generation == c.generation
    requires c.offset <= t.offset && Below(t.live, c.base + c.offset) == c.live
    ensures DoResetTo(t, MarkOf(c)).(made := c.made) == c
  {
  }

  /** Without a full reset the buffer and the generation stay. */
  lemma {:induction false} RunBuffer(c: Cursor, steps: seq<Step>)
    requires Resets(steps) == 0
    ensures Run(c, steps).base == c.base && Run(c, steps).capacity == c.capacity
    ensures Run(c, steps).generation == c.generation
  {
    if steps != [] {
      RunBuffer(c, steps[..|steps| - 1]);
    }
  }

  /** A run that goes below the end of the last valid block gives that block up for good. */
  lemma DroppedIsLost(c: Cursor, steps: seq<Step>, n: nat)
    requires Sound(c) && Resets(steps) == 0
    requires n <= |steps| && Run(c, steps[..n]).offset < LastEnd(c)
    ensures Do(Run(c, steps), ResetTo(MarkOf(c))).live != c.live
  {
    var u, b := Run(c, steps[..n]), c.live[|c.live| - 1];
    RunKeeps(c, steps[..n]);
    ResetsPrefix(steps, n);
    RunBuffer(c, steps[..n]);
    assert b !in u.live;
    assert steps == steps[..n] + steps[n..];
    Runs.AfterConcat(Do, c, steps[..n], steps[n..]);
    GoneIsGone(u, steps[n..] + [ResetTo(MarkOf(c))], b);
    Runs.AfterSnoc(Do, u, steps[n..], ResetTo(MarkOf(c)));
    assert b in c.live;
  }

  lemma {:induction false} ResetsPrefix(steps: seq<Step>, n: nat)
    requires n <= |steps|
    ensures Resets(steps[..n]) <= Resets(steps)
  {
    if n < |steps| {
      ResetsPrefix(steps[..|steps| - 1], n);
      assert steps[..|steps| - 1][..n] == steps[..n];
    } else {
      assert steps[..n] == steps;
    }
  }

  lemma AllocPlain(c: Cursor, size: nat)
    requires c.base != 0 && size > 0 && c.offset + size <= c.capacity
    ensures Do(c, Alloc(size, 1))
         == c.(offset := c.offset + size, made := c.made + 1, live := c.live + [Block(c.made, c.base + c.offset, size)])
  {
    assert Padding(c.base + c.offset, 1) == 0;
  }

  lemma CutLast(c: Cursor, mark: Mark, kept: seq<Block>, last: Block)
    requires Accepts(c, mark) && c.live == kept + [last] && c.base + mark.offset < last.start + last.size
    requires kept == [] || kept[|kept| - 1].start + kept[|kept| - 1].size <= c.base + mark.offset
    ensures Do(c, ResetTo(mark)) == c.(offset := mark.offset, live := kept)
  {
    var limit := c.base + mark.offset;
    assert c.live[|c.live| - 1] == last && c.live[..|c.live| - 1] == kept;
    assert Below(c.live, limit) == Below(kept, limit);
    assert kept != [] ==> Below(kept, limit) == kept;
  }

  /**
   The cursor can stand beyond the last valid block: after a block of ten bytes, a mark, a reset to
   the start and blocks of four and twenty-six bytes, going back to the mark cuts the last.
  */
  lemma CursorBeyondTheLastBlock(base: nat)
    requires base != 0
    ensures var c := Cursor(base, 100, 10, 1, 1, [Block(0, base, 10)]);
            Run(c, [ResetTo(Mark(0, 1)), Alloc(4, 1), Alloc(26, 1), ResetTo(MarkOf(c))])
            == Cursor(base, 100, 10, 1, 3, [Block(1, base, 4)])
  {
    var c := Cursor(base, 100, 10, 1, 1, [Block(0, base, 10)]);
    Runs.AfterFour(Do, c, ResetTo(Mark(0, 1)), Alloc(4, 1), Alloc(26, 1), ResetTo(Mark(10, 1)));
    assert c.live == [] + [Block(0, base, 10)];
    CutLast(c, Mark(0, 1), [], Block(0, base, 10));
    var d := Cursor(base, 100, 0, 1, 1, []);
    assert Do(c, ResetTo(Mark(0, 1))) == d;
    AllocPlain(d, 4);
    var e := Cursor(base, 100, 4, 1, 2, [Block(1, base, 4)]);
    assert Do(d, Alloc(4, 1)) == e;
    AllocPlain(e, 26);
    var f := Cursor(base, 100, 30, 1, 3, [Block(1, base, 4), Block(2, base + 4, 26)]);
    assert f.live == [Block(1, base, 4)] + [Block(2, base + 4, 26)];
    assert Do(e, Alloc(26, 1)) == f;
    CutLast(f, Mark(10, 1), [Block(1, base, 4)], Block(2, base + 4, 26));
  }
}
