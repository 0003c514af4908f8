/**
 Ownership of completions in the async loop (src/core/async_backend.c,
 include/sloppy/async_backend.h): a post takes ownership only when it succeeds, and a completion
 the loop owns is to be cleaned up and released exactly once, dispatched at most once.

 The protocol is a state machine.  Every callback of a completion, from the scope's retain to
 its release, is a place where the code outside may call the loop again: `stack` holds the
 calls that are waiting for a callback to return, innermost last.  A step is a call of the
 loop, the return of the innermost callback, or the next round of a dispose.

 A post that passes its checks gets a number, whether or not the loop comes to own it.
*/
module AsyncLoop {
  import opened Permutations
  import Runs

  /** Which callbacks a completion carries; `valid` has a kind and a dispatch function. */
  datatype Completion = Completion(valid: bool, retains: bool, checks: bool, late: bool, cleans: bool, releases: bool)

  /** The callbacks made, and the answers on which the loop decides. */
  datatype Event =
    | Retained(id: nat)
    | RetainAnswered(id: nat, yes: bool)
    | Checked(id: nat)
    | CheckAnswered(id: nat, yes: bool)
    | Dispatched(id: nat)
    | WasLate(id: nat)
    | Cleaned(id: nat)
    | Released(id: nat)

  /** How a completion left the queue. */
  datatype Way = Ran | Late | Dropped

  /**
   How far a completion has come.  `Offered` waits for its retain and `Returning` for the
   release after a push that failed; `Refused` and `Returned` were never owned.
  */
  datatype Phase =
    | Offered
    | Refused
    | Returning
    | Returned
    | Pending
    | Checking
    | Dispatching
    | Hooked
    | Cleaning(way: Way)
    | Releasing(way: Way)
    | Done(way: Way)

  datatype Frame = Act(k: nat) | Sweep

  /** `caught` are the posts that were waiting for their retain when the loop was disposed. */
  datatype Loop = Loop(capacity: nat, known: seq<Completion>, phases: seq<Phase>, queue: seq<nat>,
                       stack: seq<Frame>, disposed: bool, caught: set<nat>, log: seq<Event>)

  /** A callback of the completion is running. */
  predicate Running(p: Phase) {
    !p.Refused? && !p.Returned? && !p.Pending? && !p.Done?
  }

  predicate Owned(p: Phase) {
    !p.Offered? && !p.Refused? && !p.Returning? && !p.Returned?
  }

  /** The callback that begins with a phase. */
  function Entering(p: Phase, k: nat): seq<Event> {
    match p
    case Offered => [Retained(k)]
    case Returning => [Released(k)]
    case Checking => [Checked(k)]
    case Dispatching => [Dispatched(k)]
    case Hooked => [WasLate(k)]
    case Cleaning(_) => [Cleaned(k)]
    case Releasing(_) => [Released(k)]
    case _ => []
  }

  /** The answer with which the callback of a phase ends, if the loop looks at it. */
  function Leaving(p: Phase, k: nat, yes: bool): seq<Event> {
    match p
    case Offered => [RetainAnswered(k, yes)]
    case Checking => [CheckAnswered(k, yes)]
    case _ => []
  }

  /** sl_async_loop_finish_completion, from the release on. */
  function AfterCleanup(c: Completion, way: Way): Phase {
    if c.releases then Releasing(way) else Done(way)
  }

  /** sl_async_loop_finish_completion */
  function ToFinish(c: Completion, way: Way): Phase {
    if c.cleans then Cleaning(way) else AfterCleanup(c, way)
  }

  /** sl_async_loop_dispatch_completion */
  function ToTurn(c: Completion): Phase {
    if c.checks then Checking else Dispatching
  }

  /** What follows when a callback returns: `yes` is its answer, `room` that the queue is not full. */
  function Next(c: Completion, p: Phase, yes: bool, room: bool): Phase {
    match p
    case Offered => if !yes then Refused else if room then Pending else if c.releases then Returning else Returned
    case Returning => Returned
    case Checking => if !yes then Dispatching else if c.late then Hooked else ToFinish(c, Late)
    case Dispatching => ToFinish(c, Ran)
    case Hooked => ToFinish(c, Late)
    case Cleaning(way) => AfterCleanup(c, way)
    case Releasing(way) => Done(way)
    case _ => p
  }

  // ----- steps -----

  datatype Step = Offer(completion: Completion) | Turn | Dispose | Return(yes: bool) | Discard

  predicate WellFormed(s: Loop) {
    && |s.phases| == |s.known|
    && (forall i :: 0 <= i < |s.queue| ==> s.queue[i] < |s.known|)
    && (forall i :: 0 <= i < |s.stack| ==> s.stack[i].Act? ==> s.stack[i].k < |s.known|)
  }

  /** The loop can be called: from outside, or from a callback. */
  predicate Callable(s: Loop) {
    s.stack == [] || s.stack[|s.stack| - 1].Act?
  }

  predicate Sweeping(s: Loop) {
    s.stack != [] && s.stack[|s.stack| - 1].Sweep?
  }

  /** Completion `k` goes on to phase `p`, above the frames `below`. */
  function Enter(s: Loop, below: seq<Frame>, k: nat, p: Phase): Loop
    requires k < |s.phases|
  {
    s.(phases := s.phases[k := p], stack := if Running(p) then below + [Act(k)] else below,
       log := if Running(p) then s.log + Entering(p, k) else s.log)
  }

  predicate Admits(s: Loop, c: Completion) {
    c.valid && !s.disposed && |s.queue| < s.capacity
  }

  /** A completion gets its number. */
  function Numbered(s: Loop, c: Completion): Loop {
    s.(known := s.known + [c], phases := s.phases + [Pending])
  }

  /** sl_async_loop_enqueue_owned, to its retain callback; without one the push follows at once. */
  function DoOffer(s: Loop, c: Completion): Loop
    requires WellFormed(s)
  {
    if !Callable(s) || !Admits(s, c) then s
    else if c.retains then Enter(Numbered(s, c), s.stack, |s.known|, Offered)
    else Numbered(s, c).(queue := s.queue + [|s.known|])
  }

  /** sl_async_loop_test_run_once, to its first callback. */
  function DoTurn(s: Loop): Loop
    requires WellFormed(s)
  {
    if !Callable(s) || s.disposed || s.queue == [] then s
    else Enter(s.(queue := s.queue[1..]), s.stack, s.queue[0], ToTurn(s.known[s.queue[0]]))
  }

  /** sl_async_loop_dispose, to its loop. */
  function DoDispose(s: Loop): Loop {
    if !Callable(s) || s.disposed then s
    else s.(disposed := true, stack := s.stack + [Sweep],
            caught := set k | 0 <= k < |s.phases| && s.phases[k] == Offered)
  }

  /** The innermost callback returns. */
  function DoReturn(s: Loop, yes: bool): Loop
    requires WellFormed(s)
  {
    if s.stack == [] || Sweeping(s) then s
    else
      var k := s.stack[|s.stack| - 1].k;
      var p := Next(s.known[k], s.phases[k], yes, |s.queue| < s.capacity);
      Enter(s.(queue := if p.Pending? then s.queue + [k] else s.queue, log := s.log + Leaving(s.phases[k], k, yes)),
            s.stack[..|s.stack| - 1], k, p)
  }

  /** One round of sl_async_loop_discard_pending_unlocked, or its end. */
  function DoDiscard(s: Loop): Loop
    requires WellFormed(s)
  {
    if !Sweeping(s) then s
    else if s.queue == [] then s.(stack := s.stack[..|s.stack| - 1])
    else Enter(s.(queue := s.queue[1..]), s.stack, s.queue[0], ToFinish(s.known[s.queue[0]], Dropped))
  }

  function Do(s: Loop, step: Step): Loop {
    if !WellFormed(s) then s
    else
      match step
      case Offer(c) => DoOffer(s, c)
      case Turn => DoTurn(s)
      case Dispose => DoDispose(s)
      case Return(yes) => DoReturn(s, yes)
      case Discard => DoDiscard(s)
  }

  // ----- the callbacks made for one completion -----

  /** The events about completion `k`, in order. */
  function Trace(log: seq<Event>, k: nat): seq<Event> {
    if log == [] then []
    else
      var last := log[|log| - 1];
      Trace(log[..|log| - 1], k) + (if last.id == k then [last] else [])
  }

  /** One new event about `k` leaves every other completion's trace as it was. */
  lemma Appended(log: seq<Event>, e: Event, j: nat)
    ensures Trace(log + [e], j) == if e.id == j then Trace(log, j) + [e] else Trace(log, j)
  {
    assert (log + [e])[..|log|] == log;
  }

  /** Where a completion stood before its cleanup. */
  function Left(c: Completion, way: Way): Phase {
    match way
    case Ran => Dispatching
    case Late => if c.late then Hooked else Checking
    case Dropped => Pending
  }

  /** And what its check had answered by then, if that was its last callback. */
  function LeftWith(c: Completion, k: nat, way: Way): seq<Event> {
    if way == Late && !c.late then [CheckAnswered(k, true)] else []
  }

  /** Orders the phases by what comes before. */
  function Stage(p: Phase): nat {
    match p
    case Offered => 0
    case Pending => 0
    case Refused => 1
    case Returning => 1
    case Checking => 1
    case Returned => 2
    case Dispatching => 2
    case Hooked => 2
    case Cleaning(_) => 3
    case Releasing(_) => 4
    case Done(_) => 5
  }

  /** All the callbacks made for a completion, in order, by how far it has come. */
  function Life(c: Completion, k: nat, p: Phase): seq<Event>
    decreases Stage(p)
  {
    match p
    case Offered => [Retained(k)]
    case Refused => Life(c, k, Offered) + [RetainAnswered(k, false)]
    case Returning => Life(c, k, Offered) + [RetainAnswered(k, true), Released(k)]
    case Returned => if c.releases then Life(c, k, Returning) else Life(c, k, Offered) + [RetainAnswered(k, true)]
    case Pending => if c.retains then [Retained(k), RetainAnswered(k, true)] else []
    case Checking => Life(c, k, Pending) + [Checked(k)]
    case Dispatching =>
      if c.checks then Life(c, k, Checking) + [CheckAnswered(k, false), Dispatched(k)]
      else Life(c, k, Pending) + [Dispatched(k)]
    case Hooked => Life(c, k, Checking) + [CheckAnswered(k, true), WasLate(k)]
    case Cleaning(way) => Life(c, k, Left(c, way)) + LeftWith(c, k, way) + [Cleaned(k)]
    case Releasing(way) =>
      if c.cleans then Life(c, k, Cleaning(way)) + [Released(k)]
      else Life(c, k, Left(c, way)) + LeftWith(c, k, way) + [Released(k)]
    case Done(way) =>
      if c.releases then Life(c, k, Releasing(way))
      else if c.cleans then Life(c, k, Cleaning(way))
      else Life(c, k, Left(c, way)) + LeftWith(c, k, way)
  }

  /** A phase that waits for a callback belongs to a completion that has it. */
  predicate Fitting(c: Completion, p: Phase) {
    match p
    case Offered => c.retains
    case Refused => c.retains
    case Returning => c.retains && c.releases
    case Returned => c.retains
    case Checking => c.checks
    case Hooked => c.checks && c.late
    case Cleaning(_) => c.cleans
    case Releasing(_) => c.releases
    case _ => true
  }

  /** Phase `q` goes on from `p` with the answer given and exactly the callback it begins with. */
  ghost predicate Follows(c: Completion, k: nat, p: Phase, q: Phase, said: seq<Event>) {
    Life(c, k, q) == if Running(q) then Life(c, k, p) + said + Entering(q, k) else Life(c, k, p) + said
  }

  /** At most an answer of completion `k`. */
  predicate IsAnswer(said: seq<Event>, k: nat) {
    said == [] || said == [RetainAnswered(k, true)] || said == [RetainAnswered(k, false)]
    || said == [CheckAnswered(k, true)] || said == [CheckAnswered(k, false)]
  }

  lemma FinishFollows(c: Completion, k: nat, way: Way)
    ensures Fitting(c, ToFinish(c, way))
    ensures Follows(c, k, Left(c, way), ToFinish(c, way), LeftWith(c, k, way))
  {
  }

  lemma JoinEvents(log: seq<Event>, a: Event, b: Event)
    ensures log + [a] + [b] == log + [a, b]
  {
  }

  lemma OfferedFollows(c: Completion, k: nat, yes: bool, room: bool)
    requires c.retains
    ensures var q := Next(c, Offered, yes, room);
            Fitting(c, q) && Follows(c, k, Offered, q, [RetainAnswered(k, yes)])
  {
    JoinEvents(Life(c, k, Offered), RetainAnswered(k, true), Released(k));
    assert [Retained(k)] + [RetainAnswered(k, true)] == [Retained(k), RetainAnswered(k, true)];
  }

  lemma CheckingFollows(c: Completion, k: nat, yes: bool, room: bool)
    requires c.checks
    ensures var q := Next(c, Checking, yes, room);
            Fitting(c, q) && Follows(c, k, Checking, q, [CheckAnswered(k, yes)])
  {
    JoinEvents(Life(c, k, Checking), CheckAnswered(k, false), Dispatched(k));
    JoinEvents(Life(c, k, Checking), CheckAnswered(k, true), WasLate(k));
    if yes && !c.late {
      FinishFollows(c, k, Late);
    }
  }

  /** Without an answer. */
  lemma JustFollows(c: Completion, k: nat, p: Phase, q: Phase)
    requires Life(c, k, q) == if Running(q) then Life(c, k, p) + Entering(q, k) else Life(c, k, p)
    ensures Follows(c, k, p, q, [])
  {
    assert Life(c, k, p) + [] == Life(c, k, p);
  }

  /** Each return goes on exactly with the callback of the next phase. */
  lemma NextFollows(c: Completion, k: nat, p: Phase, yes: bool, room: bool)
    requires Running(p) && Fitting(c, p)
    ensures var q := Next(c, p, yes, room); Fitting(c, q) && Follows(c, k, p, q, Leaving(p, k, yes))
  {
    match p
    case Offered => OfferedFollows(c, k, yes, room);
    case Checking => CheckingFollows(c, k, yes, room);
    case Dispatching => FinishFollows(c, k, Ran);
    case Hooked => FinishFollows(c, k, Late);
    case _ => JustFollows(c, k, p, Next(c, p, yes, room));
  }

  lemma LeavingFollows(c: Completion, k: nat)
    ensures Fitting(c, ToTurn(c)) && Follows(c, k, Pending, ToTurn(c), [])
    ensures Fitting(c, ToFinish(c, Dropped)) && Follows(c, k, Pending, ToFinish(c, Dropped), [])
  {
    JustFollows(c, k, Pending, ToTurn(c));
    FinishFollows(c, k, Dropped);
  }

  ghost predicate Told(s: Loop, k: nat)
    requires |s.phases| == |s.known|
  {
    Trace(s.log, k) == if k < |s.known| then Life(s.known[k], k, s.phases[k]) else []
  }

  ghost predicate AllTold(s: Loop) {
    && |s.phases| == |s.known| && (forall k: nat :: Told(s, k))
    && forall k: nat :: k < |s.known| ==> Fitting(s.known[k], s.phases[k])
  }

  lemma AppendedAnswer(log: seq<Event>, said: seq<Event>, k: nat, j: nat)
    requires IsAnswer(said, k)
    ensures Trace(log + said, j) == if j == k then Trace(log, j) + said else Trace(log, j)
  {
    if said == [] {
      assert log + said == log && Trace(log, j) + said == Trace(log, j);
    } else {
      assert said == [said[0]];
      Appended(log, said[0], j);
    }
  }

  lemma AppendedBegin(log: seq<Event>, p: Phase, k: nat, j: nat)
    requires Running(p)
    ensures Trace(log + Entering(p, k), j) == if j == k then Trace(log, j) + Entering(p, k) else Trace(log, j)
  {
    Appended(log, Entering(p, k)[0], j);
    assert Entering(p, k) == [Entering(p, k)[0]];
  }

  /** Completion `k` goes on to `p` after an answer. */
  function Proceed(s: Loop, said: seq<Event>, below: seq<Frame>, k: nat, p: Phase): Loop
    requires k < |s.phases|
  {
    Enter(s.(log := s.log + said), below, k, p)
  }

  lemma EnterTold(s: Loop, said: seq<Event>, below: seq<Frame>, k: nat, p: Phase, j: nat)
    requires |s.phases| == |s.known| && Told(s, j) && Told(s, k) && k < |s.known|
    requires Follows(s.known[k], k, s.phases[k], p, said) && IsAnswer(said, k)
    ensures Told(Proceed(s, said, below, k, p), j)
  {
    AppendedAnswer(s.log, said, k, j);
    if Running(p) {
      AppendedBegin(s.log + said, p, k, j);
    }
  }

  /** Going on with the callback of the next phase keeps every story true. */
  lemma EnterTells(s: Loop, said: seq<Event>, below: seq<Frame>, k: nat, p: Phase)
    requires AllTold(s) && k < |s.known| && Fitting(s.known[k], p)
    requires Follows(s.known[k], k, s.phases[k], p, said) && IsAnswer(said, k)
    ensures AllTold(Proceed(s, said, below, k, p))
  {
    forall j: nat
      ensures Told(Proceed(s, said, below, k, p), j)
    {
      assert Told(s, j) && Told(s, k);
      EnterTold(s, said, below, k, p, j);
    }
  }

  lemma NumberedTold(s: Loop, c: Completion, j: nat)
    requires |s.phases| == |s.known| && Told(s, j) && Told(s, |s.known|)
    ensures !c.retains ==> Told(Numbered(s, c), j)
    ensures c.retains ==> Told(Enter(Numbered(s, c), s.stack, |s.known|, Offered), j)
  {
    var k := |s.known|;
    assert j < k ==> (s.known + [c])[j] == s.known[j] && (s.phases + [Pending])[j] == s.phases[j];
    if c.retains {
      Appended(s.log, Retained(k), j);
      assert j == k ==> Life(c, k, Offered) == [] + [Retained(k)];
    }
  }

  /** A new number begins with no events, or with its retain. */
  lemma NumberedTells(s: Loop, c: Completion)
    requires AllTold(s)
    ensures !c.retains ==> AllTold(Numbered(s, c))
    ensures c.retains ==> AllTold(Enter(Numbered(s, c), s.stack, |s.known|, Offered))
  {
    forall j: nat
      ensures !c.retains ==> Told(Numbered(s, c), j)
      ensures c.retains ==> Told(Enter(Numbered(s, c), s.stack, |s.known|, Offered), j)
    {
      assert Told(s, j) && Told(s, |s.known|);
      NumberedTold(s, c, j);
    }
  }

  /** Fields that no story is about may change. */
  lemma SameStory(s: Loop, t: Loop)
    requires AllTold(s) && t.known == s.known && t.phases == s.phases && t.log == s.log
    ensures AllTold(t)
  {
    forall j: nat
      ensures Told(t, j)
    {
      assert Told(s, j);
    }
  }

  lemma StepTells(s: Loop, step: Step)
    requires WellFormed(s) && AllTold(s) && Lined(s)
    ensures AllTold(Do(s, step))
  {
    match step
    case Offer(c) =>
      NumberedTells(s, c);
      if !c.retains {
        SameStory(Numbered(s, c), Numbered(s, c).(queue := s.queue + [|s.known|]));
      }
    case Turn =>
      if s.queue != [] {
        LeavingTells(s, s.stack, ToTurn(s.known[s.queue[0]]));
      }
    case Dispose => SameStory(s, DoDispose(s));
    case Return(yes) => ReturnTells(s, yes);
    case Discard =>
      if s.queue != [] {
        LeavingTells(s, s.stack, ToFinish(s.known[s.queue[0]], Dropped));
      } else {
        SameStory(s, DoDiscard(s));
      }
  }

  lemma ProceedSilently(s: Loop, below: seq<Frame>, k: nat, p: Phase)
    requires k < |s.phases|
    ensures Proceed(s, [], below, k, p) == Enter(s, below, k, p)
  {
    assert s.log + [] == s.log;
  }

  lemma LeavingTells(s: Loop, below: seq<Frame>, p: Phase)
    requires WellFormed(s) && AllTold(s) && s.queue != [] && s.phases[s.queue[0]] == Pending
    requires p == ToTurn(s.known[s.queue[0]]) || p == ToFinish(s.known[s.queue[0]], Dropped)
    ensures AllTold(Enter(s.(queue := s.queue[1..]), below, s.queue[0], p))
  {
    var t, k := s.(queue := s.queue[1..]), s.queue[0];
    SameStory(s, t);
    LeavingFollows(s.known[k], k);
    EnterTells(t, [], below, k, p);
    ProceedSilently(t, below, k, p);
  }

  lemma ReturnTells(s: Loop, yes: bool)
    requires WellFormed(s) && AllTold(s) && Lined(s)
    ensures AllTold(DoReturn(s, yes))
  {
    if s.stack != [] && !Sweeping(s) {
      var n, k := |s.stack| - 1, s.stack[|s.stack| - 1].k;
      var p := Next(s.known[k], s.phases[k], yes, |s.queue| < s.capacity);
      assert Told(s, k);
      NextFollows(s.known[k], k, s.phases[k], yes, |s.queue| < s.capacity);
      var t := s.(queue := if p.Pending? then s.queue + [k] else s.queue);
      SameStory(s, t);
      EnterTells(t, Leaving(s.phases[k], k, yes), s.stack[..n], k, p);
    }
  }

  // ----- how often -----

  /** The completion has left the queue in the given way. */
  predicate Went(p: Phase, way: Way) {
    (p.Cleaning? || p.Releasing? || p.Done?) && p.way == way
  }

  /** Whether a callback has been made for a completion, by how far it has come. */
  predicate Happened(c: Completion, p: Phase, e: Event) {
    match e
    case Retained(_) => c.retains
    case RetainAnswered(_, yes) => if yes then c.retains && p != Offered && p != Refused else p == Refused
    case CheckAnswered(_, yes) =>
      if yes then p == Hooked || Went(p, Late) else c.checks && (p == Dispatching || Went(p, Ran))
    case Checked(_) =>
      p == Checking || (c.checks && (p == Dispatching || p == Hooked || Went(p, Ran) || Went(p, Late)))
    case Dispatched(_) => p == Dispatching || Went(p, Ran)
    case WasLate(_) => p == Hooked || (c.late && Went(p, Late))
    case Cleaned(_) => p.Cleaning? || (c.cleans && (p.Releasing? || p.Done?))
    case Released(_) => p == Returning || p.Releasing? || (c.releases && (p == Returned || p.Done?))
  }

  function Times(has: bool): nat {
    if has then 1 else 0
  }

  /** Going from `p` to `q` adds the answer and the callback that `q` begins with, for the first time. */
  ghost predicate Adds(c: Completion, k: nat, p: Phase, q: Phase, said: seq<Event>) {
    forall e: Event :: e.id == k ==>
      Times(Happened(c, q, e)) == Times(Happened(c, p, e)) + Times(said == [e]) + Times(Entering(q, k) == [e])
  }

  lemma FinishAdds(c: Completion, k: nat, p: Phase, way: Way)
    requires way == Ran ==> p == Dispatching
    requires way == Late ==> p == Hooked && Fitting(c, p)
    requires way == Dropped ==> p == Pending
    ensures Adds(c, k, p, ToFinish(c, way), [])
  {
  }

  lemma OfferedAdds(c: Completion, k: nat, yes: bool, room: bool)
    requires c.retains
    ensures Adds(c, k, Offered, Next(c, Offered, yes, room), [RetainAnswered(k, yes)])
  {
  }

  lemma CheckingAdds(c: Completion, k: nat, yes: bool, room: bool)
    requires c.checks
    ensures Adds(c, k, Checking, Next(c, Checking, yes, room), [CheckAnswered(k, yes)])
  {
  }

  lemma NextAdds(c: Completion, k: nat, p: Phase, yes: bool, room: bool)
    requires Running(p) && Fitting(c, p)
    ensures Adds(c, k, p, Next(c, p, yes, room), Leaving(p, k, yes))
  {
    match p
    case Offered => OfferedAdds(c, k, yes, room);
    case Checking => CheckingAdds(c, k, yes, room);
    case Dispatching => FinishAdds(c, k, p, Ran);
    case Hooked => FinishAdds(c, k, p, Late);
    case _ =>
  }

  lemma LeavingAdds(c: Completion, k: nat)
    ensures Adds(c, k, Pending, ToTurn(c), []) && Adds(c, k, Pending, ToFinish(c, Dropped), [])
  {
    FinishAdds(c, k, Pending, Dropped);
  }

  ghost predicate Counted(s: Loop) {
    && |s.phases| == |s.known|
    && forall e: Event :: multiset(s.log)[e] == Times(e.id < |s.known| && Happened(s.known[e.id], s.phases[e.id], e))
  }

  lemma CountMore(log: seq<Event>, more: seq<Event>, e: Event)
    requires |more| <= 1
    ensures multiset(log + more)[e] == multiset(log)[e] + Times(more == [e])
  {
    assert more == [] || more == [more[0]];
  }

  /** The event is the answer or the callback, or it is neither and its count stays. */
  lemma CountTwo(log: seq<Event>, said: seq<Event>, begun: seq<Event>, e: Event)
    requires |said| <= 1 && |begun| <= 1
    ensures multiset(log + said + begun)[e] == multiset(log)[e] + Times(said == [e]) + Times(begun == [e])
  {
    CountMore(log, said, e);
    CountMore(log + said, begun, e);
  }

  lemma BegunIsOwn(p: Phase, k: nat, e: Event)
    ensures |Entering(p, k)| <= 1 && (Entering(p, k) == [e] ==> e.id == k) && (Entering(p, k) == [] <==> !Running(p))
  {
  }

  lemma ProceedLog(s: Loop, said: seq<Event>, below: seq<Frame>, k: nat, p: Phase, e: Event)
    requires k < |s.phases| && IsAnswer(said, k)
    ensures multiset(Proceed(s, said, below, k, p).log)[e]
         == multiset(s.log)[e] + Times(said == [e]) + Times(Entering(p, k) == [e])
  {
    CountTwo(s.log, said, Entering(p, k), e);
    BegunIsOwn(p, k, e);
    assert Proceed(s, said, below, k, p).log == s.log + said + Entering(p, k);
  }

  lemma OwnCount(s: Loop, said: seq<Event>, below: seq<Frame>, k: nat, p: Phase, e: Event)
    requires k < |s.known| == |s.phases| && IsAnswer(said, k) && e.id == k
    requires Adds(s.known[k], k, s.phases[k], p, said)
    requires multiset(s.log)[e] == Times(Happened(s.known[k], s.phases[k], e))
    ensures multiset(Proceed(s, said, below, k, p).log)[e] == Times(Happened(s.known[k], p, e))
  {
    ProceedLog(s, said, below, k, p, e);
  }

  lemma OtherCount(s: Loop, said: seq<Event>, below: seq<Frame>, k: nat, p: Phase, e: Event)
    requires k < |s.phases| && IsAnswer(said, k) && e.id != k
    ensures multiset(Proceed(s, said, below, k, p).log)[e] == multiset(s.log)[e]
  {
    ProceedLog(s, said, below, k, p, e);
    BegunIsOwn(p, k, e);
  }

  lemma EnterCounts(s: Loop, said: seq<Event>, below: seq<Frame>, k: nat, p: Phase)
    requires Counted(s) && k < |s.known| && IsAnswer(said, k) && Adds(s.known[k], k, s.phases[k], p, said)
    ensures Counted(Proceed(s, said, below, k, p))
  {
    var t := Proceed(s, said, below, k, p);
    forall e: Event
      ensures multiset(t.log)[e] == Times(e.id < |t.known| && Happened(t.known[e.id], t.phases[e.id], e))
    {
      if e.id == k {
        OwnCount(s, said, below, k, p, e);
      } else {
        OtherCount(s, said, below, k, p, e);
      }
    }
  }

  lemma NumberedCounts(s: Loop, c: Completion)
    requires Counted(s)
    ensures !c.retains ==> Counted(Numbered(s, c))
    ensures c.retains ==> Counted(Enter(Numbered(s, c), s.stack, |s.known|, Offered))
  {
    var k := |s.known|;
    var t := if c.retains then Enter(Numbered(s, c), s.stack, k, Offered) else Numbered(s, c);
    forall e: Event
      ensures multiset(t.log)[e] == Times(e.id < |t.known| && Happened(t.known[e.id], t.phases[e.id], e))
    {
      CountMore(s.log, [Retained(k)], e);
    }
  }

  lemma ReturnCounts(s: Loop, yes: bool)
    requires WellFormed(s) && AllTold(s) && Counted(s) && Lined(s)
    ensures Counted(DoReturn(s, yes))
  {
    if s.stack != [] && !Sweeping(s) {
      var n, k := |s.stack| - 1, s.stack[|s.stack| - 1].k;
      var p := Next(s.known[k], s.phases[k], yes, |s.queue| < s.capacity);
      assert Told(s, k);
      NextAdds(s.known[k], k, s.phases[k], yes, |s.queue| < s.capacity);
      EnterCounts(s.(queue := if p.Pending? then s.queue + [k] else s.queue), Leaving(s.phases[k], k, yes),
                  s.stack[..n], k, p);
    }
  }

  lemma StepCounts(s: Loop, step: Step)
    requires WellFormed(s) && AllTold(s) && Counted(s) && Lined(s)
    ensures Counted(Do(s, step))
  {
    match step
    case Offer(c) => NumberedCounts(s, c);
    case Turn =>
      if s.queue != [] {
        LeavingCounts(s, ToTurn(s.known[s.queue[0]]));
      }
    case Dispose =>
    case Return(yes) => ReturnCounts(s, yes);
    case Discard =>
      if s.queue != [] {
        LeavingCounts(s, ToFinish(s.known[s.queue[0]], Dropped));
      }
  }

  lemma LeavingCounts(s: Loop, p: Phase)
    requires WellFormed(s) && Counted(s) && s.queue != [] && s.phases[s.queue[0]] == Pending
    requires p == ToTurn(s.known[s.queue[0]]) || p == ToFinish(s.known[s.queue[0]], Dropped)
    ensures Counted(Enter(s.(queue := s.queue[1..]), s.stack, s.queue[0], p))
  {
    LeavingAdds(s.known[s.queue[0]], s.queue[0]);
    EnterCounts(s.(queue := s.queue[1..]), [], s.stack, s.queue[0], p);
    ProceedSilently(s.(queue := s.queue[1..]), s.stack, s.queue[0], p);
  }

  // ----- every completion has its place -----

  /** Who waits for a callback has a frame, and nobody else. */
  ghost predicate Framed(s: Loop)
    requires WellFormed(s)
  {
    && Distinct(s.stack)
    && (forall i :: 0 <= i < |s.stack| ==> s.stack[i].Act? ==> Running(s.phases[s.stack[i].k]))
    && (forall k :: 0 <= k < |s.phases| && Running(s.phases[k]) ==> Act(k) in s.stack)
  }

  /** Who is pending stands in the queue, and nobody else. */
  ghost predicate Queued(s: Loop)
    requires WellFormed(s)
  {
    && Distinct(s.queue)
    && (forall i :: 0 <= i < |s.queue| ==> s.phases[s.queue[i]] == Pending)
    && (forall k :: 0 <= k < |s.phases| && s.phases[k] == Pending ==> k in s.queue)
  }

  ghost predicate Lined(s: Loop)
    requires WellFormed(s)
  {
    Framed(s) && Queued(s)
  }

  lemma SnocDistinct<T>(s: seq<T>, x: T)
    requires Distinct(s) && x !in s
    ensures Distinct(s + [x])
  {
  }

  /** Of a sequence without repetitions, the rest is everything but the first. */
  lemma RestHolds<T>(s: seq<T>)
    requires s != [] && Distinct(s)
    ensures Distinct(s[1..]) && s[0] !in s[1..] && forall x :: x in s && x != s[0] ==> x in s[1..]
  {
    assert s == [s[0]] + s[1..];
  }

  lemma InitHolds<T>(s: seq<T>)
    requires s != [] && Distinct(s)
    ensures Distinct(s[..|s| - 1]) && s[|s| - 1] !in s[..|s| - 1]
    ensures forall x :: x in s && x != s[|s| - 1] ==> x in s[..|s| - 1]
  {
    assert s == s[..|s| - 1] + [s[|s| - 1]];
  }

  /** A completion without a frame below goes on, with a frame exactly if it waits. */
  lemma EnterFrames(s: Loop, below: seq<Frame>, k: nat, p: Phase)
    requires |s.phases| == |s.known| && k < |s.known| && Distinct(below) && Act(k) !in below
    requires forall i :: 0 <= i < |below| ==> below[i].Act? ==> below[i].k < |s.known| && Running(s.phases[below[i].k])
    requires forall j :: 0 <= j < |s.phases| && Running(s.phases[j]) && j != k ==> Act(j) in below
    requires WellFormed(Enter(s, below, k, p))
    ensures Framed(Enter(s, below, k, p))
  {
    SnocDistinct(below, Act(k));
  }

  /** A completion that is not in `queue` goes on, and is queued exactly if it is pending. */
  lemma EnterQueues(s: Loop, queue: seq<nat>, below: seq<Frame>, k: nat, p: Phase)
    requires |s.phases| == |s.known| && k < |s.known| && Distinct(queue) && k !in queue
    requires forall i :: 0 <= i < |queue| ==> queue[i] < |s.known| && s.phases[queue[i]] == Pending
    requires forall j :: 0 <= j < |s.phases| && s.phases[j] == Pending && j != k ==> j in queue
    requires s.queue == if p.Pending? then queue + [k] else queue
    requires WellFormed(Enter(s, below, k, p))
    ensures Queued(Enter(s, below, k, p))
  {
    SnocDistinct(queue, k);
  }

  lemma EnterLines(s: Loop, queue: seq<nat>, below: seq<Frame>, k: nat, p: Phase)
    requires |s.phases| == |s.known| && k < |s.known|
    requires Distinct(below) && Distinct(queue) && Act(k) !in below && k !in queue
    requires forall i :: 0 <= i < |below| ==> below[i].Act? ==> below[i].k < |s.known| && Running(s.phases[below[i].k])
    requires forall i :: 0 <= i < |queue| ==> queue[i] < |s.known| && s.phases[queue[i]] == Pending
    requires forall j :: 0 <= j < |s.phases| && Running(s.phases[j]) && j != k ==> Act(j) in below
    requires forall j :: 0 <= j < |s.phases| && s.phases[j] == Pending && j != k ==> j in queue
    ensures var t := Enter(s.(queue := if p.Pending? then queue + [k] else queue), below, k, p);
            WellFormed(t) && Lined(t)
  {
    var u := s.(queue := if p.Pending? then queue + [k] else queue);
    assert WellFormed(Enter(u, below, k, p));
    EnterFrames(u, below, k, p);
    EnterQueues(u, queue, below, k, p);
  }

  lemma OfferLines(s: Loop, c: Completion)
    requires WellFormed(s) && Lined(s)
    ensures WellFormed(DoOffer(s, c)) && Lined(DoOffer(s, c))
  {
    if Callable(s) && Admits(s, c) {
      var n := Numbered(s, c);
      EnterLines(n, s.queue, s.stack, |s.known|, if c.retains then Offered else Pending);
      assert n.phases[|s.known| := Pending] == n.phases;
    }
  }

  lemma LeavingLines(s: Loop, p: Phase)
    requires WellFormed(s) && Lined(s) && s.queue != [] && !p.Pending?
    ensures var t := Enter(s.(queue := s.queue[1..]), s.stack, s.queue[0], p); WellFormed(t) && Lined(t)
  {
    RestHolds(s.queue);
    EnterLines(s, s.queue[1..], s.stack, s.queue[0], p);
  }

  lemma ReturnLines(s: Loop, yes: bool)
    requires WellFormed(s) && Lined(s)
    ensures WellFormed(DoReturn(s, yes)) && Lined(DoReturn(s, yes))
  {
    if s.stack != [] && !Sweeping(s) {
      var n, k := |s.stack| - 1, s.stack[|s.stack| - 1].k;
      InitHolds(s.stack);
      assert Running(s.phases[k]);
      var t := s.(log := s.log + Leaving(s.phases[k], k, yes));
      EnterLines(t, s.queue, s.stack[..n], k, Next(s.known[k], s.phases[k], yes, |s.queue| < s.capacity));
    }
  }

  /** Pushing or dropping the frame of a dispose. */
  lemma SweepLines(s: Loop, t: Loop)
    requires WellFormed(s) && Lined(s) && t.known == s.known && t.phases == s.phases && t.queue == s.queue
    requires Distinct(t.stack) && forall j: nat :: Act(j) in s.stack <==> Act(j) in t.stack
    ensures WellFormed(t) && Lined(t)
  {
    forall i | 0 <= i < |t.stack| && t.stack[i].Act?
      ensures t.stack[i].k < |s.known| && Running(s.phases[t.stack[i].k])
    {
      assert Act(t.stack[i].k) in t.stack;
    }
  }

  lemma StepLines(s: Loop, step: Step)
    requires WellFormed(s) && Lined(s) && (Sweep in s.stack ==> s.disposed)
    ensures WellFormed(Do(s, step)) && Lined(Do(s, step))
  {
    match step
    case Offer(c) => OfferLines(s, c);
    case Turn =>
      if s.queue != [] {
        LeavingLines(s, ToTurn(s.known[s.queue[0]]));
      }
    case Dispose =>
      if Callable(s) && !s.disposed {
        SnocDistinct(s.stack, Sweep);
        SweepLines(s, DoDispose(s));
      }
    case Return(yes) => ReturnLines(s, yes);
    case Discard =>
      if Sweeping(s) && s.queue == [] {
        InitHolds(s.stack);
        SweepLines(s, DoDiscard(s));
      } else if s.queue != [] {
        LeavingLines(s, ToFinish(s.known[s.queue[0]], Dropped));
      }
  }

  // ----- disposal -----

  /** Nobody above the frame at `m` waits for its retain. */
  predicate NoneOfferedAbove(s: Loop, m: nat)
    requires WellFormed(s)
  {
    forall i :: m < i < |s.stack| && s.stack[i].Act? ==> s.phases[s.stack[i].k] != Offered
  }

  predicate Open(s: Loop) {
    !s.disposed && Sweep !in s.stack && s.caught == {}
  }

  /** While the queue is being emptied, the caught posts still wait below. */
  predicate Emptying(s: Loop, m: nat)
    requires WellFormed(s)
  {
    && s.disposed && m < |s.stack| && s.stack[m] == Sweep && NoneOfferedAbove(s, m)
    && (forall k :: k in s.caught ==> 0 <= k < |s.phases| && s.phases[k] == Offered)
    && (forall k :: 0 <= k < |s.phases| && s.phases[k] == Offered ==> k in s.caught)
  }

  /** After that only caught posts can still come in, and nothing goes out. */
  predicate Shut(s: Loop)
    requires WellFormed(s)
  {
    && s.disposed && Sweep !in s.stack
    && (forall k :: k in s.caught ==> 0 <= k < |s.phases| && (s.phases[k] == Pending || !Owned(s.phases[k])))
    && (forall k :: 0 <= k < |s.phases| && s.phases[k] == Offered ==> k in s.caught)
    && (forall i :: 0 <= i < |s.queue| ==> s.queue[i] in s.caught)
  }

  ghost predicate Staged(s: Loop)
    requires WellFormed(s)
  {
    Open(s) || (exists m: nat :: Emptying(s, m)) || Shut(s)
  }

  lemma SweepMeansDisposed(s: Loop)
    requires WellFormed(s) && Staged(s)
    ensures Sweep in s.stack ==> s.disposed
  {
  }

  lemma EmptyingReturn(s: Loop, m: nat, k: nat, p: Phase, queue: seq<nat>, log: seq<Event>, below: seq<Frame>)
    requires WellFormed(s) && Emptying(s, m) && s.stack == below + [Act(k)] && m < |below| && p != Offered
    requires k < |s.phases|
    requires WellFormed(Enter(s.(queue := queue, log := log), below, k, p))
    ensures Emptying(Enter(s.(queue := queue, log := log), below, k, p), m)
  {
    var t := Enter(s.(queue := queue, log := log), below, k, p);
    assert s.stack[|below|] == Act(k) && s.phases[k] != Offered;
    assert forall i :: 0 <= i < |below| ==> s.stack[i] == below[i] == t.stack[i];
  }

  lemma ShutEnter(s: Loop, k: nat, p: Phase, log: seq<Event>, below: seq<Frame>)
    requires WellFormed(s) && Shut(s) && s.stack == below + [Act(k)] && k < |s.phases| && p != Offered
    requires if k in s.caught then p == Pending || !Owned(p) else p != Pending
    requires WellFormed(Enter(s.(queue := if p.Pending? then s.queue + [k] else s.queue, log := log), below, k, p))
    ensures Shut(Enter(s.(queue := if p.Pending? then s.queue + [k] else s.queue, log := log), below, k, p))
  {
    assert forall i :: 0 <= i < |below| ==> s.stack[i] == below[i];
  }

  lemma NextOfCaught(c: Completion, p: Phase, yes: bool, room: bool)
    requires Running(p)
    ensures Next(c, p, yes, room) != Offered
    ensures !Owned(p) ==> Next(c, p, yes, room) == Pending || !Owned(Next(c, p, yes, room))
    ensures p != Offered ==> Next(c, p, yes, room) != Pending
  {
  }

  /** Only a caught post may come to be pending in a loop that is shut, and it goes no further. */
  predicate MayGoOn(s: Loop, k: nat, p: Phase) {
    p != Offered && if k in s.caught then p == Pending || !Owned(p) else p != Pending
  }

  lemma EnterStages(s: Loop, k: nat, p: Phase, log: seq<Event>, below: seq<Frame>)
    requires WellFormed(s) && Staged(s) && s.stack == below + [Act(k)] && k < |s.phases| && p != Offered
    requires Shut(s) ==> MayGoOn(s, k, p)
    requires WellFormed(Enter(s.(queue := if p.Pending? then s.queue + [k] else s.queue, log := log), below, k, p))
    ensures Staged(Enter(s.(queue := if p.Pending? then s.queue + [k] else s.queue, log := log), below, k, p))
  {
    if Shut(s) {
      ShutEnter(s, k, p, log, below);
    } else if s.disposed {
      var m: nat :| Emptying(s, m);
      assert s.stack[|below|] == Act(k);
      EmptyingReturn(s, m, k, p, if p.Pending? then s.queue + [k] else s.queue, log, below);
    } else {
      assert Open(Enter(s.(queue := if p.Pending? then s.queue + [k] else s.queue, log := log), below, k, p)) by {
        assert forall i :: 0 <= i < |below| ==> s.stack[i] == below[i];
      }
    }
  }

  lemma ShutGoesOn(s: Loop, k: nat, yes: bool)
    requires WellFormed(s) && Shut(s) && k < |s.phases| && Running(s.phases[k])
    ensures MayGoOn(s, k, Next(s.known[k], s.phases[k], yes, |s.queue| < s.capacity))
  {
    NextOfCaught(s.known[k], s.phases[k], yes, |s.queue| < s.capacity);
  }

  /** Nothing is offered once the loop is disposed, so its stage is the same before and after a return. */
  lemma ReturnStages(s: Loop, yes: bool)
    requires WellFormed(s) && Lined(s) && WellFormed(DoReturn(s, yes)) && Staged(s)
    ensures Staged(DoReturn(s, yes))
  {
    if s.stack != [] && !Sweeping(s) {
      var n, k := |s.stack| - 1, s.stack[|s.stack| - 1].k;
      var p := Next(s.known[k], s.phases[k], yes, |s.queue| < s.capacity);
      assert s.stack == s.stack[..n] + [Act(k)];
      NextOfCaught(s.known[k], s.phases[k], yes, |s.queue| < s.capacity);
      if Shut(s) {
        ShutGoesOn(s, k, yes);
      }
      EnterStages(s, k, p, s.log + Leaving(s.phases[k], k, yes), s.stack[..n]);
    }
  }

  lemma DiscardStages(s: Loop)
    requires WellFormed(s) && Lined(s) && WellFormed(DoDiscard(s)) && Staged(s)
    ensures Staged(DoDiscard(s))
  {
    if Sweeping(s) {
      var n, t := |s.stack| - 1, DoDiscard(s);
      assert s.stack[n] in s.stack;
      var m: nat :| Emptying(s, m);
      assert m == n;
      if s.queue == [] {
        InitHolds(s.stack);
        assert Shut(t);
      } else {
        assert s.phases[s.queue[0]] == Pending && t.stack[m] == Sweep;
        assert Emptying(t, m);
      }
    }
  }

  lemma StepStages(s: Loop, step: Step)
    requires WellFormed(s) && Lined(s) && WellFormed(Do(s, step)) && Staged(s)
    ensures Staged(Do(s, step))
  {
    match step
    case Offer(_) =>
    case Turn =>
    case Dispose =>
      if Callable(s) && !s.disposed {
        assert Emptying(DoDispose(s), |s.stack|);
      }
    case Return(yes) => ReturnStages(s, yes);
    case Discard => DiscardStages(s);
  }

  // ----- every run -----

  ghost predicate Inv(s: Loop) {
    WellFormed(s) && Lined(s) && AllTold(s) && Counted(s) && Staged(s) && |s.queue| <= s.capacity
  }

  function Start(capacity: nat): Loop {
    Loop(capacity, [], [], [], [], false, {}, [])
  }

  lemma StartKeeps(capacity: nat)
    ensures Inv(Start(capacity))
  {
  }

  lemma RoomKeeps(s: Loop, step: Step)
    requires WellFormed(s) && Lined(s) && |s.queue| <= s.capacity
    ensures |Do(s, step).queue| <= Do(s, step).capacity
  {
  }

  lemma StepKeeps(s: Loop, step: Step)
    requires Inv(s)
    ensures Inv(Do(s, step))
  {
    SweepMeansDisposed(s);
    StepLines(s, step);
    StepTells(s, step);
    StepCounts(s, step);
    StepStages(s, step);
    RoomKeeps(s, step);
  }

  ghost predicate Reaches(s: Loop, steps: seq<Step>, t: Loop) {
    Runs.After(Do, s, steps) == t
  }

  lemma {:induction false} RunKeeps(s: Loop, steps: seq<Step>)
    requires Inv(s)
    ensures Inv(Runs.After(Do, s, steps))
  {
    if steps != [] {
      RunKeeps(s, steps[..|steps| - 1]);
      StepKeeps(Runs.After(Do, s, steps[..|steps| - 1]), steps[|steps| - 1]);
    }
  }

  ghost predicate Reachable(s: Loop) {
    exists steps: seq<Step> :: Reaches(Start(s.capacity), steps, s)
  }

  /**
   From an empty loop, whatever the code outside and the callbacks call and answer: the callbacks
   made for each completion are those of its phase, in order, and everyone has a place.
  */
  lemma EveryRun(s: Loop)
    requires Reachable(s)
    ensures Inv(s)
  {
    var steps :| Reaches(Start(s.capacity), steps, s);
    StartKeeps(s.capacity);
    RunKeeps(Start(s.capacity), steps);
  }

  lemma ReachableIsLined(s: Loop)
    requires Reachable(s)
    ensures WellFormed(s) && Lined(s)
  {
    EveryRun(s);
  }

  // ----- exactly once -----

  /**
   In every reachable state each callback of a completion has been made once or never, as its
   phase says.  One that is done has been cleaned and released once; it was dispatched once, or
   came late or was dropped and then never.
  */
  lemma ExactlyOnce(s: Loop, e: Event)
    requires Reachable(s)
    ensures |s.phases| == |s.known|
    ensures multiset(s.log)[e] == Times(e.id < |s.known| && Happened(s.known[e.id], s.phases[e.id], e))
  {
    EveryRun(s);
  }

  /**
   The check decides: what was dispatched was not found terminal, and what ended late was.
  */
  lemma CheckDecides(s: Loop, k: nat)
    requires Reachable(s)
    ensures Dispatched(k) in s.log ==> CheckAnswered(k, true) !in s.log
    ensures WasLate(k) in s.log ==> CheckAnswered(k, true) in s.log && Dispatched(k) !in s.log
    ensures k < |s.known| == |s.phases| && s.phases[k] == Done(Late) ==> CheckAnswered(k, true) in s.log
    ensures k < |s.known| == |s.phases| && s.phases[k] == Done(Ran) && s.known[k].checks ==>
            CheckAnswered(k, false) in s.log && CheckAnswered(k, true) !in s.log
  {
    Logged(s, Dispatched(k));
    Logged(s, WasLate(k));
    Logged(s, CheckAnswered(k, true));
    Logged(s, CheckAnswered(k, false));
  }

  lemma Logged(s: Loop, e: Event)
    requires Reachable(s)
    ensures |s.phases| == |s.known|
    ensures e in s.log <==> e.id < |s.known| && Happened(s.known[e.id], s.phases[e.id], e)
  {
    ExactlyOnce(s, e);
    assert e in s.log <==> multiset(s.log)[e] > 0;
  }

  /** The retain decides: a post is refused exactly when its retain said no, and owned only if it said yes. */
  lemma RetainDecides(s: Loop, k: nat)
    requires Reachable(s) && k < |s.known|
    ensures |s.phases| == |s.known|
    ensures s.phases[k] == Refused <==> RetainAnswered(k, false) in s.log
    ensures Owned(s.phases[k]) && s.known[k].retains ==> RetainAnswered(k, true) in s.log
  {
    Logged(s, RetainAnswered(k, true));
    Logged(s, RetainAnswered(k, false));
  }

  /**
   A post that failed took nothing: it was never dispatched, hooked or cleaned, and its scope was
   released exactly if its retain had succeeded and the push after it failed.
  */
  lemma FailedPostTakesNothing(s: Loop, k: nat)
    requires Reachable(s) && k < |s.known| == |s.phases| && (s.phases[k] == Refused || s.phases[k] == Returned)
    ensures forall e: Event :: e.id == k && (e.Dispatched? || e.WasLate? || e.Cleaned?) ==> multiset(s.log)[e] == 0
    ensures multiset(s.log)[Retained(k)] == 1
    ensures multiset(s.log)[Released(k)] == Times(s.phases[k] == Returned && s.known[k].releases)
  {
    PhaseFits(s, k);
    ExactlyOnce(s, Dispatched(k));
    ExactlyOnce(s, WasLate(k));
    ExactlyOnce(s, Cleaned(k));
    ExactlyOnce(s, Retained(k));
    ExactlyOnce(s, Released(k));
  }

  lemma PhaseFits(s: Loop, k: nat)
    requires Reachable(s) && k < |s.known| == |s.phases|
    ensures Fitting(s.known[k], s.phases[k])
  {
    EveryRun(s);
    assert Told(s, k);
  }

  // ----- accounting -----

  function OwnedIds(phases: seq<Phase>): set<nat> {
    set k | 0 <= k < |phases| && Owned(phases[k])
  }

  function RunningIds(phases: seq<Phase>): set<nat> {
    set k | 0 <= k < |phases| && Running(phases[k])
  }

  function PendingIds(phases: seq<Phase>): set<nat> {
    set k | 0 <= k < |phases| && phases[k].Pending?
  }

  function DoneIds(phases: seq<Phase>): set<nat> {
    set k | 0 <= k < |phases| && phases[k].Done?
  }

  /** Different numbers that are exactly those of a set. */
  lemma {:induction false} QueueCount(queue: seq<nat>, ids: set<nat>)
    requires Distinct(queue) && forall i :: 0 <= i < |queue| ==> queue[i] in ids
    requires forall k :: k in ids ==> k in queue
    ensures |ids| == |queue|
  {
    if queue == [] {
      assert ids == {};
    } else {
      InitHolds(queue);
      QueueCount(queue[..|queue| - 1], ids - {queue[|queue| - 1]});
    }
  }

  /** Different frames, those with a number being exactly those of the set. */
  ghost predicate FramesOf(stack: seq<Frame>, ids: set<nat>) {
    && (forall k :: Act(k) in stack <==> k in ids)
    && Distinct(stack)
  }

  /** They are as many as the numbers, and one more for a dispose. */
  lemma {:induction false} StackCount(stack: seq<Frame>, ids: set<nat>)
    requires FramesOf(stack, ids)
    ensures |ids| + (if Sweep in stack then 1 else 0) == |stack|
  {
    if stack == [] {
      assert forall k :: k in ids ==> Act(k) in stack;
      assert ids == {};
    } else {
      var init, last := stack[..|stack| - 1], stack[|stack| - 1];
      InitHolds(stack);
      LastSplits(stack);
      if last.Act? {
        assert last.k in ids;
        StackCount(init, ids - {last.k});
      } else {
        StackCount(init, ids);
      }
    }
  }

  lemma LastSplits(stack: seq<Frame>)
    requires stack != []
    ensures forall f :: f in stack <==> f in stack[..|stack| - 1] || f == stack[|stack| - 1]
  {
    assert stack == stack[..|stack| - 1] + [stack[|stack| - 1]];
  }

  lemma OwnedSplits(phases: seq<Phase>)
    ensures |OwnedIds(phases)|
            == |PendingIds(phases)| + |OwnedIds(phases) * RunningIds(phases)| + |DoneIds(phases)|
  {
    var running := OwnedIds(phases) * RunningIds(phases);
    assert OwnedIds(phases) == PendingIds(phases) + running + DoneIds(phases);
  }

  /**
   Nothing is lost: in every reachable state the owned completions are those in the queue, those
   whose callback runs and those done, and all running callbacks are the frames of the stack.
  */
  lemma Accounting(s: Loop)
    requires Reachable(s)
    ensures |OwnedIds(s.phases)|
            == |s.queue| + |OwnedIds(s.phases) * RunningIds(s.phases)| + |DoneIds(s.phases)|
    ensures |RunningIds(s.phases)| + (if Sweep in s.stack then 1 else 0) == |s.stack|
  {
    ReachableIsLined(s);
    OwnedSplits(s.phases);
    QueueCount(s.queue, PendingIds(s.phases));
    assert FramesOf(s.stack, RunningIds(s.phases));
    StackCount(s.stack, RunningIds(s.phases));
  }

  // ----- what a dispose leaves behind -----

  /** The dispose has run and all calls have returned. */
  ghost predicate Closed(s: Loop) {
    Reachable(s) && s.disposed && s.stack == [] && |s.phases| == |s.known|
  }

  /**
   Once the loop is disposed and all calls have returned, an owned completion is done exactly
   when its post was not waiting for its retain at the moment of the dispose.
  */
  lemma DisposedExactly(s: Loop, k: nat)
    requires Closed(s) && k < |s.known| && Owned(s.phases[k])
    ensures s.phases[k].Done? <==> k !in s.caught
    ensures !s.phases[k].Done? <==> k in s.queue
  {
    EveryRun(s);
    assert Shut(s);
    assert s.phases[k].Done? || s.phases[k] == Pending;
  }

  /** So everything owned is finished if and only if none of those posts came to be owned. */
  lemma CleanExactly(s: Loop)
    requires Closed(s)
    ensures (forall k: nat :: k < |s.known| && Owned(s.phases[k]) ==> s.phases[k].Done?)
            <==> (forall k: nat :: k in s.caught && k < |s.known| ==> !Owned(s.phases[k]))
  {
    forall k: nat | k < |s.known| && Owned(s.phases[k])
      ensures s.phases[k].Done? <==> k !in s.caught
    {
      DisposedExactly(s, k);
    }
  }

  /** In particular when no retain callback disposes the loop. */
  lemma DisposedIsClean(s: Loop, k: nat)
    requires Closed(s) && s.caught == {} && k < |s.known| && Owned(s.phases[k])
    ensures s.phases[k].Done?
    ensures multiset(s.log)[Cleaned(k)] == Times(s.known[k].cleans)
    ensures multiset(s.log)[Released(k)] == Times(s.known[k].releases)
  {
    DisposedExactly(s, k);
    ExactlyOnce(s, Cleaned(k));
    ExactlyOnce(s, Released(k));
  }

  lemma ShutStep(s: Loop, step: Step, k: nat)
    requires Inv(s) && Shut(s) && k in s.queue
    ensures WellFormed(Do(s, step)) && Shut(Do(s, step)) && k in Do(s, step).queue
  {
    StepKeeps(s, step);
  }

  lemma {:induction false} ShutRun(s: Loop, steps: seq<Step>, k: nat)
    requires Inv(s) && Shut(s) && k in s.queue
    ensures var t := Runs.After(Do, s, steps); Inv(t) && Shut(t) && k in t.queue
  {
    if steps != [] {
      ShutRun(s, steps[..|steps| - 1], k);
      var t := Runs.After(Do, s, steps[..|steps| - 1]);
      ShutStep(t, steps[|steps| - 1], k);
      StepKeeps(t, steps[|steps| - 1]);
    }
  }

  /** What stands in the queue of a disposed loop whose dispose has returned stays there for good. */
  lemma StrandedForever(s: Loop, steps: seq<Step>, t: Loop, k: nat)
    requires Reachable(s) && s.disposed && Sweep !in s.stack && k in s.queue && Reaches(s, steps, t)
    ensures |t.phases| == |t.known| && k < |t.known| && t.phases[k] == Pending
    ensures multiset(t.log)[Cleaned(k)] == 0 && multiset(t.log)[Released(k)] == 0
  {
    EveryRun(s);
    ShutRun(s, steps, k);
    QueuedIsUnfinished(t, k);
  }

  lemma QueuedIsUnfinished(s: Loop, k: nat)
    requires WellFormed(s) && Lined(s) && Counted(s) && k in s.queue
    ensures k < |s.known| && s.phases[k] == Pending
    ensures multiset(s.log)[Cleaned(k)] == 0 && multiset(s.log)[Released(k)] == 0
  {
  }

  // ----- retain callbacks that call the loop -----

  lemma OfferToEmpty(capacity: nat, c: Completion)
    requires capacity > 0 && c.valid && c.retains
    ensures Do(Start(capacity), Offer(c)) == Loop(capacity, [c], [Offered], [], [Act(0)], false, {}, [Retained(0)])
  {
    assert [Pending][0 := Offered] == [Offered];
  }

  lemma DisposeInRetain(capacity: nat, c: Completion)
    ensures var s := Loop(capacity, [c], [Offered], [], [Act(0)], false, {}, [Retained(0)]);
            && Do(s, Dispose) == Loop(capacity, [c], [Offered], [], [Act(0), Sweep], true, {0}, [Retained(0)])
            && Do(Do(s, Dispose), Discard) == Loop(capacity, [c], [Offered], [], [Act(0)], true, {0}, [Retained(0)])
  {
    assert [Act(0), Sweep][..1] == [Act(0)];
  }

  lemma ReturnToDisposed(capacity: nat, c: Completion)
    requires capacity > 0
    ensures Do(Loop(capacity, [c], [Offered], [], [Act(0)], true, {0}, [Retained(0)]), Return(true))
            == Loop(capacity, [c], [Pending], [0], [], true, {0}, [Retained(0), RetainAnswered(0, true)])
  {
    assert [Retained(0)] + [RetainAnswered(0, true)] == [Retained(0), RetainAnswered(0, true)];
    assert [Offered][0 := Pending] == [Pending] && [Act(0)][..0] == [];
  }

  /**
   The header promises that a dispose finishes everything owned.  A retain callback that disposes
   the loop breaks that: the push after it succeeds, and nothing finishes the completion.
  */
  lemma RetainThatDisposes(capacity: nat, c: Completion)
    requires capacity > 0 && c.valid && c.retains
    ensures Reaches(Start(capacity), [Offer(c), Dispose, Discard, Return(true)],
                    Loop(capacity, [c], [Pending], [0], [], true, {0}, [Retained(0), RetainAnswered(0, true)]))
  {
    OfferToEmpty(capacity, c);
    DisposeInRetain(capacity, c);
    ReturnToDisposed(capacity, c);
    Runs.AfterFour(Do, Start(capacity), Offer(c), Dispose, Discard, Return(true));
  }

  lemma OfferInRetain(c: Completion, d: Completion)
    requires d.valid && !d.retains
    ensures Do(Loop(1, [c], [Offered], [], [Act(0)], false, {}, [Retained(0)]), Offer(d))
            == Loop(1, [c, d], [Offered, Pending], [1], [Act(0)], false, {}, [Retained(0)])
  {
  }

  lemma ReturnToFull(c: Completion, d: Completion)
    requires c.releases
    ensures Do(Loop(1, [c, d], [Offered, Pending], [1], [Act(0)], false, {}, [Retained(0)]), Return(true))
            == Loop(1, [c, d], [Returning, Pending], [1], [Act(0)], false, {},
                    [Retained(0), RetainAnswered(0, true), Released(0)])
  {
    JoinEvents([Retained(0)], RetainAnswered(0, true), Released(0));
    assert [Offered, Pending][0 := Returning] == [Returning, Pending] && [Act(0)][..0] + [Act(0)] == [Act(0)];
  }

  lemma ReturnFromRelease(c: Completion, d: Completion, log: seq<Event>)
    ensures Do(Loop(1, [c, d], [Returning, Pending], [1], [Act(0)], false, {}, log), Return(true))
            == Loop(1, [c, d], [Returned, Pending], [1], [], false, {}, log)
  {
    assert [Returning, Pending][0 := Returned] == [Returned, Pending] && [Act(0)][..0] == [] && log + [] == log;
  }

  /** A retain callback that fills the queue: the push fails and the scope is released again. */
  lemma RetainThatFills(c: Completion, d: Completion)
    requires c.valid && c.retains && c.releases && d.valid && !d.retains
    ensures Reaches(Start(1), [Offer(c), Offer(d), Return(true), Return(true)],
                    Loop(1, [c, d], [Returned, Pending], [1], [], false, {},
                         [Retained(0), RetainAnswered(0, true), Released(0)]))
  {
    OfferToEmpty(1, c);
    OfferInRetain(c, d);
    ReturnToFull(c, d);
    ReturnFromRelease(c, d, [Retained(0), RetainAnswered(0, true), Released(0)]);
    Runs.AfterFour(Do, Start(1), Offer(c), Offer(d), Return(true), Return(true));
  }
}
