/**
 The loop itself (src/core/async_backend.c): the ring queue, the flags and the callbacks in the
 order the code makes them.

 A callback may call the loop again.  What it does is a script: `Replies` says, for the callbacks
 made during an operation in the order they are made, which calls each makes and what it answers;
 callbacks beyond the script make no calls.  A call has a script of its own, so callbacks nest to
 any depth.

 The ghost `state` is the protocol's, and `log` the callbacks the code makes.  Every method is a
 run of the protocol that ends with the stack it began with, so what AsyncLoop proves of all runs
 holds of the code.
*/
module AsyncQueue {
  import opened Permutations
  import opened AsyncLoop
  import RingQueue
  import Runs

  datatype Status = Fine | InvalidArgument | InvalidState | CapacityExceeded | CallbackFailed

  datatype Operation = PostCall(completion: Completion) | RunOnceCall | DrainCall(max: nat) | DisposeCall

  /** What the callbacks of an operation do: the calls of the first, its answers, and the later ones. */
  datatype Replies = NoReplies | Reply(calls: Calls, yes: bool, status: Status, later: Replies)

  datatype Calls = NoCalls | Call(op: Operation, replies: Replies, next: Calls)

  function Size(r: Replies): nat {
    if r.NoReplies? then 0 else 1 + CallsSize(r.calls) + Size(r.later)
  }

  function CallsSize(c: Calls): nat {
    if c.NoCalls? then 0 else 1 + Size(c.replies) + CallsSize(c.next)
  }

  function Later(r: Replies): (rest: Replies)
    ensures Size(rest) <= Size(r) && (r.Reply? ==> Size(rest) < Size(r))
  {
    if r.Reply? then r.later else r
  }

  function Yes(r: Replies): bool {
    r.Reply? && r.yes
  }

  function StatusOf(r: Replies): Status {
    if r.Reply? then r.status else Fine
  }

  /** No callback calls the loop. */
  predicate Quiet(r: Replies) {
    r.NoReplies? || (r.calls.NoCalls? && Quiet(r.later))
  }

  // ----- what a turn answers -----

  predicate Terminal(c: Completion, r: Replies) {
    c.checks && Yes(r)
  }

  /** The replies left when the completion is to be dispatched or is late. */
  function AfterCheck(c: Completion, r: Replies): (rest: Replies)
    ensures Size(rest) <= Size(r)
  {
    if c.checks then Later(r) else r
  }

  function AfterFinish(c: Completion, r: Replies): (rest: Replies)
    ensures Size(rest) <= Size(r)
  {
    var cleaned := if c.cleans then Later(r) else r;
    if c.releases then Later(cleaned) else cleaned
  }

  /** The replies left after a turn: one was used for each callback made. */
  function AfterTurn(c: Completion, r: Replies): (rest: Replies)
    ensures Size(rest) <= Size(r) && (r.Reply? ==> Size(rest) < Size(r))
  {
    var checked := AfterCheck(c, r);
    if Terminal(c, r) then AfterFinish(c, if c.late then Later(checked) else checked)
    else AfterFinish(c, Later(checked))
  }

  function Outcome(c: Completion, r: Replies): Status {
    if Terminal(c, r) then Fine else StatusOf(AfterCheck(c, r))
  }

  /** A turn reports the status of its dispatch callback, and nothing when the check found it terminal. */
  lemma OutcomeExactly(c: Completion, r: Replies)
    ensures c.checks && r.Reply? && r.yes ==> Outcome(c, r) == Fine
    ensures c.checks && r.Reply? && !r.yes && r.later.Reply? ==> Outcome(c, r) == r.later.status
    ensures !c.checks && r.Reply? ==> Outcome(c, r) == r.status
    ensures r.NoReplies? || (c.checks && !r.yes && r.later.NoReplies?) ==> Outcome(c, r) == Fine
  {
  }

  /** The replies left after turns of the given completions. */
  function AfterTurns(cs: seq<Completion>, r: Replies): Replies {
    if cs == [] then r else AfterTurn(cs[|cs| - 1], AfterTurns(cs[..|cs| - 1], r))
  }

  /** Turns of the given completions all go well. */
  predicate Smooth(cs: seq<Completion>, r: Replies) {
    cs == [] || (Smooth(cs[..|cs| - 1], r) && Outcome(cs[|cs| - 1], AfterTurns(cs[..|cs| - 1], r)) == Fine)
  }

  lemma TurnsSnoc(cs: seq<Completion>, c: Completion, r: Replies)
    ensures AfterTurns(cs + [c], r) == AfterTurn(c, AfterTurns(cs, r))
    ensures Smooth(cs + [c], r) <==> Smooth(cs, r) && Outcome(c, AfterTurns(cs, r)) == Fine
  {
    assert (cs + [c])[..|cs|] == cs;
  }

  lemma {:induction false} QuietLater(c: Completion, r: Replies)
    requires Quiet(r)
    ensures Quiet(Later(r)) && Quiet(AfterCheck(c, r)) && Quiet(AfterFinish(c, r))
  {
  }

  lemma QuietTurn(c: Completion, r: Replies)
    requires Quiet(r)
    ensures Quiet(AfterTurn(c, r))
  {
    var checked := AfterCheck(c, r);
    QuietLater(c, r);
    QuietLater(c, checked);
    QuietLater(c, if Terminal(c, r) && !c.late then checked else Later(checked));
  }

  // ----- runs of the protocol -----

  ghost predicate Leads(a: Loop, b: Loop) {
    exists steps: seq<Step> :: Reaches(a, steps, b)
  }

  lemma LeadsTrans(a: Loop, b: Loop, c: Loop)
    requires Leads(a, b) && Leads(b, c)
    ensures Leads(a, c)
  {
    var x: seq<Step> :| Reaches(a, x, b);
    var y: seq<Step> :| Reaches(b, y, c);
    Runs.AfterConcat(Do, a, x, y);
    assert Reaches(a, x + y, c);
  }

  lemma LeadsStep(a: Loop, step: Step)
    ensures Leads(a, Do(a, step))
  {
    Runs.AfterOne(Do, a, step);
    assert Reaches(a, [step], Do(a, step));
  }

  lemma StillReachable(a: Loop, b: Loop)
    requires Reachable(a) && Leads(a, b) && b.capacity == a.capacity
    ensures Reachable(b)
  {
    LeadsTrans(Start(a.capacity), a, b);
  }

  /** A completion that is done, or waits for a callback in a frame of `a`, is where it was. */
  ghost predicate Stays(a: Loop, b: Loop, k: nat) {
    Act(k) in a.stack || (k < |a.phases| && a.phases[k].Done?) ==>
      k < |a.phases| && k < |b.phases| && b.phases[k] == a.phases[k]
  }

  /** `b` is reached from `a` above its frames; what was done stays done, and a dispose is for good. */
  ghost predicate Extends(a: Loop, b: Loop) {
    && Leads(a, b) && WellFormed(a) && WellFormed(b) && a.stack <= b.stack && a.known <= b.known
    && b.capacity == a.capacity && (a.disposed ==> b.disposed)
    && forall k: nat :: Stays(a, b, k)
  }

  lemma ExtendsTrans(a: Loop, b: Loop, c: Loop)
    requires Extends(a, b) && Extends(b, c)
    ensures Extends(a, c)
  {
    LeadsTrans(a, b, c);
    forall k: nat
      ensures Stays(a, c, k)
    {
      assert Stays(a, b, k) && Stays(b, c, k);
      PrefixHolds(a.stack, b.stack, Act(k));
    }
  }

  lemma PrefixHolds<T>(a: seq<T>, b: seq<T>, x: T)
    requires a <= b
    ensures x in a ==> x in b
  {
    if x in a {
      var i :| 0 <= i < |a| && a[i] == x;
      assert b[i] == x;
    }
  }

  lemma ExtendsSelf(a: Loop)
    requires WellFormed(a)
    ensures Extends(a, a)
  {
    assert Reaches(a, [], a);
    forall k: nat
      ensures Stays(a, a, k)
    {
      if Act(k) in a.stack {
        var i :| 0 <= i < |a.stack| && a.stack[i] == Act(k);
        assert a.stack[i].k < |a.known|;
      }
    }
  }

  /** One completion that is not done and has no frame below goes on. */
  lemma EnterExtends(a: Loop, s: Loop, queue: seq<nat>, log: seq<Event>, below: seq<Frame>, k: nat, p: Phase)
    requires Extends(a, s) && k < |s.known| && !s.phases[k].Done?
    requires a.stack <= below && Act(k) !in a.stack
    requires var t := Enter(s.(queue := queue, log := log), below, k, p); WellFormed(t) && Leads(s, t)
    ensures Extends(a, Enter(s.(queue := queue, log := log), below, k, p))
  {
    var t := Enter(s.(queue := queue, log := log), below, k, p);
    LeadsTrans(a, s, t);
    forall j: nat
      ensures Stays(a, t, j)
    {
      assert Stays(a, s, j);
    }
  }

  /** Nothing but the stack, and new numbers, have changed. */
  lemma GrowExtends(a: Loop, s: Loop, t: Loop)
    requires Extends(a, s) && Leads(s, t) && WellFormed(t) && a.stack <= t.stack && s.known <= t.known
    requires s.phases <= t.phases && t.capacity == s.capacity && (s.disposed ==> t.disposed)
    ensures Extends(a, t)
  {
    LeadsTrans(a, s, t);
    forall j: nat
      ensures Stays(a, t, j)
    {
      assert Stays(a, s, j);
    }
  }

  /** `t` is `s` with completion `k` gone on to `p` after the answer `said`. */
  ghost predicate Moved(s: Loop, t: Loop, k: nat, p: Phase, said: seq<Event>, queue: seq<nat>, below: seq<Frame>) {
    && WellFormed(t) && Reachable(t)
    && t.known == s.known && t.capacity == s.capacity && t.disposed == s.disposed && t.caught == s.caught
    && k < |s.known| == |s.phases| && t.phases == s.phases[k := p] && t.queue == queue
    && t.stack == (if Running(p) then below + [Act(k)] else below)
    && t.log == if Running(p) then s.log + said + Entering(p, k) else s.log + said
  }

  lemma FrontIsPending(s: Loop)
    requires Reachable(s) && s.queue != []
    ensures WellFormed(s) && s.phases[s.queue[0]] == Pending && Act(s.queue[0]) !in s.stack
  {
    ReachableIsLined(s);
  }

  /** A completion leaves the queue, for a turn or for good. */
  lemma Leave(s: Loop, step: Step) returns (t: Loop)
    requires Reachable(s) && s.queue != [] && (step == Turn || step == Discard)
    requires step == Turn ==> Callable(s) && !s.disposed
    requires step == Discard ==> Sweeping(s)
    ensures WellFormed(s) && Extends(s, t)
    ensures var k := s.queue[0];
            var p := if step == Turn then ToTurn(s.known[k]) else ToFinish(s.known[k], Dropped);
            Alike(s, t) && t.queue == s.queue[1..] && Entered(t, s.log, s, k, p)
  {
    FrontIsPending(s);
    LeadsStep(s, step);
    t := Do(s, step);
    StillReachable(s, t);
    ReachableIsLined(t);
    var k := s.queue[0];
    ExtendsSelf(s);
    var p := if step == Turn then ToTurn(s.known[k]) else ToFinish(s.known[k], Dropped);
    EnterExtends(s, s, s.queue[1..], s.log, s.stack, k, p);
  }

  /** The completion on top waits for a callback and has no other frame. */
  lemma TopWaits(base: Loop, s: Loop, k: nat)
    requires Reachable(s) && s.stack == base.stack + [Act(k)]
    ensures WellFormed(s) && Callable(s) && k < |s.known| && Running(s.phases[k]) && Act(k) !in base.stack
  {
    ReachableIsLined(s);
    assert s.stack[|base.stack|] == Act(k);
    assert Act(k) !in base.stack by {
      assert s.stack[..|base.stack|] == base.stack;
      InitHolds(s.stack);
    }
  }

  /** The innermost callback, of the call made on top of `base`, returns. */
  lemma Resume(base: Loop, s: Loop, k: nat, yes: bool) returns (t: Loop)
    requires Extends(base, s) && Reachable(s) && s.stack == base.stack + [Act(k)]
    ensures k < |s.known| == |s.phases| && Running(s.phases[k]) && Extends(base, t)
    ensures var p := Next(s.known[k], s.phases[k], yes, |s.queue| < s.capacity);
            Moved(s, t, k, p, Leaving(s.phases[k], k, yes), if p.Pending? then s.queue + [k] else s.queue, base.stack)
  {
    TopWaits(base, s, k);
    LeadsStep(s, Return(yes));
    t := Do(s, Return(yes));
    assert s.stack[|s.stack| - 1] == Act(k);
    assert s.stack[..|s.stack| - 1] == base.stack;
    StillReachable(s, t);
    ReachableIsLined(t);
    var p := Next(s.known[k], s.phases[k], yes, |s.queue| < s.capacity);
    EnterExtends(base, s, if p.Pending? then s.queue + [k] else s.queue, s.log + Leaving(s.phases[k], k, yes),
                 base.stack, k, p);
  }

  /** A post passes its checks. */
  lemma Admit(s: Loop, c: Completion) returns (t: Loop)
    requires Reachable(s) && Callable(s) && Admits(s, c)
    ensures WellFormed(s) && Extends(s, t) && Reachable(t) && t.known == s.known + [c]
    ensures t.disposed == s.disposed && t.caught == s.caught
    ensures var k := |s.known|;
            && t.phases == s.phases + [if c.retains then Offered else Pending]
            && t.queue == (if c.retains then s.queue else s.queue + [k])
            && t.stack == (if c.retains then s.stack + [Act(k)] else s.stack)
            && t.log == if c.retains then s.log + [Retained(k)] else s.log
  {
    ReachableIsLined(s);
    LeadsStep(s, Offer(c));
    t := Do(s, Offer(c));
    StillReachable(s, t);
    ReachableIsLined(t);
    OfferGrows(s, c);
    ExtendsSelf(s);
    GrowExtends(s, s, t);
  }

  lemma OfferGrows(s: Loop, c: Completion)
    requires WellFormed(s) && Callable(s) && Admits(s, c)
    ensures var t, k := DoOffer(s, c), |s.known|;
            && t.phases == s.phases + [if c.retains then Offered else Pending]
            && t.known == s.known + [c] && t.queue == (if c.retains then s.queue else s.queue + [k])
            && t.stack == (if c.retains then s.stack + [Act(k)] else s.stack)
            && t.log == (if c.retains then s.log + [Retained(k)] else s.log)
            && t.disposed == s.disposed && t.caught == s.caught && t.capacity == s.capacity
  {
  }

  /** A dispose begins. */
  lemma Close(s: Loop) returns (t: Loop)
    requires Reachable(s) && Callable(s) && !s.disposed
    ensures WellFormed(s) && Extends(s, t) && Reachable(t) && t.disposed && t.queue == s.queue && t.log == s.log
    ensures t.known == s.known && t.phases == s.phases && t.stack == s.stack + [Sweep]
    ensures t.caught == set k | 0 <= k < |s.phases| && s.phases[k] == Offered
  {
    ReachableIsLined(s);
    LeadsStep(s, Dispose);
    t := Do(s, Dispose);
    StillReachable(s, t);
    ReachableIsLined(t);
    ExtendsSelf(s);
    GrowExtends(s, s, t);
  }

  /** A dispose ends. */
  lemma Swept(base: Loop, s: Loop) returns (t: Loop)
    requires Extends(base, s) && Reachable(s) && s.stack == base.stack + [Sweep] && s.queue == []
    ensures Extends(base, t) && Reachable(t) && t == s.(stack := base.stack)
  {
    ReachableIsLined(s);
    LeadsStep(s, Discard);
    t := Do(s, Discard);
    StillReachable(s, t);
    ReachableIsLined(t);
    assert s.stack[..|s.stack| - 1] == base.stack;
    GrowExtends(base, s, t);
  }

  // ----- the code -----

  /** The ring holds the completions that stand in the queue. */
  ghost predicate Matches(items: seq<Completion>, s: Loop) {
    && WellFormed(s) && |items| == |s.queue|
    && forall i :: 0 <= i < |items| ==> items[i] == s.known[s.queue[i]]
  }

  lemma MatchesRest(items: seq<Completion>, s: Loop, t: Loop)
    requires Matches(items, s) && items != [] && WellFormed(t) && s.known <= t.known && t.queue == s.queue[1..]
    ensures items[0] == s.known[s.queue[0]] && Matches(items[1..], t)
  {
  }

  lemma MatchesSnoc(items: seq<Completion>, s: Loop, t: Loop, c: Completion, k: nat)
    requires Matches(items, s) && WellFormed(t) && s.known <= t.known && t.queue == s.queue + [k]
    requires k < |t.known| && t.known[k] == c
    ensures Matches(items + [c], t)
  {
  }

  lemma MatchesSame(items: seq<Completion>, s: Loop, t: Loop)
    requires Matches(items, s) && WellFormed(t) && s.known <= t.known && t.queue == s.queue
    ensures Matches(items, t)
  {
  }

  /** Completion `k` has just gone on to `p`, above `base`; only the callback of `p` is not yet made. */
  ghost predicate Entered(s: Loop, log: seq<Event>, base: Loop, k: nat, p: Phase) {
    && k < |s.known| == |s.phases| && s.phases[k] == p
    && s.log == (if Running(p) then log + Entering(p, k) else log)
    && s.stack == if Running(p) then base.stack + [Act(k)] else base.stack
  }

  lemma EventRuns(p: Phase, e: Event)
    requires Entering(p, e.id) == [e]
    ensures Running(p) && (p == Offered <==> e.Retained?)
  {
  }

  /** Only a retain and a check have an answer to log. */
  lemma NothingSaid(p: Phase, e: Event, yes: bool, log: seq<Event>)
    requires Entering(p, e.id) == [e] && !e.Retained? && !e.Checked?
    ensures log + Leaving(p, e.id, yes) == log
  {
  }

  lemma NextIgnoresRoom(c: Completion, p: Phase, yes: bool, room: bool)
    requires p != Offered && p != Pending
    ensures Next(c, p, yes, room) == Next(c, p, yes, true) != Pending
  {
  }

  /** The fields that a return does not touch. */
  ghost predicate Alike(s: Loop, t: Loop) {
    && Reachable(t) && WellFormed(s) && WellFormed(t)
    && t.known == s.known && t.capacity == s.capacity && t.disposed == s.disposed && t.caught == s.caught
  }

  /** A callback other than a retain has run from `before` to `s`, and returns. */
  lemma Answered(base: Loop, before: Loop, s: Loop, k: nat, yes: bool, q: Phase) returns (t: Loop)
    requires Reachable(s) && Extends(base, before) && Extends(before, s)
    requires s.stack == before.stack == base.stack + [Act(k)] && k < |before.known| && before.phases[k] != Offered
    requires Next(before.known[k], before.phases[k], yes, true) == q
    ensures Extends(base, t) && Alike(s, t) && t.queue == s.queue
    ensures k < |t.known| && t.known[k] == before.known[k]
    ensures Entered(t, s.log + Leaving(before.phases[k], k, yes), base, k, q)
  {
    StillWaits(base, before, s, k);
    t := Resume(base, s, k, yes);
    NextIgnoresRoom(s.known[k], s.phases[k], yes, |s.queue| < s.capacity);
  }

  /** A callback has run from `before` to `s`: the completion on top is where it was. */
  lemma StillWaits(base: Loop, before: Loop, s: Loop, k: nat)
    requires Extends(base, before) && Extends(before, s) && k < |before.known|
    requires s.stack == before.stack == base.stack + [Act(k)]
    ensures Extends(base, s) && k < |s.known|
    ensures s.known[k] == before.known[k] && s.phases[k] == before.phases[k]
  {
    ExtendsTrans(base, before, s);
    assert before.stack[|base.stack|] == Act(k);
    assert Stays(before, s, k);
  }

  /** A retain has failed. */
  lemma RetainFailed(base: Loop, s: Loop, k: nat) returns (t: Loop)
    requires Reachable(s) && Extends(base, s) && s.stack == base.stack + [Act(k)]
    requires k < |s.known| && s.phases[k] == Offered
    ensures Extends(base, t) && Alike(s, t) && t.queue == s.queue
    ensures Entered(t, s.log + [RetainAnswered(k, false)], base, k, Refused)
  {
    t := Resume(base, s, k, false);
  }

  /** A retain has succeeded: the push follows, and without room the release. */
  lemma PushFollows(base: Loop, s: Loop, k: nat) returns (t: Loop)
    requires Reachable(s) && Extends(base, s) && s.stack == base.stack + [Act(k)]
    requires k < |s.known| && s.phases[k] == Offered
    ensures Extends(base, t) && Alike(s, t)
    ensures var log := s.log + [RetainAnswered(k, true)];
            if |s.queue| < s.capacity then t.queue == s.queue + [k] && Entered(t, log, base, k, Pending)
            else t.queue == s.queue && Entered(t, log, base, k, if s.known[k].releases then Returning else Returned)
  {
    t := Resume(base, s, k, true);
  }

  /** Different completions that have been dispatched or found late. */
  ghost predicate Took(s: Loop, turned: seq<nat>, cs: seq<Completion>)
    decreases |turned|
  {
    && |turned| == |cs| && |s.phases| == |s.known|
    && (turned == [] ||
        var init, k := turned[..|turned| - 1], turned[|turned| - 1];
        && Took(s, init, cs[..|cs| - 1]) && k !in init && k < |s.known| && s.known[k] == cs[|cs| - 1]
        && (s.phases[k] == Done(Ran) || s.phases[k] == Done(Late)))
  }

  lemma {:induction false} TookStays(s: Loop, t: Loop, turned: seq<nat>, cs: seq<Completion>)
    requires Took(s, turned, cs) && Extends(s, t)
    ensures Took(t, turned, cs)
  {
    if turned != [] {
      TookStays(s, t, turned[..|turned| - 1], cs[..|cs| - 1]);
      assert Stays(s, t, turned[|turned| - 1]);
    }
  }

  /** Whoever was taken is done. */
  lemma {:induction false} TookIsDone(s: Loop, turned: seq<nat>, cs: seq<Completion>, k: nat)
    requires Took(s, turned, cs) && k in turned
    ensures k < |s.phases| && s.phases[k].Done?
  {
    if k != turned[|turned| - 1] {
      TookIsDone(s, turned[..|turned| - 1], cs[..|cs| - 1], k);
    }
  }

  lemma NotYetTaken(s: Loop, turned: seq<nat>, cs: seq<Completion>)
    requires Took(s, turned, cs) && Reachable(s) && s.queue != []
    ensures s.queue[0] !in turned
  {
    FrontIsPending(s);
    if s.queue[0] in turned {
      TookIsDone(s, turned, cs, s.queue[0]);
    }
  }

  lemma TookOneMore(t: Loop, turned: seq<nat>, cs: seq<Completion>, k: nat, c: Completion)
    requires Took(t, turned, cs) && k !in turned && k < |t.known| && t.known[k] == c
    requires t.phases[k] == Done(Ran) || t.phases[k] == Done(Late)
    ensures Took(t, turned + [k], cs + [c])
  {
    assert (turned + [k])[..|turned|] == turned && (cs + [c])[..|cs|] == cs;
  }

  lemma TookSnoc(s: Loop, t: Loop, turned: seq<nat>, cs: seq<Completion>, k: nat)
    requires Took(s, turned, cs) && Took(t, turned, cs) && Extends(s, t) && Reachable(s)
    requires s.queue != [] && k == s.queue[0] && k < |s.known|
    requires t.phases[k] == Done(Ran) || t.phases[k] == Done(Late)
    ensures Took(t, turned + [k], cs + [s.known[k]])
  {
    NotYetTaken(s, turned, cs);
    TookOneMore(t, turned, cs, k, s.known[k]);
  }

  /** A drain has come from `base` to `s` with turns of `cs`, and `rest` is left of the script. */
  ghost predicate Drained(base: Loop, s: Loop, r: Replies, rest: Replies, turned: seq<nat>, cs: seq<Completion>) {
    && Extends(base, s) && Took(s, turned, cs) && rest == AfterTurns(cs, r) && Size(rest) <= Size(r)
    && (Quiet(r) ==> Undisturbed(base, s, rest, turned))
  }

  /** Without calls from callbacks a drain takes the oldest completions and leaves the others. */
  ghost predicate Undisturbed(base: Loop, s: Loop, rest: Replies, turned: seq<nat>) {
    Quiet(rest) && turned + s.queue == base.queue
  }

  lemma UndisturbedStep(base: Loop, s: Loop, t: Loop, rest: Replies, turned: seq<nat>, c: Completion)
    requires Undisturbed(base, s, rest, turned) && s.queue != [] && t.queue == s.queue[1..]
    ensures Undisturbed(base, t, AfterTurn(c, rest), turned + [s.queue[0]])
  {
    QuietTurn(c, rest);
    assert turned + s.queue == turned + [s.queue[0]] + s.queue[1..];
  }

  lemma DrainedStep(base: Loop, s: Loop, t: Loop, r: Replies, rest: Replies, turned: seq<nat>, cs: seq<Completion>)
    requires Drained(base, s, r, rest, turned, cs) && Extends(s, t) && Reachable(s)
    requires s.queue != [] && s.queue[0] < |s.known| <= |t.phases|
    requires t.phases[s.queue[0]] == Done(Ran) || t.phases[s.queue[0]] == Done(Late)
    requires Quiet(rest) ==> t.queue == s.queue[1..]
    ensures var c := s.known[s.queue[0]]; Drained(base, t, r, AfterTurn(c, rest), turned + [s.queue[0]], cs + [c])
  {
    var k, c := s.queue[0], s.known[s.queue[0]];
    ExtendsTrans(base, s, t);
    TookStays(s, t, turned, cs);
    TookSnoc(s, t, turned, cs, k);
    TurnsSnoc(cs, c, r);
    if Quiet(r) {
      UndisturbedStep(base, s, t, rest, turned, c);
    }
  }

  /**
   Why a drain stopped: nothing waits, the limit is reached, the last turn failed, or all turns
   went well and the next was refused.
  */
  ghost predicate Stopped(max: nat, r: Replies, cs: seq<Completion>, waiting: nat, disposed: bool, status: Status) {
    && (max == 0 || |cs| <= max)
    && (status == Fine ==> Smooth(cs, r) && (waiting == 0 || (max != 0 && |cs| == max)))
    && (status != Fine ==> Failed(r, cs, waiting, disposed, status))
  }

  ghost predicate Failed(r: Replies, cs: seq<Completion>, waiting: nat, disposed: bool, status: Status) {
    || (Smooth(cs, r) && disposed && waiting > 0 && status == InvalidState)
    || (|cs| > 0 && Smooth(cs[..|cs| - 1], r) && status == Outcome(cs[|cs| - 1], AfterTurns(cs[..|cs| - 1], r)))
  }

  ghost predicate WasDropped(s: Loop, k: nat) {
    k < |s.phases| && s.phases[k] == Done(Dropped)
  }

  /** The first `n` of the queue were dropped. */
  ghost predicate AllDropped(s: Loop, queue: seq<nat>, n: nat)
    requires n <= |queue|
  {
    forall i :: 0 <= i < n ==> WasDropped(s, queue[i])
  }

  function CleanEvents(c: Completion, k: nat): seq<Event> {
    if c.cleans then [Cleaned(k)] else []
  }

  function ReleaseEvents(c: Completion, k: nat): seq<Event> {
    if c.releases then [Released(k)] else []
  }

  /** The callbacks of dropping the completions with the given numbers, one after the other. */
  function DropEvents(known: seq<Completion>, ids: seq<nat>): seq<Event>
    requires forall i :: 0 <= i < |ids| ==> ids[i] < |known|
  {
    if ids == [] then []
    else
      var k := ids[|ids| - 1];
      DropEvents(known, ids[..|ids| - 1]) + CleanEvents(known[k], k) + ReleaseEvents(known[k], k)
  }

  /** A dispose has gone through the first `n` of the queue it found, oldest first, and made no other callback. */
  ghost predicate Discarded(first: Loop, s: Loop, n: nat) {
    && Extends(first, s) && s.stack == first.stack && s.caught == first.caught
    && n <= |first.queue| && s.queue == first.queue[n..] && AllDropped(s, first.queue, n)
    && s.log == first.log + DropEvents(first.known, first.queue[..n])
  }

  lemma DiscardedStep(first: Loop, s: Loop, t: Loop, n: nat)
    requires Discarded(first, s, n) && Extends(s, t) && t.stack == s.stack && t.caught == s.caught
    requires s.queue != [] && t.queue == s.queue[1..] && WasDropped(t, s.queue[0])
    requires var k := s.queue[0]; t.log == s.log + CleanEvents(s.known[k], k) + ReleaseEvents(s.known[k], k)
    ensures Discarded(first, t, n + 1)
  {
    ExtendsTrans(first, s, t);
    DropNext(first, n, s.log, t.log);
    forall i | 0 <= i < n
      ensures WasDropped(t, first.queue[i])
    {
      assert WasDropped(s, first.queue[i]) && Stays(s, t, first.queue[i]);
    }
  }

  lemma DropNext(first: Loop, n: nat, log: seq<Event>, next: seq<Event>)
    requires WellFormed(first) && n < |first.queue|
    requires log == first.log + DropEvents(first.known, first.queue[..n])
    requires var k := first.queue[n]; next == log + CleanEvents(first.known[k], k) + ReleaseEvents(first.known[k], k)
    ensures next == first.log + DropEvents(first.known, first.queue[..n + 1])
  {
    var k := first.queue[n];
    assert first.queue[..n + 1][..n] == first.queue[..n];
    RegroupFour(first.log, DropEvents(first.known, first.queue[..n]), CleanEvents(first.known[k], k),
                ReleaseEvents(first.known[k], k));
  }

  /** How a post that passed its checks came out: `retained` is what its retain answered. */
  ghost predicate Posted(s: Loop, k: nat, c: Completion, retained: Status, status: Status) {
    && k < |s.known| == |s.phases| && s.known[k] == c
    && s.phases[k] == (if retained != Fine then Refused else if status == Fine then Pending else Returned)
    && (retained != Fine ==> status == retained)
    && (retained == Fine ==> status == Fine || status == CapacityExceeded)
  }

  class Backend {
    const queue: RingQueue.Queue<Completion>
    var disposed: bool
    var draining: bool
    ghost var state: Loop
    ghost var log: seq<Event>

    /** Everything but the callbacks made. */
    ghost predicate Linked()
      reads this, queue, queue.items
    {
      && queue.Valid() && queue.items.Length == state.capacity && disposed == state.disposed
      && Reachable(state) && Matches(queue.Contents(), state)
    }

    ghost predicate Valid()
      reads this, queue, queue.items
    {
      Linked() && log == state.log
    }

    /** The call on top of `base` has brought completion `k` to `p` and is about to make the callback of `p`. */
    ghost predicate At(base: Loop, k: nat, c: Completion, p: Phase)
      reads this, queue, queue.items
    {
      Linked() && Extends(base, state) && k < |state.known| && state.known[k] == c && Entered(state, log, base, k, p)
    }

    constructor (storage: array<Completion>, blank: Completion)
      ensures Valid() && !draining && !disposed && state == Start(storage.Length)
      ensures fresh(queue) && queue.items == storage
    {
      queue := new RingQueue.Queue(storage, blank);
      disposed, draining := false, false;
      state, log := Start(storage.Length), [];
      new;
      assert Reaches(Start(storage.Length), [], Start(storage.Length));
    }

    /** Whenever the loop can be called, each callback has been made once or never, as its phase says. */
    lemma CallbacksExactlyOnce(e: Event)
      requires Valid()
      ensures multiset(log)[e] == Times(e.id < |state.known| && Happened(state.known[e.id], state.phases[e.id], e))
    {
      ExactlyOnce(state, e);
    }

    /** A callback runs: it makes the calls of its reply and returns. */
    method Callback(replies: Replies) returns (rest: Replies, yes: bool, status: Status)
      requires Valid() && Callable(state)
      modifies this, queue, queue.items
      ensures Valid() && draining == old(draining) && Extends(old(state), state) && state.stack == old(state.stack)
      ensures rest == Later(replies) && yes == Yes(replies) && status == StatusOf(replies)
      ensures old(disposed) || Quiet(replies) ==> state == old(state)
      decreases Size(replies), 0
    {
      ExtendsSelf(state);
      if replies.Reply? {
        Perform(replies.calls);
      }
      rest, yes, status := Later(replies), Yes(replies), StatusOf(replies);
    }

    /** The calls that a callback makes, one after the other. */
    method Perform(calls: Calls)
      requires Valid() && Callable(state)
      modifies this, queue, queue.items
      ensures Valid() && draining == old(draining) && Extends(old(state), state) && state.stack == old(state.stack)
      ensures old(disposed) || calls.NoCalls? ==> state == old(state)
      decreases CallsSize(calls), 0
    {
      ExtendsSelf(state);
      if calls.Call? {
        ghost var before := state;
        Invoke(calls.op, calls.replies);
        ghost var between := state;
        Perform(calls.next);
        ExtendsTrans(before, between, state);
      }
    }

    method Invoke(op: Operation, replies: Replies)
      requires Valid() && Callable(state)
      modifies this, queue, queue.items
      ensures Valid() && draining == old(draining) && Extends(old(state), state) && state.stack == old(state.stack)
      ensures old(disposed) ==> state == old(state)
      decreases Size(replies), 10
    {
      match op
      case PostCall(c) =>
        var _, _ := Post(c, replies);
      case RunOnceCall =>
        var _, _, _ := RunOnce(replies);
      case DrainCall(max) =>
        var _, _, _, _, _ := Drain(max, replies);
      case DisposeCall =>
        var _ := Dispose(replies);
    }

    /** A callback of a completion, other than its retain, is made and returns; phase `q` follows. */
    method Await(replies: Replies, c: Completion, ghost e: Event, ghost q: Phase, ghost base: Loop)
      returns (rest: Replies, yes: bool, status: Status)
      requires e.id < |state.phases| && At(base, e.id, c, state.phases[e.id])
      requires Entering(state.phases[e.id], e.id) == [e] && !e.Retained?
      requires Next(c, state.phases[e.id], Yes(replies), true) == q
      modifies this, queue, queue.items
      ensures At(base, e.id, c, q) && draining == old(draining)
      ensures rest == Later(replies) && yes == Yes(replies) && status == StatusOf(replies)
      ensures old(disposed) || Quiet(replies) ==> state.queue == old(state).queue && state.caught == old(state).caught
      ensures old(disposed) ==> disposed && (!e.Checked? ==> log == old(log) + [e])
      decreases Size(replies), 1
    {
      ghost var before := state;
      log := log + [e];
      EventRuns(before.phases[e.id], e);
      TopWaits(base, before, e.id);
      rest, yes, status := Callback(replies);
      Settle(base, before, e.id, c, yes, q);
      if !e.Checked? {
        NothingSaid(before.phases[e.id], e, yes, old(log) + [e]);
      }
    }

    /** The callback that was made at `before` has returned: its answer is logged and `q` follows. */
    ghost method Settle(base: Loop, before: Loop, k: nat, c: Completion, yes: bool, q: Phase)
      requires Valid() && Extends(base, before) && Extends(before, state)
      requires state.stack == before.stack == base.stack + [Act(k)]
      requires k < |before.known| && before.known[k] == c && before.phases[k] != Offered
      requires Next(c, before.phases[k], yes, true) == q
      modifies this`state, this`log
      ensures At(base, k, c, q) && log == old(log) + Leaving(before.phases[k], k, yes)
      ensures state.queue == old(state).queue && state.caught == old(state).caught
    {
      var next := Answered(base, before, state, k, yes, q);
      MatchesSame(queue.Contents(), state, next);
      state, log := next, log + Leaving(before.phases[k], k, yes);
    }

    /**
     sl_async_loop_enqueue_owned.  A post that passes its checks is pending when it returns
     `Fine`; else its retain failed, or the push did and its scope was released.
    */
    method Post(c: Completion, replies: Replies) returns (status: Status, rest: Replies)
      requires Valid() && Callable(state)
      modifies this, queue, queue.items
      ensures Valid() && draining == old(draining) && Extends(old(state), state) && state.stack == old(state.stack)
      ensures Size(rest) <= Size(replies)
      ensures !Admits(old(state), c) ==> state == old(state)
      ensures !Admits(old(state), c) ==>
                status == if !c.valid then InvalidArgument else if disposed then InvalidState else CapacityExceeded
      ensures Admits(old(state), c) ==>
                var k := |old(state).known|;
                && Posted(state, k, c, if c.retains then StatusOf(replies) else Fine, status)
                && (Quiet(replies) && StatusOf(replies) == Fine ==> status == Fine)
      decreases Size(replies), 5
    {
      rest := replies;
      ExtendsSelf(state);
      if !c.valid {
        return InvalidArgument, rest;
      }
      if disposed {
        return InvalidState, rest;
      }
      if queue.count >= queue.items.Length {
        return CapacityExceeded, rest;
      }
      if c.retains {
        status, rest := RetainAndPush(c, rest);
      } else {
        status := PushAtOnce(c);
      }
    }

    /** A completion without a retain callback is pushed at once, and there is room. */
    method PushAtOnce(c: Completion) returns (status: Status)
      requires Valid() && Callable(state) && Admits(state, c) && !c.retains
      modifies this`state, queue, queue.items
      ensures Valid() && Extends(old(state), state) && state.stack == old(state.stack) && status == Fine
      ensures var k := |old(state).known|; k < |state.known| && state.known[k] == c && state.phases[k] == Pending
    {
      ghost var items := queue.Contents();
      ghost var next := Admit(state, c);
      var pushed := queue.Push(c);
      assert pushed;
      MatchesSnoc(items, state, next, c, |state.known|);
      state := next;
      status := Fine;
    }

    /** The completion gets its number and its retain callback is made; its answer is not yet looked at. */
    method Retain(c: Completion, replies: Replies) returns (status: Status, rest: Replies)
      requires Valid() && Callable(state) && Admits(state, c) && c.retains
      modifies this, queue, queue.items
      ensures Valid() && draining == old(draining) && Extends(old(state), state)
      ensures status == StatusOf(replies) && rest == Later(replies)
      ensures var k := |old(state).known|;
              && state.stack == old(state).stack + [Act(k)]
              && k < |state.known| && state.known[k] == c && state.phases[k] == Offered
      ensures Quiet(replies) ==> queue.count < queue.items.Length
      decreases Size(replies), 3
    {
      ghost var base, k := state, |state.known|;
      ghost var next := Admit(base, c);
      MatchesSame(queue.Contents(), state, next);
      state, log := next, log + [Retained(k)];
      var yes;
      rest, yes, status := Callback(replies);
      StillWaits(base, next, state, k);
    }

    method RetainAndPush(c: Completion, replies: Replies) returns (status: Status, rest: Replies)
      requires Valid() && Callable(state) && Admits(state, c) && c.retains
      modifies this, queue, queue.items
      ensures Valid() && draining == old(draining) && Extends(old(state), state) && state.stack == old(state.stack)
      ensures Size(rest) <= Size(replies)
      ensures Posted(state, |old(state).known|, c, StatusOf(replies), status)
      ensures Quiet(replies) && StatusOf(replies) == Fine ==> status == Fine
      decreases Size(replies), 4
    {
      ghost var base, k := state, |state.known|;
      status, rest := Retain(c, replies);
      if status != Fine {
        ghost var next := RetainFailed(base, state, k);
        MatchesSame(queue.Contents(), state, next);
        state, log := next, log + [RetainAnswered(k, false)];
        return;
      }
      status, rest := PushRetained(c, rest, k, base);
    }

    /** The push after a successful retain; when it fails the scope is released again. */
    method PushRetained(c: Completion, replies: Replies, ghost k: nat, ghost base: Loop)
      returns (status: Status, rest: Replies)
      requires Valid() && Extends(base, state) && state.stack == base.stack + [Act(k)]
      requires k < |state.known| && state.known[k] == c && state.phases[k] == Offered
      modifies this, queue, queue.items
      ensures Valid() && draining == old(draining) && Extends(base, state) && state.stack == base.stack
      ensures Size(rest) <= Size(replies) && Posted(state, k, c, Fine, status)
      ensures old(queue.count) < queue.items.Length ==> status == Fine
      decreases Size(replies), 3
    {
      rest := replies;
      ghost var items := queue.Contents();
      ghost var next := PushFollows(base, state, k);
      var pushed := queue.Push(c);
      if pushed {
        MatchesSnoc(items, state, next, c, k);
        state, log := next, log + [RetainAnswered(k, true)];
        return Fine, rest;
      }
      MatchesSame(items, state, next);
      state, log := next, log + [RetainAnswered(k, true)];
      rest := ReleaseAgain(c, rest, k, base);
      status := CapacityExceeded;
    }

    /** sl_async_loop_release_completion_scope after a push that failed. */
    method ReleaseAgain(c: Completion, replies: Replies, ghost k: nat, ghost base: Loop) returns (rest: Replies)
      requires At(base, k, c, if c.releases then Returning else Returned)
      modifies this, queue, queue.items
      ensures At(base, k, c, Returned) && draining == old(draining) && Size(rest) <= Size(replies)
      decreases Size(replies), 2
    {
      rest := replies;
      if c.releases {
        var yes, status;
        rest, yes, status := Await(rest, c, Released(k), Returned, base);
      }
    }

    /** sl_async_loop_finish_completion: the cleanup, then the release. */
    method Finish(c: Completion, replies: Replies, ghost k: nat, ghost base: Loop, ghost way: Way)
      returns (rest: Replies)
      requires At(base, k, c, ToFinish(c, way))
      modifies this, queue, queue.items
      ensures At(base, k, c, Done(way)) && draining == old(draining) && rest == AfterFinish(c, replies)
      ensures old(disposed) || Quiet(replies) ==> state.queue == old(state).queue && state.caught == old(state).caught
      ensures old(disposed) ==> disposed && log == old(log) + CleanEvents(c, k) + ReleaseEvents(c, k)
      decreases Size(replies), 3
    {
      rest := CleanUp(c, replies, k, base, way);
      rest := ReleaseScope(c, rest, k, base, way);
    }

    method CleanUp(c: Completion, replies: Replies, ghost k: nat, ghost base: Loop, ghost way: Way)
      returns (rest: Replies)
      requires At(base, k, c, ToFinish(c, way))
      modifies this, queue, queue.items
      ensures At(base, k, c, AfterCleanup(c, way)) && draining == old(draining)
      ensures rest == if c.cleans then Later(replies) else replies
      ensures old(disposed) || Quiet(replies) ==> state.queue == old(state).queue && state.caught == old(state).caught
      ensures old(disposed) ==> disposed && log == old(log) + CleanEvents(c, k)
      decreases Size(replies), 2
    {
      rest := replies;
      if c.cleans {
        var yes, status;
        rest, yes, status := Await(rest, c, Cleaned(k), AfterCleanup(c, way), base);
      }
    }

    /** sl_async_loop_release_completion_scope */
    method ReleaseScope(c: Completion, replies: Replies, ghost k: nat, ghost base: Loop, ghost way: Way)
      returns (rest: Replies)
      requires At(base, k, c, AfterCleanup(c, way))
      modifies this, queue, queue.items
      ensures At(base, k, c, Done(way)) && draining == old(draining)
      ensures rest == if c.releases then Later(replies) else replies
      ensures old(disposed) || Quiet(replies) ==> state.queue == old(state).queue && state.caught == old(state).caught
      ensures old(disposed) ==> disposed && log == old(log) + ReleaseEvents(c, k)
      decreases Size(replies), 2
    {
      rest := replies;
      if c.releases {
        var yes, status;
        rest, yes, status := Await(rest, c, Released(k), Done(way), base);
      }
    }

    /** The late branch of sl_async_loop_dispatch_completion. */
    method FinishLate(c: Completion, replies: Replies, ghost k: nat, ghost base: Loop) returns (rest: Replies)
      requires At(base, k, c, if c.late then Hooked else ToFinish(c, Late))
      modifies this, queue, queue.items
      ensures At(base, k, c, Done(Late)) && draining == old(draining)
      ensures rest == AfterFinish(c, if c.late then Later(replies) else replies)
      ensures Quiet(replies) ==> state.queue == old(state).queue
      decreases Size(replies), 4
    {
      rest := replies;
      if c.late {
        var yes, status;
        rest, yes, status := Await(rest, c, WasLate(k), ToFinish(c, Late), base);
      }
      rest := Finish(c, rest, k, base, Late);
    }

    /** Its other branch: the dispatch callback decides the status. */
    method FinishRun(c: Completion, replies: Replies, ghost k: nat, ghost base: Loop)
      returns (status: Status, rest: Replies)
      requires At(base, k, c, Dispatching)
      modifies this, queue, queue.items
      ensures At(base, k, c, Done(Ran)) && draining == old(draining)
      ensures status == StatusOf(replies) && rest == AfterFinish(c, Later(replies))
      ensures Quiet(replies) ==> state.queue == old(state).queue
      decreases Size(replies), 4
    {
      var yes;
      rest, yes, status := Await(replies, c, Dispatched(k), ToFinish(c, Ran), base);
      rest := Finish(c, rest, k, base, Ran);
    }

    /** sl_async_loop_dispatch_completion */
    method Dispatch(c: Completion, replies: Replies, ghost k: nat, ghost base: Loop)
      returns (status: Status, rest: Replies)
      requires At(base, k, c, ToTurn(c))
      modifies this, queue, queue.items
      ensures At(base, k, c, Done(if Terminal(c, replies) then Late else Ran)) && draining == old(draining)
      ensures status == Outcome(c, replies) && rest == AfterTurn(c, replies)
      ensures Quiet(replies) ==> state.queue == old(state).queue
      decreases Size(replies), 5
    {
      rest := replies;
      var terminal := false;
      if c.checks {
        ghost var q := if !Yes(rest) then Dispatching else if c.late then Hooked else ToFinish(c, Late);
        rest, terminal, status := Await(rest, c, Checked(k), q, base);
      }
      if terminal {
        rest := FinishLate(c, rest, k, base);
        status := Fine;
      } else {
        status, rest := FinishRun(c, rest, k, base);
      }
    }

    /** sl_async_loop_test_run_once */
    method RunOnce(replies: Replies) returns (status: Status, ran: nat, rest: Replies)
      requires Valid() && Callable(state)
      modifies this, queue, queue.items
      ensures Valid() && draining == old(draining) && Extends(old(state), state) && state.stack == old(state.stack)
      ensures ran == if old(disposed) || old(queue.count) == 0 then 0 else 1
      ensures ran == 0 ==>
                state == old(state) && rest == replies && status == if old(disposed) then InvalidState else Fine
      ensures ran == 1 ==>
                && |old(state).queue| > 0 && old(state).queue[0] < |old(state).known| <= |state.known|
                && var k := old(state).queue[0];
                   var c := old(state).known[k];
                   var terminal := c.checks && replies.Reply? && replies.yes;
                   && status == Outcome(c, replies) && rest == AfterTurn(c, replies)
                   && (terminal ==> status == Fine)
                   && (!terminal ==> status == StatusOf(if c.checks then Later(replies) else replies))
                   && state.phases[k] == Done(if terminal then Late else Ran)
                   && (Quiet(replies) ==> state.queue == old(state).queue[1..])
      decreases Size(replies), 6
    {
      rest := replies;
      ExtendsSelf(state);
      if disposed {
        return InvalidState, 0, rest;
      }
      ghost var base, items := state, queue.Contents();
      var popped := queue.PopFront();
      if popped.None? {
        return Fine, 0, rest;
      }
      ghost var next := Leave(base, Turn);
      MatchesRest(items, base, next);
      assert items[1..] == queue.Contents() && items[0] == popped.value;
      state := next;
      status, rest := Dispatch(popped.value, rest, base.queue[0], base);
      ran := 1;
    }

    /**
     sl_async_loop_test_drain: turns until the queue is empty, `max` turns are made (zero is no
     limit), a dispatch fails, or a turn is refused because a callback has disposed the loop.
     `turned` are the numbers of the completions it took and `cs` those completions.
    */
    method Drain(max: nat, replies: Replies)
      returns (status: Status, ran: nat, rest: Replies, ghost turned: seq<nat>, ghost cs: seq<Completion>)
      requires Valid() && Callable(state)
      modifies this, queue, queue.items
      ensures Valid() && draining == old(draining) && Extends(old(state), state) && state.stack == old(state.stack)
      ensures old(disposed) || old(draining) ==>
                status == InvalidState && ran == 0 && state == old(state) && rest == replies
      ensures !old(disposed) && !old(draining) ==>
                && Drained(old(state), state, replies, rest, turned, cs) && |turned| == ran
                && Stopped(max, replies, cs, queue.count, disposed, status)
      decreases Size(replies), 9
    {
      status, ran, rest, turned, cs := Fine, 0, replies, [], [];
      ExtendsSelf(state);
      if disposed || draining {
        return InvalidState, 0, rest, turned, cs;
      }
      draining := true;
      status, ran, rest, turned, cs := TakeTurns(max, replies);
      draining := false;
    }

    /** The loop of a drain. */
    method TakeTurns(max: nat, replies: Replies)
      returns (status: Status, ran: nat, rest: Replies, ghost turned: seq<nat>, ghost cs: seq<Completion>)
      requires Valid() && Callable(state) && !disposed
      modifies this, queue, queue.items
      ensures Valid() && draining == old(draining) && state.stack == old(state.stack)
      ensures Drained(old(state), state, replies, rest, turned, cs) && |turned| == ran
      ensures Stopped(max, replies, cs, queue.count, disposed, status)
      decreases Size(replies), 8
    {
      status, ran, rest, turned, cs := Fine, 0, replies, [], [];
      ghost var base := state;
      ExtendsSelf(base);
      while queue.count > 0 && (max == 0 || ran < max)
        invariant Valid() && draining == old(draining) && state.stack == base.stack
        invariant Drained(base, state, replies, rest, turned, cs) && |turned| == ran
        invariant Smooth(cs, replies) && status == Fine && (max == 0 || ran <= max)
        decreases Size(rest), queue.count
      {
        var step: nat;
        status, step, rest, turned, cs := TakeTurn(replies, rest, base, turned, cs);
        ran := ran + step;
        if status != Fine || step == 0 {
          return;
        }
      }
    }

    /** One turn of a drain that has taken `before` so far. */
    method TakeTurn(replies: Replies, left: Replies, ghost base: Loop, ghost before: seq<nat>,
        ghost past: seq<Completion>)
      returns (status: Status, step: nat, rest: Replies, ghost turned: seq<nat>, ghost cs: seq<Completion>)
      requires Valid() && Callable(state) && queue.count > 0
      requires Drained(base, state, replies, left, before, past) && Smooth(past, replies)
      modifies this, queue, queue.items
      ensures Valid() && draining == old(draining) && state.stack == old(state.stack)
      ensures Drained(base, state, replies, rest, turned, cs) && |turned| == |before| + step
      ensures step <= 1 && (step == 0 ==> status != Fine)
      ensures status == Fine ==> Smooth(cs, replies)
      ensures status != Fine ==> Failed(replies, cs, queue.count, disposed, status)
      ensures step != 0 ==> Size(rest) < Size(left) || (rest == left && queue.count < old(queue.count))
      decreases Size(left), 7
    {
      ghost var s := state;
      turned, cs := before, past;
      status, step, rest := RunOnce(left);
      if step > 0 {
        ghost var k, c := s.queue[0], s.known[s.queue[0]];
        DrainedStep(base, s, state, replies, left, before, past);
        TurnsSnoc(past, c, replies);
        turned, cs := before + [k], past + [c];
        assert cs[..|cs| - 1] == past;
      }
    }

    /** sl_async_loop_dispose and sl_async_loop_discard_pending_unlocked */
    method Dispose(replies: Replies) returns (rest: Replies)
      requires Valid() && Callable(state)
      modifies this, queue, queue.items
      ensures Valid() && draining == old(draining) && Extends(old(state), state) && state.stack == old(state.stack)
      ensures disposed && Size(rest) <= Size(replies)
      ensures old(disposed) ==> state == old(state)
      ensures !old(disposed) ==>
                && state.queue == [] && AllDropped(state, old(state).queue, |old(state).queue|)
                && state.caught == (set k | 0 <= k < |old(state).phases| && old(state).phases[k] == Offered)
                && (forall i :: 0 <= i < |old(state).queue| ==> old(state).queue[i] < |old(state).known|)
                && log == old(log) + DropEvents(old(state).known, old(state).queue)
      decreases Size(replies), 7
    {
      rest := replies;
      ExtendsSelf(state);
      if disposed {
        return;
      }
      ghost var base := state;
      ghost var closed := Close(base);
      MatchesSame(queue.Contents(), base, closed);
      disposed, state := true, closed;
      rest := DiscardPending(rest);
      assert closed.queue[..|closed.queue|] == closed.queue;
      ExtendsTrans(base, closed, state);
      ghost var swept := Swept(base, state);
      MatchesSame(queue.Contents(), state, swept);
      state := swept;
    }

    method DiscardPending(replies: Replies) returns (rest: Replies)
      requires Valid() && disposed && Sweeping(state)
      modifies this, queue, queue.items
      ensures Valid() && disposed && draining == old(draining) && Size(rest) <= Size(replies)
      ensures Discarded(old(state), state, |old(state).queue|)
      decreases Size(replies), 6
    {
      rest := replies;
      ghost var first, done := state, 0;
      ExtendsSelf(first);
      while queue.count > 0
        invariant Valid() && disposed && draining == old(draining) && Size(rest) <= Size(replies)
        invariant Discarded(first, state, done)
        decreases queue.count
      {
        rest := DiscardOne(rest, first, done);
        done := done + 1;
      }
    }

    /** One round: the oldest completion is taken and finished. */
    method DiscardOne(replies: Replies, ghost first: Loop, ghost done: nat) returns (rest: Replies)
      requires Valid() && disposed && Sweeping(first) && Discarded(first, state, done) && queue.count > 0
      modifies this, queue, queue.items
      ensures Valid() && disposed && draining == old(draining) && Discarded(first, state, done + 1)
      ensures queue.count == old(queue.count) - 1 && Size(rest) <= Size(replies)
      decreases Size(replies), 5
    {
      ghost var base := state;
      rest := DropOldest(replies);
      DiscardedStep(first, base, state, done);
    }

    method DropOldest(replies: Replies) returns (rest: Replies)
      requires Valid() && disposed && Sweeping(state) && queue.count > 0
      modifies this, queue, queue.items
      ensures Valid() && disposed && draining == old(draining) && Size(rest) <= Size(replies)
      ensures Extends(old(state), state) && state.stack == old(state).stack && state.caught == old(state).caught
      ensures |old(state).queue| > 0 && state.queue == old(state).queue[1..] && WasDropped(state, old(state).queue[0])
      ensures var k := old(state).queue[0];
              && k < |old(state).known|
              && log == old(log) + CleanEvents(old(state).known[k], k) + ReleaseEvents(old(state).known[k], k)
      decreases Size(replies), 4
    {
      ghost var base := state;
      var c := TakeOldest();
      rest := Finish(c, replies, base.queue[0], base, Dropped);
    }

    /** sl_async_loop_pop in a dispose. */
    method TakeOldest() returns (c: Completion)
      requires Valid() && Sweeping(state) && queue.count > 0
      modifies this`state, queue, queue.items
      ensures WellFormed(old(state)) && |old(state).queue| > 0 && c == old(state).known[old(state).queue[0]]
      ensures At(old(state), old(state).queue[0], c, ToFinish(c, Dropped))
      ensures state.queue == old(state).queue[1..] && state.caught == old(state).caught
    {
      ghost var base, items := state, queue.Contents();
      var popped := queue.PopFront();
      ghost var next := Leave(base, Discard);
      MatchesRest(items, base, next);
      assert items[1..] == queue.Contents() && items[0] == popped.value;
      state := next;
      c := popped.value;
    }
  }
}
