/** Clients of the shared memory server that wait for each other for ever, which takes connection
    identifiers that are reused while an old node for them is still queued. */
module PageDeadlock {
  import opened Text
  import opened Messages
  import opened PageModel
  import opened PageInvariant
  import opened PageOrder
  import opened PageProgress
  import opened PageReuse
  import opened PageRevival

  /** The identifier waits for a page, and one of the set stands there ahead of all its nodes. */
  ghost predicate WaitsBehind(s: State, c: Conn, others: set<Conn>) {
    && PhaseOf(s, c).Waiting? && PhaseOf(s, c).page < |s.pages|
    && var queue := s.pages[PhaseOf(s, c).page].queue;
    exists i :: 0 <= i < |queue| && queue[i] in others && c !in queue[..i + 1]
  }

  ghost predicate Deadlock(s: State, waiting: set<Conn>) {
    forall c :: c in waiting ==> WaitsBehind(s, c, waiting)
  }

  /** The head of the page is one of a set of identifiers that wait for each other. */
  ghost predicate Deadlocked(s: State, p: nat) {
    && p < |s.pages| && s.pages[p].queue != []
    && exists waiting :: Deadlock(s, waiting) && s.pages[p].queue[0] in waiting
  }

  // ---------- a deadlock is for ever ----------

  /** Each page keeps its queue up to arrivals at the tail, or loses its head, which was granted. */
  ghost predicate QueuesMove(s: State, t: State) {
    && |t.pages| == |s.pages|
    && forall p :: 0 <= p < |s.pages| ==>
         || s.pages[p].queue <= t.pages[p].queue
         || QueueDrops(s, t, p)
  }

  predicate QueueDrops(s: State, t: State, p: nat)
    requires p < |s.pages| == |t.pages|
  {
    s.pages[p].queue != [] && PhaseOf(s, s.pages[p].queue[0]).Granted? && t.pages[p].queue == s.pages[p].queue[1..]
  }

  lemma StepMovesQueues(s: State, step: Step)
    requires Enabled(s, step)
    ensures QueuesMove(s, Next(s, step))
  {
    match step
    case FirstMessage(c, received, delivered) => OpenMovesQueues(s, c, Parse(received), delivered);
    case SecondMessage(c, received) => FinishMovesQueues(s, c, Parse(received));
    case _ =>
  }

  lemma OpenMovesQueues(s: State, c: Conn, r: Request, delivered: bool)
    ensures QueuesMove(s, Open(s, c, r, delivered))
  {
  }

  lemma FinishMovesQueues(s: State, c: Conn, r: Request)
    requires PhaseOf(s, c).Granted?
    ensures QueuesMove(s, Finish(s, c, r))
  {
  }

  lemma StepKeepsWaiting(s: State, step: Step, c: Conn)
    requires Enabled(s, step) && PhaseOf(s, c).Waiting? && !AtHead(s, c, PhaseOf(s, c).page)
    ensures PhaseOf(Next(s, step), c) == PhaseOf(s, c)
  {
    match step
    case FirstMessage(d, received, delivered) => OthersStay(s, d, Parse(received), delivered, c);
    case SecondMessage(d, received) => OthersStay(s, d, Parse(received), true, c);
    case _ =>
  }

  /** A message changes the phase of nobody but its sender. */
  lemma OthersStay(s: State, d: Conn, r: Request, delivered: bool, c: Conn)
    requires c != d
    ensures PhaseOf(Open(s, d, r, delivered), c) == PhaseOf(s, c)
    ensures PhaseOf(Finish(s, d, r), c) == PhaseOf(s, c)
  {
  }

  lemma KeepsWaitingBehind(s: State, t: State, c: Conn, waiting: set<Conn>)
    requires QueuesMove(s, t) && PhaseOf(t, c) == PhaseOf(s, c) && WaitsBehind(s, c, waiting)
    requires forall d :: d in waiting ==> PhaseOf(s, d).Waiting?
    ensures WaitsBehind(t, c, waiting)
  {
    var q := PhaseOf(s, c).page;
    var queue, after := s.pages[q].queue, t.pages[q].queue;
    var i :| 0 <= i < |queue| && queue[i] in waiting && c !in queue[..i + 1];
    if queue <= after {
      assert after[i] == queue[i] && after[..i + 1] == queue[..i + 1];
    } else {
      assert i > 0 && after[i - 1] == queue[i];
      assert forall d :: d in after[..i] ==> d in queue[..i + 1];
    }
  }

  lemma NotAtItsHead(s: State, c: Conn, others: set<Conn>)
    requires WaitsBehind(s, c, others)
    ensures !AtHead(s, c, PhaseOf(s, c).page)
  {
    var queue := s.pages[PhaseOf(s, c).page].queue;
    var i :| 0 <= i < |queue| && queue[i] in others && c !in queue[..i + 1];
    assert queue[0] in queue[..i + 1];
  }

  lemma StepKeepsDeadlock(s: State, step: Step, waiting: set<Conn>)
    requires Enabled(s, step) && Deadlock(s, waiting)
    ensures Deadlock(Next(s, step), waiting)
  {
    StepMovesQueues(s, step);
    forall c | c in waiting
      ensures WaitsBehind(Next(s, step), c, waiting)
    {
      NotAtItsHead(s, c, waiting);
      StepKeepsWaiting(s, step, c);
      KeepsWaitingBehind(s, Next(s, step), c, waiting);
    }
  }

  /** The step leaves a page whose head waits: nobody writes it and its head stays. */
  lemma StepKeepsHead(s: State, step: Step, p: nat)
    requires Enabled(s, step) && p < |s.pages| && s.pages[p].queue != []
    requires PhaseOf(s, s.pages[p].queue[0]).Waiting?
    ensures SamePage(s, Next(s, step), p)
  {
    match step
    case FirstMessage(c, received, delivered) =>
      OpenIsQuiet(s, c, Parse(received), delivered, p);
      OpenMovesQueues(s, c, Parse(received), delivered);
    case SecondMessage(c, received) => FinishKeepsHead(s, c, Parse(received), p);
    case _ =>
  }

  lemma FinishKeepsHead(s: State, c: Conn, r: Request, p: nat)
    requires p < |s.pages| && s.pages[p].queue != [] && PhaseOf(s, c).Granted?
    requires PhaseOf(s, s.pages[p].queue[0]).Waiting?
    ensures SamePage(s, Finish(s, c, r), p)
  {
  }

  /** A set of identifiers that wait for each other does so in every possible run, and every page that
      one of them heads keeps its bytes, its head and its writers. */
  lemma {:induction false} DeadlockStays(s: State, run: Run, waiting: set<Conn>, p: nat)
    requires Deadlock(s, waiting) && Possible(s, run)
    requires p < |s.pages| && s.pages[p].queue != [] && s.pages[p].queue[0] in waiting
    ensures Deadlock(Exec(s, run), waiting) && SamePage(s, Exec(s, run), p)
  {
    if run.Then? {
      DeadlockStays(s, run.before, waiting, p);
      var t := Exec(s, run.before);
      StepKeepsDeadlock(t, run.step, waiting);
      StepKeepsHead(t, run.step, p);
    }
  }

  lemma DeadlockedIsForever(s: State, run: Run, p: nat)
    requires Deadlocked(s, p) && Possible(s, run)
    ensures SamePage(s, Exec(s, run), p) && Deadlocked(Exec(s, run), p)
  {
    var waiting :| Deadlock(s, waiting) && s.pages[p].queue[0] in waiting;
    DeadlockStays(s, run, waiting, p);
  }

  /** Pages each of whose heads waits for a different one of them are deadlocked. */
  lemma CycleIsDeadlock(s: State, pages: set<nat>, p: nat)
    requires forall q :: q in pages ==> HeadWaitsWithin(s, q, pages)
    requires p in pages
    ensures Deadlocked(s, p)
  {
    var heads := set q | q in pages && q < |s.pages| && s.pages[q].queue != [] :: s.pages[q].queue[0];
    forall c | c in heads
      ensures WaitsBehind(s, c, heads)
    {
      var q :| q in pages && q < |s.pages| && s.pages[q].queue != [] && s.pages[q].queue[0] == c;
      assert HeadWaitsWithin(s, q, pages);
      var r := PhaseOf(s, c).page;
      assert HeadWaitsWithin(s, r, pages);
      assert s.pages[r].queue[0] in heads && c !in s.pages[r].queue[..1];
    }
    assert HeadWaitsWithin(s, p, pages);
    assert Deadlock(s, heads) && s.pages[p].queue[0] in heads;
  }

  predicate HeadWaitsWithin(s: State, q: nat, pages: set<nat>) {
    && q < |s.pages| && s.pages[q].queue != []
    && var phase := PhaseOf(s, s.pages[q].queue[0]);
    phase.Waiting? && phase.page in pages && phase.page != q
  }

  /** Without early reuse nobody deadlocks. */
  lemma FreshNeverDeadlocks(s: State, p: nat)
    requires Inv(s)
    ensures !Deadlocked(s, p)
  {
    if p < |s.pages| && s.pages[p].queue != [] {
      var h := s.pages[p].queue[0];
      assert h in s.pages[p].queue;
      forall waiting | Deadlock(s, waiting)
        ensures h !in waiting
      {
        assert h in waiting ==> WaitsBehind(s, h, waiting);
        if WaitsBehind(s, h, waiting) {
          NotAtItsHead(s, h, waiting);
        }
      }
    }
  }

  // ---------- nothing else stops a page that fits ----------

  /** How many of the first nodes of each queue are followed; all who wait are among them. */
  ghost predicate Tracked(s: State, left: seq<nat>) {
    && |left| == |s.pages|
    && (forall q :: 0 <= q < |left| ==> left[q] <= |s.pages[q].queue|)
    && forall c :: PhaseOf(s, c).Waiting? ==> IsTracked(s, left, c, PhaseOf(s, c).page)
  }

  predicate IsTracked(s: State, left: seq<nat>, c: Conn, q: nat) {
    q < |s.pages| && q < |left| && left[q] <= |s.pages[q].queue| && c in s.pages[q].queue[..left[q]]
  }

  function Total(left: seq<nat>): nat {
    if left == [] then 0 else Total(left[..|left| - 1]) + left[|left| - 1]
  }

  lemma {:induction false} TotalDrops(left: seq<nat>, q: nat)
    requires q < |left| && left[q] > 0
    ensures Total(left[q := left[q] - 1]) < Total(left)
  {
    var less, n := left[q := left[q] - 1], |left| - 1;
    if q == n {
      assert less[..n] == left[..n];
    } else {
      TotalDrops(left[..n], q);
      assert less[..n] == left[..n][q := left[q] - 1];
    }
  }

  lemma TrackedMoves(s: State, t: State, left: seq<nat>, q: nat)
    requires Tracked(s, left) && q < |left| && left[q] > 0 && Moved(s, t, q)
    ensures Tracked(t, left[q := left[q] - 1])
  {
    var less, h := left[q := left[q] - 1], s.pages[q].queue[0];
    var before, after := s.pages[q].queue[..left[q]], t.pages[q].queue[..less[q]];
    assert after == s.pages[q].queue[1..][..less[q]];
    assert before == [h] + after;
    forall c | PhaseOf(t, c).Waiting?
      ensures IsTracked(t, less, c, PhaseOf(t, c).page)
    {
      assert c != h && IsTracked(s, left, c, PhaseOf(s, c).page);
    }
  }

  lemma ShiftedPrefix(before: seq<Conn>, after: seq<Conn>, i: nat)
    requires before != [] && i < |before| - 1 && (after == before[1..] || after == before[1..] + [before[0]])
    ensures before[i + 1] == after[i] && before[..i + 2] == [before[0]] + after[..i + 1]
  {
    assert after[..i + 1] == before[1..][..i + 1];
  }

  lemma WaitedBehind(s: State, t: State, q: nat, c: Conn, waiting: set<Conn>)
    requires q < |s.pages| && s.pages[q].queue != [] && Moved(s, t, q) && WaitsBehind(t, c, waiting)
    requires s.pages[q].queue[0] !in waiting
    ensures WaitsBehind(s, c, waiting)
  {
    var r := PhaseOf(t, c).page;
    var before, after := s.pages[r].queue, t.pages[r].queue;
    var i :| 0 <= i < |after| && after[i] in waiting && c !in after[..i + 1];
    if r == q {
      assert i < |before| - 1;
      ShiftedPrefix(before, after, i);
    }
  }

  /** Serving another page makes no deadlock. */
  lemma DeadlockWas(s: State, t: State, q: nat, p: nat)
    requires q < |s.pages| && s.pages[q].queue != [] && Moved(s, t, q) && p != q && Deadlocked(t, p)
    ensures Deadlocked(s, p)
  {
    var waiting :| Deadlock(t, waiting) && t.pages[p].queue[0] in waiting;
    assert s.pages[q].queue[0] in waiting ==> WaitsBehind(t, s.pages[q].queue[0], waiting);
    forall c | c in waiting
      ensures WaitsBehind(s, c, waiting)
    {
      WaitedBehind(s, t, q, c, waiting);
    }
    assert Deadlock(s, waiting);
  }

  /** When every head followed waits for another page, they wait for each other. */
  lemma NobodyHere(s: State, left: seq<nat>, p: nat)
    requires Tracked(s, left) && p < |left| && left[p] > 0
    requires forall q :: 0 <= q < |left| && left[q] > 0 ==> !HeadHere(s, q)
    ensures Deadlocked(s, p)
  {
    var pages := set q: nat | q < |left| && left[q] > 0;
    forall q | q in pages
      ensures HeadWaitsWithin(s, q, pages)
    {
      assert !HeadHere(s, q);
      var h := s.pages[q].queue[0];
      assert IsTracked(s, left, h, PhaseOf(s, h).page);
    }
    CycleIsDeadlock(s, pages, p);
  }

  /** The run writes the page, each writer writing what it was granted. */
  ghost predicate WritesIt(s: State, run: Run, p: nat) {
    && Possible(s, run) && WritesAsGranted(s, run)
    && |WritersOn(Exec(s, run).trace, p)| > |WritersOn(s.trace, p)|
  }

  lemma WritesItLater(s: State, first: Run, rest: Run, p: nat)
    requires Possible(s, first) && WritesAsGranted(s, first) && p < |s.pages| && WritesIt(Exec(s, first), rest, p)
    ensures WritesIt(s, Append(first, rest), p)
  {
    ExecAppend(s, first, rest);
    GrantedAppend(s, first, rest);
    QuietRun(s, first, p);
  }

  /** Heads that can be served are, one after the other, until the page is written or only a deadlock
      is left. */
  lemma {:induction false} WriteOrDeadlock(s: State, left: seq<nat>, p: nat) returns (run: Run)
    requires HeadInv(s) && UnfitFree(s) && |s.pages| <= INT_MAX && Tracked(s, left) && p < |left| && left[p] > 0
    ensures Deadlocked(s, p) || WritesIt(s, run, p)
    decreases Total(left)
  {
    if HeadHere(s, p) {
      run := HeadIsServed(s, p);
    } else if q :| 0 <= q < |left| && left[q] > 0 && HeadHere(s, q) {
      var first := HeadIsServed(s, q);
      var t := Exec(s, first);
      RunKeepsHeads(s, first);
      RunKeepsUnfitFree(s, first);
      TrackedMoves(s, t, left, q);
      TotalDrops(left, q);
      var rest := WriteOrDeadlock(t, left[q := left[q] - 1], p);
      run := Append(first, rest);
      if Deadlocked(t, p) {
        DeadlockWas(s, t, q, p);
      } else {
        WritesItLater(s, first, rest, p);
      }
    } else {
      run := Begin;
      NobodyHere(s, left, p);
    }
  }

  lemma QueuesTracked(s: State) returns (left: seq<nat>)
    requires WaitersInv(s)
    ensures Tracked(s, left) && forall q :: 0 <= q < |left| ==> left[q] == |s.pages[q].queue|
  {
    left := seq(|s.pages|, q requires 0 <= q < |s.pages| => |s.pages[q].queue|);
    forall c | PhaseOf(s, c).Waiting?
      ensures IsTracked(s, left, c, PhaseOf(s, c).page)
    {
      var queue := s.pages[PhaseOf(s, c).page].queue;
      assert queue[..|queue|] == queue;
    }
  }

  lemma NeverWritten(t: State, p: nat)
    requires Deadlocked(t, p) || (p < |t.pages| && t.pages[p].queue == [] && Stuck(t, p))
    ensures !CanEverBeWritten(t, p) && !CanBeWrittenAsGranted(t, p)
  {
    forall run | Possible(t, run)
      ensures WritersOn(Exec(t, run).trace, p) == WritersOn(t.trace, p)
    {
      if Deadlocked(t, p) {
        DeadlockedIsForever(t, run, p);
      } else {
        FrozenForever(t, run, p);
      }
    }
  }

  /** A page can be written in some possible run, and by somebody who was granted it, exactly when its
      grant reply fits and it is not deadlocked. */
  lemma WritableUnlessDeadlocked(s: State, p: nat)
    requires HeadInv(s) && WaitersInv(s) && UnfitFree(s) && p < |s.pages| <= INT_MAX
    ensures CanEverBeWritten(s, p) <==> GrantFits(s.pages[p].bytes) && !Deadlocked(s, p)
    ensures CanBeWrittenAsGranted(s, p) <==> GrantFits(s.pages[p].bytes) && !Deadlocked(s, p)
  {
    if !GrantFits(s.pages[p].bytes) || Deadlocked(s, p) {
      NeverWritten(s, p);
    } else if s.pages[p].queue == [] {
      AliveExactly(s, p);
    } else {
      var left := QueuesTracked(s);
      var run := WriteOrDeadlock(s, left, p);
      GrantedWritesNeverStray(s, run, p);
    }
  }

  /** After any run from start-up, over any memory and identifier reuse included, a page can still be
      written exactly when its grant reply fitted at the start and it is not deadlocked. */
  lemma ReachableWritableExactly(s: State, run: Run, p: nat)
    requires Initial(s) && p < |s.pages| <= INT_MAX && Possible(s, run)
    ensures var t := Exec(s, run);
            && (CanEverBeWritten(t, p) <==> GrantFits(s.pages[p].bytes) && !Deadlocked(t, p))
            && (CanBeWrittenAsGranted(t, p) <==> GrantFits(s.pages[p].bytes) && !Deadlocked(t, p))
  {
    InitialInv(s);
    RunKeepsHeads(s, run);
    RunKeepsWaiters(s, run);
    RunKeepsUnfitFree(s, run);
    WritableUnlessDeadlocked(Exec(s, run), p);
  }

  // ---------- a deadlock can be reached ----------

  /** Two identifiers take a page each and quit; then each is given to somebody who asks for the page
      the other one heads. */
  function Cross(c: Conn, d: Conn, p: nat, q: nat): Run {
    Append(Append(Append(Take(c, p), Quit(c)), Append(Take(d, q), Quit(d))), Append(Take(c, q), Take(d, p)))
  }

  lemma TwoQueued(s: State, c: Conn, d: Conn, p: nat, q: nat)
    requires p < |s.pages| && q < |s.pages| && p != q && c != d && |s.pages| <= INT_MAX
    requires s.pages[p].locked && s.pages[q].locked && s.pages[p].queue == [c] && s.pages[q].queue == [d]
    requires PhaseOf(s, c).Absent? && PhaseOf(s, d).Absent?
    ensures var run := Append(Take(c, q), Take(d, p));
            && Possible(s, run) && Deadlocked(Exec(s, run), p)
            && |Exec(s, run).pages| == |s.pages| && Exec(s, run).pages[p].bytes == s.pages[p].bytes
  {
    TakeQueues(s, c, q);
    var u := Exec(s, Take(c, q));
    TakeQueues(u, d, p);
    ExecAppend(s, Take(c, q), Take(d, p));
    CrossedHeads(Exec(u, Take(d, p)), c, d, p, q);
  }

  lemma CrossedHeads(t: State, c: Conn, d: Conn, p: nat, q: nat)
    requires p != q && AtHead(t, c, p) && AtHead(t, d, q)
    requires PhaseOf(t, c) == Waiting(q) && PhaseOf(t, d) == Waiting(p)
    ensures Deadlocked(t, p)
  {
    assert HeadWaitsWithin(t, p, {p, q}) && HeadWaitsWithin(t, q, {p, q});
    CycleIsDeadlock(t, {p, q}, p);
  }

  lemma BothQuit(s: State, c: Conn, d: Conn, p: nat, q: nat)
    requires |s.pages| <= INT_MAX && FreeAndFits(s, p) && FreeAndFits(s, q) && p != q && c != d
    requires PhaseOf(s, c).Absent? && PhaseOf(s, d).Absent?
    ensures var run := Append(Append(Take(c, p), Quit(c)), Append(Take(d, q), Quit(d)));
            && Possible(s, run)
            && var v := Exec(s, run);
            && |v.pages| == |s.pages| && v.pages[p].bytes == s.pages[p].bytes
            && v.pages[p].locked && v.pages[q].locked && v.pages[p].queue == [c] && v.pages[q].queue == [d]
            && PhaseOf(v, c).Absent? && PhaseOf(v, d).Absent?
  {
    var first, second := Append(Take(c, p), Quit(c)), Append(Take(d, q), Quit(d));
    TakeAndQuit(s, c, p);
    TakeAndQuit(Exec(s, first), d, q);
    ExecAppend(s, first, second);
  }

  /** Wherever two pages are free and fit, early reuse of two identifiers deadlocks them. */
  lemma ReuseDeadlocks(s: State, c: Conn, d: Conn, p: nat, q: nat)
    requires Initial(s) && |s.pages| <= INT_MAX && FreeAndFits(s, p) && FreeAndFits(s, q) && p != q && c != d
    ensures Possible(s, Cross(c, d, p, q))
    ensures var t := Exec(s, Cross(c, d, p, q));
            && HeadInv(t) && Alive(t, p) && Deadlocked(t, p)
            && !CanEverBeWritten(t, p) && !CanBeWrittenAsGranted(t, p)
  {
    var quit := Append(Append(Take(c, p), Quit(c)), Append(Take(d, q), Quit(d)));
    var cross := Append(Take(c, q), Take(d, p));
    BothQuit(s, c, d, p, q);
    TwoQueued(Exec(s, quit), c, d, p, q);
    ExecAppend(s, quit, cross);
    InitialInv(s);
    RunKeepsHeads(s, Cross(c, d, p, q));
    NeverWritten(Exec(s, Cross(c, d, p, q)), p);
  }
}
