/** What every step of the shared memory server keeps. */
module PageInvariant {
  import opened Text
  import opened Messages
  import opened PageModel

  /** A page is locked exactly while somebody is queued. */
  ghost predicate LocksInv(s: State) {
    forall p :: 0 <= p < |s.pages| ==> (s.pages[p].locked <==> s.pages[p].queue != [])
  }

  /** Nobody is queued twice either. */
  ghost predicate RowsInv(s: State) {
    && LocksInv(s)
    && (forall p, i, j :: 0 <= p < |s.pages| && 0 <= i < j < |s.pages[p].queue|
          ==> s.pages[p].queue[i] != s.pages[p].queue[j])
    && (forall p, q, c :: 0 <= p < |s.pages| && 0 <= q < |s.pages| && c in s.pages[p].queue && c in s.pages[q].queue
          ==> p == q)
  }

  /** Queues and threads fit together. */
  ghost predicate ThreadsInv(s: State) {
    && (forall p, c :: 0 <= p < |s.pages| && c in s.pages[p].queue ==> MayBeQueued(PhaseOf(s, c), p))
    && (forall c :: OnPage(PhaseOf(s, c)) ==> Queued(s, c, PhaseOf(s, c).page))
  }

  ghost predicate QueueInv(s: State) {
    RowsInv(s) && ThreadsInv(s)
  }

  predicate OnPage(phase: Phase) {
    phase.Waiting? || phase.Granted?
  }

  predicate MayBeQueued(phase: Phase, p: nat) {
    phase.Finished? || phase.Absent? || (OnPage(phase) && phase.page == p)
  }

  predicate Queued(s: State, c: Conn, p: nat) {
    p < |s.pages| && c in s.pages[p].queue
  }

  /** A granted connection is at the head and was told what the page holds now. */
  ghost predicate GrantInv(s: State) {
    forall c :: PhaseOf(s, c).Granted? ==>
      var p := PhaseOf(s, c).page;
      AtHead(s, c, p) && LastGrant(s.trace, c) == Some(Grant(p, CString(s.pages[p].bytes)))
  }

  /** Everyone queued has written, in that order, or is still queued, in that order. */
  ghost predicate FifoInv(s: State) {
    forall p :: 0 <= p < |s.pages| ==> EnqueuedOn(s.trace, p) == WritersOn(s.trace, p) + s.pages[p].queue
  }

  ghost predicate Inv(s: State) {
    QueueInv(s) && GrantInv(s) && FifoInv(s)
  }

  /** The part that does not need identifiers to be fresh. */
  ghost predicate HeadInv(s: State) {
    LocksInv(s) && GrantInv(s)
  }

  lemma InitialInv(s: State)
    requires Initial(s)
    ensures Inv(s)
  {
    assert forall c :: PhaseOf(s, c) == Absent;
  }

  lemma LeaveKeeps(s: State, c: Conn)
    requires Inv(s) && !PhaseOf(s, c).Absent?
    ensures Inv(Leave(s, c))
  {
    var t := Leave(s, c);
    assert forall d :: PhaseOf(t, d) == if d == c then Finished else PhaseOf(s, d);
  }

  lemma AcceptKeeps(s: State, c: Conn)
    requires Inv(s) && LegalStep(s, Accept(c))
    ensures Inv(Next(s, Accept(c)))
  {
    var t := Next(s, Accept(c));
    assert forall d :: PhaseOf(t, d) == if d == c then Connected else PhaseOf(s, d);
  }

  lemma CloseKeeps(s: State, c: Conn)
    requires Inv(s) && Enabled(s, Close(c))
    ensures Inv(Next(s, Close(c)))
  {
    var t := Next(s, Close(c));
    assert forall d :: PhaseOf(t, d) == if d == c then Absent else PhaseOf(s, d);
  }

  lemma RequestKeepsQueues(s: State, c: Conn, p: nat, delivered: bool)
    requires QueueInv(s) && PhaseOf(s, c).Connected? && p < |s.pages|
    ensures QueueInv(RequestPage(s, c, p, delivered))
  {
    var t := RequestPage(s, c, p, delivered);
    assert forall d :: d != c ==> PhaseOf(t, d) == PhaseOf(s, d);
    assert forall q :: 0 <= q < |s.pages| ==> c !in s.pages[q].queue;
    if t != Leave(s, c) {
      assert t.pages[p].queue == s.pages[p].queue + [c];
      assert forall q, d :: 0 <= q < |t.pages| && d in t.pages[q].queue ==> (d == c && q == p) || d in s.pages[q].queue;
    }
  }

  lemma RequestKeepsGrants(s: State, c: Conn, p: nat, delivered: bool)
    requires HeadInv(s) && PhaseOf(s, c).Connected? && p < |s.pages|
    ensures GrantInv(RequestPage(s, c, p, delivered))
  {
    var t := RequestPage(s, c, p, delivered);
    forall d | PhaseOf(t, d).Granted?
      ensures var q := PhaseOf(t, d).page;
              AtHead(t, d, q) && LastGrant(t.trace, d) == Some(Grant(q, CString(t.pages[q].bytes)))
    {
      if d != c {
        assert PhaseOf(t, d) == PhaseOf(s, d);
        assert LastGrant(t.trace, d) == LastGrant(s.trace, d);
      }
    }
  }

  lemma RequestKeeps(s: State, c: Conn, p: nat, delivered: bool)
    requires Inv(s) && PhaseOf(s, c).Connected? && p < |s.pages|
    ensures Inv(RequestPage(s, c, p, delivered))
  {
    RequestKeepsQueues(s, c, p, delivered);
    RequestKeepsGrants(s, c, p, delivered);
    RequestKeepsOrder(s, c, p, delivered);
  }

  lemma RequestKeepsOrder(s: State, c: Conn, p: nat, delivered: bool)
    requires FifoInv(s) && p < |s.pages|
    ensures FifoInv(RequestPage(s, c, p, delivered))
  {
    var t := RequestPage(s, c, p, delivered);
    forall q | 0 <= q < |t.pages|
      ensures EnqueuedOn(t.trace, q) == WritersOn(t.trace, q) + t.pages[q].queue
    {
      if q == p && t != Leave(s, c) {
        assert t.pages[p].queue == s.pages[p].queue + [c];
        assert WritersOn(s.trace, p) + (s.pages[p].queue + [c]) == (WritersOn(s.trace, p) + s.pages[p].queue) + [c];
      }
    }
  }

  lemma PollKeeps(s: State, c: Conn, delivered: bool)
    requires Inv(s) && Enabled(s, Poll(c, delivered))
    ensures Inv(Next(s, Poll(c, delivered)))
  {
    var t := Next(s, Poll(c, delivered));
    assert forall d :: d != c ==> PhaseOf(t, d) == PhaseOf(s, d);
    assert forall d :: d != c ==> LastGrant(t.trace, d) == LastGrant(s.trace, d);
  }

  lemma WriteKeepsRows(s: State, c: Conn, p: nat, content: string)
    requires RowsInv(s) && AtHead(s, c, p)
    ensures RowsInv(WritePage(s, c, p, Some(content)))
  {
    var t := WritePage(s, c, p, Some(content));
    assert s.pages[p].queue == [c] + t.pages[p].queue;
    assert forall q, d :: 0 <= q < |t.pages| && d in t.pages[q].queue ==> d in s.pages[q].queue;
  }

  lemma WriteKeepsThreads(s: State, c: Conn, p: nat, content: string)
    requires QueueInv(s) && PhaseOf(s, c).Granted? && AtHead(s, c, p)
    ensures ThreadsInv(WritePage(s, c, p, Some(content)))
  {
    var t := WritePage(s, c, p, Some(content));
    assert forall d :: d != c ==> PhaseOf(t, d) == PhaseOf(s, d);
    assert s.pages[p].queue == [c] + t.pages[p].queue;
    assert forall q, d :: 0 <= q < |t.pages| && d in t.pages[q].queue ==> d in s.pages[q].queue;
    assert forall q, d :: 0 <= q < |t.pages| && d in s.pages[q].queue ==> d == c || d in t.pages[q].queue;
  }

  lemma WriteKeepsGrants(s: State, c: Conn, p: int, content: Option<string>)
    requires GrantInv(s) && AtHead(s, c, p)
    ensures GrantInv(WritePage(s, c, p, content))
  {
    var t := WritePage(s, c, p, content);
    forall d | PhaseOf(t, d).Granted?
      ensures var q := PhaseOf(t, d).page;
              AtHead(t, d, q) && LastGrant(t.trace, d) == Some(Grant(q, CString(t.pages[q].bytes)))
    {
      assert d != c && PhaseOf(t, d) == PhaseOf(s, d);
      assert LastGrant(t.trace, d) == LastGrant(s.trace, d);
    }
  }

  lemma WriteKeepsOrder(s: State, c: Conn, p: int, content: Option<string>)
    requires FifoInv(s)
    ensures FifoInv(WritePage(s, c, p, content))
  {
    var t := WritePage(s, c, p, content);
    if content.Some? && AtHead(s, c, p) {
      assert s.pages[p].queue == [c] + t.pages[p].queue;
      assert WritersOn(t.trace, p) + t.pages[p].queue == WritersOn(s.trace, p) + ([c] + t.pages[p].queue);
    }
  }

  lemma WriteKeeps(s: State, c: Conn, p: int, content: Option<string>)
    requires Inv(s) && PhaseOf(s, c).Granted?
    ensures Inv(WritePage(s, c, p, content))
  {
    if content.None? || !AtHead(s, c, p) {
      LeaveKeeps(s, c);
    } else {
      WriteKeepsRows(s, c, p, content.value);
      WriteKeepsThreads(s, c, p, content.value);
      WriteKeepsGrants(s, c, p, content);
      WriteKeepsOrder(s, c, p, content);
    }
  }

  lemma OpenKeeps(s: State, c: Conn, r: Request, delivered: bool)
    requires Inv(s) && PhaseOf(s, c).Connected?
    ensures Inv(Open(s, c, r, delivered))
  {
    if r.command == 1 && 0 <= r.page < |s.pages| {
      RequestKeeps(s, c, r.page, delivered);
    } else {
      LeaveKeeps(s, c);
    }
  }

  lemma FinishKeeps(s: State, c: Conn, r: Request)
    requires Inv(s) && PhaseOf(s, c).Granted?
    ensures Inv(Finish(s, c, r))
  {
    if r.command == 2 {
      WriteKeeps(s, c, r.page, r.content);
    } else {
      LeaveKeeps(s, c);
    }
  }

  lemma StepKeeps(s: State, step: Step)
    requires Inv(s) && LegalStep(s, step)
    ensures Inv(Next(s, step))
  {
    match step
    case Accept(c) => AcceptKeeps(s, c);
    case FirstMessage(c, received, delivered) => OpenKeeps(s, c, Parse(received), delivered);
    case Poll(c, delivered) => PollKeeps(s, c, delivered);
    case SecondMessage(c, received) => FinishKeeps(s, c, Parse(received));
    case Close(c) => CloseKeeps(s, c);
  }

  /** Locks, queues, grants and arrival order agree after every legal run. */
  lemma {:induction false} RunKeeps(s: State, run: Run)
    requires Inv(s) && Legal(s, run)
    ensures Inv(Exec(s, run))
  {
    if run.Then? {
      RunKeeps(s, run.before);
      StepKeeps(Exec(s, run.before), run.step);
    }
  }

  // ---------- identifier reuse included ----------

  /** A step that grants nothing and changes no page. */
  lemma PhaseKeepsHeads(s: State, c: Conn, phase: Phase)
    requires HeadInv(s) && !phase.Granted?
    ensures HeadInv(s.(phase := s.phase[c := phase]))
  {
    var t := s.(phase := s.phase[c := phase]);
    assert forall d :: PhaseOf(t, d) == if d == c then phase else PhaseOf(s, d);
  }

  lemma PollKeepsHeads(s: State, c: Conn, p: nat, delivered: bool)
    requires HeadInv(s) && p < |s.pages|
    ensures HeadInv(PollPage(s, c, p, delivered))
  {
    var t := PollPage(s, c, p, delivered);
    assert forall d :: d != c ==> PhaseOf(t, d) == PhaseOf(s, d);
    assert forall d :: d != c ==> LastGrant(t.trace, d) == LastGrant(s.trace, d);
  }

  lemma OpenKeepsHeads(s: State, c: Conn, r: Request, delivered: bool)
    requires HeadInv(s) && PhaseOf(s, c).Connected?
    ensures HeadInv(Open(s, c, r, delivered))
  {
    if r.command == 1 && 0 <= r.page < |s.pages| {
      RequestKeepsGrants(s, c, r.page, delivered);
    } else {
      PhaseKeepsHeads(s, c, Finished);
    }
  }

  lemma FinishKeepsHeads(s: State, c: Conn, r: Request)
    requires HeadInv(s)
    ensures HeadInv(Finish(s, c, r))
  {
    if r.command == 2 && r.content.Some? && AtHead(s, c, r.page) {
      WriteKeepsGrants(s, c, r.page, r.content);
    } else {
      PhaseKeepsHeads(s, c, Finished);
    }
  }

  lemma StepKeepsHeads(s: State, step: Step)
    requires HeadInv(s) && Enabled(s, step)
    ensures HeadInv(Next(s, step))
  {
    match step
    case Accept(c) => PhaseKeepsHeads(s, c, Connected);
    case FirstMessage(c, received, delivered) => OpenKeepsHeads(s, c, Parse(received), delivered);
    case Poll(c, delivered) => PollKeepsHeads(s, c, PhaseOf(s, c).page, delivered);
    case SecondMessage(c, received) => FinishKeepsHeads(s, c, Parse(received));
    case Close(c) => PhaseKeepsHeads(s, c, Absent);
  }

  /** Even where identifiers are reused too early, a page stays locked exactly while somebody is
      queued, and a granted connection is at the head and was told the page's present content. */
  lemma {:induction false} RunKeepsHeads(s: State, run: Run)
    requires HeadInv(s) && Possible(s, run)
    ensures HeadInv(Exec(s, run))
  {
    if run.Then? {
      RunKeepsHeads(s, run.before);
      StepKeepsHeads(Exec(s, run.before), run.step);
    }
  }

  /** Whoever waits for a page is queued on it. */
  ghost predicate WaitersInv(s: State) {
    forall c :: PhaseOf(s, c).Waiting? ==> Queued(s, c, PhaseOf(s, c).page)
  }

  lemma OpenKeepsWaiters(s: State, c: Conn, r: Request, delivered: bool)
    requires WaitersInv(s)
    ensures WaitersInv(Open(s, c, r, delivered))
  {
    var t := Open(s, c, r, delivered);
    assert forall d :: d != c ==> PhaseOf(t, d) == PhaseOf(s, d);
    assert forall p, d :: 0 <= p < |s.pages| && d in s.pages[p].queue ==> d in t.pages[p].queue;
  }

  lemma FinishKeepsWaiters(s: State, c: Conn, r: Request)
    requires WaitersInv(s)
    ensures WaitersInv(Finish(s, c, r))
  {
    var t := Finish(s, c, r);
    assert forall d :: d != c ==> PhaseOf(t, d) == PhaseOf(s, d);
    assert forall p, d :: 0 <= p < |s.pages| && d in s.pages[p].queue && d != c ==> d in t.pages[p].queue by {
      assert AtHead(s, c, r.page) ==> s.pages[r.page].queue == [c] + s.pages[r.page].queue[1..];
    }
  }

  lemma StepKeepsWaiters(s: State, step: Step)
    requires WaitersInv(s) && Enabled(s, step)
    ensures WaitersInv(Next(s, step))
  {
    match step
    case FirstMessage(c, received, delivered) => OpenKeepsWaiters(s, c, Parse(received), delivered);
    case SecondMessage(c, received) => FinishKeepsWaiters(s, c, Parse(received));
    case _ =>
      var t := Next(s, step);
      assert forall d :: d != step.conn ==> PhaseOf(t, d) == PhaseOf(s, d);
  }

  lemma {:induction false} RunKeepsWaiters(s: State, run: Run)
    requires WaitersInv(s) && Possible(s, run)
    ensures WaitersInv(Exec(s, run))
  {
    if run.Then? {
      RunKeepsWaiters(s, run.before);
      StepKeepsWaiters(Exec(s, run.before), run.step);
    }
  }
}
