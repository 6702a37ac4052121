/** When a page of the shared memory server can still be granted and written. */
module PageProgress {
  import opened Text
  import opened Messages
  import opened PageModel
  import opened PageInvariant
  import opened PageOrder

  // ---------- size closure ----------

  lemma GrantFitsExactly(bytes: string)
    ensures GrantFits(bytes) <==> |CString(bytes)| <= MAX_MSG - 3
  {
    assert |Decimal(0)| == 1;
  }

  lemma FinishKeepsFit(s: State, c: Conn, r: Request, p: nat)
    requires p < |s.pages| && GrantFits(s.pages[p].bytes)
    requires r.command == 2 && r.content.Some? ==> NulFree(r.content.value) && |r.content.value| <= MAX_MSG - 4
    ensures p < |Finish(s, c, r).pages| && GrantFits(Finish(s, c, r).pages[p].bytes)
  {
    if r.command == 2 && r.content.Some? && AtHead(s, c, r.page) && r.page == p {
      CStringOfFree(r.content.value);
      OverwriteReads(|s.pages[p].bytes|, r.content.value);
      GrantFitsExactly(Overwrite(|s.pages[p].bytes|, r.content.value));
    }
  }

  lemma StepKeepsFit(s: State, step: Step, p: nat)
    requires Enabled(s, step) && p < |s.pages| && GrantFits(s.pages[p].bytes)
    ensures p < |Next(s, step).pages| && GrantFits(Next(s, step).pages[p].bytes)
  {
    match step
    case FirstMessage(c, received, delivered) => OpenIsQuiet(s, c, Parse(received), delivered, p);
    case SecondMessage(c, received) =>
      if Parse(received).command == 2 && Parse(received).content.Some? {
        WriteContentFits(received);
      }
      FinishKeepsFit(s, c, Parse(received), p);
    case _ =>
  }

  /** Size closure: a page whose grant reply fits keeps fitting, whatever is written to it. */
  lemma {:induction false} RunKeepsFit(s: State, run: Run, p: nat)
    requires Possible(s, run) && p < |s.pages| && GrantFits(s.pages[p].bytes)
    ensures p < |Exec(s, run).pages| && GrantFits(Exec(s, run).pages[p].bytes)
  {
    if run.Then? {
      RunKeepsFit(s, run.before, p);
      StepKeepsFit(Exec(s, run.before), run.step, p);
    }
  }

  /** From zeroed pages, `message too long` never stands in the way of a grant in any run. */
  lemma ZeroedPagesAlwaysFit(s: State, run: Run, p: nat)
    requires Initial(s) && Possible(s, run) && p < |s.pages|
    requires s.pages[p].bytes == Zeros(|s.pages[p].bytes|)
    ensures p < |Exec(s, run).pages| && GrantFits(Exec(s, run).pages[p].bytes)
  {
    CStringOf([], s.pages[p].bytes);
    assert [] + s.pages[p].bytes == s.pages[p].bytes;
    GrantFitsExactly(s.pages[p].bytes);
    RunKeepsFit(s, run, p);
  }

  // ---------- pages that can never be written again ----------

  /** The guard of progress: an unlocked page must fit its grant reply; a locked one needs a
      thread at the head of its queue, and a fitting page if that thread is still waiting. */
  predicate Writable(s: State, p: nat)
    requires p < |s.pages|
  {
    var page := s.pages[p];
    if page.queue == [] then GrantFits(page.bytes)
    else
      var phase := PhaseOf(s, page.queue[0]);
      phase == Granted(p) || (phase == Waiting(p) && GrantFits(page.bytes))
  }

  /** Nothing about the page's content, head or writers differs. */
  ghost predicate SamePage(s: State, t: State, p: nat)
    requires p < |s.pages|
  {
    && p < |t.pages|
    && t.pages[p].bytes == s.pages[p].bytes
    && WritersOn(t.trace, p) == WritersOn(s.trace, p)
    && s.pages[p].queue <= t.pages[p].queue
    && (s.pages[p].queue == [] ==> t.pages[p].queue == [])
  }

  /** No thread can ever write the page: it is free but no grant of it fits, or the thread at its head
      has left, or still waits for a grant that does not fit. */
  predicate Stuck(s: State, p: nat) {
    && p < |s.pages|
    && var page := s.pages[p];
    if page.queue == [] then !page.locked && !GrantFits(page.bytes)
    else
      var phase := PhaseOf(s, page.queue[0]);
      phase.Finished? || phase.Absent? || (phase == Waiting(p) && !GrantFits(page.bytes))
  }

  lemma UnwritableIsStuck(s: State, p: nat)
    requires Inv(s) && p < |s.pages| && !Writable(s, p)
    ensures Stuck(s, p)
  {
    if s.pages[p].queue != [] {
      assert s.pages[p].queue[0] in s.pages[p].queue;
    }
  }

  lemma OpenKeepsStuck(s: State, c: Conn, r: Request, delivered: bool, p: nat)
    requires Stuck(s, p) && PhaseOf(s, c).Connected?
    ensures SamePage(s, Open(s, c, r, delivered), p) && Stuck(Open(s, c, r, delivered), p)
  {
    var t := Open(s, c, r, delivered);
    assert forall d :: d != c ==> PhaseOf(t, d) == PhaseOf(s, d);
  }

  lemma FinishKeepsStuck(s: State, c: Conn, r: Request, p: nat)
    requires Stuck(s, p) && PhaseOf(s, c).Granted?
    ensures SamePage(s, Finish(s, c, r), p) && Stuck(Finish(s, c, r), p)
  {
    var t := Finish(s, c, r);
    assert !AtHead(s, c, p);
    assert forall d :: d != c ==> PhaseOf(t, d) == PhaseOf(s, d);
  }

  lemma QuietKeepsStuck(s: State, step: Step, p: nat)
    requires Enabled(s, step) && Stuck(s, p) && (step.Accept? || step.Close? || step.Poll?)
    requires s.pages[p].queue != [] ==> step != Accept(s.pages[p].queue[0])
    ensures SamePage(s, Next(s, step), p) && Stuck(Next(s, step), p)
  {
    var t := Next(s, step);
    assert forall d :: d != step.conn ==> PhaseOf(t, d) == PhaseOf(s, d);
  }

  lemma StepKeepsStuck(s: State, step: Step, p: nat)
    requires Enabled(s, step) && Stuck(s, p)
    requires s.pages[p].queue != [] ==> step != Accept(s.pages[p].queue[0])
    ensures SamePage(s, Next(s, step), p) && Stuck(Next(s, step), p)
  {
    match step
    case FirstMessage(c, received, delivered) => OpenKeepsStuck(s, c, Parse(received), delivered, p);
    case SecondMessage(c, received) => FinishKeepsStuck(s, c, Parse(received), p);
    case _ => QuietKeepsStuck(s, step, p);
  }

  /** The run gives nobody this identifier. */
  predicate NeverAccepts(run: Run, c: Conn) {
    run.Begin? || (NeverAccepts(run.before, c) && run.step != Accept(c))
  }

  /** A page that is stuck keeps its content and its head in every possible run that does not give
      somebody new the identifier of that head. */
  lemma {:induction false} FrozenForever(s: State, run: Run, p: nat)
    requires Stuck(s, p) && Possible(s, run)
    requires s.pages[p].queue != [] ==> NeverAccepts(run, s.pages[p].queue[0])
    ensures SamePage(s, Exec(s, run), p) && Stuck(Exec(s, run), p) && !Writable(Exec(s, run), p)
  {
    if run.Then? {
      FrozenForever(s, run.before, p);
      StepKeepsStuck(Exec(s, run.before), run.step, p);
    }
  }

  lemma QuitterIsStuck(s: State, c: Conn, r: Request, p: nat)
    requires GrantInv(s) && PhaseOf(s, c) == Granted(p) && (r.command == 2 && r.content.Some? ==> r.page != p)
    ensures p < |s.pages|
    ensures var t := Finish(s, c, r);
            && AtHead(t, c, p) && PhaseOf(t, c).Finished?
            && t.pages[p] == s.pages[p] && WritersOn(t.trace, p) == WritersOn(s.trace, p)
  {
  }

  /** A client that was granted a page and then sends anything but a write to it blocks the page, in
      every state the server can reach, until somebody new gets its identifier. */
  lemma QuitterBlocks(s: State, c: Conn, received: string, run: Run)
    requires HeadInv(s) && Enabled(s, SecondMessage(c, received))
    requires Parse(received).command == 2 && Parse(received).content.Some? ==>
               Parse(received).page != PhaseOf(s, c).page
    requires Possible(Next(s, SecondMessage(c, received)), run) && NeverAccepts(run, c)
    ensures var p := PhaseOf(s, c).page;
            p < |s.pages| && SamePage(s, Exec(Next(s, SecondMessage(c, received)), run), p)
  {
    var p, t := PhaseOf(s, c).page, Next(s, SecondMessage(c, received));
    QuitterIsStuck(s, c, Parse(received), p);
    FrozenForever(t, run, p);
  }

  /** A page whose grant reply does not fit is free. */
  predicate UnfitFree(s: State) {
    forall p :: 0 <= p < |s.pages| && !GrantFits(s.pages[p].bytes) ==> !s.pages[p].locked && s.pages[p].queue == []
  }

  /** Over any run a page that fits keeps fitting, and one that does not stays free and as it is:
      nobody is granted it, so nobody ever queues on it, and no write can stray onto it. */
  lemma RunKeepsUnfitFree(s: State, run: Run)
    requires UnfitFree(s) && Possible(s, run)
    ensures UnfitFree(Exec(s, run)) && |Exec(s, run).pages| == |s.pages|
    ensures forall p :: 0 <= p < |s.pages| ==>
              (GrantFits(Exec(s, run).pages[p].bytes) <==> GrantFits(s.pages[p].bytes))
  {
    var t := Exec(s, run);
    forall p | 0 <= p < |s.pages|
      ensures |t.pages| == |s.pages| && (GrantFits(t.pages[p].bytes) <==> GrantFits(s.pages[p].bytes))
      ensures !GrantFits(t.pages[p].bytes) ==> !t.pages[p].locked && t.pages[p].queue == []
    {
      QuietRun(s, run, p);
      if GrantFits(s.pages[p].bytes) {
        RunKeepsFit(s, run, p);
      } else {
        FrozenForever(s, run, p);
      }
    }
    SameCount(s, run);
  }

  lemma {:induction false} SameCount(s: State, run: Run)
    ensures |Exec(s, run).pages| == |s.pages|
  {
    if run.Then? {
      SameCount(s, run.before);
    }
  }

  /** Somebody queued is not accepted again while that is forbidden. */
  lemma {:induction false} LegalLeavesHead(s: State, run: Run, p: nat)
    requires Stuck(s, p) && Legal(s, run) && s.pages[p].queue != []
    ensures Possible(s, run) && NeverAccepts(run, s.pages[p].queue[0])
  {
    if run.Then? {
      LegalLeavesHead(s, run.before, p);
      FrozenForever(s, run.before, p);
      var t := Exec(s, run.before);
      assert t.pages[p].queue[0] in t.pages[p].queue;
    }
  }

  // ---------- serving the head ----------

  function Pow10(k: nat): nat {
    if k == 0 then 1 else 10 * Pow10(k - 1)
  }

  lemma {:induction false} DigitsShort(n: nat, k: nat)
    requires n < Pow10(k) && k > 0
    ensures |Digits(n)| <= k
  {
    if n >= 10 {
      DigitsShort(n / 10, k - 1);
    }
  }

  /** Page numbers are C ints. */
  const INT_MAX := 0x7FFF_FFFF

  function WriteMessage(p: nat, text: string): string {
    Decimal(2) + " " + (Decimal(p) + " " + text)
  }

  lemma ShortMessages(p: nat, text: string)
    requires p < INT_MAX
    ensures |Decimal(p)| <= 10
    ensures |text| <= MAX_MSG - 16 ==> |WriteMessage(p, text)| < MAX_MSG
  {
    assert Pow10(10) == 10_000_000_000;
    DigitsShort(p, 10);
    assert |Decimal(2)| == 1;
  }

  /** The head wrote this text and left; no other page changed. */
  ghost predicate WasServed(s: State, t: State, p: nat, text: string)
    requires p < |s.pages| && s.pages[p].queue != []
  {
    var page := s.pages[p];
    && |t.pages| == |s.pages|
    && t.pages == s.pages[p := t.pages[p]]
    && t.pages[p].queue == page.queue[1..]
    && t.pages[p].locked == (page.locked && page.queue[1..] != [])
    && CString(t.pages[p].bytes) == Cut(text, |page.bytes|)
    && WritersOn(t.trace, p) == WritersOn(s.trace, p) + [page.queue[0]]
  }

  lemma PollGrants(s: State, p: nat)
    requires p < |s.pages| && s.pages[p].queue != []
    requires PhaseOf(s, s.pages[p].queue[0]) == Waiting(p) && GrantFits(s.pages[p].bytes)
    ensures var step := Poll(s.pages[p].queue[0], true);
            LegalStep(s, step) && var t := Next(s, step);
            && t.pages == s.pages && WritersOn(t.trace, p) == WritersOn(s.trace, p)
            && t.phase == s.phase[s.pages[p].queue[0] := Granted(p)]
  {
  }

  lemma WriteServes(s: State, p: nat, text: string)
    requires p < |s.pages| && s.pages[p].queue != []
    requires PhaseOf(s, s.pages[p].queue[0]) == Granted(p)
    requires NulFree(text) && |WriteMessage(p, text)| < MAX_MSG
    ensures var h := s.pages[p].queue[0];
            var step := SecondMessage(h, WriteMessage(p, text));
            LegalStep(s, step) && var t := Next(s, step);
            && WasServed(s, t, p, text)
            && t.phase == s.phase[h := Finished]
  {
    ParseThree(2, p, text);
    CStringOfFree(text);
    OverwriteReads(|s.pages[p].bytes|, text);
  }

  /** The turn of the client at the head: it polls if it still waits, then writes. */
  function Turn(s: State, p: nat, text: string): Run
    requires p < |s.pages| && s.pages[p].queue != []
  {
    var h := s.pages[p].queue[0];
    var granted := if PhaseOf(s, h).Waiting? then Then(Begin, Poll(h, true)) else Begin;
    Then(granted, SecondMessage(h, WriteMessage(p, text)))
  }

  lemma TurnServes(s: State, p: nat, text: string)
    requires p < |s.pages| && s.pages[p].queue != [] && Writable(s, p)
    requires NulFree(text) && |WriteMessage(p, text)| < MAX_MSG
    ensures var h := s.pages[p].queue[0];
            var t := Exec(s, Turn(s, p, text));
            && Legal(s, Turn(s, p, text))
            && WasServed(s, t, p, text) && PhaseOf(t, h).Finished?
            && forall c :: c != h ==> PhaseOf(t, c) == PhaseOf(s, c)
  {
    var h := s.pages[p].queue[0];
    var write := SecondMessage(h, WriteMessage(p, text));
    if PhaseOf(s, h).Waiting? {
      PollGrants(s, p);
      var t := Next(s, Poll(h, true));
      WriteServes(t, p, text);
      ServedFromGrant(s, t, Next(t, write), p, text);
      RunOne(s, Poll(h, true));
      RunMore(s, Then(Begin, Poll(h, true)), write);
    } else {
      WriteServes(s, p, text);
      RunOne(s, write);
    }
  }

  lemma RunOne(s: State, step: Step)
    requires LegalStep(s, step)
    ensures Legal(s, Then(Begin, step)) && Exec(s, Then(Begin, step)) == Next(s, step)
  {
    assert Legal(s, Begin) && Exec(s, Begin) == s;
  }

  lemma RunMore(s: State, run: Run, step: Step)
    requires Legal(s, run) && LegalStep(Exec(s, run), step)
    ensures Legal(s, Then(run, step)) && Exec(s, Then(run, step)) == Next(Exec(s, run), step)
  {
  }

  lemma ServedFromGrant(s: State, t: State, u: State, p: nat, text: string)
    requires p < |s.pages| && s.pages[p].queue != [] && t.pages == s.pages
    requires WritersOn(t.trace, p) == WritersOn(s.trace, p) && WasServed(t, u, p, text)
    ensures WasServed(s, u, p, text)
  {
  }

  /** The first k + 1 clients of a queue are all waiting or granted, and the page fits. */
  ghost predicate AllThere(s: State, p: nat, k: nat) {
    && p < |s.pages| && k < |s.pages[p].queue| && GrantFits(s.pages[p].bytes)
    && forall i :: 0 <= i <= k ==> OnPage(PhaseOf(s, s.pages[p].queue[i]))
  }

  lemma HeadIsReached(s: State, p: nat) returns (run: Run)
    requires Inv(s) && AllThere(s, p, 0)
    ensures Legal(s, run) && WritersOn(Exec(s, run).trace, p) == WritersOn(s.trace, p)
    ensures PhaseOf(Exec(s, run), s.pages[p].queue[0]) == Granted(p)
  {
    var h := s.pages[p].queue[0];
    assert h in s.pages[p].queue;
    run := Begin;
    if PhaseOf(s, h).Waiting? {
      PollGrants(s, p);
      run := Then(Begin, Poll(h, true));
    }
  }

  lemma TurnAdvances(s: State, p: nat, k: nat)
    requires Inv(s) && |s.pages| <= INT_MAX && AllThere(s, p, k) && k > 0
    ensures Legal(s, Turn(s, p, ""))
    ensures var t := Exec(s, Turn(s, p, ""));
            && Inv(t) && |t.pages| == |s.pages| && AllThere(t, p, k - 1)
            && t.pages[p].queue == s.pages[p].queue[1..]
            && WritersOn(t.trace, p) == WritersOn(s.trace, p) + [s.pages[p].queue[0]]
  {
    var queue := s.pages[p].queue;
    assert queue[0] in queue;
    ShortMessages(p, "");
    TurnServes(s, p, "");
    var t := Exec(s, Turn(s, p, ""));
    RunKeeps(s, Turn(s, p, ""));
    GrantFitsExactly(t.pages[p].bytes);
    forall i | 0 <= i <= k - 1
      ensures OnPage(PhaseOf(t, t.pages[p].queue[i]))
    {
      assert t.pages[p].queue[i] == queue[i + 1] != queue[0];
    }
  }

  /** The run serves exactly the k clients ahead, in order, and then grants the page to the next. */
  ghost predicate Reaches(s: State, p: nat, k: nat, run: Run)
    requires p < |s.pages| && k < |s.pages[p].queue|
  {
    && Legal(s, run)
    && WritersOn(Exec(s, run).trace, p) == WritersOn(s.trace, p) + s.pages[p].queue[..k]
    && PhaseOf(Exec(s, run), s.pages[p].queue[k]) == Granted(p)
  }

  lemma ReachesAfter(s: State, p: nat, k: nat, turn: Run, rest: Run)
    requires p < |s.pages| && 0 < k < |s.pages[p].queue| && Legal(s, turn)
    requires var t := Exec(s, turn);
             && p < |t.pages| && t.pages[p].queue == s.pages[p].queue[1..]
             && WritersOn(t.trace, p) == WritersOn(s.trace, p) + [s.pages[p].queue[0]]
             && Reaches(t, p, k - 1, rest)
    ensures Reaches(s, p, k, Append(turn, rest))
  {
    ExecAppend(s, turn, rest);
    ShiftPrefix(WritersOn(s.trace, p), s.pages[p].queue, k);
  }

  lemma ShiftPrefix(w: seq<Conn>, q: seq<Conn>, k: nat)
    requires 0 < k < |q|
    ensures (w + [q[0]]) + q[1..][..k - 1] == w + q[..k]
    ensures q[1..][k - 1] == q[k]
  {
  }

  /** If the clients ahead of a waiter are all still there, their turns, one write each and in
      queue order, bring the waiter its grant. */
  lemma {:induction false} EveryWaiterIsReached(s: State, p: nat, k: nat) returns (run: Run)
    requires Inv(s) && |s.pages| <= INT_MAX && AllThere(s, p, k)
    ensures Reaches(s, p, k, run)
    decreases k
  {
    if k == 0 {
      run := HeadIsReached(s, p);
    } else {
      TurnAdvances(s, p, k);
      var turn := Turn(s, p, "");
      var rest := EveryWaiterIsReached(Exec(s, turn), p, k - 1);
      ReachesAfter(s, p, k, turn, rest);
      run := Append(turn, rest);
    }
  }

  // ---------- exactly the pages that can be written again ----------

  ghost predicate CanBeWritten(s: State, p: nat) {
    exists run :: Legal(s, run) && WritersOn(Exec(s, run).trace, p) != WritersOn(s.trace, p)
  }

  lemma {:induction false} Above(known: set<int>) returns (bound: int)
    ensures forall x :: x in known ==> x < bound
  {
    if x :| x in known {
      var rest := Above(known - {x});
      bound := if rest > x then rest else x + 1;
      assert forall y :: y in known ==> y == x || y in known - {x};
    } else {
      bound := 0;
    }
  }

  lemma StrangerExists(s: State) returns (c: Conn)
    ensures PhaseOf(s, c).Absent? && NotQueued(s, c)
  {
    var queued := set p, d | 0 <= p < |s.pages| && d in s.pages[p].queue :: d;
    c := Above(s.phase.Keys + queued);
    forall p | 0 <= p < |s.pages|
      ensures c !in s.pages[p].queue
    {
      assert forall d :: d in s.pages[p].queue ==> d in queued;
    }
  }

  function LockMessage(p: nat): string {
    Decimal(1) + " " + Decimal(p)
  }

  lemma LockMessageParses(p: nat)
    requires p < INT_MAX
    ensures |LockMessage(p)| < MAX_MSG && Parse(LockMessage(p)) == Request(1, p, None)
  {
    ShortMessages(p, "");
    assert |Decimal(1)| == 1;
    ReadRoundTrip(1, p);
    DecimalIsPlain(p);
    CStringOfFree(Decimal(p));
  }

  /** A newcomer asks for a free page that fits and becomes its granted head. */
  lemma NewcomerGranted(s: State, p: nat) returns (run: Run)
    requires Inv(s) && p < |s.pages| <= INT_MAX && s.pages[p].queue == [] && GrantFits(s.pages[p].bytes)
    ensures Legal(s, run)
    ensures var t := Exec(s, run);
            && |t.pages| == |s.pages| && t.pages[p].queue != [] && Writable(t, p)
            && t.pages[p].bytes == s.pages[p].bytes
            && WritersOn(t.trace, p) == WritersOn(s.trace, p)
  {
    var c := StrangerExists(s);
    LockMessageParses(p);
    var accept, ask := Accept(c), FirstMessage(c, LockMessage(p), true);
    run := Then(Then(Begin, accept), ask);
    assert Exec(s, Begin) == s && Legal(s, Begin);
    var t := Next(s, accept);
    assert Exec(s, Then(Begin, accept)) == t && Legal(s, Then(Begin, accept));
    assert Next(t, ask) == RequestPage(t, c, p, true);
  }

  /** As long as no identifier still queued is reused, a page can be written in some future exactly
      when it passes the guard of progress. */
  lemma WritableExactly(s: State, p: nat)
    requires Inv(s) && p < |s.pages| <= INT_MAX
    ensures Writable(s, p) <==> CanBeWritten(s, p)
  {
    if Writable(s, p) {
      var start := Begin;
      if s.pages[p].queue == [] {
        start := NewcomerGranted(s, p);
      }
      var t := Exec(s, start);
      RunKeeps(s, start);
      ShortMessages(p, "");
      TurnServes(t, p, "");
      ExecAppend(s, start, Turn(t, p, ""));
    } else {
      forall run | Legal(s, run)
        ensures WritersOn(Exec(s, run).trace, p) == WritersOn(s.trace, p)
      {
        UnwritableIsStuck(s, p);
        if s.pages[p].queue != [] {
          LegalLeavesHead(s, run, p);
        } else {
          LegalIsPossible(s, run);
        }
        FrozenForever(s, run, p);
      }
    }
  }

  /** Over memory that already existed, a page can ever be written exactly when its old C string
      is at most 509 bytes long; a longer one stays as it is in every possible run. */
  lemma OldMemoryExactly(s: State, p: nat)
    requires Initial(s) && p < |s.pages| <= INT_MAX
    ensures CanBeWritten(s, p) <==> |CString(s.pages[p].bytes)| <= 509
    ensures |CString(s.pages[p].bytes)| > 509 ==> forall run :: Possible(s, run) ==> SamePage(s, Exec(s, run), p)
  {
    InitialInv(s);
    WritableExactly(s, p);
    GrantFitsExactly(s.pages[p].bytes);
    if |CString(s.pages[p].bytes)| > 509 {
      forall run | Possible(s, run)
        ensures SamePage(s, Exec(s, run), p)
      {
        FrozenForever(s, run, p);
      }
    }
  }
}
