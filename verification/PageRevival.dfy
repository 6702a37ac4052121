/** Which pages of the shared memory server can be written again when connection identifiers are
    reused as soon as they are free. PageDeadlock has the pages whose head waits for another page. */
module PageRevival {
  import opened Text
  import opened Messages
  import opened PageModel
  import opened PageInvariant
  import opened PageOrder
  import opened PageProgress
  import opened PageReuse

  /** A grant of the page fits its reply, or its head was granted it already. In a run from start-up the
      second implies the first (PageProgress.UnfitFree). */
  predicate Alive(s: State, p: nat) {
    && p < |s.pages|
    && (GrantFits(s.pages[p].bytes) || (s.pages[p].queue != [] && PhaseOf(s, s.pages[p].queue[0]) == Granted(p)))
  }

  // ---------- pages that stay as they are ----------

  /** No grant of the page fits and nobody was granted it. */
  ghost predicate Dead(s: State, p: nat) {
    p < |s.pages| && !GrantFits(s.pages[p].bytes) && forall c :: PhaseOf(s, c) != Granted(p)
  }

  lemma DeadExactly(s: State, p: nat)
    requires HeadInv(s) && p < |s.pages|
    ensures Dead(s, p) <==> !Alive(s, p)
  {
  }

  lemma FinishKeepsDead(s: State, c: Conn, r: Request, p: nat)
    requires Dead(s, p) && PhaseOf(s, c).Granted? && !WriteStrays(s, c, r, p)
    ensures Dead(Finish(s, c, r), p) && WritersOn(Finish(s, c, r).trace, p) == WritersOn(s.trace, p)
  {
    var t := Finish(s, c, r);
    assert forall d :: d != c ==> PhaseOf(t, d) == PhaseOf(s, d);
  }

  lemma OpenKeepsDead(s: State, c: Conn, r: Request, delivered: bool, p: nat)
    requires Dead(s, p)
    ensures Dead(Open(s, c, r, delivered), p) && WritersOn(Open(s, c, r, delivered).trace, p) == WritersOn(s.trace, p)
  {
    var t := Open(s, c, r, delivered);
    assert forall d :: d != c ==> PhaseOf(t, d) == PhaseOf(s, d);
  }

  lemma StepKeepsDead(s: State, step: Step, p: nat)
    requires Enabled(s, step) && Dead(s, p) && !Strays(s, step, p)
    ensures Dead(Next(s, step), p) && WritersOn(Next(s, step).trace, p) == WritersOn(s.trace, p)
  {
    match step
    case FirstMessage(c, received, delivered) => OpenKeepsDead(s, c, Parse(received), delivered, p);
    case SecondMessage(c, received) => FinishKeepsDead(s, c, Parse(received), p);
    case _ =>
      var t := Next(s, step);
      assert forall d :: d != step.conn ==> PhaseOf(t, d) == PhaseOf(s, d);
  }

  lemma {:induction false} DeadStays(s: State, run: Run, p: nat)
    requires Dead(s, p) && Possible(s, run) && NeverStrays(s, run, p)
    ensures Dead(Exec(s, run), p) && WritersOn(Exec(s, run).trace, p) == WritersOn(s.trace, p)
  {
    if run.Then? {
      DeadStays(s, run.before, p);
      StepKeepsDead(Exec(s, run.before), run.step, p);
    }
  }

  // ---------- serving the head of a page ----------

  lemma {:induction false} GrantedAppend(s: State, a: Run, b: Run)
    ensures WritesAsGranted(s, Append(a, b)) <==> WritesAsGranted(s, a) && WritesAsGranted(Exec(s, a), b)
  {
    if b.Then? {
      GrantedAppend(s, a, b.before);
      ExecAppend(s, a, b.before);
    }
  }

  /** No granted connection sends anything in the run. */
  predicate OnlyTalks(run: Run) {
    run.Begin? || (OnlyTalks(run.before) && !run.step.SecondMessage?)
  }

  lemma {:induction false} TalkIsAsGranted(s: State, run: Run)
    requires OnlyTalks(run)
    ensures WritesAsGranted(s, run)
  {
    if run.Then? {
      TalkIsAsGranted(s, run.before);
    }
  }

  /** A connection that left is closed, if it still is to be. */
  function Depart(s: State, c: Conn): Run {
    if PhaseOf(s, c).Finished? then Then(Begin, Close(c)) else Begin
  }

  lemma DepartLeaves(s: State, c: Conn)
    requires PhaseOf(s, c).Finished? || PhaseOf(s, c).Absent?
    ensures Possible(s, Depart(s, c)) && OnlyTalks(Depart(s, c))
    ensures var t := Exec(s, Depart(s, c));
            && t.pages == s.pages && t.trace == s.trace && PhaseOf(t, c).Absent?
            && forall d :: d != c ==> PhaseOf(t, d) == PhaseOf(s, d)
  {
    if PhaseOf(s, c).Finished? {
      RunOne(s, Close(c));
      LegalIsPossible(s, Depart(s, c));
    }
  }

  /** A connection that asks for a locked page queues at its tail. */
  lemma TakeQueues(s: State, c: Conn, p: nat)
    requires p < |s.pages| <= INT_MAX && s.pages[p].locked && PhaseOf(s, c).Absent?
    ensures Possible(s, Take(c, p)) && OnlyTalks(Take(c, p))
    ensures Exec(s, Take(c, p)) ==
              State(s.pages[p := s.pages[p].(queue := s.pages[p].queue + [c])],
                    s.phase[c := Connected][c := Waiting(p)], After(s.trace, Enqueued(c, p)))
  {
    LockMessageParses(p);
    var accept, ask := Accept(c), FirstMessage(c, LockMessage(p), true);
    assert Exec(s, Begin) == s && Possible(s, Begin);
    var t := Next(s, accept);
    assert Exec(s, Then(Begin, accept)) == t && Possible(s, Then(Begin, accept));
    assert Next(t, ask) == RequestPage(t, c, p, true);
  }

  /** The head of the page is not waiting for another page. */
  predicate HeadHere(s: State, p: nat)
    requires p < |s.pages| && s.pages[p].queue != []
  {
    var phase := PhaseOf(s, s.pages[p].queue[0]);
    phase.Waiting? ==> phase.page == p
  }

  /** How an identifier that does not wait comes to ask for a page: a thread that was granted another
      page sends nothing useful and leaves; whoever gets the identifier next, or has it, asks. */
  function Rejoin(s: State, c: Conn, p: nat): Run {
    match PhaseOf(s, c)
    case Connected => Then(Begin, FirstMessage(c, LockMessage(p), true))
    case Granted(_) => Append(Quit(c), Take(c, p))
    case _ => Append(Depart(s, c), Take(c, p))
  }

  /** The identifier queued once more at the tail of the page, and waits for it. */
  ghost predicate Requeued(s: State, t: State, c: Conn, p: nat)
    requires p < |s.pages|
  {
    && t.pages == s.pages[p := s.pages[p].(queue := s.pages[p].queue + [c])]
    && PhaseOf(t, c) == Waiting(p) && WritersOn(t.trace, p) == WritersOn(s.trace, p)
    && forall d :: d != c ==> PhaseOf(t, d) == PhaseOf(s, d)
  }

  lemma AskQueues(s: State, c: Conn, p: nat)
    requires p < |s.pages| <= INT_MAX && s.pages[p].locked && PhaseOf(s, c).Connected?
    ensures Possible(s, Rejoin(s, c, p)) && WritesAsGranted(s, Rejoin(s, c, p))
    ensures Requeued(s, Exec(s, Rejoin(s, c, p)), c, p)
  {
    LockMessageParses(p);
    var ask := FirstMessage(c, LockMessage(p), true);
    assert Next(s, ask) == RequestPage(s, c, p, true);
    RunOne(s, ask);
    LegalIsPossible(s, Then(Begin, ask));
    TalkIsAsGranted(s, Then(Begin, ask));
  }

  lemma LeaveThenTake(s: State, leave: Run, c: Conn, p: nat)
    requires Possible(s, leave) && WritesAsGranted(s, leave)
    requires p < |s.pages| <= INT_MAX && s.pages[p].locked
    requires var u := Exec(s, leave);
             && u.pages == s.pages && u.trace == s.trace && PhaseOf(u, c).Absent?
             && forall d :: d != c ==> PhaseOf(u, d) == PhaseOf(s, d)
    ensures var run := Append(leave, Take(c, p));
            Possible(s, run) && WritesAsGranted(s, run) && Requeued(s, Exec(s, run), c, p)
  {
    var u := Exec(s, leave);
    TakeQueues(u, c, p);
    ExecAppend(s, leave, Take(c, p));
    TalkIsAsGranted(u, Take(c, p));
    GrantedAppend(s, leave, Take(c, p));
  }

  lemma QuitIsAsGranted(s: State, c: Conn)
    requires PhaseOf(s, c).Granted?
    ensures WritesAsGranted(s, Quit(c))
  {
    assert Parse("") == MALFORMED;
    var stop := SecondMessage(c, "");
    assert Exec(s, Begin) == s && WritesAsGranted(s, Begin);
    assert StepAsGranted(s, stop);
    assert WritesAsGranted(s, Then(Begin, stop));
  }

  lemma RejoinQueues(s: State, c: Conn, p: nat)
    requires p < |s.pages| <= INT_MAX && s.pages[p].locked && AtHead(s, c, p) && !PhaseOf(s, c).Waiting?
    ensures Possible(s, Rejoin(s, c, p)) && WritesAsGranted(s, Rejoin(s, c, p))
    ensures Requeued(s, Exec(s, Rejoin(s, c, p)), c, p)
  {
    if PhaseOf(s, c).Connected? {
      AskQueues(s, c, p);
    } else if PhaseOf(s, c).Granted? {
      QuitLeaves(s, c);
      QuitIsAsGranted(s, c);
      LeaveThenTake(s, Quit(c), c, p);
    } else {
      DepartLeaves(s, c);
      TalkIsAsGranted(s, Depart(s, c));
      LeaveThenTake(s, Depart(s, c), c, p);
    }
  }

  lemma TurnIsAsGranted(s: State, p: nat, text: string)
    requires p < |s.pages| && s.pages[p].queue != [] && Writable(s, p)
    requires NulFree(text) && |WriteMessage(p, text)| < MAX_MSG
    ensures WritesAsGranted(s, Turn(s, p, text))
  {
    var h := s.pages[p].queue[0];
    ParseThree(2, p, text);
    assert WritesAsGranted(s, Begin) && Exec(s, Begin) == s;
    if PhaseOf(s, h).Waiting? {
      PollGrants(s, p);
      RunOne(s, Poll(h, true));
    }
  }

  /** The head wrote and left; at most its own identifier queued again behind the others. */
  ghost predicate Moved(s: State, t: State, p: nat)
    requires p < |s.pages| && s.pages[p].queue != []
  {
    var queue := s.pages[p].queue;
    && |t.pages| == |s.pages| && t.pages == s.pages[p := t.pages[p]]
    && (t.pages[p].queue == queue[1..] || t.pages[p].queue == queue[1..] + [queue[0]])
    && t.pages[p].locked == (t.pages[p].queue != [])
    && GrantFits(t.pages[p].bytes)
    && WritersOn(t.trace, p) == WritersOn(s.trace, p) + [queue[0]]
    && PhaseOf(t, queue[0]).Finished?
    && forall c :: c != queue[0] ==> PhaseOf(t, c) == PhaseOf(s, c)
  }

  lemma TurnMoves(s: State, p: nat)
    requires p < |s.pages| <= INT_MAX && s.pages[p].locked && s.pages[p].queue != [] && Writable(s, p)
    ensures Possible(s, Turn(s, p, "")) && WritesAsGranted(s, Turn(s, p, ""))
    ensures WasServed(s, Exec(s, Turn(s, p, "")), p, "") && Moved(s, Exec(s, Turn(s, p, "")), p)
  {
    ShortMessages(p, "");
    TurnServes(s, p, "");
    TurnIsAsGranted(s, p, "");
    LegalIsPossible(s, Turn(s, p, ""));
    GrantFitsExactly(Exec(s, Turn(s, p, "")).pages[p].bytes);
  }

  lemma MovedAfterRejoin(s: State, u: State, t: State, c: Conn, p: nat)
    requires p < |s.pages| && AtHead(s, c, p) && Requeued(s, u, c, p)
    requires WasServed(u, t, p, "") && Moved(u, t, p)
    ensures Moved(s, t, p)
  {
    assert u.pages[p].queue[0] == c;
    assert u.pages[p].queue[1..] == s.pages[p].queue[1..] + [c];
  }

  /** If the head of a page that is alive does not wait for another page, its identifier can write the
      page, and the others move up by one. */
  lemma HeadIsServed(s: State, p: nat) returns (run: Run)
    requires Alive(s, p) && |s.pages| <= INT_MAX && s.pages[p].locked && s.pages[p].queue != [] && HeadHere(s, p)
    ensures Possible(s, run) && WritesAsGranted(s, run) && Moved(s, Exec(s, run), p)
  {
    if Writable(s, p) {
      TurnMoves(s, p);
      run := Turn(s, p, "");
    } else {
      var h := s.pages[p].queue[0];
      RejoinQueues(s, h, p);
      var rejoin := Rejoin(s, h, p);
      var u := Exec(s, rejoin);
      TurnMoves(u, p);
      run := Append(rejoin, Turn(u, p, ""));
      ExecAppend(s, rejoin, Turn(u, p, ""));
      GrantedAppend(s, rejoin, Turn(u, p, ""));
      MovedAfterRejoin(s, u, Exec(s, run), h, p);
    }
  }

  lemma StrangerTakes(s: State, c: Conn, p: nat)
    requires FreeAndFits(s, p) && |s.pages| <= INT_MAX && PhaseOf(s, c).Absent?
    ensures Possible(s, Take(c, p)) && WritesAsGranted(s, Take(c, p))
    ensures var t := Exec(s, Take(c, p));
            && |t.pages| == |s.pages| && t.pages[p].locked && t.pages[p].queue == [c] && Writable(t, p)
            && WritersOn(t.trace, p) == WritersOn(s.trace, p)
  {
    TakeGrants(s, c, p);
    TalkIsAsGranted(s, Take(c, p));
  }

  /** Somebody new is granted a free page that fits, and writes it. */
  lemma StrangerIsServed(s: State, p: nat) returns (run: Run)
    requires FreeAndFits(s, p) && |s.pages| <= INT_MAX
    ensures Possible(s, run) && WritesAsGranted(s, run)
    ensures WritersOn(Exec(s, run).trace, p) != WritersOn(s.trace, p)
  {
    var c := StrangerExists(s);
    var take := Take(c, p);
    StrangerTakes(s, c, p);
    var t := Exec(s, take);
    TurnMoves(t, p);
    run := Append(take, Turn(t, p, ""));
    ExecAppend(s, take, Turn(t, p, ""));
    GrantedAppend(s, take, Turn(t, p, ""));
  }

  // ---------- exactly the pages that can be written again ----------

  ghost predicate CanBeWrittenAsGranted(s: State, p: nat) {
    exists run ::
      Possible(s, run) && NeverStrays(s, run, p) && WritersOn(Exec(s, run).trace, p) != WritersOn(s.trace, p)
  }

  ghost predicate CanEverBeWritten(s: State, p: nat) {
    exists run :: Possible(s, run) && WritersOn(Exec(s, run).trace, p) != WritersOn(s.trace, p)
  }

  /** In every state a run from start-up can reach, identifier reuse included: unless its head waits for
      another page, a page can be written in some future, by somebody who was granted it, exactly when
      its grant reply fits. A head that left does not matter: whoever gets its identifier next and asks
      for the page takes over. */
  lemma AliveExactly(s: State, p: nat)
    requires HeadInv(s) && p < |s.pages| <= INT_MAX && (s.pages[p].queue != [] ==> HeadHere(s, p))
    ensures Alive(s, p) <==> CanBeWrittenAsGranted(s, p)
    ensures UnfitFree(s) ==> (GrantFits(s.pages[p].bytes) <==> CanBeWrittenAsGranted(s, p))
  {
    if !Alive(s, p) {
      DeadExactly(s, p);
      forall run | Possible(s, run) && NeverStrays(s, run, p)
        ensures WritersOn(Exec(s, run).trace, p) == WritersOn(s.trace, p)
      {
        DeadStays(s, run, p);
      }
    } else {
      var run;
      if s.pages[p].queue == [] {
        run := StrangerIsServed(s, p);
      } else {
        run := HeadIsServed(s, p);
      }
      GrantedWritesNeverStray(s, run, p);
    }
  }
}
