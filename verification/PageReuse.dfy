/** What a connection identifier reused while an old node for it is still queued can do to the
    shared memory server. */
module PageReuse {
  import opened Text
  import opened Messages
  import opened PageModel
  import opened PageInvariant
  import opened PageOrder
  import opened PageProgress

  /** Accepting a connection keeps PageInvariant.Inv, where a queued identifier belongs to a thread of
      that page or to none, exactly when no older node with the same identifier is still queued. The
      chain of writes needs less: its condition is in PageOrder.ChainExactly. */
  lemma AcceptExact(s: State, c: Conn)
    requires Inv(s) && PhaseOf(s, c).Absent?
    ensures Inv(Next(s, Accept(c))) <==> NotQueued(s, c)
  {
    var t := Next(s, Accept(c));
    if NotQueued(s, c) {
      AcceptKeeps(s, c);
    } else {
      var p :| 0 <= p < |s.pages| && c in s.pages[p].queue;
      assert 0 <= p < |t.pages| && c in t.pages[p].queue && !MayBeQueued(PhaseOf(t, c), p);
    }
  }

  /** A connection is accepted and asks for a page. */
  function Take(c: Conn, p: nat): Run {
    Then(Then(Begin, Accept(c)), FirstMessage(c, LockMessage(p), true))
  }

  /** A granted connection sends nothing useful and is closed; its node stays at the head. */
  function Quit(c: Conn): Run {
    Then(Then(Begin, SecondMessage(c, "")), Close(c))
  }

  function Stray(c: Conn, q: nat, text: string): Run {
    Then(Begin, SecondMessage(c, WriteMessage(q, text)))
  }

  /** The identifier takes page q and quits, is reused for page p, and then writes page q. */
  function Reuse(c: Conn, p: nat, q: nat, text: string): Run {
    Append(Append(Take(c, q), Quit(c)), Append(Take(c, p), Stray(c, q, text)))
  }

  predicate FreeAndFits(s: State, p: nat) {
    p < |s.pages| && !s.pages[p].locked && s.pages[p].queue == [] && GrantFits(s.pages[p].bytes)
  }

  lemma TakeGrants(s: State, c: Conn, p: nat)
    requires FreeAndFits(s, p) && |s.pages| <= INT_MAX && PhaseOf(s, c).Absent?
    ensures Possible(s, Take(c, p))
    ensures Exec(s, Take(c, p)) ==
              State(s.pages[p := Page(s.pages[p].bytes, true, [c])], s.phase[c := Connected][c := Granted(p)],
                    After(After(s.trace, Enqueued(c, p)), GrantSent(c, p, CString(s.pages[p].bytes))))
  {
    LockMessageParses(p);
    var accept, ask := Accept(c), FirstMessage(c, LockMessage(p), true);
    assert Exec(s, Begin) == s && Possible(s, Begin);
    var t := Next(s, accept);
    assert Exec(s, Then(Begin, accept)) == t && Possible(s, Then(Begin, accept));
    assert Next(t, ask) == RequestPage(t, c, p, true);
    assert s.pages[p].queue + [c] == [c];
  }

  lemma QuitLeaves(s: State, c: Conn)
    requires PhaseOf(s, c).Granted?
    ensures Possible(s, Quit(c))
    ensures Exec(s, Quit(c)) == s.(phase := s.phase[c := Finished][c := Absent])
  {
    assert Parse("") == MALFORMED;
    var stop := SecondMessage(c, "");
    assert Exec(s, Begin) == s && Possible(s, Begin);
    assert Next(s, stop) == Leave(s, c);
    assert Exec(s, Then(Begin, stop)) == Leave(s, c) && Possible(s, Then(Begin, stop));
  }

  lemma StrayWrites(s: State, c: Conn, q: nat, text: string) returns (w: Write)
    requires q < INT_MAX && AtHead(s, c, q) && PhaseOf(s, c).Granted? && |text| < 100 && NulFree(text)
    ensures Possible(s, Stray(c, q, text))
    ensures WritesOn(Exec(s, Stray(c, q, text)).trace, q) == WritesOn(s.trace, q) + [w]
    ensures w.seen == LastGrant(s.trace, c)
  {
    ShortMessages(q, text);
    ParseThree(2, q, text);
    var step := SecondMessage(c, WriteMessage(q, text));
    assert Exec(s, Begin) == s && Possible(s, Begin);
    assert Next(s, step) == WritePage(s, c, q, Some(text));
    var log := WritesOn(Next(s, step).trace, q);
    w := log[|log| - 1];
  }

  lemma SecondTake(s: State, c: Conn, p: nat, q: nat, text: string) returns (w: Write)
    requires FreeAndFits(s, p) && |s.pages| <= INT_MAX && PhaseOf(s, c).Absent? && p != q
    requires AtHead(s, c, q) && |text| < 100 && NulFree(text)
    ensures Possible(s, Append(Take(c, p), Stray(c, q, text)))
    ensures !Legal(s, Append(Take(c, p), Stray(c, q, text)))
    ensures WritesOn(Exec(s, Append(Take(c, p), Stray(c, q, text))).trace, q) == WritesOn(s.trace, q) + [w]
    ensures w.seen == Some(Grant(p, CString(s.pages[p].bytes)))
  {
    TakeGrants(s, c, p);
    w := StrayWrites(Exec(s, Take(c, p)), c, q, text);
    ExecAppend(s, Take(c, p), Stray(c, q, text));
    assert s.pages[q].queue[0] in s.pages[q].queue;
    assert !LegalStep(s, Accept(c)) && Exec(s, Begin) == s;
    assert !Legal(s, Then(Begin, Accept(c)));
  }

  lemma NotAChain(log: seq<Write>, p: nat, q: nat, content: string, initial: string)
    requires p != q && |log| == 1 && log[0].seen == Some(Grant(p, content))
    ensures !Chain(q, initial, log)
  {
  }

  lemma TakeAndQuit(s: State, c: Conn, q: nat)
    requires FreeAndFits(s, q) && |s.pages| <= INT_MAX && PhaseOf(s, c).Absent?
    ensures Possible(s, Append(Take(c, q), Quit(c)))
    ensures var left := Exec(s, Append(Take(c, q), Quit(c)));
            && left.pages == s.pages[q := Page(s.pages[q].bytes, true, [c])]
            && PhaseOf(left, c).Absent? && WritesOn(left.trace, q) == WritesOn(s.trace, q)
            && forall d :: d != c ==> PhaseOf(left, d) == PhaseOf(s, d)
  {
    TakeGrants(s, c, q);
    QuitLeaves(Exec(s, Take(c, q)), c);
    ExecAppend(s, Take(c, q), Quit(c));
  }

  /** Wherever two pages are free, reusing an identifier lets a write land on a page its author was
      never shown. */
  lemma ReuseBreaksTheChain(s: State, c: Conn, p: nat, q: nat, text: string)
    requires Initial(s) && |s.pages| <= INT_MAX && FreeAndFits(s, p) && FreeAndFits(s, q) && p != q
    requires |text| < 100 && NulFree(text)
    ensures Possible(s, Reuse(c, p, q, text)) && !Legal(s, Reuse(c, p, q, text))
    ensures !Chain(q, CString(s.pages[q].bytes), WritesOn(Exec(s, Reuse(c, p, q, text)).trace, q))
  {
    TakeAndQuit(s, c, q);
    var first, second := Append(Take(c, q), Quit(c)), Append(Take(c, p), Stray(c, q, text));
    var left := Exec(s, first);
    var w := SecondTake(left, c, p, q, text);
    ExecAppend(s, first, second);
    assert WritesOn(Exec(left, second).trace, q) == [w];
    NotAChain([w], p, q, CString(s.pages[p].bytes), CString(s.pages[q].bytes));
  }
}
