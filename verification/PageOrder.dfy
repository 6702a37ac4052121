/** What whole runs of the shared memory server promise about order and content. */
module PageOrder {
  import opened Text
  import opened Messages
  import opened PageModel
  import opened PageInvariant

  // ---------- no lost updates ----------

  /** Each write was made by somebody who had been told exactly what the page held. */
  ghost predicate Chain(p: nat, initial: string, log: seq<Write>) {
    forall k :: 0 <= k < |log| ==> log[k].seen == Some(Grant(p, Current(initial, log[..k])))
  }

  function Current(initial: string, log: seq<Write>): string {
    if log == [] then initial else log[|log| - 1].stored
  }

  /** A page holds what the last write stored. */
  ghost predicate HoldsLastWrite(s: State, p: nat, initial: string) {
    p < |s.pages| && CString(s.pages[p].bytes) == Current(initial, WritesOn(s.trace, p))
  }

  /** A granted connection writes, with success, a page other than the one it was granted: an older
      connection with its identifier heads the queue of that page. */
  predicate WriteStrays(s: State, c: Conn, r: Request, q: nat) {
    && PhaseOf(s, c).Granted? && PhaseOf(s, c).page != q
    && r.command == 2 && r.content.Some? && r.page == q && AtHead(s, c, q)
  }

  /** A step that strays onto page q. */
  predicate Strays(s: State, step: Step, q: nat) {
    step.SecondMessage? && WriteStrays(s, step.conn, Parse(step.received), q)
  }

  predicate NeverStrays(s: State, run: Run, q: nat) {
    run.Begin? || (NeverStrays(s, run.before, q) && !Strays(Exec(s, run.before), run.step, q))
  }

  lemma ChainSnoc(p: nat, initial: string, log: seq<Write>, w: Write)
    ensures Chain(p, initial, log + [w]) <==>
              Chain(p, initial, log) && w.seen == Some(Grant(p, Current(initial, log)))
  {
    var longer := log + [w];
    assert forall k :: 0 <= k <= |log| ==> longer[..k] == log[..k];
    assert log[..|log|] == log;
    assert forall k :: 0 <= k < |log| ==> longer[k] == log[k];
    assert longer[|log|] == w;
  }

  lemma FinishExtendsLog(s: State, c: Conn, r: Request, p: nat, initial: string)
    requires HeadInv(s) && PhaseOf(s, c).Granted? && HoldsLastWrite(s, p, initial)
    ensures var t := Finish(s, c, r);
            && HoldsLastWrite(t, p, initial)
            && (Chain(p, initial, WritesOn(t.trace, p)) <==>
                  Chain(p, initial, WritesOn(s.trace, p)) && !WriteStrays(s, c, r, p))
  {
    if r.command == 2 && r.content.Some? && AtHead(s, c, r.page) && r.page == p {
      WriteExtendsLog(s, c, p, r.content.value, initial);
    }
  }

  lemma WriteExtendsLog(s: State, c: Conn, p: nat, content: string, initial: string)
    requires GrantInv(s) && PhaseOf(s, c).Granted? && HoldsLastWrite(s, p, initial) && AtHead(s, c, p)
    ensures var t := WritePage(s, c, p, Some(content));
            && HoldsLastWrite(t, p, initial)
            && (Chain(p, initial, WritesOn(t.trace, p)) <==>
                  Chain(p, initial, WritesOn(s.trace, p)) && PhaseOf(s, c).page == p)
  {
    var bytes := Overwrite(|s.pages[p].bytes|, CString(content));
    ChainSnoc(p, initial, WritesOn(s.trace, p), Write(c, LastGrant(s.trace, c), CString(bytes)));
  }

  /** Only the message of a granted connection can change what a page holds. */
  lemma OpenIsQuiet(s: State, c: Conn, r: Request, delivered: bool, p: nat)
    requires p < |s.pages|
    ensures var t := Open(s, c, r, delivered);
            && |t.pages| == |s.pages| && t.pages[p].bytes == s.pages[p].bytes
            && WritesOn(t.trace, p) == WritesOn(s.trace, p) && WritersOn(t.trace, p) == WritersOn(s.trace, p)
  {
  }

  lemma StepExtendsLog(s: State, step: Step, p: nat, initial: string)
    requires HeadInv(s) && Enabled(s, step) && HoldsLastWrite(s, p, initial)
    ensures var t := Next(s, step);
            && HoldsLastWrite(t, p, initial)
            && (Chain(p, initial, WritesOn(t.trace, p)) <==>
                  Chain(p, initial, WritesOn(s.trace, p)) && !Strays(s, step, p))
  {
    match step
    case FirstMessage(c, received, delivered) => OpenIsQuiet(s, c, Parse(received), delivered, p);
    case SecondMessage(c, received) => FinishExtendsLog(s, c, Parse(received), p, initial);
    case _ =>
  }

  /** Lost updates exactly: in every run from start-up, identifier reuse included, a page holds what
      its last write stored, and its writes form a chain in which each author had been sent what the
      page held just before its own write exactly when no write strayed onto the page. */
  lemma {:induction false} ChainExactly(s: State, run: Run, p: nat)
    requires Initial(s) && Possible(s, run) && p < |s.pages|
    ensures HoldsLastWrite(Exec(s, run), p, CString(s.pages[p].bytes))
    ensures Chain(p, CString(s.pages[p].bytes), WritesOn(Exec(s, run).trace, p)) <==> NeverStrays(s, run, p)
  {
    if run.Then? {
      ChainExactly(s, run.before, p);
      InitialInv(s);
      RunKeepsHeads(s, run.before);
      StepExtendsLog(Exec(s, run.before), run.step, p, CString(s.pages[p].bytes));
    }
  }

  /** No granted connection of the run asks to write a page other than the one it was granted. */
  predicate WritesAsGranted(s: State, run: Run) {
    run.Begin? || (WritesAsGranted(s, run.before) && StepAsGranted(Exec(s, run.before), run.step))
  }

  predicate StepAsGranted(s: State, step: Step) {
    step.SecondMessage? && PhaseOf(s, step.conn).Granted? && Parse(step.received).command == 2 ==>
      Parse(step.received).page == PhaseOf(s, step.conn).page
  }

  lemma {:induction false} GrantedWritesNeverStray(s: State, run: Run, q: nat)
    requires WritesAsGranted(s, run)
    ensures NeverStrays(s, run, q)
  {
    if run.Then? {
      GrantedWritesNeverStray(s, run.before, q);
    }
  }

  /** Clients that write the page they were granted never lose an update, even where connection
      identifiers are reused too early. */
  lemma GrantedWritesAreSafe(s: State, run: Run, p: nat)
    requires Initial(s) && Possible(s, run) && p < |s.pages| && WritesAsGranted(s, run)
    ensures Chain(p, CString(s.pages[p].bytes), WritesOn(Exec(s, run).trace, p))
  {
    GrantedWritesNeverStray(s, run, p);
    ChainExactly(s, run, p);
  }

  lemma StayOnPage(s: State, step: Step, q: nat)
    requires Inv(s)
    ensures !Strays(s, step, q)
  {
    if step.SecondMessage? && PhaseOf(s, step.conn).Granted? && PhaseOf(s, step.conn).page != q {
      NotAtOtherHead(s, step.conn, q);
    }
  }

  lemma {:induction false} LegalNeverStrays(s: State, run: Run, q: nat)
    requires Inv(s) && Legal(s, run)
    ensures Possible(s, run) && NeverStrays(s, run, q)
  {
    if run.Then? {
      LegalNeverStrays(s, run.before, q);
      RunKeeps(s, run.before);
      StayOnPage(Exec(s, run.before), run.step, q);
    }
  }

  /** No lost updates, whatever the clients send, as long as no identifier still queued is reused. */
  lemma NoLostUpdates(s: State, run: Run, p: nat)
    requires Initial(s) && Legal(s, run) && p < |s.pages|
    ensures HoldsLastWrite(Exec(s, run), p, CString(s.pages[p].bytes))
    ensures Chain(p, CString(s.pages[p].bytes), WritesOn(Exec(s, run).trace, p))
  {
    InitialInv(s);
    LegalNeverStrays(s, run, p);
    ChainExactly(s, run, p);
  }

  /** A write aimed at a page other than the granted one changes no page, lock or queue. */
  lemma OtherPageRefused(s: State, c: Conn, received: string)
    requires Inv(s) && Enabled(s, SecondMessage(c, received))
    requires Parse(received).page != PhaseOf(s, c).page
    ensures Next(s, SecondMessage(c, received)) == Leave(s, c)
  {
    RefusedElsewhere(s, c, Parse(received));
  }

  lemma RefusedElsewhere(s: State, c: Conn, r: Request)
    requires Inv(s) && PhaseOf(s, c).Granted? && r.page != PhaseOf(s, c).page
    ensures Finish(s, c, r) == Leave(s, c)
  {
    NotAtOtherHead(s, c, r.page);
  }

  lemma NotAtOtherHead(s: State, c: Conn, q: int)
    requires QueueInv(s) && OnPage(PhaseOf(s, c)) && q != PhaseOf(s, c).page
    ensures !AtHead(s, c, q)
  {
    if 0 <= q < |s.pages| && s.pages[q].queue != [] {
      assert s.pages[q].queue[0] in s.pages[q].queue;
    }
  }

  /** What a page reads as after a write: the content cut to the page size. */
  lemma OverwriteReads(size: nat, content: string)
    requires NulFree(content)
    ensures CString(Overwrite(size, content)) == Cut(content, size)
  {
    CStringOf(Cut(content, size), Zeros(size - |Cut(content, size)|));
  }

  lemma TypedIsStored(s: State, c: Conn, typed: string) returns (step: Step)
    requires GrantInv(s) && PhaseOf(s, c).Granted?
    requires |Decimal(2) + " " + (Decimal(PhaseOf(s, c).page) + " ") + CString(typed)| < MAX_MSG
    ensures var sent := Encode(2, Some(Decimal(PhaseOf(s, c).page) + " " + typed));
            sent.Some? && step == SecondMessage(c, sent.value)
    ensures Enabled(s, step)
    ensures var p := PhaseOf(s, c).page;
            Next(s, step).pages[p].bytes == Overwrite(|s.pages[p].bytes|, CString(typed))
  {
    var p := PhaseOf(s, c).page;
    WriteRoundTrip(p, typed);
    CStringOfFree(CString(typed));
    step := SecondMessage(c, Encode(2, Some(Decimal(p) + " " + typed)).value);
  }

  lemma StepQuiet(s: State, step: Step, p: nat)
    requires Enabled(s, step) && p < |s.pages|
    ensures var t := Next(s, step);
            && |t.pages| == |s.pages|
            && |WritersOn(t.trace, p)| >= |WritersOn(s.trace, p)|
            && (WritersOn(t.trace, p) == WritersOn(s.trace, p) ==> t.pages[p].bytes == s.pages[p].bytes)
  {
    match step
    case FirstMessage(c, received, delivered) => OpenIsQuiet(s, c, Parse(received), delivered, p);
    case _ =>
  }

  /** Without a new writer a page keeps its bytes. */
  lemma {:induction false} QuietRun(s: State, run: Run, p: nat)
    requires Possible(s, run) && p < |s.pages|
    ensures var t := Exec(s, run);
            && |t.pages| == |s.pages|
            && |WritersOn(t.trace, p)| >= |WritersOn(s.trace, p)|
            && (|WritersOn(t.trace, p)| == |WritersOn(s.trace, p)| ==> t.pages[p].bytes == s.pages[p].bytes)
  {
    if run.Then? {
      QuietRun(s, run.before, p);
      StepQuiet(Exec(s, run.before), run.step, p);
    }
  }

  /** The server told a connection that a page holds this text, and its reply reads as this text. */
  ghost predicate WasShown(s: State, d: Conn, p: nat, text: string) {
    && p < |s.pages|
    && LastGrant(s.trace, d) == Some(Grant(p, text))
    && GrantFits(s.pages[p].bytes)
    && ParseReply(Encode(0, Some(s.pages[p].bytes)).value) == Reply(0, if text == [] then None else Some(text))
  }

  lemma StoredIsShown(s: State, d: Conn, p: nat, size: nat, content: string)
    requires GrantInv(s) && PhaseOf(s, d) == Granted(p) && NulFree(content) && |content| <= MAX_MSG - 4
    requires p < |s.pages| && s.pages[p].bytes == Overwrite(size, content)
    ensures WasShown(s, d, p, Cut(content, size))
  {
    OverwriteReads(size, content);
    ReplyRoundTrip(0, Overwrite(size, content));
  }

  lemma KeptIsShown(t: State, run: Run, d: Conn, p: nat, size: nat, content: string)
    requires HeadInv(t) && Possible(t, run) && PhaseOf(Exec(t, run), d) == Granted(p)
    requires p < |t.pages| && t.pages[p].bytes == Overwrite(size, content)
    requires NulFree(content) && |content| <= MAX_MSG - 4
    requires |WritersOn(Exec(t, run).trace, p)| == |WritersOn(t.trace, p)|
    ensures WasShown(Exec(t, run), d, p, Cut(content, size))
  {
    RunKeepsHeads(t, run);
    QuietRun(t, run, p);
    StoredIsShown(Exec(t, run), d, p, size, content);
  }

  /** From keyboard to screen: what the holder of a page types is, cut to the page size, what the
      server sends to whoever is granted the page before it is written again, and what that client
      then reads in its reply. */
  lemma TypedReachesNextClient(s: State, c: Conn, typed: string, run: Run, d: Conn)
    requires HeadInv(s) && PhaseOf(s, c).Granted?
    requires |Decimal(2) + " " + (Decimal(PhaseOf(s, c).page) + " ") + CString(typed)| < MAX_MSG
    ensures var p := PhaseOf(s, c).page;
            var sent := Encode(2, Some(Decimal(p) + " " + typed));
            && sent.Some? && Enabled(s, SecondMessage(c, sent.value))
            && var t := Next(s, SecondMessage(c, sent.value));
            var text := Cut(CString(typed), |s.pages[p].bytes|);
            Possible(t, run) && PhaseOf(Exec(t, run), d) == Granted(p)
              && |WritersOn(Exec(t, run).trace, p)| == |WritersOn(t.trace, p)| ==>
              WasShown(Exec(t, run), d, p, text)
  {
    var p := PhaseOf(s, c).page;
    var step := TypedIsStored(s, c, typed);
    var t := Next(s, step);
    if Possible(t, run) && PhaseOf(Exec(t, run), d) == Granted(p)
        && |WritersOn(Exec(t, run).trace, p)| == |WritersOn(t.trace, p)| {
      StepKeepsHeads(s, step);
      KeptIsShown(t, run, d, p, |s.pages[p].bytes|, CString(typed));
    }
  }

  // ---------- first come, first served ----------

  /** The logs of a page only grow. */
  ghost predicate Extends(s: State, t: State, p: nat) {
    && EnqueuedOn(s.trace, p) <= EnqueuedOn(t.trace, p)
    && WritersOn(s.trace, p) <= WritersOn(t.trace, p)
    && |t.pages| == |s.pages|
  }

  lemma OpenExtends(s: State, c: Conn, r: Request, delivered: bool, p: nat)
    requires FifoInv(s)
    ensures Extends(s, Open(s, c, r, delivered), p) && FifoInv(Open(s, c, r, delivered))
  {
    if r.command == 1 && 0 <= r.page < |s.pages| {
      RequestKeepsOrder(s, c, r.page, delivered);
    }
  }

  lemma FinishExtends(s: State, c: Conn, r: Request, p: nat)
    requires FifoInv(s)
    ensures Extends(s, Finish(s, c, r), p) && FifoInv(Finish(s, c, r))
  {
    if r.command == 2 {
      WriteKeepsOrder(s, c, r.page, r.content);
    }
  }

  lemma StepExtends(s: State, step: Step, p: nat)
    requires Enabled(s, step) && FifoInv(s)
    ensures Extends(s, Next(s, step), p) && FifoInv(Next(s, step))
  {
    match step
    case FirstMessage(c, received, delivered) => OpenExtends(s, c, Parse(received), delivered, p);
    case SecondMessage(c, received) => FinishExtends(s, c, Parse(received), p);
    case _ =>
  }

  lemma {:induction false} RunExtends(s: State, run: Run, p: nat)
    requires Possible(s, run) && FifoInv(s)
    ensures Extends(s, Exec(s, run), p) && FifoInv(Exec(s, run))
  {
    if run.Then? {
      RunExtends(s, run.before, p);
      StepExtends(Exec(s, run.before), run.step, p);
    }
  }

  lemma {:induction false} LegalIsPossible(s: State, run: Run)
    requires Legal(s, run)
    ensures Possible(s, run)
  {
    if run.Then? {
      LegalIsPossible(s, run.before);
    }
  }

  /** The writers between two states of a run. */
  function Served(s: State, t: State, p: nat): seq<Conn>
    requires WritersOn(s.trace, p) <= WritersOn(t.trace, p)
  {
    WritersOn(t.trace, p)[|WritersOn(s.trace, p)|..]
  }

  /** The connections queued between two states of a run. */
  function Arrived(s: State, t: State, p: nat): seq<Conn>
    requires EnqueuedOn(s.trace, p) <= EnqueuedOn(t.trace, p)
  {
    EnqueuedOn(t.trace, p)[|EnqueuedOn(s.trace, p)|..]
  }

  /** No overtaking: over any run the writers, followed by whoever still waits, are the old
      queue followed by the newcomers. This holds even when identifiers are reused. */
  lemma NoOvertaking(s: State, run: Run, p: nat)
    requires FifoInv(s) && Possible(s, run) && p < |s.pages|
    ensures var t := Exec(s, run);
            && Extends(s, t, p)
            && Served(s, t, p) + t.pages[p].queue == s.pages[p].queue + Arrived(s, t, p)
  {
    RunExtends(s, run, p);
    var t := Exec(s, run);
    QueueAlgebra(EnqueuedOn(s.trace, p), WritersOn(s.trace, p), s.pages[p].queue,
                 EnqueuedOn(t.trace, p), WritersOn(t.trace, p), t.pages[p].queue);
  }

  lemma QueueAlgebra(e: seq<Conn>, w: seq<Conn>, q: seq<Conn>, e': seq<Conn>, w': seq<Conn>, q': seq<Conn>)
    requires e == w + q && e' == w' + q' && e <= e' && w <= w'
    ensures w'[|w|..] + q' == q + e'[|e|..]
  {
    assert w'[|w|..] + q' == e'[|w|..];
    assert q + e'[|e|..] == e'[|w|..] by {
      assert e' == e + e'[|e|..];
      assert e' == w + (q + e'[|e|..]);
    }
  }

  /** Where the client that had k others ahead stands: k minus the writes made since, so it holds
      the page exactly when those writes number k. */
  ghost predicate StandsBehind(s: State, t: State, p: nat, k: nat)
    requires Extends(s, t, p) && p < |s.pages| && k < |s.pages[p].queue|
  {
    var c, served := s.pages[p].queue[k], |Served(s, t, p)|;
    && served <= k && k - served < |t.pages[p].queue|
    && t.pages[p].queue[k - served] == c
    && (PhaseOf(t, c) == Granted(p) ==> served == k)
    && (AtHead(t, c, p) <==> served == k)
  }

  lemma WaitBetween(s: State, t: State, p: nat, k: nat)
    requires GrantInv(t) && Extends(s, t, p) && p < |s.pages| && k < |s.pages[p].queue|
    requires s.pages[p].queue[k] !in s.pages[p].queue[..k]
    requires Served(s, t, p) + t.pages[p].queue == s.pages[p].queue + Arrived(s, t, p)
    requires s.pages[p].queue[k] !in Served(s, t, p)
    ensures StandsBehind(s, t, p, k)
  {
    WaitAlgebra(Served(s, t, p), t.pages[p].queue, s.pages[p].queue, Arrived(s, t, p), k);
    assert forall i :: 0 <= i < k ==> s.pages[p].queue[i] in s.pages[p].queue[..k];
    assert PhaseOf(t, s.pages[p].queue[k]) == Granted(p) ==> AtHead(t, s.pages[p].queue[k], p);
  }

  /** A waiter with k clients ahead that has not written yet is granted the page after exactly k
      writes; its position drops by one at each write and never otherwise. Identifiers may be reused
      before and after; only the first node of an identifier in the queue is spoken of. */
  lemma ExactWait(s: State, run: Run, p: nat, k: nat)
    requires FifoInv(s) && HeadInv(s) && Possible(s, run) && p < |s.pages| && k < |s.pages[p].queue|
    requires s.pages[p].queue[k] !in s.pages[p].queue[..k]
    ensures Extends(s, Exec(s, run), p)
    ensures s.pages[p].queue[k] !in Served(s, Exec(s, run), p) ==> StandsBehind(s, Exec(s, run), p, k)
  {
    NoOvertaking(s, run, p);
    RunKeepsHeads(s, run);
    var t := Exec(s, run);
    if s.pages[p].queue[k] !in Served(s, t, p) {
      WaitBetween(s, t, p, k);
    }
  }

  lemma WaitAlgebra(v: seq<Conn>, q': seq<Conn>, q: seq<Conn>, e: seq<Conn>, k: nat)
    requires v + q' == q + e && k < |q| && q[k] !in v
    ensures |v| <= k && k - |v| < |q'| && q'[k - |v|] == q[k] && q'[0] == q[|v|]
  {
    assert |v| <= k ==> (v + q')[|v|] == (q + e)[|v|];
    assert (v + q')[k] == (q + e)[k] == q[k];
    assert forall i :: 0 <= i < |v| ==> v[i] in v;
  }
}
