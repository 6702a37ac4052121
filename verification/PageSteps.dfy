/** What each step of the shared memory server changes, and when: told by messages, queues, locks,
    bytes and events. */
module PageSteps {
  import opened Text
  import opened Messages
  import opened PageModel

  /** No page and no event differs, and of the threads only this one. */
  ghost predicate OnlyPhase(s: State, t: State, c: Conn, phase: Phase) {
    t.pages == s.pages && t.trace == s.trace && PhaseOf(t, c) == phase && OthersStay(s, t, c)
  }

  ghost predicate OthersStay(s: State, t: State, c: Conn) {
    forall d :: d != c ==> PhaseOf(t, d) == PhaseOf(s, d)
  }

  /** The connection queued at the tail of the page, whose bytes stay; no other page differs. */
  ghost predicate Queues(s: State, t: State, c: Conn, p: nat, locked: bool)
    requires p < |s.pages|
  {
    && |t.pages| == |s.pages|
    && (forall q :: 0 <= q < |s.pages| && q != p ==> t.pages[q] == s.pages[q])
    && t.pages[p].bytes == s.pages[p].bytes
    && t.pages[p].queue == s.pages[p].queue + [c]
    && t.pages[p].locked == locked
    && OthersStay(s, t, c)
  }

  /** Only a blocking read of an existing page that is delivered its reply touches anything: it waits for
      a locked page, and is granted a free one whose content is at most 509 bytes long. */
  lemma FirstMessageExactly(s: State, c: Conn, received: string, delivered: bool)
    requires PhaseOf(s, c).Connected? && |received| <= 511
    ensures Enabled(s, FirstMessage(c, received, delivered))
    ensures var t := Next(s, FirstMessage(c, received, delivered));
            var r := Parse(received);
            if r.command != 1 || r.page < 0 || r.page >= |s.pages| || !delivered then OnlyPhase(s, t, c, Finished)
            else if s.pages[r.page].locked then
              && Queues(s, t, c, r.page, true) && PhaseOf(t, c) == Waiting(r.page)
              && t.trace == After(s.trace, Enqueued(c, r.page))
            else if |CString(s.pages[r.page].bytes)| > 509 then OnlyPhase(s, t, c, Finished)
            else
              && Queues(s, t, c, r.page, true) && PhaseOf(t, c) == Granted(r.page)
              && t.trace == After(After(s.trace, Enqueued(c, r.page)),
                                  GrantSent(c, r.page, CString(s.pages[r.page].bytes)))
  {
    OpenExactly(s, c, Parse(received), delivered);
  }

  lemma OpenExactly(s: State, c: Conn, r: Request, delivered: bool)
    ensures var t := Open(s, c, r, delivered);
            if r.command != 1 || r.page < 0 || r.page >= |s.pages| || !delivered then OnlyPhase(s, t, c, Finished)
            else if s.pages[r.page].locked then
              && Queues(s, t, c, r.page, true) && PhaseOf(t, c) == Waiting(r.page)
              && t.trace == After(s.trace, Enqueued(c, r.page))
            else if |CString(s.pages[r.page].bytes)| > 509 then OnlyPhase(s, t, c, Finished)
            else
              && Queues(s, t, c, r.page, true) && PhaseOf(t, c) == Granted(r.page)
              && t.trace == After(After(s.trace, Enqueued(c, r.page)),
                                  GrantSent(c, r.page, CString(s.pages[r.page].bytes)))
  {
    if 0 <= r.page < |s.pages| {
      EncodeExactly(0, Some(s.pages[r.page].bytes));
    }
  }

  /** A plain read and a write that comes first change nothing, whatever page they name. */
  lemma OtherRequestsAreQuiet(s: State, c: Conn, p: int, typed: string, delivered: bool)
    requires PhaseOf(s, c).Connected?
    ensures var read := Encode(0, Some(Decimal(p)));
            read.Some? ==>
              && Enabled(s, FirstMessage(c, read.value, delivered))
              && OnlyPhase(s, Next(s, FirstMessage(c, read.value, delivered)), c, Finished)
    ensures var write := Encode(2, Some(Decimal(p) + " " + typed));
            write.Some? ==>
              && Enabled(s, FirstMessage(c, write.value, delivered))
              && OnlyPhase(s, Next(s, FirstMessage(c, write.value, delivered)), c, Finished)
  {
    var read, write := Encode(0, Some(Decimal(p))), Encode(2, Some(Decimal(p) + " " + typed));
    if read.Some? {
      DecimalIsPlain(p);
      CStringOfFree(Decimal(p));
      ReadRoundTrip(0, p);
      FirstMessageExactly(s, c, read.value, delivered);
    }
    if write.Some? {
      PrintedWrite(p, typed);
      WriteRoundTrip(p, typed);
      FirstMessageExactly(s, c, write.value, delivered);
    }
  }

  lemma PrintedWrite(p: int, typed: string)
    requires Encode(2, Some(Decimal(p) + " " + typed)).Some?
    ensures |Decimal(2) + " " + (Decimal(p) + " ") + CString(typed)| < MAX_MSG
  {
    DecimalIsPlain(p);
    var prefix := Decimal(p) + " ";
    assert prefix + typed == (prefix + CString(typed)) + typed[|CString(typed)|..];
    CStringOf(prefix + CString(typed), typed[|CString(typed)|..]);
  }

  /** A look at the queue grants the page to the head alone, if the reply is delivered and the content
      is at most 509 bytes long; a head without its reply gives up, everybody else goes on waiting. */
  lemma PollExactly(s: State, c: Conn, p: nat, delivered: bool)
    requires PhaseOf(s, c) == Waiting(p) && p < |s.pages|
    ensures Enabled(s, Poll(c, delivered))
    ensures var t := Next(s, Poll(c, delivered));
            var page := s.pages[p];
            if page.queue == [] || page.queue[0] != c then t == s
            else if !delivered || |CString(page.bytes)| > 509 then OnlyPhase(s, t, c, Finished)
            else
              && t.pages == s.pages && PhaseOf(t, c) == Granted(p) && OthersStay(s, t, c)
              && t.trace == After(s.trace, GrantSent(c, p, CString(page.bytes)))
  {
    EncodeExactly(0, Some(s.pages[p].bytes));
  }

  /** The page after a write: each byte, the rest of the queue, and the lock while somebody is left. */
  ghost predicate Writes(s: State, t: State, c: Conn, p: nat, content: string)
    requires p < |s.pages| && s.pages[p].queue != []
  {
    && |t.pages| == |s.pages|
    && (forall q :: 0 <= q < |s.pages| && q != p ==> t.pages[q] == s.pages[q])
    && |t.pages[p].bytes| == |s.pages[p].bytes|
    && (forall i :: 0 <= i < |t.pages[p].bytes| ==>
          t.pages[p].bytes[i] == if i < |CString(content)| then CString(content)[i] else '\0')
    && t.pages[p].queue == s.pages[p].queue[1..]
    && t.pages[p].locked == (s.pages[p].locked && |s.pages[p].queue| > 1)
    && PhaseOf(t, c).Finished? && OthersStay(s, t, c)
    && t.trace == After(s.trace, Stored(c, p, CString(t.pages[p].bytes)))
  }

  /** The message after a grant changes a page exactly when it is a write with content to a page whose
      queue its sender heads. */
  lemma SecondMessageExactly(s: State, c: Conn, received: string)
    requires PhaseOf(s, c).Granted? && |received| <= 511
    ensures Enabled(s, SecondMessage(c, received))
    ensures var t := Next(s, SecondMessage(c, received));
            var r := Parse(received);
            if r.command == 2 && r.content.Some? && 0 <= r.page < |s.pages|
               && s.pages[r.page].queue != [] && s.pages[r.page].queue[0] == c
            then Writes(s, t, c, r.page, r.content.value)
            else OnlyPhase(s, t, c, Finished)
  {
    FinishExactly(s, c, Parse(received));
  }

  lemma FinishExactly(s: State, c: Conn, r: Request)
    ensures var t := Finish(s, c, r);
            if r.command == 2 && r.content.Some? && 0 <= r.page < |s.pages|
               && s.pages[r.page].queue != [] && s.pages[r.page].queue[0] == c
            then Writes(s, t, c, r.page, r.content.value)
            else OnlyPhase(s, t, c, Finished)
  {
    if r.command == 2 && r.content.Some? && AtHead(s, c, r.page) {
      OverwriteExactly(|s.pages[r.page].bytes|, CString(r.content.value));
    }
  }

  /** After `memset` and `memcpy` each byte is the content's, or NUL where the content has ended. */
  lemma OverwriteExactly(size: nat, content: string)
    ensures |Overwrite(size, content)| == size
    ensures forall i :: 0 <= i < size ==> Overwrite(size, content)[i] == if i < |content| then content[i] else '\0'
  {
  }

  /** Accepting and closing a connection concern nobody else. */
  lemma ConnectionsExactly(s: State, c: Conn)
    ensures Enabled(s, Accept(c)) <==> PhaseOf(s, c).Absent?
    ensures Enabled(s, Close(c)) <==> PhaseOf(s, c).Finished?
    ensures PhaseOf(s, c).Absent? ==> OnlyPhase(s, Next(s, Accept(c)), c, Connected)
    ensures PhaseOf(s, c).Finished? ==> OnlyPhase(s, Next(s, Close(c)), c, Absent)
  {
  }
}
