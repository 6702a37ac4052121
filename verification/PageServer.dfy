/** The shared memory server with its page table and buffer; each method is one critical
    section of a page mutex and is proved to be the step of PageModel it stands for. */
module PageServer {
  import opened Text
  import opened Messages
  import opened PageModel
  import opened PageMemory

  /** The state at start-up: every page free, holding what its slot already held. */
  function StartState(memory: string, size: nat, count: nat): (s: State)
    requires |memory| == count * size
    ensures Initial(s) && |s.pages| == count
    ensures forall p :: 0 <= p < count ==> p * size + size <= |memory| && s.pages[p].bytes == PageBytes(memory, size, p)
  {
    assert forall p :: 0 <= p < count ==> p * size + size <= |memory| by {
      forall p | 0 <= p < count
        ensures p * size + size <= |memory|
      {
        SlotsApart(p, count, size);
      }
    }
    State(seq(count, p requires 0 <= p < count => Page(PageBytes(memory, size, p), false, [])), map[], Start)
  }

  class Server {
    const pageSize: nat
    const pageTable: seq<PageEntry>
    const memory: array<char>
    /** The state of the step system this server is in, and every node of every queue. */
    ghost var state: State
    ghost var nodes: set<ProcessNode>

    ghost predicate Valid()
      reads this, memory, pageTable, nodes
    {
      && memory.Length == |pageTable| * pageSize
      && (forall p :: 0 <= p < |pageTable| ==> pageTable[p].nodes <= nodes)
      && (forall p :: 0 <= p < |pageTable| ==> pageTable[p].Valid())
      && (forall p, q :: 0 <= p < q < |pageTable| ==> pageTable[p] != pageTable[q])
      && |state.pages| == |pageTable|
      && (forall p :: 0 <= p < |pageTable| ==> RowMatches(p))
    }

    /** A row of the page table and its slot of the buffer are what the state says. */
    ghost predicate RowMatches(p: nat)
      requires p < |pageTable| == |state.pages| && memory.Length == |pageTable| * pageSize
      reads this, memory, pageTable
    {
      SlotsApart(p, |pageTable|, pageSize);
      && state.pages[p].bytes == PageBytes(memory[..], pageSize, p)
      && state.pages[p].queue == pageTable[p].contents
      && (state.pages[p].locked <==> pageTable[p].lock == 1)
    }

    /** Start-up over an attached buffer, which keeps whatever it already holds. */
    constructor (size: nat, count: nat, attached: array<char>)
      requires attached.Length == count * size
      ensures Valid() && Initial(state) && fresh(nodes)
      ensures pageSize == size && memory == attached && |pageTable| == count && |state.pages| == count
      ensures forall p {:trigger state.pages[p]} :: 0 <= p < count ==>
                p * size + size <= attached.Length && state.pages[p].bytes == attached[p * size..p * size + size]
    {
      var table: seq<PageEntry> := [];
      for i := 0 to count
        invariant |table| == i
        invariant forall p :: 0 <= p < i ==> fresh(table[p]) && table[p].Valid()
        invariant forall p :: 0 <= p < i ==> table[p].contents == [] && table[p].nodes == {} && table[p].lock == 0
        invariant forall p, q :: 0 <= p < q < i ==> table[p] != table[q]
      {
        var entry := new PageEntry();
        table := table + [entry];
      }
      pageSize, pageTable, memory, nodes := size, table, attached, {};
      new;
      state := StartState(attached[..], size, count);
    }

    /** Append to the queue of one page; every other page keeps its list. */
    method Enqueue(ghost p: nat, entry: PageEntry, c: Conn)
      requires Valid() && p < |pageTable| && entry == pageTable[p]
      modifies this`nodes, this`state, entry`queue, entry`spine, entry`contents, entry`nodes, entry.nodes
      ensures Valid() && fresh(nodes - old(nodes))
      ensures var page := old(state).pages[p];
              state == old(state).(pages := old(state).pages[p := page.(queue := page.queue + [c])])
    {
      assert forall q :: 0 <= q < |pageTable| && q != p ==> pageTable[q].nodes !! entry.nodes;
      entry.AddToQueue(c);
      nodes := nodes + entry.nodes;
      var page := state.pages[p];
      state := state.(pages := state.pages[p := page.(queue := page.queue + [c])]);
      assert memory[..] == old(memory[..]);
      forall q | 0 <= q < |pageTable|
        ensures RowMatches(q)
      {
        assert old(RowMatches(q));
      }
    }

    /** Drop the head of the queue of one page; every other page keeps its list. */
    method Dequeue(ghost p: nat, entry: PageEntry) returns (c: int)
      requires Valid() && p < |pageTable| && entry == pageTable[p] && entry.contents != []
      modifies this`state, entry`queue, entry`spine, entry`contents
      ensures Valid()
      ensures var page := old(state).pages[p];
              && page.queue != [] && c == page.queue[0]
              && state == old(state).(pages := old(state).pages[p := page.(queue := page.queue[1..])])
    {
      assert RowMatches(p);
      c := entry.RemoveFromQueue();
      var page := state.pages[p];
      state := state.(pages := state.pages[p := page.(queue := page.queue[1..])]);
      assert memory[..] == old(memory[..]);
      forall q | 0 <= q < |pageTable|
        ensures RowMatches(q)
      {
        assert old(RowMatches(q));
      }
    }

    method SetLock(ghost p: nat, entry: PageEntry, lock: int)
      requires Valid() && p < |pageTable| && entry == pageTable[p]
      modifies this`state, entry`lock
      ensures Valid()
      ensures state == old(state).(pages := old(state).pages[p := old(state).pages[p].(locked := lock == 1)])
    {
      entry.lock := lock;
      state := state.(pages := state.pages[p := state.pages[p].(locked := lock == 1)]);
      assert memory[..] == old(memory[..]);
      forall q | 0 <= q < |pageTable|
        ensures RowMatches(q)
      {
        assert old(RowMatches(q));
      }
    }

    /** The head leaves the queue; the page is unlocked when nobody is left. */
    method Release(ghost p: nat, entry: PageEntry)
      requires Valid() && p < |pageTable| && entry == pageTable[p] && entry.contents != []
      modifies this`state, entry
      ensures Valid()
      ensures var page := old(state).pages[p];
              && page.queue != []
              && var queue := page.queue[1..];
              var left := page.(queue := queue, locked := page.locked && queue != []);
              state == old(state).(pages := old(state).pages[p := left])
    {
      var removed := Dequeue(p, entry);
      assert RowMatches(p);
      if entry.queue == null {
        SetLock(p, entry, 0);
      }
    }

    /** The content of a page as the reply buffer of a grant holds it. */
    method CopyPage(p: nat) returns (content: string)
      requires Valid() && p < |pageTable|
      ensures content == state.pages[p].bytes
    {
      SlotsApart(p, |pageTable|, pageSize);
      var pageStart := p * pageSize;
      content := memory[pageStart..pageStart + pageSize];
      assert RowMatches(p);
      assert content == memory[..][pageStart..pageStart + pageSize];
    }

    /** What the thread of a connection does next, and what it just did. */
    ghost method Record(c: Conn, phase: Phase, trace: Trace)
      requires Valid()
      modifies this`state
      ensures Valid() && state == old(state).(phase := old(state).phase[c := phase], trace := trace)
    {
      state := state.(phase := state.phase[c := phase], trace := trace);
      assert memory[..] == old(memory[..]);
      forall q | 0 <= q < |pageTable|
        ensures RowMatches(q)
      {
        assert old(RowMatches(q));
      }
    }

    /** `read_lock_page` up to the release of the page mutex. The reply is what is handed to the socket. */
    method ReadLockPage(c: Conn, pageNum: int, delivered: bool) returns (reply: Option<string>)
      requires Valid()
      modifies this, pageTable, nodes
      ensures Valid() && fresh(nodes - old(nodes))
      ensures state == Open(old(state), c, Request(1, pageNum, None), delivered)
      ensures reply == if pageNum < 0 || pageNum >= |old(state).pages| then Some(INVALID_PAGE)
                       else if old(state).pages[pageNum].locked then Encode(1, Some(""))
                       else Encode(0, Some(old(state).pages[pageNum].bytes))
    {
      if pageNum < 0 || pageNum >= |pageTable| {
        Record(c, Finished, state.trace);
        return Some(INVALID_PAGE);
      }
      var entry := pageTable[pageNum];
      assert RowMatches(pageNum);
      if entry.lock == 1 {
        reply := Encode(1, Some(""));
        if !delivered {
          Record(c, Finished, state.trace);
          return;
        }
        Enqueue(pageNum, entry, c);
        Record(c, Waiting(pageNum), After(state.trace, Enqueued(c, pageNum)));
      } else {
        var content := CopyPage(pageNum);
        reply := Encode(0, Some(content));
        if reply.None? || !delivered {
          Record(c, Finished, state.trace);
          return;
        }
        SetLock(pageNum, entry, 1);
        Enqueue(pageNum, entry, c);
        Record(c, Granted(pageNum),
               After(After(state.trace, Enqueued(c, pageNum)), GrantSent(c, pageNum, CString(content))));
      }
    }

    /** One round of the loop in which a waiting thread looks at the head of the queue. */
    method PollQueue(c: Conn, p: nat, delivered: bool) returns (reply: Option<string>)
      requires Valid() && p < |pageTable|
      modifies this`state
      ensures Valid()
      ensures state == PollPage(old(state), c, p, delivered)
      ensures reply == if AtHead(old(state), c, p) then Encode(0, Some(old(state).pages[p].bytes)) else None
      ensures state.trace == if reply.Some? && delivered
                             then After(old(state).trace, GrantSent(c, p, CString(old(state).pages[p].bytes)))
                             else old(state).trace
    {
      reply := None;
      var entry := pageTable[p];
      assert RowMatches(p);
      if entry.queue != null && entry.queue.clientSocket == c {
        var content := CopyPage(p);
        reply := Encode(0, Some(content));
        if reply.None? || !delivered {
          Record(c, Finished, state.trace);
          return;
        }
        Record(c, Granted(p), After(state.trace, GrantSent(c, p, CString(content))));
      }
    }

    /** The slot of one page is overwritten; every byte of every other page stays. */
    method StoreContent(p: nat, content: string)
      requires Valid() && p < |pageTable|
      modifies this`state, memory
      ensures Valid()
      ensures var page := old(state).pages[p];
              state == old(state).(pages := old(state).pages[p := page.(bytes := Overwrite(pageSize, content))])
    {
      SlotsApart(p, |pageTable|, pageSize);
      var pageStart := p * pageSize;
      ghost var before := memory[..];
      OverwriteSlot(memory, pageStart, pageSize, content);
      state := state.(pages := state.pages[p := state.pages[p].(bytes := Overwrite(pageSize, content))]);
      forall q | 0 <= q < |pageTable|
        ensures RowMatches(q)
      {
        assert old(RowMatches(q));
        SlotsApart(q, |pageTable|, pageSize);
        PageIsolation(before, memory[..], pageSize, |pageTable|, p, q);
      }
    }

    /** `write_page`: only the head of the queue may write; it leaves the queue, and the last
        one out unlocks the page. */
    method WriteContent(c: Conn, pageNum: int, content: Option<string>) returns (reply: Option<string>)
      requires Valid()
      modifies this, memory, pageTable
      ensures Valid() && nodes == old(nodes)
      ensures state == WritePage(old(state), c, pageNum, content)
      ensures reply == if pageNum < 0 || pageNum >= |old(state).pages| then Some(INVALID_PAGE)
                       else if content.None? then Some(INVALID_CONTENT)
                       else if !AtHead(old(state), c, pageNum) then Some(NOT_AUTHORISED)
                       else Encode(2, Some(""))
      ensures reply == Encode(2, Some("")) <==> state.trace != old(state).trace
    {
      EncodeExactly(2, Some(""));
      if pageNum < 0 || pageNum >= |pageTable| {
        Record(c, Finished, state.trace);
        return Some(INVALID_PAGE);
      }
      if content.None? {
        Record(c, Finished, state.trace);
        return Some(INVALID_CONTENT);
      }
      var entry := pageTable[pageNum];
      assert RowMatches(pageNum);
      if entry.queue == null || entry.queue.clientSocket != c {
        Record(c, Finished, state.trace);
        return Some(NOT_AUTHORISED);
      }
      var text := CString(content.value);
      StoreContent(pageNum, text);
      assert entry.contents != [];
      reply := Encode(2, Some(""));
      Release(pageNum, entry);
      Record(c, Finished, After(state.trace, Stored(c, pageNum, CString(Overwrite(pageSize, text)))));
    }

    // ---------- the thread of a connection, step by step ----------

    /** The accept loop starts a thread. */
    ghost method AcceptClient(c: Conn)
      requires Valid() && Enabled(state, Accept(c))
      modifies this`state
      ensures Valid() && state == Next(old(state), Accept(c))
    {
      Record(c, Connected, state.trace);
    }

    /** `handle_client` up to its first critical section. */
    method HandleFirstMessage(c: Conn, received: string, delivered: bool) returns (reply: Option<string>)
      requires Valid() && Enabled(state, FirstMessage(c, received, delivered))
      modifies this, pageTable, nodes
      ensures Valid() && fresh(nodes - old(nodes))
      ensures state == Next(old(state), FirstMessage(c, received, delivered))
      ensures var r := Parse(received);
              reply == if r.command != 1 then None
                       else if r.page < 0 || r.page >= |old(state).pages| then Some(INVALID_PAGE)
                       else if old(state).pages[r.page].locked then Encode(1, Some(""))
                       else Encode(0, Some(old(state).pages[r.page].bytes))
      ensures PhaseOf(state, c).Waiting? ==> delivered && reply == Encode(1, Some(""))
      ensures PhaseOf(state, c).Granted? ==>
                var p := PhaseOf(state, c).page;
                && p < |old(state).pages| && delivered
                && reply.Some? && reply == Encode(0, Some(old(state).pages[p].bytes))
    {
      var r := Parse(received);
      reply := None;
      if r.command == 1 {
        reply := ReadLockPage(c, r.page, delivered);
      } else {
        Record(c, Finished, state.trace);
      }
    }

    /** What a granted thread does with the one message it then reads. */
    method HandleSecondMessage(c: Conn, received: string) returns (reply: Option<string>)
      requires Valid() && Enabled(state, SecondMessage(c, received))
      modifies this, memory, pageTable
      ensures Valid() && nodes == old(nodes)
      ensures state == Next(old(state), SecondMessage(c, received))
      ensures var r := Parse(received);
              reply == if r.command != 2 then None
                       else if r.page < 0 || r.page >= |old(state).pages| then Some(INVALID_PAGE)
                       else if r.content.None? then Some(INVALID_CONTENT)
                       else if !AtHead(old(state), c, r.page) then Some(NOT_AUTHORISED)
                       else Encode(2, Some(""))
      ensures reply == Encode(2, Some("")) <==> state.trace != old(state).trace
    {
      EncodeExactly(2, Some(""));
      var r := Parse(received);
      reply := None;
      if r.command == 2 {
        reply := WriteContent(c, r.page, r.content);
      } else {
        Record(c, Finished, state.trace);
      }
    }

    /** The end of `handle_client`. */
    ghost method CloseClient(c: Conn)
      requires Valid() && Enabled(state, Close(c))
      modifies this`state
      ensures Valid() && state == Next(old(state), Close(c))
    {
      Record(c, Absent, state.trace);
    }
  }
}
