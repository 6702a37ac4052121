/** The flat buffer that holds all pages, and the heap queue of one page table row. */
module PageMemory {
  import opened Text
  import opened PageModel

  // ---------- pages in one flat buffer ----------

  lemma SlotsApart(p: nat, q: nat, size: nat)
    requires p < q
    ensures 0 <= p * size && p * size + size <= q * size
  {
    var gap := q - p - 1;
    assert q * size == (p + 1 + gap) * size == p * size + size + gap * size;
    assert gap * size >= 0 && p * size >= 0;
  }

  function PageBytes(memory: string, size: nat, p: nat): (bytes: string)
    requires p * size + size <= |memory|
    ensures |bytes| == size
  {
    memory[p * size..p * size + size]
  }

  lemma SameBefore(before: string, after: string, s: nat, from: nat, to: nat)
    requires |before| == |after| && from <= to <= s <= |before| && after[..s] == before[..s]
    ensures after[from..to] == before[from..to]
  {
    assert forall k :: from <= k < to ==> after[k] == after[..s][k] == before[..s][k] == before[k];
  }

  lemma SameFrom(before: string, after: string, e: nat, from: nat, to: nat)
    requires |before| == |after| && e <= from <= to <= |before| && after[e..] == before[e..]
    ensures after[from..to] == before[from..to]
  {
    assert forall k :: from <= k < to ==> after[k] == after[e..][k - e] == before[e..][k - e] == before[k];
  }

  /** Replacing the bytes of one slot changes that page and no other, for every page size. */
  lemma PageIsolation(before: string, after: string, size: nat, count: nat, p: nat, q: nat)
    requires p < count && q < count && |before| == |after| == count * size
    requires p * size + size <= |before| && q * size + size <= |before|
    requires after[..p * size] == before[..p * size] && after[p * size + size..] == before[p * size + size..]
    ensures q != p ==> PageBytes(after, size, q) == PageBytes(before, size, q)
  {
    var s, e := p * size, p * size + size;
    var from := q * size;
    if q < p {
      SlotsApart(q, p, size);
      SameBefore(before, after, s, from, from + size);
    } else if p < q {
      SlotsApart(p, q, size);
      SameFrom(before, after, e, from, from + size);
    }
  }

  /** `memset` then `memcpy` over one slot of the buffer. */
  method OverwriteSlot(memory: array<char>, start: nat, size: nat, content: string)
    requires start + size <= memory.Length
    modifies memory
    ensures memory[start..start + size] == Overwrite(size, content)
    ensures memory[..start] == old(memory[..start])
    ensures memory[start + size..] == old(memory[start + size..])
  {
    for i := 0 to size
      invariant forall k :: start <= k < start + i ==> memory[k] == '\0'
      invariant forall k :: 0 <= k < start || start + size <= k < memory.Length ==> memory[k] == old(memory[k])
    {
      memory[start + i] := '\0';
    }
    var bytesToWrite := if |content| < size then |content| else size;
    for i := 0 to bytesToWrite
      invariant forall k :: 0 <= k < i ==> memory[start + k] == content[k]
      invariant forall k :: start + i <= k < start + size ==> memory[k] == '\0'
      invariant forall k :: 0 <= k < start || start + size <= k < memory.Length ==> memory[k] == old(memory[k])
    {
      memory[start + i] := content[i];
    }
    assert memory[start..start + bytesToWrite] == Cut(content, size);
  }

  // ---------- the queue of one page ----------

  class ProcessNode {
    var clientSocket: int
    var next: ProcessNode?
    /** The only row whose queue ever holds this node. */
    ghost const home: PageEntry

    constructor (clientSocket: int, ghost home: PageEntry)
      ensures this.clientSocket == clientSocket && next == null && this.home == home
    {
      this.clientSocket := clientSocket;
      next := null;
      this.home := home;
    }
  }

  class PageEntry {
    var lock: int
    var queue: ProcessNode?
    /** The nodes from the head on, the sockets they hold, and the same nodes as a set. */
    ghost var spine: seq<ProcessNode>
    ghost var contents: seq<int>
    ghost var nodes: set<ProcessNode>

    ghost predicate Valid()
      reads this, nodes
    {
      && |contents| == |spine|
      && queue == (if spine == [] then null else spine[0])
      && (forall i :: 0 <= i < |spine| ==> spine[i] in nodes)
      && (forall n :: n in nodes ==> n.home == this)
      && (forall i {:trigger spine[i].clientSocket} :: 0 <= i < |spine| ==> spine[i].clientSocket == contents[i])
      && (forall i {:trigger spine[i].next} :: 0 <= i < |spine| ==>
            spine[i].next == if i + 1 < |spine| then spine[i + 1] else null)
      && (forall i, j :: 0 <= i < j < |spine| ==> spine[i] != spine[j])
    }

    constructor ()
      ensures Valid() && contents == [] && nodes == {} && lock == 0
    {
      lock, queue := 0, null;
      spine, contents, nodes := [], [], {};
    }

    /** `add_to_queue`: walk to the last node and hang the new one there. */
    method AddToQueue(clientSocket: int)
      requires Valid()
      modifies this`queue, this`spine, this`contents, this`nodes, nodes
      ensures Valid() && contents == old(contents) + [clientSocket]
      ensures fresh(nodes - old(nodes))
    {
      var node := new ProcessNode(clientSocket, this);
      if queue == null {
        queue := node;
      } else {
        var current: ProcessNode := queue;
        ghost var i := 0;
        while current.next != null
          invariant 0 <= i < |spine| && current == spine[i]
          decreases |spine| - i
        {
          current := current.next;
          i := i + 1;
        }
        current.next := node;
      }
      spine := spine + [node];
      contents := contents + [clientSocket];
      nodes := nodes + {node};
    }

    /** `remove_from_queue`: the first socket, or -1 when nobody waits. */
    method RemoveFromQueue() returns (clientSocket: int)
      requires Valid()
      modifies this`queue, this`spine, this`contents
      ensures Valid()
      ensures old(contents) == [] ==> clientSocket == -1 && contents == []
      ensures old(contents) != [] ==> clientSocket == old(contents)[0] && contents == old(contents)[1..]
    {
      if queue == null {
        return -1;
      }
      var first: ProcessNode := queue;
      clientSocket := first.clientSocket;
      queue := first.next;
      spine := spine[1..];
      contents := contents[1..];
    }
  }
}
