/** Lamport's logical clocks: the rules of one process and what they give any run of any
    number of processes. */
module LamportClocks {
  import opened Text

  // ---------- one process ----------

  function Max(a: int, b: int): int {
    if a > b then a else b
  }

  /** What `sscanf` leaves in a variable that held this value before. */
  function Scanned(message: string, unset: int): int {
    match ScanInt(message)
    case Number(value, _) => value
    case NoNumber => unset
  }

  /** The clock after reading a message, into a variable that holds anything. */
  function AfterMessage(clock: int, message: string, unset: int): int {
    Max(clock, Scanned(message, unset)) + 1
  }

  /** The message a process with clock `stamp` printed is read as that clock. */
  lemma PrintedArrives(clock: int, stamp: int, unset: int)
    ensures AfterMessage(clock, Decimal(stamp), unset) == Max(clock, stamp) + 1
  {
    DecimalAlone(stamp);
  }

  class Process {
    var logicalClock: int

    constructor (initial: int)
      ensures logicalClock == initial
    {
      logicalClock := initial;
    }

    /** One round of `clock_thread`. */
    method Tick()
      modifies this
      ensures logicalClock == old(logicalClock) + 1
    {
      logicalClock := logicalClock + 1;
    }

    /** The critical section of `input_thread`: the clock moves before it is printed. */
    method PrepareMessage() returns (message: string)
      modifies this
      ensures logicalClock == old(logicalClock) + 1
      ensures message == Decimal(logicalClock) && ScanInt(message) == Number(logicalClock, [])
    {
      logicalClock := logicalClock + 1;
      message := Decimal(logicalClock);
      DecimalAlone(logicalClock);
    }

    /** One message of `server_thread`: the received clock is a local variable nobody set before. */
    method Deliver(message: string, unset: int)
      modifies this
      ensures logicalClock == AfterMessage(old(logicalClock), message, unset)
      ensures logicalClock > old(logicalClock)
      ensures var received := if ScanInt(message).Number? then ScanInt(message).value else unset;
              logicalClock == 1 + if old(logicalClock) > received then old(logicalClock) else received
    {
      var received := Scanned(message, unset);
      logicalClock := Max(logicalClock, received) + 1;
    }
  }

  // ---------- runs of many processes ----------

  /** A receive names the send event whose message it reads. */
  datatype Kind = TickEvent | SendEvent(dest: nat) | ReceiveEvent(source: nat)

  datatype Event = Event(proc: nat, kind: Kind)

  /** Events in the order they happen: any interleaving, any delay, any message may be lost. */
  ghost predicate WellFormed(n: nat, events: seq<Event>) {
    forall i :: 0 <= i < |events| ==>
      && events[i].proc < n
      && (events[i].kind.ReceiveEvent? ==>
            events[i].kind.source < i && events[events[i].kind.source].kind == SendEvent(events[i].proc))
  }

  /** The clock of a process after a run. A receive reads the clock its sender printed, and by
      PrintedArrives that is what Process.Deliver makes of the message. */
  ghost function ClockAfter(start: seq<int>, events: seq<Event>, p: nat): int
    requires WellFormed(|start|, events) && p < |start|
    decreases |events|
  {
    if events == [] then start[p]
    else
      var last := events[|events| - 1];
      var before := ClockAfter(start, events[..|events| - 1], p);
      if last.proc != p then before
      else
        match last.kind
        case TickEvent => before + 1
        case SendEvent(_) => before + 1
        case ReceiveEvent(source) =>
          var stamp := ClockAfter(start, events[..source + 1], events[source].proc);
          Max(before, stamp) + 1
  }

  /** The clock an event gives its process; a send carries it as its message. */
  ghost function Stamp(start: seq<int>, events: seq<Event>, i: nat): int
    requires WellFormed(|start|, events) && i < |events|
  {
    ClockAfter(start, events[..i + 1], events[i].proc)
  }

  /** How the stamp of an event follows from its process and, for a receive, from the send. */
  lemma StampRule(start: seq<int>, events: seq<Event>, i: nat)
    requires WellFormed(|start|, events) && i < |events|
    ensures var before := ClockAfter(start, events[..i], events[i].proc);
            Stamp(start, events, i) ==
              if events[i].kind.ReceiveEvent? then Max(before, Stamp(start, events, events[i].kind.source)) + 1
              else before + 1
  {
    var upTo := events[..i + 1];
    assert upTo[..i] == events[..i];
    if events[i].kind.ReceiveEvent? {
      var source := events[i].kind.source;
      assert upTo[..source + 1] == events[..source + 1];
    }
  }

  // ---------- causality ----------

  /** i is the last event of j's process before j. */
  ghost predicate Previous(events: seq<Event>, i: nat, j: nat) {
    && i < j < |events| && events[i].proc == events[j].proc
    && forall k :: i < k < j ==> events[k].proc != events[j].proc
  }

  ghost predicate Directly(events: seq<Event>, i: nat, j: nat) {
    Previous(events, i, j) || (i < j < |events| && events[j].kind == ReceiveEvent(i))
  }

  /** A causal chain: each event directly causes the next. */
  ghost predicate Chain(events: seq<Event>, chain: seq<nat>) {
    && chain != [] && (forall k :: 0 <= k < |chain| ==> chain[k] < |events|)
    && forall k :: 0 < k < |chain| ==> Directly(events, chain[k - 1], chain[k])
  }

  ghost predicate ChainTo(events: seq<Event>, chain: seq<nat>, e: nat) {
    Chain(events, chain) && chain[|chain| - 1] == e
  }

  ghost predicate HappensBefore(events: seq<Event>, a: nat, b: nat) {
    exists chain :: |chain| > 1 && ChainTo(events, chain, b) && chain[0] == a
  }

  lemma {:induction false} ClockStays(start: seq<int>, events: seq<Event>, p: nat, lo: nat, hi: nat)
    requires WellFormed(|start|, events) && p < |start| && lo <= hi <= |events|
    requires forall k :: lo <= k < hi ==> events[k].proc != p
    ensures ClockAfter(start, events[..hi], p) == ClockAfter(start, events[..lo], p)
    decreases hi
  {
    if lo < hi {
      assert events[..hi][..hi - 1] == events[..hi - 1];
      ClockStays(start, events, p, lo, hi - 1);
    }
  }

  lemma {:induction false} ClockNeverFallsBelowStart(start: seq<int>, events: seq<Event>, p: nat)
    requires WellFormed(|start|, events) && p < |start|
    ensures ClockAfter(start, events, p) >= start[p]
    decreases |events|
  {
    if events != [] {
      ClockNeverFallsBelowStart(start, events[..|events| - 1], p);
    }
  }

  /** The clock condition for one causal step. */
  lemma DirectlyRaises(start: seq<int>, events: seq<Event>, i: nat, j: nat)
    requires WellFormed(|start|, events) && Directly(events, i, j)
    ensures Stamp(start, events, i) < Stamp(start, events, j)
  {
    StampRule(start, events, j);
    if Previous(events, i, j) {
      ClockStays(start, events, events[j].proc, i + 1, j);
    }
  }

  /** A chain ending at an event accounts for its length in the event's clock. */
  lemma {:induction false} ChainBound(start: seq<int>, events: seq<Event>, chain: seq<nat>)
    requires WellFormed(|start|, events) && Chain(events, chain)
    ensures Stamp(start, events, chain[|chain| - 1]) >= Stamp(start, events, chain[0]) + |chain| - 1
    ensures Stamp(start, events, chain[|chain| - 1]) >= start[events[chain[0]].proc] + |chain|
    decreases |chain|
  {
    if |chain| == 1 {
      StampRule(start, events, chain[0]);
      ClockNeverFallsBelowStart(start, events[..chain[0]], events[chain[0]].proc);
    } else {
      var shorter := chain[..|chain| - 1];
      ChainBound(start, events, shorter);
      DirectlyRaises(start, events, chain[|chain| - 2], chain[|chain| - 1]);
    }
  }

  /** Lamport's clock condition: an event that happens before another has the smaller clock. */
  lemma ClockCondition(start: seq<int>, events: seq<Event>, a: nat, b: nat)
    requires WellFormed(|start|, events) && a < |events| && b < |events| && HappensBefore(events, a, b)
    ensures Stamp(start, events, a) < Stamp(start, events, b)
  {
    var chain :| |chain| > 1 && ChainTo(events, chain, b) && chain[0] == a;
    ChainBound(start, events, chain);
  }

  // ---------- exact timestamps ----------

  lemma ExtendChain(events: seq<Event>, chain: seq<nat>, i: nat, j: nat)
    requires ChainTo(events, chain, i) && Directly(events, i, j)
    ensures ChainTo(events, chain + [j], j)
  {
    var longer := chain + [j];
    assert forall k :: 0 <= k < |chain| ==> longer[k] == chain[k];
    forall k | 0 < k < |longer|
      ensures Directly(events, longer[k - 1], longer[k])
    {
      if k < |chain| {
        assert Directly(events, chain[k - 1], chain[k]);
      }
    }
  }

  /** The last event of a process before position j, when there is one. */
  lemma {:induction false} FindPrevious(events: seq<Event>, p: nat, j: nat) returns (i: int)
    requires j <= |events|
    ensures -1 <= i < j && (i >= 0 ==> events[i].proc == p)
    ensures forall k :: i < k < j ==> events[k].proc != p
  {
    if j == 0 {
      i := -1;
    } else if events[j - 1].proc == p {
      i := j - 1;
    } else {
      i := FindPrevious(events, p, j - 1);
    }
  }

  /** Some causal chain explains the clock of an event in full. */
  lemma {:induction false} ChainExplains(start: seq<int>, events: seq<Event>, e: nat) returns (chain: seq<nat>)
    requires WellFormed(|start|, events) && e < |events|
    ensures ChainTo(events, chain, e)
    ensures Stamp(start, events, e) == start[events[chain[0]].proc] + |chain|
    decreases e
  {
    StampRule(start, events, e);
    var p := events[e].proc;
    var before := ClockAfter(start, events[..e], p);
    var i := FindPrevious(events, p, e);
    if events[e].kind.ReceiveEvent? && Stamp(start, events, events[e].kind.source) >= before {
      var source := events[e].kind.source;
      var shorter := ChainExplains(start, events, source);
      ExtendChain(events, shorter, source, e);
      chain := shorter + [e];
    } else if i >= 0 {
      ClockStays(start, events, p, i + 1, e);
      var shorter := ChainExplains(start, events, i);
      ExtendChain(events, shorter, i, e);
      chain := shorter + [e];
    } else {
      ClockStays(start, events, p, 0, e);
      assert events[..0] == [];
      chain := [e];
    }
  }

  /** Exact timestamps: the clock of an event is the maximum, over the causal chains ending at
      it, of the first clock of the chain's first process plus the length of the chain. */
  lemma ExactStamp(start: seq<int>, events: seq<Event>, e: nat)
    requires WellFormed(|start|, events) && e < |events|
    ensures forall chain :: ChainTo(events, chain, e) ==>
              start[events[chain[0]].proc] + |chain| <= Stamp(start, events, e)
    ensures exists chain :: ChainTo(events, chain, e) &&
              start[events[chain[0]].proc] + |chain| == Stamp(start, events, e)
  {
    forall chain | ChainTo(events, chain, e)
      ensures start[events[chain[0]].proc] + |chain| <= Stamp(start, events, e)
    {
      ChainBound(start, events, chain);
    }
    var chain := ChainExplains(start, events, e);
  }

  lemma {:induction false} ChainIsShort(events: seq<Event>, chain: seq<nat>, e: nat)
    requires ChainTo(events, chain, e)
    ensures |chain| <= e + 1
    decreases |chain|
  {
    if |chain| > 1 {
      var shorter := chain[..|chain| - 1];
      assert Directly(events, chain[|chain| - 2], e);
      ChainIsShort(events, shorter, chain[|chain| - 2]);
    }
  }

  /** No clock runs ahead of the largest first clock by more than the number of events so far. */
  lemma ClocksAreBounded(start: seq<int>, events: seq<Event>, e: nat, most: int)
    requires WellFormed(|start|, events) && e < |events|
    requires forall p :: 0 <= p < |start| ==> start[p] <= most
    ensures Stamp(start, events, e) <= most + e + 1
  {
    var chain := ChainExplains(start, events, e);
    ChainIsShort(events, chain, e);
  }
}
