/** The Berkeley daemon: its client slots, one averaging round, and how close the clocks
    are afterwards. */
module BerkeleyRound {
  import opened WallClock

  const MAX_CLIENTS: nat := 2

  /** What `request_client_time` returns when a client does not answer. */
  const FAILED: int := -1

  // ---------- what a round computes ----------

  function Sum(s: seq<int>): int {
    if s == [] then 0 else Sum(s[..|s| - 1]) + s[|s| - 1]
  }

  function CountActive(active: seq<bool>): nat {
    if active == [] then 0
    else CountActive(active[..|active| - 1]) + if active[|active| - 1] then 1 else 0
  }

  /** The answers of the active clients, in slot order. */
  function Collected(active: seq<bool>, replies: seq<int>): seq<int>
    requires |active| == |replies|
  {
    if active == [] then []
    else
      var n := |active| - 1;
      var earlier := Collected(active[..n], replies[..n]);
      if active[n] && replies[n] != FAILED then earlier + [replies[n]] else earlier
  }

  function Average(times: seq<int>): int
    requires times != []
  {
    TruncDiv(Sum(times), |times|)
  }

  lemma {:induction false} SumBetween(s: seq<int>, lo: int, hi: int)
    requires forall i :: 0 <= i < |s| ==> lo <= s[i] <= hi
    ensures lo * |s| <= Sum(s) <= hi * |s|
  {
    if s != [] {
      var n := |s| - 1;
      SumBetween(s[..n], lo, hi);
      assert lo * |s| == lo * n + lo && hi * |s| == hi * n + hi;
    }
  }

  lemma CancelFactor(a: int, b: int, n: int)
    requires n > 0 && a * n < b * n
    ensures a < b
  {
    assert (b - a) * n > 0;
  }

  lemma DivisionBetween(total: int, n: int, lo: int, hi: int)
    requires n > 0 && lo * n <= total <= hi * n
    ensures lo <= TruncDiv(total, n) <= hi
  {
    var q := TruncDiv(total, n);
    assert (q - 1) * n == q * n - n && (q + 1) * n == q * n + n && (hi + 1) * n == hi * n + n;
    if total >= 0 {
      assert q * n <= total < q * n + n;
      CancelFactor(q, hi + 1, n);
    } else {
      assert q * n - n < total <= q * n;
      CancelFactor(q - 1, hi, n);
    }
    CancelFactor(lo, q + 1, n);
  }

  /** The integer average lies between the smallest and the largest time. */
  lemma AverageBetween(times: seq<int>, lo: int, hi: int)
    requires times != [] && forall i :: 0 <= i < |times| ==> lo <= times[i] <= hi
    ensures lo <= Average(times) <= hi
  {
    SumBetween(times, lo, hi);
    DivisionBetween(Sum(times), |times|, lo, hi);
  }

  /** The quotient of a total by a count, rounded towards zero. */
  predicate IsQuotient(total: int, count: int, q: int) {
    if total >= 0 then count * q <= total < count * (q + 1) else count * (q - 1) < total <= count * q
  }

  lemma QuotientExactly(total: int, count: int)
    requires count > 0
    ensures IsQuotient(total, count, TruncDiv(total, count))
  {
    var q := TruncDiv(total, count);
    assert count * (q + 1) == count * q + count && count * (q - 1) == count * q - count;
    if total < 0 {
      var r := -total / count;
      assert count * q == -(count * r);
    }
  }

  /** The average is the whole-second quotient of the sum, towards zero. */
  lemma AverageExactly(times: seq<int>)
    requires times != []
    ensures IsQuotient(Sum(times), |times|, Average(times))
  {
    QuotientExactly(Sum(times), |times|);
  }

  /** Every time counts once in the sum. */
  lemma {:induction false} SumExactly(a: seq<int>, b: seq<int>, x: int)
    ensures Sum([]) == 0 && Sum([x]) == x && Sum(a + b) == Sum(a) + Sum(b)
    decreases |b|
  {
    assert [x][..0] == [];
    if b == [] {
      assert a + b == a;
    } else {
      var n := |b| - 1;
      SumExactly(a, b[..n], x);
      assert (a + b)[..|a| + n] == a + b[..n];
    }
  }

  lemma CollectedOne(on: bool, reply: int)
    ensures Collected([], []) == [] && Collected([on], [reply]) == if on && reply != -1 then [reply] else []
  {
    assert [on][..0] == [] && [reply][..0] == [];
  }

  lemma {:induction false} CollectedAppend(active: seq<bool>, more: seq<bool>, replies: seq<int>, others: seq<int>)
    requires |active| == |replies| && |more| == |others|
    ensures Collected(active + more, replies + others) == Collected(active, replies) + Collected(more, others)
    decreases |more|
  {
    if more == [] {
      assert active + more == active && replies + others == replies;
    } else {
      var n := |more| - 1;
      CollectedAppend(active, more[..n], replies, others[..n]);
      assert (active + more)[..|active| + n] == active + more[..n];
      assert (replies + others)[..|active| + n] == replies + others[..n];
    }
  }

  /** Every active slot that answered is collected once, in slot order, and no other. */
  lemma CollectedExactly(active: seq<bool>, more: seq<bool>, replies: seq<int>, others: seq<int>, on: bool, reply: int)
    requires |active| == |replies| && |more| == |others|
    ensures Collected([], []) == [] && Collected([on], [reply]) == if on && reply != -1 then [reply] else []
    ensures Collected(active + more, replies + others) == Collected(active, replies) + Collected(more, others)
  {
    CollectedOne(on, reply);
    CollectedAppend(active, more, replies, others);
  }

  // ---------- the daemon ----------

  datatype Outcome = Skipped | Synchronized(average: int, corrected: seq<bool>)

  class Daemon {
    /** The `active` and `socket` fields of the client slots. */
    const active: array<bool>
    const sockets: array<int>
    var clientCount: nat

    ghost predicate Valid()
      reads this, active
    {
      && active.Length == sockets.Length == MAX_CLIENTS
      && clientCount <= MAX_CLIENTS
      && forall i :: 0 <= i < MAX_CLIENTS && active[i] ==> i < clientCount
    }

    constructor ()
      ensures Valid() && clientCount == 0 && fresh(active) && fresh(sockets)
    {
      active := new bool[MAX_CLIENTS](_ => false);
      sockets := new int[MAX_CLIENTS];
      clientCount := 0;
    }

    /** One turn of the accept loop: the first free slot, or -1 when every slot is taken. */
    method AcceptClient(socket: int) returns (slot: int)
      requires Valid()
      modifies this, active, sockets
      ensures Valid()
      ensures slot == -1 ==> (forall i :: 0 <= i < MAX_CLIENTS ==> old(active[i])) && active[..] == old(active[..])
                             && sockets[..] == old(sockets[..])
      ensures clientCount == if slot < old(clientCount) then old(clientCount) else slot + 1
      ensures slot != -1 ==>
                && 0 <= slot < MAX_CLIENTS && !old(active[slot])
                && (forall i :: 0 <= i < slot ==> old(active[i]))
                && active[..] == old(active[..])[slot := true]
                && sockets[..] == old(sockets[..])[slot := socket]
    {
      slot := -1;
      for i := 0 to MAX_CLIENTS
        invariant slot == -1 && forall k :: 0 <= k < i ==> active[k]
      {
        if !active[i] {
          slot := i;
          break;
        }
      }
      if slot == -1 {
        return;
      }
      sockets[slot] := socket;
      active[slot] := true;
      if slot >= clientCount {
        clientCount := slot + 1;
      }
    }

    /** One turn of `synchronize_time`: ask every active slot, drop those that do not answer,
        average, send the average back and set the daemon's own clock to it. */
    method SynchronizeTime(clock: Clock, readAt: int, setAt: int, replies: seq<int>) returns (outcome: Outcome)
      requires Valid() && |replies| == MAX_CLIENTS
      modifies active, clock
      ensures Valid()
      ensures clientCount == 0 ==>
                outcome == Skipped && active[..] == old(active[..]) && clock.offset == old(clock.offset)
      ensures clientCount != 0 ==>
                && outcome.Synchronized?
                && clock.offset == OffsetAfterSet(old(clock.offset), setAt, outcome.average)
                && var times := [Seconds(old(clock.Reading(readAt)))] + Collected(old(active[..]), replies);
                IsQuotient(Sum(times), |times|, outcome.average)
      ensures clientCount != 0 ==>
                && outcome == Synchronized(Average([Seconds(old(clock.Reading(readAt)))] +
                                                   Collected(old(active[..]), replies)), active[..])
                && forall i :: 0 <= i < MAX_CLIENTS ==> (active[i] <==> old(active[i]) && replies[i] != FAILED)
    {
      if clientCount == 0 {
        return Skipped;
      }
      var times, validTimes := CollectTimes(Seconds(clock.Reading(readAt)), replies);
      var total := 0;
      for i := 0 to validTimes
        invariant total == Sum(times[..i])
      {
        total := total + times[i];
        assert times[..i + 1][..i] == times[..i];
      }
      var average := TruncDiv(total, validTimes);
      QuotientExactly(total, validTimes);
      var corrected := SendCorrections(validTimes);
      clock.SetSeconds(setAt, average);
      return Synchronized(average, corrected);
    }

    method CollectTimes(localTime: int, replies: seq<int>) returns (times: array<int>, validTimes: nat)
      requires Valid() && |replies| == MAX_CLIENTS
      modifies active
      ensures Valid() && fresh(times)
      ensures 1 <= validTimes <= times.Length
      ensures times[..validTimes] == [localTime] + Collected(old(active[..]), replies)
      ensures validTimes == CountActive(active[..]) + 1
      ensures forall i :: 0 <= i < MAX_CLIENTS ==> (active[i] <==> old(active[i]) && replies[i] != FAILED)
    {
      times := new int[MAX_CLIENTS + 1];
      validTimes := 1;
      times[0] := localTime;
      for i := 0 to clientCount
        invariant 1 <= validTimes <= i + 1
        invariant times[..validTimes] == [localTime] + Collected(old(active[..])[..i], replies[..i])
        invariant validTimes == CountActive(active[..i]) + 1
        invariant forall k :: 0 <= k < i ==> (active[k] <==> old(active[k]) && replies[k] != FAILED)
        invariant forall k :: i <= k < MAX_CLIENTS ==> active[k] == old(active[k])
      {
        ghost var was := old(active[..]);
        assert was[..i + 1][..i] == was[..i] && replies[..i + 1][..i] == replies[..i];
        if active[i] {
          if replies[i] != FAILED {
            times[validTimes] := replies[i];
            validTimes := validTimes + 1;
          } else {
            active[i] := false;
          }
        }
        assert active[..i + 1][..i] == active[..i];
      }
    }

    /** Every active client gets the average: the guard on `valid_times` never skips one. */
    method SendCorrections(validTimes: nat) returns (corrected: seq<bool>)
      requires Valid() && validTimes == CountActive(active[..]) + 1
      ensures corrected == active[..]
    {
      var clientIndex := 0;
      corrected := [];
      for i := 0 to clientCount
        invariant clientIndex == CountActive(active[..i])
        invariant corrected == active[..i]
      {
        assert active[..i + 1][..i] == active[..i];
        var sent := false;
        if active[i] {
          clientIndex := clientIndex + 1;
          CountGrows(active[..], i + 1);
          if clientIndex < validTimes {
            sent := true;
          }
        }
        corrected := corrected + [sent];
      }
      corrected := corrected + seq(MAX_CLIENTS - clientCount, _ => false);
    }
  }

  lemma {:induction false} CountGrows(active: seq<bool>, k: nat)
    requires k <= |active|
    ensures CountActive(active[..k]) <= CountActive(active)
    decreases |active|
  {
    if k < |active| {
      CountGrows(active[..|active| - 1], k);
      assert active[..|active| - 1][..k] == active[..k];
    } else {
      assert active[..k] == active;
    }
  }
}
