/** How close clocks are after a Berkeley round, and how far a round can carry them. */
module BerkeleyConvergence {
  import opened WallClock
  import opened BerkeleyRound

  /** A clock in a round: its offset before, and when it was read and set. */
  datatype Participant = Participant(offset: int, readAt: int, setAt: int)

  /** Everything in the round happens between its start and `duration` microseconds later. */
  predicate Within(p: Participant, start: int, duration: int) {
    start <= p.readAt <= start + duration && start <= p.setAt <= start + duration
  }

  /** What each client would answer; a client that fails answers nothing usable. */
  predicate AnswersAreReadings(clients: seq<Participant>, replies: seq<int>) {
    && |replies| == |clients|
    && forall i :: 0 <= i < |clients| ==>
         replies[i] == FAILED || replies[i] == Seconds(clients[i].readAt + clients[i].offset)
  }

  predicate TakesPart(active: seq<bool>, replies: seq<int>, i: int)
    requires |active| == |replies|
  {
    0 <= i < |active| && active[i] && replies[i] != FAILED
  }

  /** The offset of a participant once it was set to the average. */
  function Corrected(p: Participant, average: int): int {
    OffsetAfterSet(p.offset, p.setAt, average)
  }

  lemma ReadingBetween(p: Participant, start: int, duration: int, lo: int, hi: int)
    requires Within(p, start, duration) && lo <= p.offset <= hi
    ensures Seconds(start + lo) <= Seconds(p.readAt + p.offset) <= Seconds(start + duration + hi)
  {
  }

  lemma {:induction false} CollectedBetween(active: seq<bool>, clients: seq<Participant>, replies: seq<int>,
                                            start: int, duration: int, lo: int, hi: int)
    requires |active| == |clients| && AnswersAreReadings(clients, replies)
    requires forall i :: TakesPart(active, replies, i) ==>
               Within(clients[i], start, duration) && lo <= clients[i].offset <= hi
    ensures forall k :: 0 <= k < |Collected(active, replies)| ==>
              Seconds(start + lo) <= Collected(active, replies)[k] <= Seconds(start + duration + hi)
  {
    if active != [] {
      var n := |active| - 1;
      forall i | TakesPart(active[..n], replies[..n], i)
        ensures Within(clients[..n][i], start, duration) && lo <= clients[..n][i].offset <= hi
      {
        assert TakesPart(active, replies, i);
      }
      CollectedBetween(active[..n], clients[..n], replies[..n], start, duration, lo, hi);
      if TakesPart(active, replies, n) {
        ReadingBetween(clients[n], start, duration, lo, hi);
      }
    }
  }

  /** The clocks a round corrects: the daemon's own and those of the clients that answered. */
  ghost predicate IsCorrected(server: Participant, active: seq<bool>, clients: seq<Participant>, replies: seq<int>,
                              p: Participant)
    requires |active| == |clients| == |replies|
  {
    p == server || exists i :: TakesPart(active, replies, i) && p == clients[i]
  }

  /** After a round any two corrected clocks differ by less than its duration plus 1 s, whatever
      they showed before, and each lies within its duration plus 1 s of the interval that the
      participants' offsets spanned. */
  lemma RoundConverges(server: Participant, active: seq<bool>, clients: seq<Participant>, replies: seq<int>,
                       start: int, duration: int, lo: int, hi: int)
    requires |active| == |clients| && AnswersAreReadings(clients, replies)
    requires Within(server, start, duration) && lo <= server.offset <= hi
    requires forall i :: TakesPart(active, replies, i) ==>
               Within(clients[i], start, duration) && lo <= clients[i].offset <= hi
    ensures var average := Average([Seconds(server.readAt + server.offset)] + Collected(active, replies));
            && (forall p :: IsCorrected(server, active, clients, replies, p) ==>
                  lo - duration - SECOND < Corrected(p, average) < hi + duration + SECOND)
            && (forall p, q ::
                  (IsCorrected(server, active, clients, replies, p)
                    && IsCorrected(server, active, clients, replies, q)) ==>
                  Corrected(p, average) - Corrected(q, average) < duration + SECOND)
  {
    var times := [Seconds(server.readAt + server.offset)] + Collected(active, replies);
    ReadingBetween(server, start, duration, lo, hi);
    CollectedBetween(active, clients, replies, start, duration, lo, hi);
    AverageBetween(times, Seconds(start + lo), Seconds(start + duration + hi));
    forall p | IsCorrected(server, active, clients, replies, p)
      ensures Within(p, start, duration)
      ensures lo - duration - SECOND < Corrected(p, Average(times)) < hi + duration + SECOND
    {
      StaysNear(p, Average(times), start, duration, lo, hi);
    }
  }

  lemma StaysNear(p: Participant, average: int, start: int, duration: int, lo: int, hi: int)
    requires Within(p, start, duration)
    requires Seconds(start + lo) <= average <= Seconds(start + duration + hi)
    ensures lo - duration - SECOND < Corrected(p, average) < hi + duration + SECOND
  {
    var now := p.setAt + Corrected(p, average);
    assert average * SECOND <= now < average * SECOND + SECOND;
    assert start + lo - SECOND < Seconds(start + lo) * SECOND <= average * SECOND;
    assert average * SECOND <= Seconds(start + duration + hi) * SECOND <= start + duration + hi;
  }

  /** The bound on agreement is met to within a microsecond for every duration: each clock keeps its
      own microseconds, and the clocks are set at different instants. */
  lemma AgreementIsTight(average: int, start: int, duration: nat) returns (p: Participant, q: Participant)
    ensures Within(p, start, duration) && Within(q, start, duration)
    ensures Corrected(p, average) - Corrected(q, average) == duration + SECOND - 1
  {
    p := Participant(SECOND - 1 - start, start, start);
    q := Participant(-(start + duration), start, start + duration);
  }
}
