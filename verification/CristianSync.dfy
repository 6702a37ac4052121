/** Cristian's algorithm: one request to the daemon, half the round trip added to its answer. */
module CristianSync {
  import opened WallClock

  /** The latency the client assumes: two integer divisions, one after the other. */
  function EstimatedLatency(rtt: int): (seconds: int)
    ensures rtt >= 0 ==> 2 * seconds * SECOND <= rtt < 2 * (seconds + 1) * SECOND
  {
    TruncDiv(TruncDiv(rtt, SECOND), 2)
  }

  /** The instants of one round, in real time. */
  datatype Round = Round(sendAt: int, serverAt: int, receiveAt: int, setAt: int) {
    predicate InOrder() {
      sendAt <= serverAt <= receiveAt <= setAt
    }

    function Rtt(): int {
      receiveAt - sendAt
    }

    function Delay(): int {
      setAt - receiveAt
    }
  }

  /** The client's offset after a round. */
  function NewOffset(client: int, server: int, r: Round): int {
    var rtt := (r.receiveAt + client) - (r.sendAt + client);
    OffsetAfterSet(client, r.setAt, Seconds(r.serverAt + server) + EstimatedLatency(rtt))
  }

  /** One turn of the loop in `cristian_sync`, with the daemon answering from its own clock. */
  method Synchronize(client: Clock, server: Clock, r: Round)
    requires client != server && r.InOrder()
    modifies client
    ensures client.offset == NewOffset(old(client.offset), server.offset, r)
    ensures client.Reading(r.setAt) / SECOND ==
              server.Reading(r.serverAt) / SECOND + (r.receiveAt - r.sendAt) / SECOND / 2
    ensures client.Reading(r.setAt) % SECOND == old(client.Reading(r.setAt)) % SECOND
    ensures Within(client.offset - server.offset, r)
  {
    var startTime := client.Reading(r.sendAt);
    var serverTime := Seconds(server.Reading(r.serverAt));
    var endTime := client.Reading(r.receiveAt);
    var rtt := endTime - startTime;
    var rttSeconds := TruncDiv(rtt, SECOND);
    var latency := TruncDiv(rttSeconds, 2);
    client.SetSeconds(r.setAt, serverTime + latency);
    ErrorBound(old(client.offset), server.offset, r);
  }

  /** The error lies strictly between -(RTT/2 + 2 s) and RTT/2 + 1 s, less the time that passed
      between the answer and the correction. */
  predicate Within(error: int, r: Round) {
    -(r.Rtt() + 4 * SECOND) < 2 * (error + r.Delay()) < r.Rtt() + 2 * SECOND
  }

  /** The bound holds for every round trip time and every moment of the daemon's answer. */
  lemma ErrorBound(client: int, server: int, r: Round)
    requires r.InOrder()
    ensures Within(NewOffset(client, server, r) - server, r)
  {
    var latency := EstimatedLatency(r.Rtt());
    var answer := Seconds(r.serverAt + server);
    var corrected := r.setAt + NewOffset(client, server, r);
    assert (answer + latency) * SECOND <= corrected < (answer + latency) * SECOND + SECOND;
  }

  /** The lower bound is met to within a microsecond and a half. */
  lemma LowerBoundIsTight(k: nat) returns (client: int, server: int, r: Round)
    ensures r.InOrder() && r.Rtt() == (2 * k + 2) * SECOND - 1 && r.Delay() == 0
    ensures 2 * (NewOffset(client, server, r) - server) == -(r.Rtt() + 4 * SECOND) + 3
  {
    var rtt := (2 * k + 2) * SECOND - 1;
    r := Round(0, 0, rtt, rtt);
    server := SECOND - 1;
    client := -rtt;
    assert EstimatedLatency(rtt) == k;
  }

  /** The upper bound is met to within a microsecond. */
  lemma UpperBoundIsTight(k: nat) returns (client: int, server: int, r: Round)
    ensures r.InOrder() && r.Rtt() == 2 * k * SECOND && r.Delay() == 0
    ensures 2 * (NewOffset(client, server, r) - server) == r.Rtt() + 2 * SECOND - 2
  {
    var rtt := 2 * k * SECOND;
    r := Round(0, rtt, rtt, rtt);
    server := -rtt;
    client := SECOND - 1 - rtt;
    EvenLatency(k);
    KeptMicroseconds(client, rtt, k, SECOND - 1);
  }

  lemma EvenLatency(k: nat)
    ensures EstimatedLatency(2 * k * SECOND) == k
  {
  }

  lemma KeptMicroseconds(offset: int, now: int, seconds: int, usec: int)
    requires 0 <= usec < SECOND && now + offset == usec
    ensures now + OffsetAfterSet(offset, now, seconds) == seconds * SECOND + usec
  {
  }
}
