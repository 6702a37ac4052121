/** The shared memory server as a step system: one step for each critical section
    of a page mutex, plus accepting and closing a connection. */
module PageModel {
  import opened Text
  import opened Messages

  type Conn = int

  /** Where the thread of a connection stands. */
  datatype Phase = Absent | Connected | Waiting(page: nat) | Granted(page: nat) | Finished

  datatype Page = Page(bytes: string, locked: bool, queue: seq<Conn>)

  /** What the server did that somebody can observe. */
  datatype Event =
    | Enqueued(conn: Conn, page: nat)
    | GrantSent(conn: Conn, page: nat, content: string)
    | Stored(conn: Conn, page: nat, content: string)

  datatype Trace = Start | After(past: Trace, last: Event)

  datatype State = State(pages: seq<Page>, phase: map<Conn, Phase>, trace: Trace)

  function PhaseOf(s: State, c: Conn): Phase {
    if c in s.phase then s.phase[c] else Absent
  }

  /** The server at start-up over memory that may already hold data. */
  ghost predicate Initial(s: State) {
    && s.phase == map[] && s.trace == Start
    && forall p :: 0 <= p < |s.pages| ==> !s.pages[p].locked && s.pages[p].queue == []
  }

  // ---------- steps ----------

  datatype Step =
    | Accept(conn: Conn)
    | FirstMessage(conn: Conn, received: string, delivered: bool)
    | Poll(conn: Conn, delivered: bool)
    | SecondMessage(conn: Conn, received: string)
    | Close(conn: Conn)

  /** The grant reply of a page with these bytes passes `send_command`. */
  predicate GrantFits(bytes: string) {
    Encode(0, Some(bytes)).Some?
  }

  predicate AtHead(s: State, c: Conn, p: int) {
    0 <= p < |s.pages| && s.pages[p].queue != [] && s.pages[p].queue[0] == c
  }

  function Leave(s: State, c: Conn): State {
    s.(phase := s.phase[c := Finished])
  }

  /** A blocking read of an existing page. */
  function RequestPage(s: State, c: Conn, p: nat, delivered: bool): State
    requires p < |s.pages|
  {
    var page := s.pages[p];
    if page.locked then
      if !delivered then Leave(s, c)
      else s.(pages := s.pages[p := page.(queue := page.queue + [c])],
              phase := s.phase[c := Waiting(p)],
              trace := After(s.trace, Enqueued(c, p)))
    else if !GrantFits(page.bytes) || !delivered then Leave(s, c)
    else s.(pages := s.pages[p := page.(locked := true, queue := page.queue + [c])],
            phase := s.phase[c := Granted(p)],
            trace := After(After(s.trace, Enqueued(c, p)), GrantSent(c, p, CString(page.bytes))))
  }

  /** One look of a waiting thread at the head of the queue. */
  function PollPage(s: State, c: Conn, p: nat, delivered: bool): State
    requires p < |s.pages|
  {
    if !AtHead(s, c, p) then s
    else if !GrantFits(s.pages[p].bytes) || !delivered then Leave(s, c)
    else s.(phase := s.phase[c := Granted(p)],
            trace := After(s.trace, GrantSent(c, p, CString(s.pages[p].bytes))))
  }

  function Zeros(n: nat): (z: string)
    ensures |z| == n && forall i :: 0 <= i < n ==> z[i] == '\0'
  {
    seq(n, _ => '\0')
  }

  function Cut(content: string, size: nat): (r: string)
    ensures r <= content && |r| == if |content| < size then |content| else size
  {
    if |content| < size then content else content[..size]
  }

  /** A page of this size after `memset` and `memcpy`. */
  function Overwrite(size: nat, content: string): (bytes: string)
    ensures |bytes| == size
  {
    Cut(content, size) + Zeros(size - |Cut(content, size)|)
  }

  function WritePage(s: State, c: Conn, p: int, content: Option<string>): State {
    if content.None? || !AtHead(s, c, p) then Leave(s, c)
    else
      var page := s.pages[p];
      var bytes := Overwrite(|page.bytes|, CString(content.value));
      var queue := page.queue[1..];
      State(s.pages[p := Page(bytes, page.locked && queue != [], queue)],
            s.phase[c := Finished],
            After(s.trace, Stored(c, p, CString(bytes))))
  }

  /** The first request of a connection; a plain read changes nothing, like anything unknown. */
  function Open(s: State, c: Conn, r: Request, delivered: bool): State {
    if r.command == 1 && 0 <= r.page < |s.pages| then RequestPage(s, c, r.page, delivered) else Leave(s, c)
  }

  /** The one message read from a connection that was granted a page. */
  function Finish(s: State, c: Conn, r: Request): State {
    if r.command == 2 then WritePage(s, c, r.page, r.content) else Leave(s, c)
  }

  /** A recv of at most 511 bytes comes before a step that parses a message. */
  predicate Enabled(s: State, step: Step) {
    match step
    case Accept(c) => PhaseOf(s, c).Absent?
    case FirstMessage(c, received, _) => PhaseOf(s, c).Connected? && |received| < MAX_MSG
    case Poll(c, _) => PhaseOf(s, c).Waiting? && PhaseOf(s, c).page < |s.pages|
    case SecondMessage(c, received) => PhaseOf(s, c).Granted? && |received| < MAX_MSG
    case Close(c) => PhaseOf(s, c).Finished?
  }

  function Next(s: State, step: Step): State
    requires Enabled(s, step)
  {
    match step
    case Accept(c) => s.(phase := s.phase[c := Connected])
    case FirstMessage(c, received, delivered) => Open(s, c, Parse(received), delivered)
    case Poll(c, delivered) => PollPage(s, c, PhaseOf(s, c).page, delivered)
    case SecondMessage(c, received) => Finish(s, c, Parse(received))
    case Close(c) => s.(phase := s.phase[c := Absent])
  }

  // ---------- runs ----------

  /** No node of an earlier connection with this identifier is still queued. */
  predicate NotQueued(s: State, c: Conn) {
    forall p :: 0 <= p < |s.pages| ==> c !in s.pages[p].queue
  }

  predicate LegalStep(s: State, step: Step) {
    Enabled(s, step) && (step.Accept? ==> NotQueued(s, step.conn))
  }

  datatype Run = Begin | Then(before: Run, step: Step)

  /** A run whose steps are all possible and that reuses no identifier still queued. */
  predicate Legal(s: State, run: Run) {
    run.Begin? || (Legal(s, run.before) && LegalStep(Exec(s, run.before), run.step))
  }

  /** A run whose steps are all possible, identifier reuse included. */
  predicate Possible(s: State, run: Run) {
    run.Begin? || (Possible(s, run.before) && Enabled(Exec(s, run.before), run.step))
  }

  function Exec(s: State, run: Run): State {
    if run.Begin? then s
    else
      var t := Exec(s, run.before);
      if Enabled(t, run.step) then Next(t, run.step) else t
  }

  function Append(a: Run, b: Run): Run {
    if b.Begin? then a else Then(Append(a, b.before), b.step)
  }

  lemma {:induction false} ExecAppend(s: State, a: Run, b: Run)
    ensures Exec(s, Append(a, b)) == Exec(Exec(s, a), b)
    ensures Legal(s, Append(a, b)) <==> Legal(s, a) && Legal(Exec(s, a), b)
    ensures Possible(s, Append(a, b)) <==> Possible(s, a) && Possible(Exec(s, a), b)
  {
    if b.Then? {
      ExecAppend(s, a, b.before);
    }
  }

  // ---------- reading the trace ----------

  /** The connections queued on a page, oldest first. */
  function EnqueuedOn(t: Trace, p: nat): seq<Conn> {
    match t
    case Start => []
    case After(past, Enqueued(c, q)) => if q == p then EnqueuedOn(past, p) + [c] else EnqueuedOn(past, p)
    case After(past, _) => EnqueuedOn(past, p)
  }

  /** The connections whose write to a page succeeded, oldest first. */
  function WritersOn(t: Trace, p: nat): seq<Conn> {
    match t
    case Start => []
    case After(past, Stored(c, q, _)) => if q == p then WritersOn(past, p) + [c] else WritersOn(past, p)
    case After(past, _) => WritersOn(past, p)
  }

  datatype Grant = Grant(page: nat, content: string)

  /** What the server last told a connection a page holds. */
  function LastGrant(t: Trace, c: Conn): Option<Grant> {
    match t
    case Start => None
    case After(past, GrantSent(d, p, content)) => if d == c then Some(Grant(p, content)) else LastGrant(past, c)
    case After(past, _) => LastGrant(past, c)
  }

  /** A successful write with the grant its author held. */
  datatype Write = Write(conn: Conn, seen: Option<Grant>, stored: string)

  function WritesOn(t: Trace, p: nat): seq<Write> {
    match t
    case Start => []
    case After(past, Stored(c, q, content)) =>
      if q == p then WritesOn(past, p) + [Write(c, LastGrant(past, c), content)] else WritesOn(past, p)
    case After(past, _) => WritesOn(past, p)
  }
}
