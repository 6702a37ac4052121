/** The first distributed file system end to end: name server, file servers and clients that
    lock, fetch, edit and put back. */
module FileSharing {
  import opened Text
  import opened NameTable
  import opened FileLines

  type Client = int

  /** A file as it stands; the version counts how often it was replaced. */
  datatype Stored = Stored(version: nat, content: string)

  /** Where a writing client stands between its request and the unlock its update causes. */
  datatype Session =
    | Idle
    | Granted(name: string, at: Address)
    | Fetched(name: string, at: Address, base: Stored, copy: string)
    | Sending(name: string, at: Address, base: Stored, edited: string)
    | Unlocking(name: string, at: Address)

  /** `busy` is the client whose update the server is confirming at the name server. */
  datatype Server = Server(files: map<string, Stored>, registered: set<string>, busy: Option<Client>)

  type Sessions = map<Client, Session>
  type Servers = map<Address, Server>

  datatype System = System(rows: seq<Row>, servers: Servers, sessions: Sessions)

  function Of(sessions: Sessions, c: Client): Session {
    if c in sessions then sessions[c] else Idle
  }

  function SessionOf(s: System, c: Client): Session {
    Of(s.sessions, c)
  }

  ghost predicate Initial(s: System) {
    && s.rows == [] && s.sessions == map[]
    && forall a :: a in s.servers ==> s.servers[a].registered == {} && s.servers[a].busy == None
  }

  // ---------- steps ----------

  datatype Step =
    | RegisterStep(at: Address, name: string)
    | RequestStep(client: Client, name: string)
    | ReadStep(client: Client, name: string)
    | FetchStep(client: Client)
    | SendStep(client: Client, edited: string)
    | PutStep(client: Client)
    | UnlockStep(client: Client)

  /** A file server serves one connection at a time. */
  predicate Free(s: System, at: Address) {
    at in s.servers && s.servers[at].busy.None?
  }

  predicate Enabled(s: System, step: Step) {
    match step
    case RegisterStep(at, name) => at in s.servers && name in s.servers[at].files
    case RequestStep(c, name) => SessionOf(s, c).Idle?
    case ReadStep(_, _) => true
    case FetchStep(c) => SessionOf(s, c).Granted? && Free(s, SessionOf(s, c).at)
    case SendStep(c, _) => SessionOf(s, c).Fetched?
    case PutStep(c) => SessionOf(s, c).Sending? && Free(s, SessionOf(s, c).at)
    case UnlockStep(c) => SessionOf(s, c).Unlocking? && SessionOf(s, c).at in s.servers
  }

  function RegisterAt(s: System, at: Address, name: string): System
    requires at in s.servers
  {
    match Register(s.rows, |s.rows| + 1, name, at, File)
    case Refused(_) => s
    case Registered(rows) =>
      var server := s.servers[at];
      s.(rows := rows, servers := s.servers[at := server.(registered := server.registered + {name})])
  }

  function RequestBy(s: System, c: Client, name: string): System {
    var (answer, rows) := Ask(s.rows, name, Write);
    if answer.Ok? then s.(rows := rows, sessions := s.sessions[c := Granted(name, answer.row.address)])
    else s.(rows := rows)
  }

  /** GET_FILE: only a registered file that exists is served; anything else arrives empty. */
  function FetchBy(s: System, c: Client): System
    requires Enabled(s, FetchStep(c))
  {
    var Granted(name, at) := SessionOf(s, c);
    var server := s.servers[at];
    if name in server.registered && name in server.files then
      var file := server.files[name];
      s.(sessions := s.sessions[c := Fetched(name, at, file, Sent(file.content))])
    else s.(sessions := s.sessions[c := Fetched(name, at, Stored(0, ""), "")])
  }

  /** PUT_FILE: a registered file is replaced and the server turns to the name server. */
  function PutBy(s: System, c: Client): System
    requires Enabled(s, PutStep(c))
  {
    var Sending(name, at, base, edited) := SessionOf(s, c);
    var server := s.servers[at];
    if name !in server.registered then s.(sessions := s.sessions[c := Idle])
    else
      var version := if name in server.files then server.files[name].version + 1 else 0;
      var file := Stored(version, Sent(edited));
      s.(servers := s.servers[at := server.(files := server.files[name := file], busy := Some(c))],
         sessions := s.sessions[c := Unlocking(name, at)])
  }

  /** UNLOCK_FILE by the file server, then it is free again. */
  function UnlockFor(s: System, c: Client): System
    requires Enabled(s, UnlockStep(c))
  {
    var Unlocking(name, at) := SessionOf(s, c);
    System(Unlock(s.rows, name), s.servers[at := s.servers[at].(busy := None)], s.sessions[c := Idle])
  }

  function Next(s: System, step: Step): System
    requires Enabled(s, step)
  {
    match step
    case RegisterStep(at, name) => RegisterAt(s, at, name)
    case RequestStep(c, name) => RequestBy(s, c, name)
    case ReadStep(_, name) => s.(rows := Ask(s.rows, name, Read).1)
    case FetchStep(c) => FetchBy(s, c)
    case SendStep(c, edited) =>
      var Fetched(name, at, base, _) := SessionOf(s, c);
      s.(sessions := s.sessions[c := Sending(name, at, base, edited)])
    case PutStep(c) => PutBy(s, c)
    case UnlockStep(c) => UnlockFor(s, c)
  }

  datatype Run = Begin | Then(before: Run, step: Step)

  predicate Possible(s: System, run: Run) {
    run.Begin? || (Possible(s, run.before) && Enabled(Exec(s, run.before), run.step))
  }

  function Exec(s: System, run: Run): System {
    if run.Begin? then s
    else
      var t := Exec(s, run.before);
      if Enabled(t, run.step) then Next(t, run.step) else t
  }

  // ---------- the invariant ----------

  predicate Serves(servers: Servers, at: Address, name: string) {
    at in servers && name in servers[at].registered && name in servers[at].files
  }

  /** Every known name is served where the table says, and nowhere else. */
  ghost predicate Placed(m: map<string, Row>, servers: Servers) {
    && (forall name :: name in m ==> Serves(servers, m[name].address, name))
    && (forall a, name :: a in servers && name in servers[a].registered ==> name in m && m[name].address == a)
  }

  /** A client between its granted write and the matching unlock. */
  predicate Holds(sessions: Sessions, c: Client, name: string) {
    !Of(sessions, c).Idle? && Of(sessions, c).name == name
  }

  ghost predicate SomebodyHolds(sessions: Sessions, name: string) {
    exists c :: Holds(sessions, c, name)
  }

  /** The locks of the name server are exactly the writers at work, one for each file. */
  ghost predicate LocksHeld(m: map<string, Row>, sessions: Sessions) {
    && (forall c, name :: Holds(sessions, c, name) ==>
          name in m && m[name].locked && m[name].address == Of(sessions, c).at)
    && (forall c, d, name :: Holds(sessions, c, name) && Holds(sessions, d, name) ==> c == d)
    && (forall name :: name in m && m[name].locked ==> SomebodyHolds(sessions, name))
  }

  /** What a writer fetched is still what the server holds. */
  ghost predicate CopiesCurrent(servers: Servers, sessions: Sessions) {
    forall c :: CopyIsCurrent(servers, Of(sessions, c))
  }

  predicate CopyIsCurrent(servers: Servers, h: Session) {
    h.Fetched? || h.Sending? ==>
      && Serves(servers, h.at, h.name) && servers[h.at].files[h.name] == h.base
      && (h.Fetched? ==> h.copy == Sent(h.base.content))
  }

  /** A server is busy exactly with the client whose update it is confirming. */
  ghost predicate BusyMatches(servers: Servers, sessions: Sessions) {
    forall c, a :: a in servers ==> (servers[a].busy == Some(c) <==> Confirms(Of(sessions, c), a))
  }

  predicate Confirms(h: Session, a: Address) {
    h.Unlocking? && h.at == a
  }

  ghost predicate Inv(s: System) {
    && UniqueNames(s.rows)
    && Placed(AsMap(s.rows), s.servers)
    && LocksHeld(AsMap(s.rows), s.sessions)
    && CopiesCurrent(s.servers, s.sessions)
    && BusyMatches(s.servers, s.sessions)
  }

  lemma InitialInv(s: System)
    requires Initial(s)
    ensures Inv(s)
  {
    assert forall c :: Of(s.sessions, c) == Idle;
    assert forall name :: name !in AsMap(s.rows);
  }
}
