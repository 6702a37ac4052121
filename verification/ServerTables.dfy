/** The name server with two tables under two mutexes: file servers, and files that point to
    them by index. */
module ServerTables {
  import opened Text

  const MAX_SERVERS: nat := 50
  const MAX_FILES: nat := 1000

  datatype ServerRow = ServerRow(ip: string, port: int, available: bool, index: int)

  datatype FileRow = FileRow(name: string, locked: bool, server: int, isDirectory: bool)

  /** First row with this address, or the length of the table. */
  function FindServer(servers: seq<ServerRow>, ip: string, port: int): (i: nat)
    ensures i <= |servers|
    ensures forall k :: 0 <= k < i ==> servers[k].ip != ip || servers[k].port != port
    ensures i < |servers| ==> servers[i].ip == ip && servers[i].port == port
  {
    if servers == [] || (servers[0].ip == ip && servers[0].port == port) then 0
    else 1 + FindServer(servers[1..], ip, port)
  }

  /** First available row with this IP, whatever its port, or the length of the table. */
  function FindByIp(servers: seq<ServerRow>, ip: string): (i: nat)
    ensures i <= |servers|
    ensures forall k :: 0 <= k < i ==> servers[k].ip != ip || !servers[k].available
    ensures i < |servers| ==> servers[i].ip == ip && servers[i].available
  {
    if servers == [] || (servers[0].ip == ip && servers[0].available) then 0
    else 1 + FindByIp(servers[1..], ip)
  }

  function FindFile(files: seq<FileRow>, name: string): (i: nat)
    ensures i <= |files|
    ensures forall k :: 0 <= k < i ==> files[k].name != name
    ensures i < |files| ==> files[i].name == name
  {
    if files == [] || files[0].name == name then 0 else 1 + FindFile(files[1..], name)
  }

  // ---------- the tables and their critical sections ----------

  function AddServer(servers: seq<ServerRow>, ip: string, port: int): seq<ServerRow> {
    var i := FindServer(servers, ip, port);
    if i < |servers| then servers[i := servers[i].(available := true)]
    else if |servers| < MAX_SERVERS then servers + [ServerRow(ip, port, true, |servers|)]
    else servers
  }

  /** The test at the start of `registrar_archivo_directorio`. */
  predicate ServerUsable(servers: seq<ServerRow>, index: nat) {
    index < |servers| && servers[index].available
  }

  function AddFile(servers: seq<ServerRow>, files: seq<FileRow>, name: string, index: nat,
                   isDirectory: bool): seq<FileRow>
  {
    if !ServerUsable(servers, index) || FindFile(files, name) < |files| || |files| >= MAX_FILES then files
    else files + [FileRow(name, false, index, isDirectory)]
  }

  predicate HasAddress(row: ServerRow, ip: string, port: int) {
    row.ip == ip && row.port == port
  }

  /** A known address becomes available in its first row, a new one gets a row of its own while one is
      free, and no other row differs. */
  lemma AddServerExactly(servers: seq<ServerRow>, ip: string, port: int)
    ensures var after := AddServer(servers, ip, port);
            if exists k :: 0 <= k < |servers| && HasAddress(servers[k], ip, port) then
              && |after| == |servers|
              && forall k :: 0 <= k < |servers| ==>
                   after[k] == if HasAddress(servers[k], ip, port)
                                  && (forall i :: 0 <= i < k ==> !HasAddress(servers[i], ip, port))
                               then servers[k].(available := true) else servers[k]
            else if |servers| < 50 then after == servers + [ServerRow(ip, port, true, |servers|)]
            else after == servers
  {
    var i := FindServer(servers, ip, port);
    assert i < |servers| ==> HasAddress(servers[i], ip, port);
    assert forall k :: 0 <= k < i ==> !HasAddress(servers[k], ip, port);
  }

  class Tables {
    const servers: array<ServerRow>
    const files: array<FileRow>
    var serverCount: nat
    var fileCount: nat

    ghost predicate Valid()
      reads this
    {
      && servers.Length == MAX_SERVERS && serverCount <= MAX_SERVERS
      && files.Length == MAX_FILES && fileCount <= MAX_FILES
    }

    ghost function Servers(): seq<ServerRow>
      requires Valid()
      reads this, servers
    {
      servers[..serverCount]
    }

    ghost function Files(): seq<FileRow>
      requires Valid()
      reads this, files
    {
      files[..fileCount]
    }

    constructor ()
      ensures Valid() && Servers() == [] && Files() == []
    {
      servers := new ServerRow[MAX_SERVERS](_ => ServerRow("", 0, false, 0));
      files := new FileRow[MAX_FILES](_ => FileRow("", false, 0, false));
      serverCount, fileCount := 0, 0;
    }

    /** `registrar_servidor`. */
    method RegisterServer(ip: string, port: int) returns (index: int)
      requires Valid()
      modifies this`serverCount, servers
      ensures Valid() && Servers() == AddServer(old(Servers()), ip, port)
      ensures index == -1 ==> FindServer(Servers(), ip, port) == |Servers()|
      ensures index != -1 ==> index == FindServer(Servers(), ip, port) < |Servers()|
      ensures index == -1 <==> |old(Servers())| == 50
                               && forall k :: 0 <= k < |old(Servers())| ==> !HasAddress(old(Servers())[k], ip, port)
    {
      var i := 0;
      while i < serverCount
        invariant i <= serverCount
        invariant forall k :: 0 <= k < i ==> servers[k].ip != ip || servers[k].port != port
      {
        if servers[i].ip == ip && servers[i].port == port {
          servers[i] := servers[i].(available := true);
          return i;
        }
        i := i + 1;
      }
      if serverCount < MAX_SERVERS {
        index := serverCount;
        servers[index] := ServerRow(ip, port, true, index);
        serverCount := serverCount + 1;
        return;
      }
      return -1;
    }

    /** The search for the sender's row, under the mutex of the server table. */
    method FindSender(ip: string) returns (index: int)
      requires Valid()
      ensures index == var i := FindByIp(Servers(), ip); if i < |Servers()| then i else -1
    {
      index := -1;
      for i := 0 to serverCount
        invariant index == -1
        invariant forall k :: 0 <= k < i ==> servers[k].ip != ip || !servers[k].available
      {
        if servers[i].ip == ip && servers[i].available {
          index := i;
          break;
        }
      }
    }

    /** `registrar_archivo_directorio`, under the mutex of the file table only. */
    method RegisterFile(name: string, index: nat, isDirectory: bool) returns (accepted: bool)
      requires Valid()
      modifies this`fileCount, files
      ensures Valid() && Files() == AddFile(Servers(), old(Files()), name, index, isDirectory)
      ensures Files() == if accepted then old(Files()) + [FileRow(name, false, index, isDirectory)] else old(Files())
      ensures accepted <==>
                && index < |Servers()| && Servers()[index].available && |old(Files())| < 1000
                && forall k :: 0 <= k < |old(Files())| ==> old(Files())[k].name != name
    {
      if index >= serverCount || !servers[index].available {
        return false;
      }
      var i := 0;
      while i < fileCount
        invariant i <= fileCount && forall k :: 0 <= k < i ==> files[k].name != name
      {
        if files[i].name == name {
          return false;
        }
        i := i + 1;
      }
      if fileCount < MAX_FILES {
        files[fileCount] := FileRow(name, false, index, isDirectory);
        fileCount := fileCount + 1;
        return true;
      }
      return false;
    }
  }

  // ---------- interleavings ----------

  type Thread = int

  /** `filling` is a row being written past the end of the server table, not yet counted;
      `found` holds the indices threads found and will use later. */
  datatype State =
    State(servers: seq<ServerRow>, filling: Option<ServerRow>, files: seq<FileRow>, found: map<Thread, nat>)

  datatype Step =
    | StartServer(ip: string, port: int)
    | PublishServer
    | Look(thread: Thread, ip: string)
    | Record(thread: Thread, name: string, isDirectory: bool)

  /** A row being written keeps the mutex of the server table, not that of the file table. */
  predicate Enabled(s: State, step: Step) {
    match step
    case StartServer(_, _) => s.filling.None?
    case PublishServer => s.filling.Some?
    case Look(t, _) => s.filling.None? && t !in s.found
    case Record(t, _, _) => t in s.found
  }

  function Next(s: State, step: Step): State
    requires Enabled(s, step)
  {
    match step
    case StartServer(ip, port) =>
      var i := FindServer(s.servers, ip, port);
      if i < |s.servers| then s.(servers := s.servers[i := s.servers[i].(available := true)])
      else if |s.servers| < MAX_SERVERS then s.(filling := Some(ServerRow(ip, port, true, |s.servers|)))
      else s
    case PublishServer => s.(servers := s.servers + [s.filling.value], filling := None)
    case Look(t, ip) =>
      var i := FindByIp(s.servers, ip);
      if i < |s.servers| then s.(found := s.found[t := i]) else s
    case Record(t, name, isDirectory) =>
      s.(files := AddFile(s.servers, s.files, name, s.found[t], isDirectory), found := s.found - {t})
  }

  /** Without interleaving, starting and publishing a server is one registration. */
  lemma StartThenPublish(s: State, ip: string, port: int)
    requires s.filling.None?
    ensures var t := Next(s, StartServer(ip, port));
            (if t.filling.Some? then Next(t, PublishServer) else t) == s.(servers := AddServer(s.servers, ip, port))
  {
  }

  datatype Run = Begin | Then(before: Run, step: Step)

  const EMPTY := State([], None, [], map[])

  predicate Possible(run: Run) {
    run.Begin? || (Possible(run.before) && Enabled(Exec(run.before), run.step))
  }

  function Exec(run: Run): State {
    if run.Begin? then EMPTY
    else if Enabled(Exec(run.before), run.step) then Next(Exec(run.before), run.step)
    else Exec(run.before)
  }

  ghost predicate ServersInv(servers: seq<ServerRow>) {
    && |servers| <= MAX_SERVERS
    && (forall i :: 0 <= i < |servers| ==> servers[i].index == i && servers[i].available)
    && (forall i, j :: 0 <= i < j < |servers| ==> servers[i].ip != servers[j].ip || servers[i].port != servers[j].port)
  }

  ghost predicate FilesInv(servers: seq<ServerRow>, files: seq<FileRow>) {
    && |files| <= MAX_FILES
    && (forall i :: 0 <= i < |files| ==> 0 <= files[i].server < |servers|)
    && (forall i, j :: 0 <= i < j < |files| ==> files[i].name != files[j].name)
  }

  ghost predicate Inv(s: State) {
    && ServersInv(s.servers)
    && FilesInv(s.servers, s.files)
    && (s.filling.Some? ==> ServersInv(s.servers + [s.filling.value]))
    && (forall t :: t in s.found ==> s.found[t] < |s.servers|)
  }

  lemma NewServerFits(servers: seq<ServerRow>, ip: string, port: int)
    requires ServersInv(servers) && |servers| < MAX_SERVERS && FindServer(servers, ip, port) == |servers|
    ensures ServersInv(servers + [ServerRow(ip, port, true, |servers|)])
  {
  }

  lemma RecordKeeps(s: State, t: Thread, name: string, isDirectory: bool)
    requires Inv(s) && t in s.found
    ensures FilesInv(s.servers, AddFile(s.servers, s.files, name, s.found[t], isDirectory))
  {
  }

  lemma StepKeeps(s: State, step: Step)
    requires Inv(s) && Enabled(s, step)
    ensures Inv(Next(s, step))
  {
    match step
    case StartServer(ip, port) =>
      var i := FindServer(s.servers, ip, port);
      if i < |s.servers| {
        assert s.servers[i := s.servers[i].(available := true)] == s.servers;
      } else if |s.servers| < MAX_SERVERS {
        NewServerFits(s.servers, ip, port);
      }
    case PublishServer =>
    case Look(t, ip) =>
    case Record(t, name, isDirectory) => RecordKeeps(s, t, name, isDirectory);
  }

  /** In every interleaving row i carries index i, addresses and names are unique, and every file
      points to a server that exists and is available. */
  lemma {:induction false} TablesStaySound(run: Run)
    requires Possible(run)
    ensures Inv(Exec(run))
  {
    if run.Then? {
      TablesStaySound(run.before);
      StepKeeps(Exec(run.before), run.step);
    }
  }

  /** An index found under one mutex is still good when it is used under the other: a file is
      refused only because its name is taken or the table is full. */
  lemma FoundIndexStaysGood(run: Run, t: Thread, name: string, isDirectory: bool)
    requires Possible(run) && t in Exec(run).found
    ensures var s := Exec(run);
            && ServerUsable(s.servers, s.found[t])
            && (AddFile(s.servers, s.files, name, s.found[t], isDirectory) == s.files
                <==> FindFile(s.files, name) < |s.files| || |s.files| == MAX_FILES)
  {
    TablesStaySound(run);
  }

  /** The IP a thread looked for last. */
  function LookedFor(run: Run, t: Thread): string {
    if run.Begin? then ""
    else
      match run.step
      case Look(u, ip) => if u == t then ip else LookedFor(run.before, t)
      case _ => LookedFor(run.before, t)
  }

  /** The row is the first with this IP. */
  ghost predicate IsFirstWith(servers: seq<ServerRow>, index: int, ip: string) {
    0 <= index < |servers| && servers[index].ip == ip && forall k :: 0 <= k < index ==> servers[k].ip != ip
  }

  lemma {:induction false} FoundIsSender(run: Run, t: Thread)
    requires Possible(run) && t in Exec(run).found
    ensures IsFirstWith(Exec(run).servers, Exec(run).found[t], LookedFor(run, t))
  {
    var s := Exec(run.before);
    TablesStaySound(run.before);
    if run.step.Look? && run.step.thread == t {
      assert forall k :: 0 <= k < |s.servers| ==> s.servers[k].available;
    } else {
      FoundIsSender(run.before, t);
      assert forall k :: 0 <= k < |s.servers| ==> Exec(run).servers[k].ip == s.servers[k].ip;
    }
  }

  /** In every interleaving a thread that records a file adds one row, with that name, kind and no lock,
      that points to the first server with the IP the thread looked for, unless the name is taken or the
      table is full; nothing else of the file table ever changes. */
  lemma RecordExactly(run: Run, t: Thread, name: string, isDirectory: bool)
    requires Possible(run) && t in Exec(run).found
    ensures Enabled(Exec(run), Record(t, name, isDirectory))
    ensures var s := Exec(run);
            var u := Next(s, Record(t, name, isDirectory));
            && u.servers == s.servers
            && if |s.files| == 1000 || exists k :: 0 <= k < |s.files| && s.files[k].name == name
               then u.files == s.files
               else
                 && |u.files| == |s.files| + 1 && s.files <= u.files
                 && var row := u.files[|s.files|];
                 && row.name == name && !row.locked && row.isDirectory == isDirectory
                 && IsFirstWith(s.servers, row.server, LookedFor(run, t))
  {
    TablesStaySound(run);
    FoundIsSender(run, t);
  }

  lemma OtherStepsKeepFiles(s: State, step: Step)
    requires Enabled(s, step) && !step.Record?
    ensures Next(s, step).files == s.files
  {
  }

  /** A look finds a server exactly when one with that IP is available, and changes no table. */
  lemma LookExactly(s: State, t: Thread, ip: string)
    requires s.filling.None? && t !in s.found
    ensures Enabled(s, Look(t, ip))
    ensures var u := Next(s, Look(t, ip));
            && u.servers == s.servers && u.files == s.files && u.filling == s.filling
            && (t in u.found <==> exists k :: 0 <= k < |s.servers| && s.servers[k].ip == ip && s.servers[k].available)
            && forall v :: v != t ==> (v in u.found <==> v in s.found) && (v in u.found ==> u.found[v] == s.found[v])
  {
    var i := FindByIp(s.servers, ip);
  }

  /** A file is attributed to the server that registers it exactly when no earlier row has the
      same IP: the port is not looked at. */
  lemma AttributionExactly(run: Run, own: nat)
    requires Possible(run) && own < |Exec(run).servers|
    ensures var servers := Exec(run).servers;
            FindByIp(servers, servers[own].ip) == own <==>
            forall k :: 0 <= k < own ==> servers[k].ip != servers[own].ip
  {
    TablesStaySound(run);
    var servers := Exec(run).servers;
    var i := FindByIp(servers, servers[own].ip);
    assert i <= own;
  }
}
