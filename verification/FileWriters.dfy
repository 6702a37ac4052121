/** Writers of the first file system are serialised, and each replaces what it fetched. */
module FileWriters {
  import opened Text
  import opened NameTable
  import opened FileLines
  import opened FileSharing

  // ---------- locks and writers ----------

  /** A change of one session that keeps its file, or leaves everybody's. */
  lemma SameHolders(m: map<string, Row>, before: Sessions, after: Sessions)
    requires LocksHeld(m, before)
    requires forall c, n :: Holds(after, c, n) <==> Holds(before, c, n)
    requires forall c, n :: Holds(after, c, n) ==> Of(after, c).at == Of(before, c).at
    ensures LocksHeld(m, after)
  {
    forall n | n in m && m[n].locked
      ensures SomebodyHolds(after, n)
    {
      var c :| Holds(before, c, n);
      assert Holds(after, c, n);
    }
  }

  lemma PhaseKeepsLocks(m: map<string, Row>, sessions: Sessions, c: Client, h: Session)
    requires LocksHeld(m, sessions)
    requires !Of(sessions, c).Idle? && !h.Idle? && h.name == Of(sessions, c).name && h.at == Of(sessions, c).at
    ensures LocksHeld(m, sessions[c := h])
  {
    SameHolders(m, sessions, sessions[c := h]);
  }

  lemma NewNameKeepsLocks(m: map<string, Row>, sessions: Sessions, row: Row)
    requires LocksHeld(m, sessions) && row.name !in m && !row.locked
    ensures LocksHeld(m[row.name := row], sessions)
  {
  }

  lemma GrantKeepsLocks(m: map<string, Row>, sessions: Sessions, c: Client, name: string)
    requires LocksHeld(m, sessions) && Of(sessions, c).Idle? && name in m && !m[name].locked
    ensures LocksHeld(m[name := m[name].(locked := true)], sessions[c := Granted(name, m[name].address)])
  {
    var after := sessions[c := Granted(name, m[name].address)];
    assert forall d, n :: Holds(after, d, n) <==> if d == c then n == name else Holds(sessions, d, n);
    forall n | n in m && (n == name || m[n].locked)
      ensures SomebodyHolds(after, n)
    {
      if n == name {
        assert Holds(after, c, name);
      } else {
        var d :| Holds(sessions, d, n);
        assert Holds(after, d, n);
      }
    }
  }

  lemma UnlockKeepsLocks(m: map<string, Row>, sessions: Sessions, c: Client, name: string)
    requires LocksHeld(m, sessions) && Holds(sessions, c, name)
    ensures name in m && LocksHeld(m[name := m[name].(locked := false)], sessions[c := Idle])
  {
    var after := sessions[c := Idle];
    assert forall d, n :: Holds(after, d, n) <==> d != c && Holds(sessions, d, n);
    forall n | n in m && n != name && m[n].locked
      ensures SomebodyHolds(after, n)
    {
      var d :| Holds(sessions, d, n);
      assert Holds(after, d, n);
    }
  }

  // ---------- every step keeps the invariant ----------

  lemma RegisterKeeps(s: System, at: Address, name: string)
    requires Inv(s) && Enabled(s, RegisterStep(at, name))
    ensures Inv(RegisterAt(s, at, name))
  {
    RegisterOnMap(s.rows, |s.rows| + 1, name, at, File);
    var t := RegisterAt(s, at, name);
    if t != s {
      RegisteredKeeps(s, t, at, name);
    }
  }

  lemma RegisteredKeeps(s: System, t: System, at: Address, name: string)
    requires Inv(s) && at in s.servers && name in s.servers[at].files
    requires t.sessions == s.sessions && UniqueNames(t.rows)
    requires t.servers == s.servers[at := s.servers[at].(registered := s.servers[at].registered + {name})]
    requires name in AsMap(s.rows) ==> AsMap(s.rows)[name].address == at && AsMap(t.rows) == AsMap(s.rows)
    requires name !in AsMap(s.rows) ==> AsMap(t.rows) == AsMap(s.rows)[name := Row(name, at, File, false)]
    ensures Inv(t)
  {
    var m := AsMap(s.rows);
    NotedNamePlaced(m, s.servers, at, name);
    NotedNameElsewhere(s.servers, s.sessions, at, name);
    if name in m {
      assert m[name := m[name]] == m;
    } else {
      NewNameKeepsLocks(m, s.sessions, Row(name, at, File, false));
    }
  }

  /** A server that notes a name the name server gave it. */
  lemma NotedNamePlaced(m: map<string, Row>, servers: Servers, at: Address, name: string)
    requires Placed(m, servers) && at in servers && name in servers[at].files
    requires name in m ==> m[name].address == at
    ensures var noted := servers[at := servers[at].(registered := servers[at].registered + {name})];
            var row := if name in m then m[name] else Row(name, at, File, false);
            Placed(m[name := row], noted)
  {
  }

  lemma NotedNameElsewhere(servers: Servers, sessions: Sessions, at: Address, name: string)
    requires CopiesCurrent(servers, sessions) && BusyMatches(servers, sessions) && at in servers
    ensures var noted := servers[at := servers[at].(registered := servers[at].registered + {name})];
            CopiesCurrent(noted, sessions) && BusyMatches(noted, sessions)
  {
    var noted := servers[at := servers[at].(registered := servers[at].registered + {name})];
    forall c
      ensures CopyIsCurrent(noted, Of(sessions, c))
    {
      assert CopyIsCurrent(servers, Of(sessions, c));
    }
    assert forall a :: a in servers ==> noted[a].busy == servers[a].busy;
  }

  lemma OneCopy(servers: Servers, sessions: Sessions, c: Client, h: Session)
    requires CopiesCurrent(servers, sessions) && CopyIsCurrent(servers, h)
    ensures CopiesCurrent(servers, sessions[c := h])
  {
    var after := sessions[c := h];
    forall d
      ensures CopyIsCurrent(servers, Of(after, d))
    {
      assert CopyIsCurrent(servers, Of(sessions, d));
    }
  }

  lemma RequestKeeps(s: System, c: Client, name: string)
    requires Inv(s) && Of(s.sessions, c).Idle?
    ensures Inv(RequestBy(s, c, name))
  {
    AskOnMap(s.rows, name, Write);
    if Ask(s.rows, name, Write).0.Ok? {
      var at := AsMap(s.rows)[name].address;
      GrantKeepsLocks(AsMap(s.rows), s.sessions, c, name);
      OneCopy(s.servers, s.sessions, c, Granted(name, at));
    }
  }

  lemma FetchKeeps(s: System, c: Client)
    requires Inv(s) && Enabled(s, FetchStep(c))
    ensures Inv(FetchBy(s, c))
  {
    var h := Of(s.sessions, c);
    assert Holds(s.sessions, c, h.name);
    assert Serves(s.servers, h.at, h.name);
    var file := s.servers[h.at].files[h.name];
    var fetched := Fetched(h.name, h.at, file, Sent(file.content));
    PhaseKeepsLocks(AsMap(s.rows), s.sessions, c, fetched);
    OneCopy(s.servers, s.sessions, c, fetched);
  }

  lemma SendKeeps(s: System, c: Client, edited: string)
    requires Inv(s) && Enabled(s, SendStep(c, edited))
    ensures Inv(Next(s, SendStep(c, edited)))
  {
    var h := Of(s.sessions, c);
    var sending := Sending(h.name, h.at, h.base, edited);
    PhaseKeepsLocks(AsMap(s.rows), s.sessions, c, sending);
    assert CopyIsCurrent(s.servers, h);
    OneCopy(s.servers, s.sessions, c, sending);
  }

  lemma PutKeeps(s: System, c: Client)
    requires Inv(s) && Enabled(s, PutStep(c))
    ensures Inv(PutBy(s, c))
  {
    var h := Of(s.sessions, c);
    assert CopyIsCurrent(s.servers, h);
    PhaseKeepsLocks(AsMap(s.rows), s.sessions, c, Unlocking(h.name, h.at));
    PutKeepsCopies(s, c);
  }

  lemma PutKeepsCopies(s: System, c: Client)
    requires Inv(s) && Enabled(s, PutStep(c))
    ensures CopiesCurrent(PutBy(s, c).servers, PutBy(s, c).sessions)
  {
    var t := PutBy(s, c);
    var h := Of(s.sessions, c);
    assert CopyIsCurrent(s.servers, h) && Holds(s.sessions, c, h.name);
    forall d
      ensures CopyIsCurrent(t.servers, Of(t.sessions, d))
    {
      var g := Of(s.sessions, d);
      assert CopyIsCurrent(s.servers, g);
      if d != c && !g.Idle? {
        assert Holds(s.sessions, d, g.name);
      }
    }
  }

  lemma UnlockKeeps(s: System, c: Client)
    requires Inv(s) && Enabled(s, UnlockStep(c))
    ensures Inv(UnlockFor(s, c))
  {
    var h := Of(s.sessions, c);
    UnlockOnMap(s.rows, h.name);
    UnlockKeepsLocks(AsMap(s.rows), s.sessions, c, h.name);
    RelockKeepsPlaces(AsMap(s.rows), s.servers, h.at, h.name);
    FreedServerElsewhere(s.servers, s.sessions, c);
  }

  lemma RelockKeepsPlaces(m: map<string, Row>, servers: Servers, at: Address, name: string)
    requires Placed(m, servers) && name in m && at in servers
    ensures Placed(m[name := m[name].(locked := false)], servers[at := servers[at].(busy := None)])
  {
  }

  lemma FreedServerElsewhere(servers: Servers, sessions: Sessions, c: Client)
    requires CopiesCurrent(servers, sessions) && BusyMatches(servers, sessions)
    requires Of(sessions, c).Unlocking? && Of(sessions, c).at in servers
    ensures var at := Of(sessions, c).at;
            var freed := servers[at := servers[at].(busy := None)];
            CopiesCurrent(freed, sessions[c := Idle]) && BusyMatches(freed, sessions[c := Idle])
  {
    var at := Of(sessions, c).at;
    var freed, after := servers[at := servers[at].(busy := None)], sessions[c := Idle];
    forall d
      ensures CopyIsCurrent(freed, Of(after, d))
    {
      assert CopyIsCurrent(servers, Of(sessions, d));
    }
    assert Confirms(Of(sessions, c), at);
    forall d, a | a in freed
      ensures freed[a].busy == Some(d) <==> Confirms(Of(after, d), a)
    {
      assert servers[a].busy == Some(d) <==> Confirms(Of(sessions, d), a);
    }
  }

  lemma StepKeeps(s: System, step: Step)
    requires Inv(s) && Enabled(s, step)
    ensures Inv(Next(s, step))
  {
    match step
    case RegisterStep(at, name) => RegisterKeeps(s, at, name);
    case RequestStep(c, name) => RequestKeeps(s, c, name);
    case ReadStep(_, name) => assert Ask(s.rows, name, Read).1 == s.rows;
    case FetchStep(c) => FetchKeeps(s, c);
    case SendStep(c, edited) => SendKeeps(s, c, edited);
    case PutStep(c) => PutKeeps(s, c);
    case UnlockStep(c) => UnlockKeeps(s, c);
  }

  lemma {:induction false} RunKeeps(s: System, run: Run)
    requires Inv(s) && Possible(s, run)
    ensures Inv(Exec(s, run))
  {
    if run.Then? {
      RunKeeps(s, run.before);
      StepKeeps(Exec(s, run.before), run.step);
    }
  }

  // ---------- serialised writers ----------

  /** At every moment of every run a file is locked exactly when some client stands between its
      granted write and the matching unlock, and no two clients ever do for the same file. */
  lemma WritersAreSerialised(s: System, run: Run, name: string)
    requires Initial(s) && Possible(s, run)
    ensures var t := Exec(s, run);
            && UniqueNames(t.rows)
            && (name in AsMap(t.rows) && AsMap(t.rows)[name].locked <==> SomebodyHolds(t.sessions, name))
            && forall c, d :: Holds(t.sessions, c, name) && Holds(t.sessions, d, name) ==> c == d
  {
    InitialInv(s);
    RunKeeps(s, run);
  }

  /** A writer's lock outlives every step but its own unlock, which needs its own update. */
  lemma OnlyTheUnlockReleases(s: System, step: Step, c: Client, name: string)
    requires Inv(s) && Enabled(s, step) && Holds(s.sessions, c, name)
    ensures Holds(Next(s, step).sessions, c, name) <==> step != UnlockStep(c)
  {
    var h := Of(s.sessions, c);
    assert name in AsMap(s.rows) && Serves(s.servers, h.at, name);
  }

  predicate NeverUnlocks(run: Run, c: Client) {
    run.Begin? || (NeverUnlocks(run.before, c) && run.step != UnlockStep(c))
  }

  /** A client that never sends its update keeps its file locked for ever, whatever others do. */
  lemma {:induction false} LockedUntilUnlock(s: System, run: Run, c: Client, name: string)
    requires Inv(s) && Possible(s, run) && NeverUnlocks(run, c) && Holds(s.sessions, c, name)
    ensures var t := Exec(s, run);
            Holds(t.sessions, c, name) && name in AsMap(t.rows) && AsMap(t.rows)[name].locked
  {
    RunKeeps(s, run);
    if run.Then? {
      LockedUntilUnlock(s, run.before, c, name);
      RunKeeps(s, run.before);
      OnlyTheUnlockReleases(Exec(s, run.before), run.step, c, name);
    }
  }

  /** An update: the version its sender had fetched, the version it replaced, what the sender
      made of it, and what the server holds then. */
  datatype Update = Update(fetched: Stored, replaced: Stored, edited: string, result: Stored)

  /** The updates of a file at a server, oldest first. */
  function Updates(s: System, run: Run, at: Address, name: string): seq<Update> {
    if run.Begin? then []
    else
      var earlier := Updates(s, run.before, at, name);
      var t := Exec(s, run.before);
      match run.step
      case PutStep(c) =>
        var h := Of(t.sessions, c);
        if Enabled(t, run.step) && h.at == at && h.name == name && Serves(t.servers, at, name) then
          earlier + [Update(h.base, t.servers[at].files[name], h.edited, PutBy(t, c).servers[at].files[name])]
        else earlier
      case _ => earlier
  }

  function Latest(first: Stored, log: seq<Update>): Stored {
    if log == [] then first else log[|log| - 1].result
  }

  /** Each update replaces what the one before left, which is what its sender had fetched. */
  ghost predicate UpdateChain(first: Stored, log: seq<Update>) {
    forall k :: 0 <= k < |log| ==>
      && log[k].fetched == log[k].replaced == Latest(first, log[..k])
      && log[k].result == Stored(log[k].replaced.version + 1, Sent(log[k].edited))
  }

  lemma UpdateSnoc(first: Stored, log: seq<Update>, u: Update)
    requires UpdateChain(first, log)
    requires u.fetched == u.replaced == Latest(first, log)
    requires u.result == Stored(u.replaced.version + 1, Sent(u.edited))
    ensures UpdateChain(first, log + [u]) && Latest(first, log + [u]) == u.result
  {
    assert forall k :: 0 <= k <= |log| ==> (log + [u])[..k] == log[..k];
    assert log[..|log|] == log;
  }

  ghost predicate FileLogged(t: System, at: Address, name: string, first: Stored, log: seq<Update>) {
    && at in t.servers && name in t.servers[at].files
    && t.servers[at].files[name] == Latest(first, log)
    && UpdateChain(first, log)
  }

  lemma PutExtendsLog(t: System, c: Client, at: Address, name: string, first: Stored, log: seq<Update>)
    requires Inv(t) && Enabled(t, PutStep(c)) && FileLogged(t, at, name, first, log)
    ensures var h := Of(t.sessions, c);
            if h.at == at && h.name == name && Serves(t.servers, at, name) then
              FileLogged(PutBy(t, c), at, name, first,
                         log + [Update(h.base, t.servers[at].files[name], h.edited,
                                       PutBy(t, c).servers[at].files[name])])
            else FileLogged(PutBy(t, c), at, name, first, log)
  {
    var h := Of(t.sessions, c);
    assert CopyIsCurrent(t.servers, h);
    if h.at == at && h.name == name {
      UpdateSnoc(first, log, Update(h.base, t.servers[at].files[name], h.edited, PutBy(t, c).servers[at].files[name]));
    }
  }

  lemma OtherStepsKeepFiles(t: System, step: Step, at: Address, name: string, first: Stored, log: seq<Update>)
    requires Enabled(t, step) && !step.PutStep? && FileLogged(t, at, name, first, log)
    ensures FileLogged(Next(t, step), at, name, first, log)
  {
  }

  /** No lost updates end to end: in every run each update of a file replaces exactly the version
      its sender had fetched, and the file is what the last update left. */
  lemma {:induction false} UpdatesFormAChain(s: System, run: Run, at: Address, name: string)
    requires Initial(s) && Possible(s, run) && at in s.servers && name in s.servers[at].files
    ensures FileLogged(Exec(s, run), at, name, s.servers[at].files[name], Updates(s, run, at, name))
  {
    if run.Then? {
      UpdatesFormAChain(s, run.before, at, name);
      InitialInv(s);
      RunKeeps(s, run.before);
      var t := Exec(s, run.before);
      var first, log := s.servers[at].files[name], Updates(s, run.before, at, name);
      if run.step.PutStep? {
        PutExtendsLog(t, run.step.client, at, name, first, log);
      } else {
        OtherStepsKeepFiles(t, run.step, at, name, first, log);
      }
    }
  }

  /** What a writer edits is the file as it stands, byte for byte exactly when the file holds
      no NUL. */
  lemma WriterSeesTheFile(s: System, run: Run, c: Client)
    requires Initial(s) && Possible(s, run) && Of(Exec(s, run).sessions, c).Fetched?
    ensures var t := Exec(s, run);
            var h := Of(t.sessions, c);
            && Serves(t.servers, h.at, h.name)
            && var file := t.servers[h.at].files[h.name];
            && h.base == file && (h.copy == file.content <==> NulFree(file.content))
  {
    InitialInv(s);
    RunKeeps(s, run);
    var t := Exec(s, run);
    var h := Of(t.sessions, c);
    assert CopyIsCurrent(t.servers, h);
    SentExactly(h.base.content);
  }
}
