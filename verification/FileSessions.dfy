/** What the steps of the first file system do, and a whole session of a writer. */
module FileSessions {
  import opened Text
  import opened NameTable
  import opened FileLines
  import opened FileSharing
  import opened FileWriters

  /** A write request is granted exactly when the name is known and unlocked: the client is told where
      the file is and the name is locked. Otherwise nothing changes. */
  lemma RequestExactly(s: System, c: Client, name: string)
    requires Inv(s) && SessionOf(s, c).Idle?
    ensures Enabled(s, RequestStep(c, name))
    ensures var t := Next(s, RequestStep(c, name));
            var m := AsMap(s.rows);
            && t.servers == s.servers
            && if name in m && !m[name].locked then
                 && t.sessions == s.sessions[c := Granted(name, m[name].address)]
                 && AsMap(t.rows) == m[name := m[name].(locked := true)]
               else t.sessions == s.sessions && AsMap(t.rows) == m
  {
    AskOnMap(s.rows, name, Write);
  }

  /** A read request is always possible and changes nothing. */
  lemma ReadIsQuiet(s: System, c: Client, name: string)
    requires Inv(s)
    ensures Enabled(s, ReadStep(c, name))
    ensures var t := Next(s, ReadStep(c, name));
            t.servers == s.servers && t.sessions == s.sessions && AsMap(t.rows) == AsMap(s.rows)
  {
    AskOnMap(s.rows, name, Read);
  }

  /** A server registers a file it has: a new name is stored unlocked at its address; a known one is
      accepted from the same address while unlocked. The server serves it exactly when accepted. */
  lemma RegisterExactly(s: System, at: Address, name: string)
    requires Inv(s) && at in s.servers && name in s.servers[at].files
    ensures Enabled(s, RegisterStep(at, name))
    ensures var t := Next(s, RegisterStep(at, name));
            var m := AsMap(s.rows);
            var accepted := name !in m || (!m[name].locked && m[name].address == at);
            && t.sessions == s.sessions
            && AsMap(t.rows) == (if name in m then m else m[name := Row(name, at, File, false)])
            && t.servers == if accepted
                            then s.servers[at := s.servers[at].(registered := s.servers[at].registered + {name})]
                            else s.servers
  {
    RegisterOnMap(s.rows, |s.rows| + 1, name, at, File);
  }

  /** A granted client fetches the file as it stands. */
  lemma FetchExactly(s: System, c: Client)
    requires Inv(s) && SessionOf(s, c).Granted? && Free(s, SessionOf(s, c).at)
    ensures Enabled(s, FetchStep(c))
    ensures var h := SessionOf(s, c);
            && Serves(s.servers, h.at, h.name)
            && var file := s.servers[h.at].files[h.name];
            Next(s, FetchStep(c)) == s.(sessions := s.sessions[c := Fetched(h.name, h.at, file, Sent(file.content))])
  {
    var h := SessionOf(s, c);
    assert Holds(s.sessions, c, h.name);
  }

  /** An update replaces that file and no other by what its sender made of it. */
  lemma PutExactly(s: System, c: Client)
    requires Inv(s) && SessionOf(s, c).Sending? && Free(s, SessionOf(s, c).at)
    ensures Enabled(s, PutStep(c))
    ensures var h := SessionOf(s, c);
            && Serves(s.servers, h.at, h.name)
            && var server := s.servers[h.at];
            var file := Stored(server.files[h.name].version + 1, Sent(h.edited));
            Next(s, PutStep(c)) ==
              s.(servers := s.servers[h.at := Server(server.files[h.name := file], server.registered, Some(c))],
                 sessions := s.sessions[c := Unlocking(h.name, h.at)])
  {
    assert CopyIsCurrent(s.servers, SessionOf(s, c));
  }

  /** The unlock frees the name, the server and the client. */
  lemma UnlockExactly(s: System, c: Client)
    requires Inv(s) && SessionOf(s, c).Unlocking?
    ensures Enabled(s, UnlockStep(c))
    ensures var h := SessionOf(s, c);
            var t := Next(s, UnlockStep(c));
            var m := AsMap(s.rows);
            && h.name in m && h.at in s.servers
            && AsMap(t.rows) == m[h.name := m[h.name].(locked := false)]
            && t.servers == s.servers[h.at := s.servers[h.at].(busy := None)]
            && t.sessions == s.sessions[c := Idle]
  {
    var h := SessionOf(s, c);
    assert Holds(s.sessions, c, h.name);
    assert h.name in AsMap(s.rows) && Serves(s.servers, AsMap(s.rows)[h.name].address, h.name);
    UnlockOnMap(s.rows, h.name);
  }

  // ---------- a whole session ----------

  function WriteSession(c: Client, name: string, edited: string): Run {
    Then(Then(Then(Then(Then(Begin, RequestStep(c, name)), FetchStep(c)), SendStep(c, edited)), PutStep(c)),
         UnlockStep(c))
  }

  lemma OneMore(s: System, run: Run, step: Step)
    requires Inv(s) && Possible(s, run) && Enabled(Exec(s, run), step)
    ensures Possible(s, Then(run, step)) && Exec(s, Then(run, step)) == Next(Exec(s, run), step)
    ensures Inv(Exec(s, Then(run, step)))
  {
    RunKeeps(s, Then(run, step));
  }

  /** The client holds the file it locked, fetched and edited; so far only the lock differs. */
  ghost predicate Edited(s: System, u: System, c: Client, name: string, edited: string)
    requires name in AsMap(s.rows)
  {
    var m := AsMap(s.rows);
    var at := m[name].address;
    && Serves(s.servers, at, name)
    && Inv(u) && u.servers == s.servers && AsMap(u.rows) == m[name := m[name].(locked := true)]
    && SessionOf(u, c) == Sending(name, at, s.servers[at].files[name], edited)
    && forall d :: d != c ==> SessionOf(u, d) == SessionOf(s, d)
  }

  /** The first half: lock, fetch, edit. */
  lemma FetchedForEdit(s: System, c: Client, name: string, edited: string)
    requires Inv(s) && SessionOf(s, c).Idle? && name in AsMap(s.rows) && !AsMap(s.rows)[name].locked
    requires Free(s, AsMap(s.rows)[name].address)
    ensures var run := Then(Then(Then(Begin, RequestStep(c, name)), FetchStep(c)), SendStep(c, edited));
            Possible(s, run) && Edited(s, Exec(s, run), c, name, edited)
  {
    assert Possible(s, Begin) && Exec(s, Begin) == s;
    var asked := Then(Begin, RequestStep(c, name));
    RequestExactly(s, c, name);
    OneMore(s, Begin, RequestStep(c, name));
    FetchExactly(Exec(s, asked), c);
    OneMore(s, asked, FetchStep(c));
    OneMore(s, Then(asked, FetchStep(c)), SendStep(c, edited));
  }

  /** The edited file is stored, and the client, its lock and the server are free again. */
  ghost predicate Confirmed(u: System, t: System, c: Client, name: string, at: Address, edited: string) {
    && Serves(u.servers, at, name) && name in AsMap(u.rows)
    && var server := u.servers[at];
    var file := Stored(server.files[name].version + 1, Sent(edited));
    && t.servers == u.servers[at := Server(server.files[name := file], server.registered, None)]
    && t.sessions == u.sessions[c := Idle]
    && AsMap(t.rows) == AsMap(u.rows)[name := AsMap(u.rows)[name].(locked := false)]
  }

  /** The second half: the update, and the unlock it causes. */
  lemma PutAndUnlocked(u: System, c: Client)
    requires Inv(u) && SessionOf(u, c).Sending? && Free(u, SessionOf(u, c).at)
    ensures Enabled(u, PutStep(c)) && Enabled(Next(u, PutStep(c)), UnlockStep(c))
    ensures var h := SessionOf(u, c);
            Confirmed(u, Next(Next(u, PutStep(c)), UnlockStep(c)), c, h.name, h.at, h.edited)
  {
    PutExactly(u, c);
    StepKeeps(u, PutStep(c));
    UnlockExactly(Next(u, PutStep(c)), c);
  }

  /** One file was replaced by what the client made of it; no lock, session or other file differs. */
  ghost predicate Replaced(s: System, t: System, name: string, edited: string)
    requires name in AsMap(s.rows)
  {
    var at := AsMap(s.rows)[name].address;
    && Serves(s.servers, at, name)
    && AsMap(t.rows) == AsMap(s.rows)
    && (forall d :: SessionOf(t, d) == SessionOf(s, d))
    && var server := s.servers[at];
    var file := Stored(server.files[name].version + 1, Sent(edited));
    t.servers == s.servers[at := server.(files := server.files[name := file])]
  }

  lemma HalvesReplace(s: System, u: System, t: System, c: Client, name: string, edited: string)
    requires SessionOf(s, c).Idle? && name in AsMap(s.rows) && !AsMap(s.rows)[name].locked
    requires Free(s, AsMap(s.rows)[name].address)
    requires Edited(s, u, c, name, edited) && Confirmed(u, t, c, name, AsMap(s.rows)[name].address, edited)
    ensures Replaced(s, t, name, edited)
  {
    LockedAndUnlocked(AsMap(s.rows), name);
  }

  lemma LockedAndUnlocked(m: map<string, Row>, name: string)
    requires name in m && !m[name].locked
    ensures var locked := m[name := m[name].(locked := true)];
            locked[name := locked[name].(locked := false)] == m
  {
  }

  lemma TwoMore(s: System, run: Run, a: Step, b: Step)
    requires Possible(s, run) && Enabled(Exec(s, run), a) && Enabled(Next(Exec(s, run), a), b)
    ensures Possible(s, Then(Then(run, a), b)) && Exec(s, Then(Then(run, a), b)) == Next(Next(Exec(s, run), a), b)
  {
    assert Exec(s, Then(run, a)) == Next(Exec(s, run), a) && Possible(s, Then(run, a));
  }

  /** Whenever a known name is unlocked and its server free, an idle client can lock, fetch, edit and put
      it back: the file is then what the client made of it, one version later, the lock is free again,
      and nothing else differs. */
  lemma SessionReplacesTheFile(s: System, c: Client, name: string, edited: string)
    requires Inv(s) && SessionOf(s, c).Idle? && name in AsMap(s.rows) && !AsMap(s.rows)[name].locked
    requires Free(s, AsMap(s.rows)[name].address)
    ensures Possible(s, WriteSession(c, name, edited))
    ensures Replaced(s, Exec(s, WriteSession(c, name, edited)), name, edited)
  {
    FetchedForEdit(s, c, name, edited);
    var sent := Then(Then(Then(Begin, RequestStep(c, name)), FetchStep(c)), SendStep(c, edited));
    var u := Exec(s, sent);
    PutAndUnlocked(u, c);
    HalvesReplace(s, u, Next(Next(u, PutStep(c)), UnlockStep(c)), c, name, edited);
    TwoMore(s, sent, PutStep(c), UnlockStep(c));
  }
}
