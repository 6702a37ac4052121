/** The bounded element table of the newer name server, and the runs of requests it serves
    one at a time under its mutex. */
module ElementTable {
  import opened Text
  import opened NameTable

  const MAX_FILES: nat := 100

  /** The address every element gets; the one in the request is not used. */
  const LOCAL_IP := "127.0.0.1"

  class Elements {
    const table: array<Row>
    var count: nat

    ghost predicate Valid()
      reads this
    {
      table.Length == MAX_FILES && count <= MAX_FILES
    }

    ghost function Rows(): seq<Row>
      requires Valid()
      reads this, table
    {
      table[..count]
    }

    constructor ()
      ensures Valid() && Rows() == [] && table.Length == 100 && fresh(table)
    {
      table := new Row[MAX_FILES](_ => Row("", Address("", 0), File, false));
      count := 0;
    }

    /** The scan all three critical sections start with. */
    method Search(name: string) returns (i: nat)
      requires Valid()
      ensures i == Find(Rows(), name)
    {
      i := 0;
      while i < count
        invariant i <= count && forall k :: 0 <= k < i ==> table[k].name != name
      {
        if table[i].name == name {
          return;
        }
        i := i + 1;
      }
    }

    /** `registrar_elemento`. */
    method RegisterElement(name: string, ip: string, port: int, kind: Kind) returns (accepted: bool)
      requires Valid()
      modifies this, table
      ensures Valid()
      ensures var r := Register(old(Rows()), MAX_FILES, name, Address(ip, port), kind);
              Rows() == r.rows && accepted == r.Registered?
    {
      var i := Search(name);
      if i < count {
        return !table[i].locked && table[i].address.ip == ip && table[i].address.port == port;
      }
      if count < MAX_FILES {
        table[count] := Row(name, Address(ip, port), kind, false);
        count := count + 1;
        return true;
      }
      return false;
    }

    /** The REGISTRAR branch of `manejar_cliente`: whatever address the server sends is dropped. */
    method HandleRegister(name: string, sentIp: string, port: int, kind: Kind) returns (accepted: bool)
      requires Valid()
      modifies this, table
      ensures Valid()
      ensures var r := Register(old(Rows()), MAX_FILES, name, Address(LOCAL_IP, port), kind);
              Rows() == r.rows && accepted == r.Registered?
      ensures Rows() == Serve(old(Rows()), RegisterRequest(name, Address("127.0.0.1", port), kind))
    {
      accepted := RegisterElement(name, LOCAL_IP, port, kind);
    }

    /** The SOLICITAR branch of `manejar_cliente`. */
    method HandleRequest(name: string, mode: Mode) returns (answer: Answer)
      requires Valid()
      modifies table
      ensures Valid() && (answer, Rows()) == Ask(old(Rows()), name, mode)
      ensures Rows() == Serve(old(Rows()), AskRequest(name, mode))
    {
      var i := Search(name);
      if i == count {
        return NotFound;
      }
      if mode == Write && !table[i].locked {
        answer := Ok(table[i]);
        table[i] := table[i].(locked := true);
      } else if mode == Read {
        answer := Ok(table[i]);
      } else {
        answer := Locked;
      }
    }

    /** `desbloquear_elemento`. */
    method UnlockElement(name: string) returns (found: bool)
      requires Valid()
      modifies table
      ensures Valid() && Rows() == Unlock(old(Rows()), name)
      ensures Rows() == Serve(old(Rows()), UnlockRequest(name))
      ensures found <==> Find(old(Rows()), name) < |old(Rows())|
    {
      var i := Search(name);
      if i == count {
        return false;
      }
      table[i] := table[i].(locked := false);
      return true;
    }
  }

  // ---------- runs ----------

  datatype Request =
    | RegisterRequest(name: string, address: Address, kind: Kind)
    | AskRequest(name: string, mode: Mode)
    | UnlockRequest(name: string)

  datatype Run = Begin | Then(before: Run, request: Request)

  function Serve(rows: seq<Row>, request: Request): seq<Row> {
    match request
    case RegisterRequest(name, address, kind) => Register(rows, MAX_FILES, name, address, kind).rows
    case AskRequest(name, mode) => Ask(rows, name, mode).1
    case UnlockRequest(name) => Unlock(rows, name)
  }

  function RowsAfter(run: Run): seq<Row> {
    if run.Begin? then [] else Serve(RowsAfter(run.before), run.request)
  }

  predicate IsLocked(rows: seq<Row>, name: string) {
    Find(rows, name) < |rows| && rows[Find(rows, name)].locked
  }

  /** The write grants (true) and effective unlocks (false) of a name, oldest first. */
  function LockHistory(run: Run, name: string): seq<bool> {
    if run.Begin? then []
    else
      var earlier := LockHistory(run.before, name);
      var rows := RowsAfter(run.before);
      match run.request
      case AskRequest(n, Write) => if n == name && Ask(rows, n, Write).0.Ok? then earlier + [true] else earlier
      case UnlockRequest(n) => if n == name && IsLocked(rows, n) then earlier + [false] else earlier
      case _ => earlier
  }

  ghost predicate Alternates(history: seq<bool>) {
    forall i :: 0 <= i < |history| ==> (history[i] <==> i % 2 == 0)
  }

  ghost predicate TableInv(rows: seq<Row>) {
    UniqueNames(rows) && |rows| <= MAX_FILES
  }

  lemma ServeKeeps(rows: seq<Row>, request: Request)
    requires TableInv(rows)
    ensures TableInv(Serve(rows, request))
  {
    match request
    case RegisterRequest(name, address, kind) => RegisterOnMap(rows, MAX_FILES, name, address, kind);
    case AskRequest(name, mode) => AskOnMap(rows, name, mode);
    case UnlockRequest(name) => UnlockOnMap(rows, name);
  }

  /** What a registration does to the bounded table: a new name is stored, unlocked, while there are fewer
      than 100; a known one is accepted from its own address while unlocked, and nothing changes. */
  lemma RegisterExactly(rows: seq<Row>, name: string, address: Address, kind: Kind)
    requires TableInv(rows)
    ensures var m := AsMap(rows);
            var after := AsMap(Serve(rows, RegisterRequest(name, address, kind)));
            && after == (if name !in m && |rows| < 100 then m[name := Row(name, address, kind, false)] else m)
            && (Register(rows, MAX_FILES, name, address, kind).Registered? <==>
                  if name in m then !m[name].locked && m[name].address == address else |rows| < 100)
  {
    RegisterOnMap(rows, MAX_FILES, name, address, kind);
  }

  /** Names stay unique and the table stays within its capacity. */
  lemma {:induction false} RunKeepsTable(run: Run)
    ensures TableInv(RowsAfter(run))
  {
    if run.Then? {
      RunKeepsTable(run.before);
      ServeKeeps(RowsAfter(run.before), run.request);
    }
  }

  predicate LockedIn(m: map<string, Row>, name: string) {
    name in m && m[name].locked
  }

  lemma LockedIsLookup(rows: seq<Row>, name: string)
    requires UniqueNames(rows)
    ensures IsLocked(rows, name) <==> LockedIn(AsMap(rows), name)
  {
    FindIsLookup(rows, name);
  }

  lemma LockAfterRegister(rows: seq<Row>, n: string, address: Address, kind: Kind, name: string)
    requires TableInv(rows)
    ensures LockedIn(AsMap(Register(rows, MAX_FILES, n, address, kind).rows), name) <==> LockedIn(AsMap(rows), name)
  {
    RegisterOnMap(rows, MAX_FILES, n, address, kind);
  }

  lemma LockAfterAsk(rows: seq<Row>, n: string, mode: Mode, name: string)
    requires TableInv(rows)
    ensures LockedIn(AsMap(Ask(rows, n, mode).1), name) <==>
              LockedIn(AsMap(rows), name) || (n == name && mode == Write && name in AsMap(rows))
  {
    AskOnMap(rows, n, mode);
  }

  lemma LockAfterUnlock(rows: seq<Row>, n: string, name: string)
    requires TableInv(rows)
    ensures LockedIn(AsMap(Unlock(rows, n)), name) <==> LockedIn(AsMap(rows), name) && n != name
  {
    UnlockOnMap(rows, n);
  }

  /** How a request moves the lock of a name, told of the map. */
  lemma LockOnMap(rows: seq<Row>, request: Request, name: string)
    requires TableInv(rows)
    ensures var m := AsMap(rows);
            LockedIn(AsMap(Serve(rows, request)), name) <==>
              if request == AskRequest(name, Write) && name in m && !m[name].locked then true
              else if request == UnlockRequest(name) then false
              else LockedIn(m, name)
  {
    match request
    case RegisterRequest(n, address, kind) => LockAfterRegister(rows, n, address, kind, name);
    case AskRequest(n, mode) => LockAfterAsk(rows, n, mode, name);
    case UnlockRequest(n) => LockAfterUnlock(rows, n, name);
  }

  /** How a request moves the lock of a name. */
  lemma LockStep(rows: seq<Row>, request: Request, name: string)
    requires TableInv(rows)
    ensures IsLocked(Serve(rows, request), name) <==>
              if request == AskRequest(name, Write) && Ask(rows, name, Write).0.Ok? then true
              else if request == UnlockRequest(name) then false
              else IsLocked(rows, name)
    ensures Ask(rows, name, Write).0.Ok? ==> !IsLocked(rows, name)
  {
    ServeKeeps(rows, request);
    LockOnMap(rows, request, name);
    LockedIsLookup(rows, name);
    LockedIsLookup(Serve(rows, request), name);
    AskOnMap(rows, name, Write);
  }

  lemma HistoryStep(run: Run, name: string)
    requires run.Then?
    ensures var rows := RowsAfter(run.before);
            LockHistory(run, name) == LockHistory(run.before, name) +
              if run.request == AskRequest(name, Write) && Ask(rows, name, Write).0.Ok? then [true]
              else if run.request == UnlockRequest(name) && IsLocked(rows, name) then [false]
              else []
  {
  }

  lemma AlternatesSnoc(history: seq<bool>, b: bool)
    requires Alternates(history) && (b <==> |history| % 2 == 0)
    ensures Alternates(history + [b]) && |history + [b]| % 2 == if b then 1 else 0
  {
  }

  /** On each name write grants and effective unlocks alternate, starting with a grant, and the
      name is locked exactly when the last of them was a grant. */
  lemma {:induction false} GrantsAndUnlocksAlternate(run: Run, name: string)
    ensures Alternates(LockHistory(run, name))
    ensures IsLocked(RowsAfter(run), name) <==> |LockHistory(run, name)| % 2 == 1
  {
    if run.Then? {
      GrantsAndUnlocksAlternate(run.before, name);
      RunKeepsTable(run.before);
      LockStep(RowsAfter(run.before), run.request, name);
      HistoryStep(run, name);
      var rows, history := RowsAfter(run.before), LockHistory(run.before, name);
      if run.request == AskRequest(name, Write) && Ask(rows, name, Write).0.Ok? {
        AlternatesSnoc(history, true);
      } else if run.request == UnlockRequest(name) && IsLocked(rows, name) {
        AlternatesSnoc(history, false);
      } else {
        assert LockHistory(run, name) == history;
      }
    }
  }

  /** The later run continues the earlier one. */
  ghost predicate Continues(run: Run, earlier: Run) {
    run == earlier || (run.Then? && Continues(run.before, earlier))
  }

  lemma EntryStep(rows: seq<Row>, request: Request, name: string)
    requires TableInv(rows) && name in AsMap(rows)
    ensures name in AsMap(Serve(rows, request))
    ensures AsMap(Serve(rows, request))[name].address == AsMap(rows)[name].address
    ensures AsMap(Serve(rows, request))[name].kind == AsMap(rows)[name].kind
  {
    match request
    case RegisterRequest(n, address, kind) => RegisterOnMap(rows, MAX_FILES, n, address, kind);
    case AskRequest(n, mode) => AskOnMap(rows, n, mode);
    case UnlockRequest(n) => UnlockOnMap(rows, n);
  }

  /** Once registered, a name keeps its address, port and kind for ever. */
  lemma {:induction false} EntriesAreStable(run: Run, earlier: Run, name: string)
    requires Continues(run, earlier) && name in AsMap(RowsAfter(earlier))
    ensures name in AsMap(RowsAfter(run))
    ensures AsMap(RowsAfter(run))[name].address == AsMap(RowsAfter(earlier))[name].address
    ensures AsMap(RowsAfter(run))[name].kind == AsMap(RowsAfter(earlier))[name].kind
  {
    if run != earlier {
      EntriesAreStable(run.before, earlier, name);
      RunKeepsTable(run.before);
      EntryStep(RowsAfter(run.before), run.request, name);
    }
  }

  /** Registering a name never changes any lock. */
  lemma RegisterKeepsLocks(rows: seq<Row>, name: string, address: Address, kind: Kind, other: string)
    requires TableInv(rows)
    ensures IsLocked(Register(rows, MAX_FILES, name, address, kind).rows, other) <==> IsLocked(rows, other)
  {
    LockStep(rows, RegisterRequest(name, address, kind), other);
  }
}
