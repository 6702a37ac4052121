/** The table of names, addresses and write locks that the name servers keep, as a value. */
module NameTable {
  import opened Text

  datatype Kind = File | Folder

  datatype Address = Address(ip: string, port: int)

  datatype Row = Row(name: string, address: Address, kind: Kind, locked: bool)

  /** First-match search: the index of a name, or the length of the table. */
  function Find(rows: seq<Row>, name: string): (i: nat)
    ensures i <= |rows|
    ensures forall k :: 0 <= k < i ==> rows[k].name != name
    ensures i < |rows| ==> rows[i].name == name
  {
    if rows == [] || rows[0].name == name then 0 else 1 + Find(rows[1..], name)
  }

  // ---------- requests ----------

  datatype Registration = Registered(rows: seq<Row>) | Refused(rows: seq<Row>)

  /** A known name is accepted again only from its own address while unlocked; a new one needs
      a free row. */
  function Register(rows: seq<Row>, capacity: nat, name: string, address: Address, kind: Kind): Registration {
    var i := Find(rows, name);
    if i < |rows| then
      if !rows[i].locked && rows[i].address == address then Registered(rows) else Refused(rows)
    else if |rows| < capacity then Registered(rows + [Row(name, address, kind, false)])
    else Refused(rows)
  }

  datatype Mode = Read | Write | Unknown

  datatype Answer = Ok(row: Row) | Locked | NotFound

  /** A write locks an unlocked row; anything that is neither a read nor such a write is told
      the row is locked. */
  function Ask(rows: seq<Row>, name: string, mode: Mode): (Answer, seq<Row>) {
    var i := Find(rows, name);
    if i == |rows| then (NotFound, rows)
    else if mode == Write && !rows[i].locked then
      (Ok(rows[i]), rows[i := rows[i].(locked := true)])
    else if mode == Read then (Ok(rows[i]), rows)
    else (Locked, rows)
  }

  function Unlock(rows: seq<Row>, name: string): seq<Row> {
    var i := Find(rows, name);
    if i == |rows| then rows else rows[i := rows[i].(locked := false)]
  }

  // ---------- the map behind the table ----------

  ghost predicate UniqueNames(rows: seq<Row>) {
    forall i, j :: 0 <= i < j < |rows| ==> rows[i].name != rows[j].name
  }

  /** The rows by name; with unique names no row is hidden by another. */
  ghost function AsMap(rows: seq<Row>): map<string, Row> {
    map name | name in (set i | 0 <= i < |rows| :: rows[i].name) :: rows[SomeIndex(rows, name)]
  }

  ghost function SomeIndex(rows: seq<Row>, name: string): (i: nat)
    requires exists k :: 0 <= k < |rows| && rows[k].name == name
    ensures i < |rows| && rows[i].name == name
  {
    var i :| 0 <= i < |rows| && rows[i].name == name;
    i
  }

  lemma InMap(rows: seq<Row>, i: nat)
    requires UniqueNames(rows) && i < |rows|
    ensures rows[i].name in AsMap(rows) && AsMap(rows)[rows[i].name] == rows[i]
  {
    var names := set k | 0 <= k < |rows| :: rows[k].name;
    assert rows[i].name in names;
    var k := SomeIndex(rows, rows[i].name);
  }

  /** First-match search is map lookup. */
  lemma FindIsLookup(rows: seq<Row>, name: string)
    requires UniqueNames(rows)
    ensures Find(rows, name) < |rows| <==> name in AsMap(rows)
    ensures name in AsMap(rows) ==> AsMap(rows)[name] == rows[Find(rows, name)]
  {
    var i := Find(rows, name);
    if i < |rows| {
      InMap(rows, i);
    }
  }

  lemma FindSame(rows: seq<Row>, after: seq<Row>, name: string)
    requires |rows| <= |after| && forall k :: 0 <= k < |rows| ==> after[k].name == rows[k].name
    requires forall k :: |rows| <= k < |after| ==> after[k].name != name
    ensures Find(rows, name) < |rows| ==> Find(after, name) == Find(rows, name)
    ensures Find(rows, name) == |rows| ==> Find(after, name) == |after|
  {
    var i, j := Find(rows, name), Find(after, name);
    assert i < |rows| ==> after[i].name == name;
    assert j < |after| ==> after[j].name == name;
  }

  /** An entry of the map of a changed table, when only rows of another name changed. */
  lemma LookupSame(rows: seq<Row>, after: seq<Row>, name: string)
    requires UniqueNames(rows) && UniqueNames(after)
    requires |rows| <= |after| && forall k :: 0 <= k < |rows| ==> after[k].name == rows[k].name
    requires forall k :: 0 <= k < |rows| && rows[k].name == name ==> after[k] == rows[k]
    requires forall k :: |rows| <= k < |after| ==> after[k].name != name
    ensures name in AsMap(after) <==> name in AsMap(rows)
    ensures name in AsMap(after) ==> AsMap(after)[name] == AsMap(rows)[name]
  {
    FindSame(rows, after, name);
    FindIsLookup(after, name);
    FindIsLookup(rows, name);
  }

  lemma SameExcept(m: map<string, Row>, m': map<string, Row>, row: Row)
    requires row.name in m' && m'[row.name] == row
    requires forall name :: name != row.name ==> (name in m' <==> name in m) && (name in m' ==> m'[name] == m[name])
    ensures m' == m[row.name := row]
  {
  }

  lemma MapUpdate(rows: seq<Row>, i: nat, row: Row)
    requires UniqueNames(rows) && i < |rows| && row.name == rows[i].name
    ensures UniqueNames(rows[i := row]) && AsMap(rows[i := row]) == AsMap(rows)[row.name := row]
  {
    var after := rows[i := row];
    InMap(after, i);
    forall name | name != row.name
      ensures name in AsMap(after) <==> name in AsMap(rows)
      ensures name in AsMap(after) ==> AsMap(after)[name] == AsMap(rows)[name]
    {
      LookupSame(rows, after, name);
    }
    SameExcept(AsMap(rows), AsMap(after), row);
  }

  lemma MapAppend(rows: seq<Row>, row: Row)
    requires UniqueNames(rows) && Find(rows, row.name) == |rows|
    ensures UniqueNames(rows + [row]) && AsMap(rows + [row]) == AsMap(rows)[row.name := row]
  {
    var after := rows + [row];
    InMap(after, |rows|);
    forall name | name != row.name
      ensures name in AsMap(after) <==> name in AsMap(rows)
      ensures name in AsMap(after) ==> AsMap(after)[name] == AsMap(rows)[name]
    {
      LookupSame(rows, after, name);
    }
    SameExcept(AsMap(rows), AsMap(after), row);
  }

  /** What the requests do to the map: registration never changes a known entry, a write grant and
      an unlock change one lock bit, a read nothing. */
  lemma RegisterOnMap(rows: seq<Row>, capacity: nat, name: string, address: Address, kind: Kind)
    requires UniqueNames(rows) && |rows| <= capacity
    ensures var r := Register(rows, capacity, name, address, kind);
            var m := AsMap(rows);
            && UniqueNames(r.rows) && |r.rows| <= capacity
            && (r.Registered? <==> if name in m then !m[name].locked && m[name].address == address
                                   else |rows| < capacity)
            && AsMap(r.rows) == if name !in m && r.Registered? then m[name := Row(name, address, kind, false)] else m
  {
    FindIsLookup(rows, name);
    if Find(rows, name) == |rows| && |rows| < capacity {
      MapAppend(rows, Row(name, address, kind, false));
    }
  }

  lemma AskOnMap(rows: seq<Row>, name: string, mode: Mode)
    requires UniqueNames(rows)
    ensures var (answer, after) := Ask(rows, name, mode);
            var m := AsMap(rows);
            && UniqueNames(after) && |after| == |rows|
            && (answer.NotFound? <==> name !in m)
            && (answer.Ok? <==> name in m && (mode == Read || (mode == Write && !m[name].locked)))
            && (answer.Ok? ==> answer.row == m[name])
            && AsMap(after) == if answer.Ok? && mode == Write then m[name := m[name].(locked := true)] else m
  {
    FindIsLookup(rows, name);
    var i := Find(rows, name);
    if i < |rows| {
      MapUpdate(rows, i, rows[i].(locked := true));
    }
  }

  lemma UnlockOnMap(rows: seq<Row>, name: string)
    requires UniqueNames(rows)
    ensures var after := Unlock(rows, name);
            var m := AsMap(rows);
            && UniqueNames(after) && |after| == |rows|
            && AsMap(after) == if name in m then m[name := m[name].(locked := false)] else m
  {
    FindIsLookup(rows, name);
    var i := Find(rows, name);
    if i < |rows| {
      MapUpdate(rows, i, rows[i].(locked := false));
    }
  }
}
