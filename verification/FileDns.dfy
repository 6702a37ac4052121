/** The name server of the first distributed file system. */
module FileDns {
  import opened Text
  import opened NameTable

  const TABLE_SIZE: nat := 10

  datatype RegisterReply = RegisterOk | Duplicate

  class Dns {
    const fileTable: array<Row>
    var fileCount: nat

    ghost predicate Valid()
      reads this
    {
      fileTable.Length == TABLE_SIZE && fileCount <= TABLE_SIZE
    }

    ghost function Rows(): seq<Row>
      requires Valid()
      reads this, fileTable
    {
      fileTable[..fileCount]
    }

    constructor ()
      ensures Valid() && Rows() == [] && fileTable.Length == 10 && fresh(fileTable)
    {
      fileTable := new Row[TABLE_SIZE](_ => Row("", Address("", 0), File, false));
      fileCount := 0;
    }

    /** REGISTER_FILE. The source stores a new name without looking for a free row, so the
        caller must leave one. */
    method RegisterFile(name: string, ip: string, port: int) returns (reply: RegisterReply)
      requires Valid() && (fileCount < TABLE_SIZE || Find(Rows(), name) < fileCount)
      modifies this, fileTable
      ensures Valid()
      ensures var r := Register(old(Rows()), |old(Rows())| + 1, name, Address(ip, port), File);
              Rows() == r.rows && (reply == RegisterOk <==> r.Registered?)
    {
      var i := 0;
      while i < fileCount
        invariant i <= fileCount && forall k :: 0 <= k < i ==> fileTable[k].name != name
      {
        if fileTable[i].name == name {
          if !fileTable[i].locked && fileTable[i].address.ip == ip && fileTable[i].address.port == port {
            fileTable[i] := fileTable[i].(name := name, address := Address(ip, port), locked := false);
            return RegisterOk;
          }
          return Duplicate;
        }
        i := i + 1;
      }
      fileTable[fileCount] := Row(name, Address(ip, port), File, false);
      fileCount := fileCount + 1;
      return RegisterOk;
    }

    /** REQUEST_FILE. */
    method RequestFile(name: string, mode: Mode) returns (answer: Answer)
      requires Valid()
      modifies fileTable
      ensures Valid() && (answer, Rows()) == Ask(old(Rows()), name, mode)
    {
      var i := 0;
      while i < fileCount
        invariant i <= fileCount && forall k :: 0 <= k < i ==> fileTable[k].name != name
      {
        if fileTable[i].name == name {
          answer := Locked;
          if mode == Write && !fileTable[i].locked {
            answer := Ok(fileTable[i]);
            fileTable[i] := fileTable[i].(locked := true);
          } else if mode == Read {
            answer := Ok(fileTable[i]);
          }
          return;
        }
        i := i + 1;
      }
      return NotFound;
    }

    /** UNLOCK_FILE: anybody may unlock a name, and nobody is asked why. */
    method UnlockFile(name: string) returns (found: bool)
      requires Valid()
      modifies fileTable
      ensures Valid() && Rows() == Unlock(old(Rows()), name)
      ensures found <==> Find(old(Rows()), name) < |old(Rows())|
    {
      var i := 0;
      while i < fileCount
        invariant i <= fileCount && forall k :: 0 <= k < i ==> fileTable[k].name != name
      {
        if fileTable[i].name == name {
          fileTable[i] := fileTable[i].(locked := false);
          return true;
        }
        i := i + 1;
      }
      return false;
    }
  }
}
