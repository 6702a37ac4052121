/** How the first file system moves a file: `fgets` into a buffer, then `send` of its `strlen`. */
module FileLines {
  import opened Text

  const BUF_SIZE: nat := 1024

  /** What one `fgets` takes from the rest of a file: up to and including a newline, and never
      more than fits with the terminator. */
  function Line(rest: string): (line: string)
    requires rest != []
    ensures line != [] && line <= rest && |line| < BUF_SIZE
  {
    var i := IndexOf(rest, '\n');
    var n := if i < |rest| then i + 1 else |rest|;
    rest[..if n < BUF_SIZE then n else BUF_SIZE - 1]
  }

  /** The bytes that travel for a file. */
  function Sent(file: string): string {
    if file == [] then []
    else CString(Line(file)) + Sent(file[|Line(file)|..])
  }

  /** The sending loop of client and file server. */
  method SendByLines(file: string) returns (sent: string)
    ensures sent == Sent(file)
  {
    sent := [];
    var rest := file;
    while rest != []
      invariant Sent(file) == sent + Sent(rest)
      decreases |rest|
    {
      var line := Line(rest);
      sent := sent + CString(line);
      rest := rest[|line|..];
    }
  }

  lemma {:induction false} SentIsNoLonger(file: string)
    ensures |Sent(file)| <= |file|
    decreases |file|
  {
    if file != [] {
      SentIsNoLonger(file[|Line(file)|..]);
    }
  }

  /** A file arrives unchanged exactly when it holds no NUL byte. */
  lemma {:induction false} SentExactly(file: string)
    ensures Sent(file) == file <==> NulFree(file)
    decreases |file|
  {
    if file != [] {
      var line := Line(file);
      var rest := file[|line|..];
      assert file == line + rest;
      SentExactly(rest);
      SentIsNoLonger(rest);
      if NulFree(line) {
        CStringOfFree(line);
        assert Sent(file)[|line|..] == Sent(rest);
      } else {
        assert |CString(line)| < |line|;
        assert |Sent(file)| < |file|;
      }
    }
  }

  /** What one `fgets` of 1024 bytes returns of a file that starts with it: up to a newline, or 1023
      bytes, or all there is. */
  predicate IsChunk(line: string, rest: string) {
    && 0 < |line| <= 1023 && '\n' !in line[..|line| - 1]
    && (line[|line| - 1] == '\n' || |line| == 1023 || rest == [])
  }

  /** Chunk by chunk a file loses exactly what follows a NUL in the same chunk. */
  lemma SentChunk(line: string, rest: string)
    requires IsChunk(line, rest)
    ensures Sent([]) == [] && Sent(line + rest) == CString(line) + Sent(rest)
  {
    var file := line + rest;
    var n := |line| - 1;
    assert line == line[..n] + [line[n]];
    if line[n] == '\n' {
      IndexOfSplit(line[..n], '\n', rest);
      assert line[..n] + ['\n'] + rest == file;
    } else {
      assert forall k :: 0 <= k < n ==> line[k] == line[..n][k];
      assert forall k :: 0 <= k < |line| ==> file[k] == line[k] != '\n';
    }
    assert Line(file) == line;
    assert file[|line|..] == rest;
  }
}
