/** Sending a folder as one stream of headers and contents, and receiving it in pieces of any size. */
module FolderTransfer {
  import opened Text

  const BUF_SIZE: nat := 1024

  datatype Entry = FileEntry(name: string, content: string) | FolderEntry(name: string)

  /** What the receiver has on disk. */
  datatype Folder = Folder(files: map<string, string>, folders: set<string>)

  // ---------- the stream ----------

  function HeaderLine(e: Entry): string {
    match e
    case FileEntry(name, content) => "ARCHIVO:" + (name + (":" + Decimal(|content|)))
    case FolderEntry(name) => "CARPETA:" + name
  }

  function Payload(e: Entry): string {
    match e
    case FileEntry(_, content) => content
    case FolderEntry(_) => ""
  }

  const END_MARK := "FIN_CARPETA"

  function Print(entries: seq<Entry>): string {
    if entries == [] then END_MARK + "\n"
    else (HeaderLine(entries[0]) + "\n") + (Payload(entries[0]) + Print(entries[1..]))
  }

  /** `enviar_carpeta`: headers, and contents in chunks of one buffer. */
  method SendFolder(entries: seq<Entry>) returns (stream: string)
    ensures stream == Print(entries)
  {
    stream := [];
    var left := entries;
    while left != []
      invariant Print(entries) == stream + Print(left)
      decreases |left|
    {
      var e := left[0];
      var chunks := SendContent(Payload(e));
      Regroup(stream, HeaderLine(e) + "\n", chunks, Print(left[1..]));
      stream := stream + (HeaderLine(e) + "\n") + chunks;
      left := left[1..];
    }
    stream := stream + (END_MARK + "\n");
  }

  /** The inner loop: the content travels one buffer at a time. */
  method SendContent(content: string) returns (sent: string)
    ensures sent == content
  {
    sent := [];
    while |sent| < |content|
      invariant sent <= content
    {
      var bytesRead := if |content| - |sent| < BUF_SIZE then |content| - |sent| else BUF_SIZE;
      sent := sent + content[|sent|..|sent| + bytesRead];
    }
  }

  lemma Regroup(a: string, b: string, c: string, d: string)
    ensures a + (b + (c + d)) == (a + b + c) + d
  {
  }

  // ---------- headers ----------

  datatype FileHeader = FileHeader(name: string, size: int)

  /** `sscanf(line, "ARCHIVO:%[^:]:%ld")` on the text after the keyword; None where it would
      leave a variable unset. */
  function ParseFileHeader(tail: string): Option<FileHeader> {
    var i := IndexOf(tail, ':');
    if i == 0 || i == |tail| then None
    else
      match ScanInt(tail[i + 1..])
      case NoNumber => None
      case Number(size, _) => Some(FileHeader(tail[..i], size))
  }

  /** `%s`: the characters up to white space. */
  function Word(s: string): (w: string)
    ensures w <= s && forall i :: 0 <= i < |w| ==> !IsSpace(w[i])
    ensures |w| < |s| ==> IsSpace(s[|w|])
  {
    if s == [] || IsSpace(s[0]) then [] else [s[0]] + Word(s[1..])
  }

  function ParseFolderHeader(tail: string): Option<string> {
    var name := Word(SkipSpaces(tail));
    if name == [] then None else Some(name)
  }

  /** One header: up to and including the newline. */
  function NextHeader(stream: string): (header: string)
    ensures header <= stream && (stream != [] ==> header != [])
  {
    var i := IndexOf(stream, '\n');
    if i < |stream| then stream[..i + 1] else stream
  }

  /** `strtok(buffer, "\n")` on the text of a header that does not start with a newline. */
  function FirstLine(text: string): string {
    text[..IndexOf(text, '\n')]
  }

  datatype Header = End | FileOf(header: FileHeader) | FolderOf(name: string) | Ignored | Unusable

  function ReadHeader(header: string): Header {
    var text := CString(header);
    if END_MARK <= text then End
    else if "ARCHIVO:" <= text then
      match ParseFileHeader(FirstLine(text)[|"ARCHIVO:"|..])
      case Some(h) => FileOf(h)
      case None => Unusable
    else if "CARPETA:" <= text then
      match ParseFolderHeader(text[|"CARPETA:"|..])
      case Some(name) => FolderOf(name)
      case None => Unusable
    else Ignored
  }

  // ---------- receiving ----------

  /** The part of a stream that belongs to a file of this size: all of it, or what there is. */
  function Body(stream: string, size: int): (body: string)
    ensures body <= stream
  {
    if size <= 0 then [] else if size <= |stream| then stream[..size] else stream
  }

  /** What is rebuilt from a stream; None once a header leaves a variable unset. */
  function Parse(stream: string, built: Folder): Option<Folder>
    decreases |stream|
  {
    if stream == [] then Some(built)
    else
      var header := NextHeader(stream);
      var rest := stream[|header|..];
      match ReadHeader(header)
      case End => Some(built)
      case FileOf(h) =>
        var body := Body(rest, h.size);
        Parse(rest[|body|..], built.(files := built.files[h.name := body]))
      case FolderOf(name) => Parse(rest, built.(folders := built.folders + {name}))
      case Ignored => Parse(rest, built)
      case Unusable => None
  }

  /** The content loop: each `recv` returns some nonempty piece of what was asked for. */
  method ReceiveBody(stream: string, size: int) returns (body: string, rest: string)
    ensures body == Body(stream, size) && rest == stream[|body|..]
    ensures body == if size <= 0 then [] else if size <= |stream| then stream[..size] else stream
  {
    body, rest := [], stream;
    var remaining := size;
    while remaining > 0
      invariant stream == body + rest
      invariant size > 0 ==> remaining == size - |body| >= 0
      invariant size <= 0 ==> body == []
    {
      var toRead := if remaining > BUF_SIZE then BUF_SIZE else remaining;
      if rest == [] {
        break;
      }
      var most := if toRead < |rest| then toRead else |rest|;
      var bytesRead :| 1 <= bytesRead <= most;
      body, rest := body + rest[..bytesRead], rest[bytesRead..];
      remaining := remaining - bytesRead;
    }
  }

  /** `recibir_carpeta`, for every way the contents may be cut into pieces. */
  method ReceiveFolder(stream: string) returns (received: Option<Folder>)
    ensures received == Parse(stream, Folder(map[], {}))
  {
    var built := Folder(map[], {});
    var rest := stream;
    while rest != []
      invariant Parse(stream, Folder(map[], {})) == Parse(rest, built)
      decreases |rest|
    {
      var header := NextHeader(rest);
      var after := rest[|header|..];
      match ReadHeader(header)
      case End => return Some(built);
      case FileOf(h) =>
        var body, next := ReceiveBody(after, h.size);
        built := built.(files := built.files[h.name := body]);
        rest := next;
      case FolderOf(name) =>
        built := built.(folders := built.folders + {name});
        rest := after;
      case Ignored =>
        rest := after;
      case Unusable => return None;
    }
    return Some(built);
  }

  // ---------- round trip ----------

  predicate PlainFileName(name: string) {
    name != [] && NulFree(name) && ':' !in name && '\n' !in name
  }

  predicate PlainFolderName(name: string) {
    name != [] && NulFree(name) && forall i :: 0 <= i < |name| ==> !IsSpace(name[i])
  }

  predicate Plain(e: Entry) {
    if e.FileEntry? then PlainFileName(e.name) else PlainFolderName(e.name)
  }

  predicate AllPlain(entries: seq<Entry>) {
    forall i :: 0 <= i < |entries| ==> Plain(entries[i])
  }

  function AddEntry(built: Folder, e: Entry): Folder {
    match e
    case FileEntry(name, content) => built.(files := built.files[name := content])
    case FolderEntry(name) => built.(folders := built.folders + {name})
  }

  function AddAll(built: Folder, entries: seq<Entry>): Folder
    decreases |entries|
  {
    if entries == [] then built else AddAll(AddEntry(built, entries[0]), entries[1..])
  }

  lemma FileHeaderParses(name: string, size: nat)
    requires name != [] && ':' !in name
    ensures ParseFileHeader(name + (":" + Decimal(size))) == Some(FileHeader(name, size))
  {
    var tail := name + (":" + Decimal(size));
    assert tail == name + [':'] + Decimal(size);
    IndexOfSplit(name, ':', Decimal(size));
    assert tail[|name| + 1..] == Decimal(size);
    DecimalAlone(size);
  }

  lemma {:induction false} WordStops(name: string, rest: string)
    requires (forall i :: 0 <= i < |name| ==> !IsSpace(name[i])) && (rest == [] || IsSpace(rest[0]))
    ensures Word(name + rest) == name
  {
    if name == [] {
      assert name + rest == rest;
    } else {
      WordStops(name[1..], rest);
      assert (name + rest)[1..] == name[1..] + rest;
    }
  }

  lemma HeaderIsOneLine(e: Entry)
    requires Plain(e)
    ensures '\n' !in HeaderLine(e) && NulFree(HeaderLine(e))
  {
    assert e.FolderEntry? ==> forall i :: 0 <= i < |e.name| ==> e.name[i] != '\n';
  }

  lemma FileHeaderReads(name: string, content: string)
    requires Plain(FileEntry(name, content))
    ensures ReadHeader(HeaderLine(FileEntry(name, content)) + "\n") == FileOf(FileHeader(name, |content|))
  {
    var line := HeaderLine(FileEntry(name, content));
    HeaderIsOneLine(FileEntry(name, content));
    CStringOfFree(line + "\n");
    IndexOfSplit(line, '\n', []);
    assert line + ['\n'] + [] == line + "\n";
    assert FirstLine(line + "\n") == line;
    assert line[|"ARCHIVO:"|..] == name + (":" + Decimal(|content|));
    FileHeaderParses(name, |content|);
    assert (line + "\n")[0] == 'A';
  }

  lemma FolderHeaderReads(name: string)
    requires Plain(FolderEntry(name))
    ensures ReadHeader(HeaderLine(FolderEntry(name)) + "\n") == FolderOf(name)
  {
    var line := HeaderLine(FolderEntry(name));
    HeaderIsOneLine(FolderEntry(name));
    CStringOfFree(line + "\n");
    assert (line + "\n")[|"CARPETA:"|..] == name + "\n";
    SkipNothing(name + "\n");
    WordStops(name, "\n");
    assert (line + "\n")[0] == 'C';
  }

  /** Whatever header is read, a file name it gives is plain. */
  lemma FileNamesArePlain(header: string)
    ensures ReadHeader(header).FileOf? ==> PlainFileName(ReadHeader(header).header.name)
  {
    var text := CString(header);
    if "ARCHIVO:" <= text {
      var line := FirstLine(text);
      assert NulFree(line) && '\n' !in line;
    }
  }

  lemma {:induction false} SkippedText(s: string)
    requires NulFree(s)
    ensures NulFree(SkipSpaces(s))
  {
    if s != [] && IsSpace(s[0]) {
      SkippedText(s[1..]);
    }
  }

  /** Whatever header is read, a subfolder name it gives is plain. */
  lemma FolderNamesArePlain(header: string)
    ensures ReadHeader(header).FolderOf? ==> PlainFolderName(ReadHeader(header).name)
  {
    var text := CString(header);
    if "CARPETA:" <= text {
      SkippedText(text[|"CARPETA:"|..]);
    }
  }

  /** A file name and size survive their header exactly when the name holds no colon, no newline
      and no NUL. */
  lemma FileNameExactly(name: string, content: string)
    ensures ReadHeader(HeaderLine(FileEntry(name, content)) + "\n") == FileOf(FileHeader(name, |content|)) <==>
            PlainFileName(name)
  {
    FileNamesArePlain(HeaderLine(FileEntry(name, content)) + "\n");
    if PlainFileName(name) {
      FileHeaderReads(name, content);
    }
  }

  /** A subfolder name survives its header exactly when it is one word without a NUL. */
  lemma FolderNameExactly(name: string)
    ensures ReadHeader(HeaderLine(FolderEntry(name)) + "\n") == FolderOf(name) <==> PlainFolderName(name)
  {
    FolderNamesArePlain(HeaderLine(FolderEntry(name)) + "\n");
    if PlainFolderName(name) {
      FolderHeaderReads(name);
    }
  }

  lemma HeaderSplits(line: string, rest: string)
    requires '\n' !in line
    ensures NextHeader((line + "\n") + rest) == line + "\n"
    ensures ((line + "\n") + rest)[|line| + 1..] == rest
  {
    IndexOfSplit(line, '\n', rest);
    assert line + ['\n'] + rest == (line + "\n") + rest;
  }

  lemma EntryRoundTrip(e: Entry, rest: string, built: Folder)
    requires Plain(e)
    ensures Parse((HeaderLine(e) + "\n") + (Payload(e) + rest), built) == Parse(rest, AddEntry(built, e))
  {
    HeaderIsOneLine(e);
    HeaderSplits(HeaderLine(e), Payload(e) + rest);
    match e
    case FileEntry(name, content) =>
      FileHeaderReads(name, content);
      assert Body(content + rest, |content|) == content;
      assert (content + rest)[|content|..] == rest;
    case FolderEntry(name) =>
      FolderHeaderReads(name);
      assert Payload(e) + rest == rest;
  }

  lemma EndStops(built: Folder)
    ensures Parse(END_MARK + "\n", built) == Some(built)
  {
    assert '\n' !in END_MARK;
    HeaderSplits(END_MARK, []);
    assert (END_MARK + "\n") + [] == END_MARK + "\n";
    CStringOfFree(END_MARK + "\n");
  }

  /** Receiving what was sent rebuilds every file with its bytes and every subfolder name. */
  lemma {:induction false} FolderRoundTrip(entries: seq<Entry>, built: Folder)
    requires AllPlain(entries)
    ensures Parse(Print(entries), built) == Some(AddAll(built, entries))
  {
    if entries == [] {
      EndStops(built);
    } else {
      EntryRoundTrip(entries[0], Print(entries[1..]), built);
      FolderRoundTrip(entries[1..], AddEntry(built, entries[0]));
    }
  }

  /** Every name in the folder is plain. */
  ghost predicate PlainNames(built: Folder) {
    && (forall name :: name in built.files ==> PlainFileName(name))
    && (forall name :: name in built.folders ==> PlainFolderName(name))
  }

  /** Whatever stream is received, only plain names are built. */
  lemma {:induction false} OnlyPlainNamesBuilt(stream: string, built: Folder)
    requires PlainNames(built)
    ensures Parse(stream, built).Some? ==> PlainNames(Parse(stream, built).value)
    decreases |stream|
  {
    if stream != [] {
      var header := NextHeader(stream);
      var rest := stream[|header|..];
      FileNamesArePlain(header);
      FolderNamesArePlain(header);
      match ReadHeader(header)
      case FileOf(h) =>
        var body := Body(rest, h.size);
        OnlyPlainNamesBuilt(rest[|body|..], built.(files := built.files[h.name := body]));
      case FolderOf(name) => OnlyPlainNamesBuilt(rest, built.(folders := built.folders + {name}));
      case Ignored => OnlyPlainNamesBuilt(rest, built);
      case _ =>
    }
  }

  predicate Has(built: Folder, e: Entry) {
    if e.FileEntry? then e.name in built.files else e.name in built.folders
  }

  lemma {:induction false} AddAllHas(built: Folder, entries: seq<Entry>, e: Entry)
    requires Has(built, e) || e in entries
    ensures Has(AddAll(built, entries), e)
    decreases |entries|
  {
    if entries != [] {
      AddAllHas(AddEntry(built, entries[0]), entries[1..], e);
    }
  }

  /** For every list of entries, receiving what was sent rebuilds all of them exactly when every file
      name is free of colons and newlines and every subfolder name is one word. */
  lemma TransferExactly(entries: seq<Entry>)
    ensures Parse(Print(entries), Folder(map[], {})) == Some(AddAll(Folder(map[], {}), entries)) <==> AllPlain(entries)
  {
    var empty := Folder(map[], {});
    if AllPlain(entries) {
      FolderRoundTrip(entries, empty);
    } else {
      var i :| 0 <= i < |entries| && !Plain(entries[i]);
      OnlyPlainNamesBuilt(Print(entries), empty);
      AddAllHas(empty, entries, entries[i]);
    }
  }

  /** Sender and receiver together. */
  method TransferFolder(entries: seq<Entry>) returns (received: Option<Folder>)
    ensures received == Some(AddAll(Folder(map[], {}), entries)) <==> AllPlain(entries)
    ensures received.Some? ==> PlainNames(received.value)
  {
    var stream := SendFolder(entries);
    received := ReceiveFolder(stream);
    TransferExactly(entries);
    OnlyPlainNamesBuilt(stream, Folder(map[], {}));
  }

  /** The entries of a directory have different names, so nothing is overwritten on arrival. */
  lemma {:induction false} NothingIsLost(entries: seq<Entry>, built: Folder, i: nat)
    requires i < |entries| && forall j, k :: 0 <= j < k < |entries| ==> entries[j].name != entries[k].name
    ensures var r := AddAll(built, entries);
            if entries[i].FileEntry? then entries[i].name in r.files && r.files[entries[i].name] == entries[i].content
            else entries[i].name in r.folders
    decreases |entries|
  {
    if i > 0 {
      NothingIsLost(entries[1..], AddEntry(built, entries[0]), i - 1);
    } else {
      OthersKeep(AddEntry(built, entries[0]), entries[1..], entries[0].name);
    }
  }

  lemma {:induction false} OthersKeep(built: Folder, entries: seq<Entry>, name: string)
    requires forall k :: 0 <= k < |entries| ==> entries[k].name != name
    ensures var r := AddAll(built, entries);
            && (name in built.files ==> name in r.files && r.files[name] == built.files[name])
            && (name in built.folders ==> name in r.folders)
    decreases |entries|
  {
    if entries != [] {
      OthersKeep(AddEntry(built, entries[0]), entries[1..], name);
    }
  }

  /** And nothing else is built: the names are those of the entries. */
  lemma {:induction false} NothingIsAdded(entries: seq<Entry>, built: Folder, name: string)
    ensures var r := AddAll(built, entries);
            && (name in r.files <==>
                  name in built.files || exists e :: e in entries && e.FileEntry? && e.name == name)
            && (name in r.folders <==>
                  name in built.folders || exists e :: e in entries && e.FolderEntry? && e.name == name)
    decreases |entries|
  {
    if entries != [] {
      var first, rest := entries[0], entries[1..];
      NothingIsAdded(rest, AddEntry(built, first), name);
      assert forall e :: e in entries <==> e == first || e in rest;
    }
  }

  // ---------- the stream itself, and other streams ----------

  /** The bytes that travel: a file is its name and size in one line and then its content, a subfolder
      one line, and one more line ends the stream. */
  lemma StreamExactly(name: string, content: string, rest: seq<Entry>)
    ensures Print([]) == "FIN_CARPETA\n"
    ensures Print([FileEntry(name, content)] + rest) ==
              (("ARCHIVO:" + (name + (":" + Decimal(|content|)))) + "\n") + (content + Print(rest))
    ensures Print([FolderEntry(name)] + rest) == (("CARPETA:" + name) + "\n") + Print(rest)
  {
    assert ([FileEntry(name, content)] + rest)[1..] == rest;
    assert ([FolderEntry(name)] + rest)[1..] == rest;
    assert "" + Print(rest) == Print(rest);
  }

  /** Nothing after a line that starts with the end mark is read. */
  lemma EndStopsAnywhere(tail: string, rest: string, built: Folder)
    requires '\n' !in tail
    ensures Parse((("FIN_CARPETA" + tail) + "\n") + rest, built) == Some(built)
    ensures Parse([], built) == Some(built)
  {
    var line := "FIN_CARPETA" + tail;
    HeaderSplits(line, rest);
    StartsAs(END_MARK, line + "\n");
  }

  /** A C string starts with a NUL-free text exactly when the whole buffer does. */
  lemma StartsAs(start: string, buffer: string)
    requires NulFree(start)
    ensures start <= CString(buffer) <==> start <= buffer
  {
    if start <= buffer {
      assert forall k :: 0 <= k < |start| ==> buffer[k] == start[k] != '\0';
    }
  }

  /** A line that is no header is skipped. */
  lemma OtherLinesAreSkipped(line: string, rest: string, built: Folder)
    requires '\n' !in line
    requires !("FIN_CARPETA" <= line + "\n") && !("ARCHIVO:" <= line + "\n") && !("CARPETA:" <= line + "\n")
    ensures Parse((line + "\n") + rest, built) == Parse(rest, built)
  {
    HeaderSplits(line, rest);
    StartsAs(END_MARK, line + "\n");
    StartsAs("ARCHIVO:", line + "\n");
    StartsAs("CARPETA:", line + "\n");
  }

  /** If the stream ends inside a file, what arrived of it is kept. */
  lemma CutFileIsKept(name: string, content: string, k: nat, built: Folder)
    requires PlainFileName(name) && k < |content|
    ensures Parse((HeaderLine(FileEntry(name, content)) + "\n") + content[..k], built) ==
              Some(built.(files := built.files[name := content[..k]]))
  {
    var e := FileEntry(name, content);
    HeaderIsOneLine(e);
    HeaderSplits(HeaderLine(e), content[..k]);
    FileHeaderReads(name, content);
    assert content[..k][k..] == [];
  }
}
