/** The messages of the shared memory programs: `send_command`, the server's
    request parser and the client's reply parser. */
module Messages {
  import opened Text

  const MAX_MSG: nat := 512

  /** A request as the server understands it; `MALFORMED` is what every error path leaves. */
  datatype Request = Request(command: int, page: int, content: Option<string>)

  const MALFORMED := Request(-1, -1, None)

  datatype Reply = Reply(command: int, content: Option<string>)

  // ---------- send_command ----------

  /** The text handed to the socket, or None where `send_command` refuses. */
  function Encode(command: int, content: Option<string>): Option<string> {
    if command < 0 || command > 2 || content.None? then None
    else
      var message := Decimal(command) + " " + CString(content.value);
      if |message| >= MAX_MSG then None else Some(message)
  }

  /** `send_command`: the message is formatted into a fixed buffer and cut at its end. */
  method SendCommand(message: array<char>, command: int, content: Option<string>) returns (sent: Option<string>)
    requires message.Length == MAX_MSG
    modifies message
    ensures sent == Encode(command, content)
    ensures sent.Some? ==> CString(message[..]) == sent.value
  {
    if command < 0 || command > 2 || content.None? {
      return None;
    }
    var text := Decimal(command) + " " + CString(content.value);
    var written := |text|;
    for i := 0 to MAX_MSG - 1
      invariant forall k :: 0 <= k < i ==> message[k] == if k < |text| then text[k] else '\0'
    {
      message[i] := if i < |text| then text[i] else '\0';
    }
    message[MAX_MSG - 1] := '\0';
    if written >= MAX_MSG {
      return None;
    }
    assert message[..] == text + message[|text|..];
    CStringOf(text, message[|text|..]);
    return Some(text);
  }

  // ---------- the server's parser ----------

  /** `sscanf(buffer, "%d %d", ...)`. */
  function ParseTwoNumbers(text: string): Request {
    match ScanInt(text)
    case NoNumber => MALFORMED
    case Number(command, rest) =>
      match ScanInt(rest)
      case NoNumber => MALFORMED
      case Number(page, _) => Request(command, page, None)
  }

  /** The request in the bytes one `recv` returned. */
  function Parse(received: string): Request {
    ParseText(CString(received))
  }

  function ParseText(text: string): Request {
    var first := IndexOf(text, ' ');
    if first == |text| then MALFORMED
    else
      var second := first + 1 + IndexOf(text[first + 1..], ' ');
      if second == |text| then ParseTwoNumbers(text) else ThreeFields(text, first, second)
  }

  function ThreeFields(text: string, first: nat, second: nat): Request
    requires first < second < |text|
  {
    Request(Atoi(text[..first]), Atoi(text[first + 1..second]), Some(text[second + 1..]))
  }

  /** `recv_command_page_num_content`: the parser writes NULs over the two spaces
      of its own buffer and reads the three fields from there. */
  method RecvCommandPageNumContent(buffer: array<char>, bytesReceived: int) returns (r: Request)
    requires buffer.Length == MAX_MSG && bytesReceived <= MAX_MSG - 1
    modifies buffer
    ensures r == if bytesReceived <= 0 then MALFORMED else Parse(old(buffer[..])[..bytesReceived])
  {
    if bytesReceived <= 0 {
      return MALFORMED;
    }
    ghost var received := buffer[..bytesReceived];
    buffer[bytesReceived] := '\0';
    assert buffer[..bytesReceived] == received;
    TerminatorHides(received, buffer[..]);
    r := ParseBuffer(buffer, CString(buffer[..]));
  }

  method ParseBuffer(buffer: array<char>, text: string) returns (r: Request)
    requires |text| < buffer.Length && CString(buffer[..]) == text
    modifies buffer
    ensures r == ParseText(text)
  {
    var first := IndexOf(text, ' ');
    if first == |text| {
      return MALFORMED;
    }
    var second := first + 1 + IndexOf(text[first + 1..], ' ');
    if second == |text| {
      return ParseTwoNumbers(text);
    }
    r := SplitFields(buffer, first, second, text);
  }

  /** The NULs written over the two spaces end the command and the page number. */
  method SplitFields(buffer: array<char>, first: nat, second: nat, ghost text: string) returns (r: Request)
    requires first < second < |text| < buffer.Length && CString(buffer[..]) == text
    modifies buffer
    ensures r == ThreeFields(text, first, second)
  {
    buffer[first] := '\0';
    buffer[second] := '\0';
    var fields := buffer[..];
    assert forall i :: 0 <= i < |text| && i != first && i != second ==> fields[i] == old(buffer[..])[i];
    SplitAtNuls(fields, text, first, second);
    return Request(Atoi(CString(fields)), Atoi(CString(fields[first + 1..])), Some(CString(fields[second + 1..])));
  }

  lemma SplitAtNuls(fields: string, text: string, first: nat, second: nat)
    requires NulFree(text) && first < second < |text| < |fields|
    requires forall i :: 0 <= i < |text| && i != first && i != second ==> fields[i] == text[i]
    requires fields[first] == fields[second] == fields[|text|] == '\0'
    ensures CString(fields) == text[..first]
    ensures CString(fields[first + 1..]) == text[first + 1..second]
    ensures CString(fields[second + 1..]) == text[second + 1..]
  {
    FieldOf(fields, text, 0, first);
    assert fields[0..] == fields;
    FieldOf(fields, text, first + 1, second);
    FieldOf(fields, text, second + 1, |text|);
  }

  lemma TerminatorHides(received: string, buffer: string)
    requires |received| < |buffer| && buffer[..|received|] == received && buffer[|received|] == '\0'
    ensures CString(buffer) == CString(received)
  {
    var r := CString(received);
    assert buffer == r + buffer[|r|..];
    CStringOf(r, buffer[|r|..]);
  }

  lemma FieldOf(buffer: string, text: string, from: nat, to: nat)
    requires NulFree(text) && from <= to <= |text| && to < |buffer|
    requires (forall i :: from <= i < to ==> buffer[i] == text[i]) && buffer[to] == '\0'
    ensures CString(buffer[from..]) == text[from..to]
  {
    assert buffer[from..] == text[from..to] + buffer[to..];
    CStringOf(text[from..to], buffer[to..]);
  }

  // ---------- the client's parser ----------

  function ParseReply(response: string): Reply {
    var text := CString(response);
    var space := IndexOf(text, ' ');
    if space == |text| then Reply(Atoi(text), None)
    else Reply(Atoi(text), if space + 1 < |text| then Some(text[space + 1..]) else None)
  }

  // ---------- round trips ----------

  lemma DecimalIsPlain(n: int)
    ensures NulFree(Decimal(n)) && ' ' !in Decimal(n)
  {
  }

  /** Text printed with `%s` into a message is cut at its own first NUL. */
  lemma EncodePrefix(command: int, prefix: string, typed: string)
    requires 0 <= command <= 2 && NulFree(prefix)
    requires |Decimal(command) + " " + prefix + CString(typed)| < MAX_MSG
    ensures Encode(command, Some(prefix + typed)) == Some(Decimal(command) + " " + (prefix + CString(typed)))
  {
    PrefixedCString(prefix, typed);
  }

  lemma PrefixedCString(prefix: string, typed: string)
    requires NulFree(prefix)
    ensures CString(prefix + typed) == prefix + CString(typed)
  {
    var text := CString(typed);
    assert prefix + typed == (prefix + text) + typed[|text|..];
    CStringOf(prefix + text, typed[|text|..]);
  }

  lemma ParseThree(command: int, page: int, text: string)
    requires NulFree(text)
    ensures Parse(Decimal(command) + " " + (Decimal(page) + " " + text)) == Request(command, page, Some(text))
  {
    DecimalIsPlain(command);
    DecimalIsPlain(page);
    CStringOfFree(Decimal(command) + " " + (Decimal(page) + " " + text));
    SplitAtSpaces(Decimal(command), Decimal(page), text);
    DecimalAlone(command);
    DecimalAlone(page);
  }

  lemma SplitAtSpaces(a: string, b: string, c: string)
    requires ' ' !in a && ' ' !in b
    ensures ParseText(a + " " + (b + " " + c)) == Request(Atoi(a), Atoi(b), Some(c))
  {
    var tail := b + " " + c;
    var message := a + " " + tail;
    IndexOfSplit(a, ' ', tail);
    IndexOfSplit(b, ' ', c);
    FieldsBetween(a, b, c);
    assert ParseText(message) == ThreeFields(message, |a|, |a| + 1 + |b|);
  }

  lemma FieldsBetween(a: string, b: string, c: string)
    ensures var message := a + " " + (b + " " + c);
            && message[..|a|] == a && message[|a| + 1..] == b + " " + c
            && message[|a| + 1..|a| + 1 + |b|] == b && message[|a| + 1 + |b| + 1..] == c
  {
    var tail := b + " " + c;
    var message := a + " " + tail;
    assert message[|a| + 1..] == tail;
    assert message[|a| + 1..|a| + 1 + |b|] == tail[..|b|];
    assert message[|a| + 1 + |b| + 1..] == tail[|b| + 1..];
  }

  /** A write request: whatever the client types after the page number reaches the server
      up to its first NUL, spaces included, as long as the message fits one `recv`. */
  lemma WriteRoundTrip(page: int, typed: string)
    requires |Decimal(2) + " " + (Decimal(page) + " ") + CString(typed)| < MAX_MSG
    ensures Encode(2, Some(Decimal(page) + " " + typed)).Some?
    ensures Parse(Encode(2, Some(Decimal(page) + " " + typed)).value) == Request(2, page, Some(CString(typed)))
  {
    DecimalIsPlain(page);
    EncodePrefix(2, Decimal(page) + " ", typed);
    assert (Decimal(page) + " ") + CString(typed) == Decimal(page) + " " + CString(typed);
    ParseThree(2, page, CString(typed));
  }

  /** What is typed arrives unchanged exactly when it holds no NUL. */
  lemma WriteRoundTripExact(page: int, typed: string)
    requires |Decimal(2) + " " + (Decimal(page) + " ") + CString(typed)| < MAX_MSG
    ensures Encode(2, Some(Decimal(page) + " " + typed)).Some?
    ensures Parse(Encode(2, Some(Decimal(page) + " " + typed)).value) == Request(2, page, Some(typed))
            <==> NulFree(typed)
  {
    WriteRoundTrip(page, typed);
    if NulFree(typed) {
      CStringOfFree(typed);
    }
  }

  /** A read (0) or blocking read (1) request carries its page number and no content. */
  lemma ReadRoundTrip(command: int, page: int)
    requires 0 <= command <= 2 && |Decimal(command) + " " + Decimal(page)| < MAX_MSG
    ensures Encode(command, Some(Decimal(page))).Some?
    ensures Parse(Encode(command, Some(Decimal(page))).value) == Request(command, page, None)
  {
    var commandText, pageText := Decimal(command), Decimal(page);
    var message := commandText + " " + pageText;
    DecimalIsPlain(command);
    DecimalIsPlain(page);
    CStringOfFree(pageText);
    CStringOfFree(message);
    assert message == commandText + [' '] + pageText;
    IndexOfSplit(commandText, ' ', pageText);
    assert message[|commandText| + 1..] == pageText;
    IndexOfAbsent(pageText, ' ');
    ParseTwo(command, page);
  }

  lemma ParseTwo(command: int, page: int)
    ensures ParseTwoNumbers(Decimal(command) + " " + Decimal(page)) == Request(command, page, None)
  {
    var tail := " " + Decimal(page);
    assert Decimal(command) + " " + Decimal(page) == Decimal(command) + tail;
    DecimalRoundTrip(command, tail);
    DecimalAlone(page);
    assert tail[1..] == Decimal(page);
    assert ScanInt(tail) == ScanInt(Decimal(page)) by {
      assert SkipSpaces(tail) == SkipSpaces(tail[1..]);
    }
  }

  /** A server reply is recovered by the client; empty content reads as absent content. */
  lemma ReplyRoundTrip(command: int, content: string)
    requires 0 <= command <= 2 && |Decimal(command) + " " + CString(content)| < MAX_MSG
    ensures Encode(command, Some(content)).Some?
    ensures var text := CString(content);
            ParseReply(Encode(command, Some(content)).value) == Reply(command, if text == [] then None else Some(text))
  {
    PrintedReply(command, CString(content));
  }

  lemma PrintedReply(command: int, text: string)
    requires NulFree(text)
    ensures ParseReply(Decimal(command) + " " + text) == Reply(command, if text == [] then None else Some(text))
  {
    DecimalIsPlain(command);
    AtoiPrinted(command, text);
    NumberedReply(Decimal(command), command, text);
  }

  lemma NumberedReply(a: string, n: int, text: string)
    requires NulFree(a) && NulFree(text) && ' ' !in a && Atoi(a + " " + text) == n
    ensures ParseReply(a + " " + text) == Reply(n, if text == [] then None else Some(text))
  {
    ReplyExactly(a, text, []);
    assert (a + " " + text) + [] == a + " " + text;
  }

  lemma AtoiPrinted(n: int, text: string)
    ensures Atoi(Decimal(n) + " " + text) == n
  {
    assert Decimal(n) + " " + text == Decimal(n) + (" " + text);
    DecimalRoundTrip(n, " " + text);
  }

  // ---------- size limits ----------

  /** Content that reached the server in a write request leaves room for the reply that will carry it. */
  lemma WriteContentFits(received: string)
    requires |received| <= MAX_MSG - 1 && Parse(received).command == 2 && Parse(received).content.Some?
    ensures NulFree(Parse(received).content.value)
    ensures |Parse(received).content.value| <= MAX_MSG - 4
  {
    var text := CString(received);
    var first := IndexOf(text, ' ');
    assert Atoi([]) == 0;
    assert text[..first] != [];
  }

  // ---------- exactly which messages ----------

  /** What travels is the command digit, a space and the content up to its first NUL, at most 511 bytes
      in all; any other command, absent content and longer messages are refused. */
  lemma EncodeExactly(command: int, content: Option<string>)
    ensures Encode(command, content).Some? <==>
              command in {0, 1, 2} && content.Some? && |CString(content.value)| <= 509
    ensures Encode(command, content).Some? ==>
              Encode(command, content).value == [DIGITS[command]] + " " + CString(content.value)
  {
    if 0 <= command <= 2 {
      DecimalExactly(0, command);
    }
  }

  /** The server reads a received text up to its first NUL: without a space it is no request; with one
      it is two numbers; with more, everything after the second space is the content. */
  lemma ParseExactly(a: string, b: string, c: string, after: string)
    requires NulFree(a) && NulFree(b) && NulFree(c) && ' ' !in a && ' ' !in b
    requires after == [] || after[0] == '\0'
    ensures Parse(a + after) == Request(-1, -1, None)
    ensures Parse((a + " " + b) + after) ==
              var first := ScanInt(a + " " + b);
              if first.Number? && ScanInt(first.rest).Number? then Request(first.value, ScanInt(first.rest).value, None)
              else Request(-1, -1, None)
    ensures Parse((a + " " + (b + " " + c)) + after) == Request(Atoi(a), Atoi(b), Some(c))
  {
    CStringOf(a, after);
    IndexOfAbsent(a, ' ');
    OneSpace(a, b, after);
    CStringOf(a + " " + (b + " " + c), after);
    SplitAtSpaces(a, b, c);
  }

  lemma OneSpace(a: string, b: string, after: string)
    requires NulFree(a) && NulFree(b) && ' ' !in a && ' ' !in b
    requires after == [] || after[0] == '\0'
    ensures Parse((a + " " + b) + after) == ParseTwoNumbers(a + " " + b)
  {
    var text := a + " " + b;
    CStringOf(text, after);
    assert text == a + [' '] + b;
    IndexOfSplit(a, ' ', b);
    assert text[|a| + 1..] == b;
    IndexOfAbsent(b, ' ');
  }

  /** The client reads a reply up to its first NUL: the number it starts with, zero where there is none,
      and what follows the first space, absent where nothing does. */
  lemma ReplyExactly(a: string, b: string, after: string)
    requires NulFree(a) && NulFree(b) && ' ' !in a
    requires after == [] || after[0] == '\0'
    ensures ParseReply(a + after) == Reply(Atoi(a), None)
    ensures ParseReply((a + " " + b) + after) == Reply(Atoi(a + " " + b), if b == [] then None else Some(b))
  {
    CStringOf(a, after);
    IndexOfAbsent(a, ' ');
    var text := a + " " + b;
    CStringOf(text, after);
    assert text == a + [' '] + b;
    IndexOfSplit(a, ' ', b);
    assert text[|a| + 1..] == b;
  }

  // ---------- error texts ----------

  /** The texts the server sends without `send_command`, as bytes of UTF-8. */
  const INVALID_PAGE := "ERROR: P\U{C3}\U{A1}gina inv\U{C3}\U{A1}lida"
  const INVALID_CONTENT := "ERROR: Contenido inv\U{C3}\U{A1}lido"
  const NOT_AUTHORISED := "ERROR: No autorizado para escribir"

  /** Text that does not start with a number reads as command 0, which is that of a grant. */
  lemma ErrorReadsAsGrant(text: string)
    requires NulFree(text) && text != []
    ensures ParseReply("ERROR: " + text) == Reply(0, Some(text))
  {
    var a, message := "ERROR:", "ERROR: " + text;
    assert message == a + " " + text == (a + " " + text) + [];
    ReplyExactly(a, text, []);
    assert message == [] + ([] + message);
    NoNumberExactly([], [], message);
  }
}
