/** The writing client: it asks for a page, waits for its turn and shows what it was sent. */
module PageClient {
  import opened Text
  import opened Messages
  import opened PageModel

  /** What the user sees: nothing, or the current content (absent for an empty page). */
  datatype Outcome = NothingShown | Shown(content: Option<string>)

  /** After being told to wait, everything but a grant is ignored. */
  function AfterWait(responses: seq<string>): Outcome {
    if responses == [] then NothingShown
    else
      var reply := ParseReply(responses[0]);
      if reply.command == 0 then Shown(reply.content) else AfterWait(responses[1..])
  }

  function Await(responses: seq<string>): Outcome {
    if responses == [] then NothingShown
    else
      var reply := ParseReply(responses[0]);
      if reply.command == 1 then AfterWait(responses[1..])
      else if reply.command == 0 then Shown(reply.content)
      else NothingShown
  }

  /** Reply k is the grant the client acts on: it is the first reply, or the first reply says to wait and
      no reply between carries command 0. */
  predicate IsGrant(responses: seq<string>, k: int) {
    && 0 <= k < |responses| && ParseReply(responses[k]).command == 0
    && (k > 0 ==>
          && ParseReply(responses[0]).command == 1
          && forall i :: 0 < i < k ==> ParseReply(responses[i]).command != 0)
  }

  lemma {:induction false} AfterWaitExactly(responses: seq<string>)
    ensures AfterWait(responses).Shown? <==> exists k :: 0 <= k < |responses| && ParseReply(responses[k]).command == 0
    ensures forall k ::
              0 <= k < |responses| && ParseReply(responses[k]).command == 0
                && (forall i :: 0 <= i < k ==> ParseReply(responses[i]).command != 0)
              ==> AfterWait(responses) == Shown(ParseReply(responses[k]).content)
  {
    if responses != [] && ParseReply(responses[0]).command != 0 {
      var rest := responses[1..];
      AfterWaitExactly(rest);
      assert forall k :: 0 < k < |responses| ==> responses[k] == rest[k - 1];
      assert forall k :: 0 <= k < |rest| ==> rest[k] == responses[k + 1];
      forall k | 0 <= k < |responses| && ParseReply(responses[k]).command == 0
                   && (forall i :: 0 <= i < k ==> ParseReply(responses[i]).command != 0)
        ensures AfterWait(responses) == Shown(ParseReply(responses[k]).content)
      {
        assert k > 0 && rest[k - 1] == responses[k];
        assert forall i :: 0 <= i < k - 1 ==> ParseReply(rest[i]).command != 0;
      }
    }
  }

  lemma GrantIsShown(responses: seq<string>, k: int)
    requires IsGrant(responses, k)
    ensures Await(responses) == Shown(ParseReply(responses[k]).content)
  {
    if k > 0 {
      var rest := responses[1..];
      AfterWaitExactly(rest);
      assert rest[k - 1] == responses[k];
      forall i | 0 <= i < k - 1
        ensures ParseReply(rest[i]).command != 0
      {
        assert rest[i] == responses[i + 1];
      }
    }
  }

  /** For every list of responses content is shown exactly when one of them is a grant, and it is then
      the content of that one. */
  lemma ShownExactly(responses: seq<string>)
    ensures Await(responses).Shown? <==> exists k :: IsGrant(responses, k)
    ensures forall k :: IsGrant(responses, k) ==> Await(responses) == Shown(ParseReply(responses[k]).content)
  {
    if responses != [] {
      var rest := responses[1..];
      forall k | IsGrant(responses, k)
        ensures Await(responses) == Shown(ParseReply(responses[k]).content)
      {
        GrantIsShown(responses, k);
      }
      if ParseReply(responses[0]).command == 0 {
        assert IsGrant(responses, 0);
      } else if Await(responses).Shown? {
        var k := FirstGrant(rest);
        assert forall i :: 0 < i < k + 1 ==> responses[i] == rest[i - 1];
        assert IsGrant(responses, k + 1);
      }
    }
  }

  lemma {:induction false} FirstGrant(responses: seq<string>) returns (k: nat)
    requires AfterWait(responses).Shown?
    ensures k < |responses| && ParseReply(responses[k]).command == 0
    ensures forall i :: 0 <= i < k ==> ParseReply(responses[i]).command != 0
  {
    if ParseReply(responses[0]).command == 0 {
      k := 0;
    } else {
      var later := FirstGrant(responses[1..]);
      k := later + 1;
      assert forall i :: 0 < i < k ==> responses[i] == responses[1..][i - 1];
    }
  }

  /** The receiving half of `handle_write_operation`, over the responses that arrive before the
      connection ends. */
  method AwaitGrant(responses: seq<string>) returns (shown: Outcome)
    ensures shown == Await(responses)
    ensures shown.Shown? <==> exists k :: IsGrant(responses, k)
    ensures forall k :: IsGrant(responses, k) ==> shown == Shown(ParseReply(responses[k]).content)
  {
    ShownExactly(responses);
    if responses == [] {
      return NothingShown;
    }
    var reply := ParseReply(responses[0]);
    if reply.command == 1 {
      var i := 1;
      while true
        invariant 1 <= i <= |responses|
        invariant AfterWait(responses[1..]) == AfterWait(responses[i..])
        decreases |responses| - i
      {
        if i == |responses| {
          return NothingShown;
        }
        reply := ParseReply(responses[i]);
        if reply.command == 0 {
          break;
        }
        i := i + 1;
      }
      return Shown(reply.content);
    } else if reply.command == 0 {
      return Shown(reply.content);
    }
    return NothingShown;
  }

  /** Whether it had to wait or not, the client shows exactly the text of the granted page. */
  lemma ClientShowsGrant(bytes: string, waited: bool)
    requires GrantFits(bytes)
    ensures Encode(1, Some("")).Some?
    ensures var grant := Encode(0, Some(bytes)).value;
            var responses := if waited then [Encode(1, Some("")).value, grant] else [grant];
            var text := CString(bytes);
            Await(responses) == Shown(if text == [] then None else Some(text))
  {
    ReplyRoundTrip(0, bytes);
    assert |Decimal(1)| == 1;
    ReplyRoundTrip(1, "");
    var grant := Encode(0, Some(bytes)).value;
    var wait := Encode(1, Some("")).value;
    assert [wait, grant][1..] == [grant];
  }

  /** The server's refusal of a page number is taken for a grant: the client shows its text as the
      content of the page and goes on to ask for new content. */
  lemma RefusalShownAsPage()
    ensures Await([INVALID_PAGE]) == Shown(Some(INVALID_PAGE[|"ERROR: "|..]))
  {
    var text := INVALID_PAGE[|"ERROR: "|..];
    assert INVALID_PAGE == "ERROR: " + text;
    ErrorReadsAsGrant(text);
  }
}
