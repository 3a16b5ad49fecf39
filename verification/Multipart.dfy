/** Stitching the PDUs of one SMS broadcast back into messages
    (app/src/main/java/com/vce/tsunagi/sms/SmsReceiver.kt). */
module Multipart {
  import opened Wrappers

  /** One PDU as Android decodes it; every text may be missing. */
  datatype Part = Part(
    displayAddress: Option<string>, address: Option<string>,
    displayText: Option<string>, text: Option<string>, timestamp: int)

  datatype Captured = Captured(sender: string, body: string, receivedAt: int)

  const UNKNOWN_SENDER: string := "unknown"

  predicate Usable(address: Option<string>) {
    address.Some? && !Blank(address.value)
  }

  function Sender(part: Part): string {
    if Usable(part.displayAddress) then part.displayAddress.value
    else if Usable(part.address) then part.address.value
    else UNKNOWN_SENDER
  }

  function Text(part: Part): string {
    match part.displayText
    case Some(text) => text
    case None => if part.text.Some? then part.text.value else ""
  }

  function AllText(parts: seq<Part>): string {
    if parts == [] then "" else AllText(parts[..|parts| - 1]) + Text(parts[|parts| - 1])
  }

  lemma OneText(part: Part)
    ensures AllText([part]) == Text(part)
  {
    assert [part][..0] == [];
  }

  function Bodies(messages: seq<Captured>): string {
    if messages == [] then "" else Bodies(messages[..|messages| - 1]) + messages[|messages| - 1].body
  }

  /** `parts[from..to]` come from one sender. */
  ghost predicate OneSender(parts: seq<Part>, from: nat, to: nat)
    requires from < to <= |parts|
  {
    forall i | from <= i < to :: Sender(parts[i]) == Sender(parts[from])
  }

  /** The message a run of parts stands for. */
  function Stitched(parts: seq<Part>, from: nat, to: nat): Captured
    requires from < to <= |parts|
  {
    Captured(Sender(parts[from]), AllText(parts[from..to]), parts[from].timestamp)
  }

  /** `message` is `parts[from..to]`, a run that could not start any earlier. */
  ghost predicate Run(parts: seq<Part>, from: nat, to: nat, message: Captured) {
    && from < to <= |parts| && OneSender(parts, from, to)
    && (from > 0 ==> Sender(parts[from - 1]) != Sender(parts[from]))
    && message == Stitched(parts, from, to)
  }

  /** `messages` are the maximal one-sender runs of `parts[..end]`: message k is
      `parts[cuts[k]..cuts[k + 1]]`, and the sender changes at every inner cut. */
  ghost predicate MaximalRuns(parts: seq<Part>, end: nat, cuts: seq<nat>, messages: seq<Captured>) {
    && |cuts| == |messages| + 1 && cuts[0] == 0 && cuts[|messages|] == end <= |parts|
    && forall k | 0 <= k < |messages| :: Run(parts, cuts[k], cuts[k + 1], messages[k])
  }

  /** `messages` are the maximal one-sender runs of the whole broadcast. */
  ghost predicate Grouped(parts: seq<Part>, messages: seq<Captured>) {
    exists cuts :: MaximalRuns(parts, |parts|, cuts, messages)
  }

  lemma ExtendRun(parts: seq<Part>, from: nat, to: nat, run: Captured)
    requires Run(parts, from, to, run)
    requires to < |parts| && Sender(parts[to]) == run.sender
    ensures Run(parts, from, to + 1, run.(body := run.body + Text(parts[to])))
  {
    assert parts[from..to + 1][..to - from] == parts[from..to];
  }

  lemma StartRun(parts: seq<Part>, from: nat)
    requires from < |parts| && (from > 0 ==> Sender(parts[from - 1]) != Sender(parts[from]))
    ensures Run(parts, from, from + 1, Captured(Sender(parts[from]), "" + Text(parts[from]), parts[from].timestamp))
  {
    assert parts[from..from + 1] == [parts[from]];
    OneText(parts[from]);
  }

  lemma AddRun(parts: seq<Part>, from: nat, to: nat, cuts: seq<nat>, messages: seq<Captured>, run: Captured)
    requires MaximalRuns(parts, from, cuts, messages) && Run(parts, from, to, run)
    ensures MaximalRuns(parts, to, cuts + [to], messages + [run])
  {
    hide Run;
    assert to <= |parts| by { RunIsInside(parts, from, to, run); }
  }

  lemma RunIsInside(parts: seq<Part>, from: nat, to: nat, run: Captured)
    requires Run(parts, from, to, run)
    ensures from < to <= |parts| && run.sender == Sender(parts[to - 1]) == Sender(parts[from])
  {
  }

  method Assemble(parts: seq<Part>) returns (assembled: seq<Captured>)
    ensures Grouped(parts, assembled)
  {
    hide Run, MaximalRuns, Sender, Text;
    assembled := [];
    ghost var cuts: seq<nat> := [0];
    var currentSender: Option<string> := None;
    var currentBody := "";
    var currentTimestamp := 0;
    ghost var start: nat := 0;
    NoRuns(parts);
    for i := 0 to |parts|
      invariant currentSender.None? ==> i == 0 && start == 0
      invariant currentSender.Some? ==>
          Run(parts, start, i, Captured(currentSender.value, currentBody, currentTimestamp))
      invariant MaximalRuns(parts, start, cuts, assembled)
    {
      var sender := Sender(parts[i]);
      ghost var run := if currentSender.Some? then Captured(currentSender.value, currentBody, currentTimestamp)
                       else Captured("", "", 0);
      if currentSender.Some? {
        RunIsInside(parts, start, i, run);
      }
      if currentSender != Some(sender) {
        if currentSender.Some? {
          AddRun(parts, start, i, cuts, assembled, run);
          assembled, cuts := assembled + [Captured(currentSender.value, currentBody, currentTimestamp)], cuts + [i];
        }
        currentSender, currentBody, currentTimestamp, start := Some(sender), "", parts[i].timestamp, i;
        StartRun(parts, i);
      } else {
        ExtendRun(parts, start, i, run);
      }
      currentBody := currentBody + Text(parts[i]);
    }
    if currentSender.Some? {
      AddRun(parts, start, |parts|, cuts, assembled, Captured(currentSender.value, currentBody, currentTimestamp));
      assembled, cuts := assembled + [Captured(currentSender.value, currentBody, currentTimestamp)], cuts + [|parts|];
    }
  }

  lemma NoRuns(parts: seq<Part>)
    ensures MaximalRuns(parts, 0, [0], [])
  {
  }

  /** There is only one way to cut a broadcast into maximal runs, so the clause of `Assemble`
      leaves no freedom in its result. */
  lemma {:induction false} RunsAreUnique(
      parts: seq<Part>, end: nat, cuts: seq<nat>, messages: seq<Captured>, cuts': seq<nat>, messages': seq<Captured>)
    requires MaximalRuns(parts, end, cuts, messages) && MaximalRuns(parts, end, cuts', messages')
    ensures cuts == cuts' && messages == messages'
    decreases |messages|
  {
    var m, m' := |messages| - 1, |messages'| - 1;
    if messages == [] || messages' == [] {
      assert messages != [] ==> Run(parts, cuts[m], cuts[m + 1], messages[m]);
      assert messages' != [] ==> Run(parts, cuts'[m'], cuts'[m' + 1], messages'[m']);
    } else {
      LastCutsAgree(parts, end, cuts, messages, cuts', messages');
      LastCutsAgree(parts, end, cuts', messages', cuts, messages);
      DropLastRun(parts, end, cuts, messages);
      DropLastRun(parts, end, cuts', messages');
      RunsAreUnique(parts, cuts[m], cuts[..m + 1], messages[..m], cuts'[..m' + 1], messages'[..m']);
      assert cuts == cuts[..m + 1] + [end] && cuts' == cuts'[..m' + 1] + [end];
      assert messages == messages[..m] + [messages[m]] && messages' == messages'[..m'] + [messages'[m']];
    }
  }

  lemma DropLastRun(parts: seq<Part>, end: nat, cuts: seq<nat>, messages: seq<Captured>)
    requires MaximalRuns(parts, end, cuts, messages) && messages != []
    ensures MaximalRuns(parts, cuts[|messages| - 1], cuts[..|messages|], messages[..|messages| - 1])
  {
  }

  lemma LastCutsAgree(
      parts: seq<Part>, end: nat, cuts: seq<nat>, messages: seq<Captured>, cuts': seq<nat>, messages': seq<Captured>)
    requires MaximalRuns(parts, end, cuts, messages) && MaximalRuns(parts, end, cuts', messages')
    requires messages != [] && messages' != []
    ensures cuts[|messages| - 1] >= cuts'[|messages'| - 1]
  {
    var m, m' := |messages| - 1, |messages'| - 1;
    assert Run(parts, cuts[m], cuts[m + 1], messages[m]);
    assert Run(parts, cuts'[m'], cuts'[m' + 1], messages'[m']);
  }

  /** Nothing of the text is lost or reordered. */
  lemma {:induction false} TextIsConserved(parts: seq<Part>, end: nat, cuts: seq<nat>, messages: seq<Captured>)
    requires MaximalRuns(parts, end, cuts, messages)
    ensures Bodies(messages) == AllText(parts[..end])
    decreases |messages|
  {
    if messages != [] {
      var from, others, last := cuts[|messages| - 1], messages[..|messages| - 1], messages[|messages| - 1];
      assert Run(parts, from, end, last);
      DropLastRun(parts, end, cuts, messages);
      hide *;
      TextIsConserved(parts, from, cuts[..|messages|], others);
      RunBody(parts, from, end, last);
      LastBody(messages);
    }
  }

  lemma RunBody(parts: seq<Part>, from: nat, to: nat, run: Captured)
    requires Run(parts, from, to, run)
    ensures AllText(parts[..to]) == AllText(parts[..from]) + run.body
  {
    hide AllText, Text;
    AllTextConcat(parts[..from], parts[from..to]);
    assert parts[..from] + parts[from..to] == parts[..to];
  }

  lemma LastBody(messages: seq<Captured>)
    requires messages != []
    ensures Bodies(messages) == Bodies(messages[..|messages| - 1]) + messages[|messages| - 1].body
  {
  }

  lemma OneMoreText(parts: seq<Part>, part: Part)
    ensures AllText(parts + [part]) == AllText(parts) + Text(part)
  {
    hide Text;
    assert (parts + [part])[..|parts|] == parts;
  }

  lemma {:induction false} AllTextConcat(a: seq<Part>, b: seq<Part>)
    ensures AllText(a + b) == AllText(a) + AllText(b)
    decreases |b|
  {
    hide Text;
    if b == [] {
      assert a + b == a;
    } else {
      var front, last := b[..|b| - 1], b[|b| - 1];
      AllTextConcat(a, front);
      OneMoreText(a + front, last);
      OneMoreText(front, last);
      assert a + b == (a + front) + [last] && b == front + [last];
    }
  }

  /** Two messages side by side never share a sender. */
  lemma NeighboursDiffer(parts: seq<Part>, cuts: seq<nat>, messages: seq<Captured>, k: nat)
    requires MaximalRuns(parts, |parts|, cuts, messages) && k + 1 < |messages|
    ensures messages[k].sender != messages[k + 1].sender
  {
    assert Run(parts, cuts[k], cuts[k + 1], messages[k]);
    assert Run(parts, cuts[k + 1], cuts[k + 2], messages[k + 1]);
    assert Sender(parts[cuts[k + 1] - 1]) == Sender(parts[cuts[k]]);
  }

  /** Every part, an empty one included, belongs to a captured message with its sender, and that
      message's text contains the part's text. No sender is blank. */
  lemma EveryPartIsCaptured(parts: seq<Part>, cuts: seq<nat>, messages: seq<Captured>, i: nat) returns (k: nat)
    requires MaximalRuns(parts, |parts|, cuts, messages) && i < |parts|
    ensures k < |messages| && cuts[k] <= i < cuts[k + 1]
    ensures messages[k].receivedAt == parts[cuts[k]].timestamp
    ensures messages[k].sender == Sender(parts[i]) && !Blank(messages[k].sender)
    ensures exists before, after :: messages[k].body == before + Text(parts[i]) + after
  {
    k := 0;
    while cuts[k + 1] <= i
      invariant k < |messages| && cuts[k] <= i
      decreases |messages| - k
    {
      k := k + 1;
    }
    assert Run(parts, cuts[k], cuts[k + 1], messages[k]);
    SenderIsNeverBlank(parts[i]);
    TextInside(parts, cuts[k], i, cuts[k + 1]);
  }

  lemma SenderIsNeverBlank(part: Part)
    ensures !Blank(Sender(part))
  {
    assert !Whitespace(UNKNOWN_SENDER[0]);
  }

  lemma TextInside(parts: seq<Part>, from: nat, i: nat, to: nat)
    requires from <= i < to <= |parts|
    ensures exists before, after :: AllText(parts[from..to]) == before + Text(parts[i]) + after
  {
    hide AllText, Text;
    var before, after := parts[from..i], parts[i + 1..to];
    AllTextConcat(before, [parts[i]]);
    AllTextConcat(before + [parts[i]], after);
    assert parts[from..to] == before + [parts[i]] + after;
    OneText(parts[i]);
    assert AllText(parts[from..to]) == AllText(before) + Text(parts[i]) + AllText(after);
  }

  /** Which address and which text count, in the fields of the part: every part is in a message
      from its display address unless that is missing or blank, then from its originating one
      unless that is, then from "unknown"; and the message holds its display text unless that is
      missing, then its raw one, then nothing. */
  lemma PartInResult(parts: seq<Part>, messages: seq<Captured>, i: nat)
    returns (k: nat, before: string, after: string)
    requires Grouped(parts, messages) && i < |parts|
    ensures k < |messages|
    ensures var part := parts[i];
            && messages[k].sender
               == (if part.displayAddress.Some? && !Blank(part.displayAddress.value) then part.displayAddress.value
                   else if part.address.Some? && !Blank(part.address.value) then part.address.value
                   else "unknown")
            && messages[k].body
               == before
                  + (if part.displayText.Some? then part.displayText.value
                     else if part.text.Some? then part.text.value else "")
                  + after
  {
    hide MaximalRuns, Blank;
    var cuts :| MaximalRuns(parts, |parts|, cuts, messages);
    k := EveryPartIsCaptured(parts, cuts, messages, i);
    before, after :| messages[k].body == before + Text(parts[i]) + after;
  }

  /** What the loop returns, put together: it is determined by the parts, it holds all of their
      text in order and one message for each change of sender, and every part is in it. */
  lemma AssemblyIsFaithful(parts: seq<Part>, messages: seq<Captured>, others: seq<Captured>)
    requires Grouped(parts, messages) && Grouped(parts, others)
    ensures messages == others
    ensures Bodies(messages) == AllText(parts)
    ensures forall k | 0 <= k < |messages| - 1 :: messages[k].sender != messages[k + 1].sender
    ensures forall part | part in parts :: exists k :: 0 <= k < |messages| && messages[k].sender == Sender(part)
  {
    hide MaximalRuns, AllText, Bodies, Sender, Text, Blank;
    var cuts :| MaximalRuns(parts, |parts|, cuts, messages);
    var cuts' :| MaximalRuns(parts, |parts|, cuts', others);
    RunsAreUnique(parts, |parts|, cuts, messages, cuts', others);
    TextIsConserved(parts, |parts|, cuts, messages);
    assert parts[..|parts|] == parts;
    forall k | 0 <= k < |messages| - 1
      ensures messages[k].sender != messages[k + 1].sender
    {
      NeighboursDiffer(parts, cuts, messages, k);
    }
    forall part | part in parts
      ensures exists k :: 0 <= k < |messages| && messages[k].sender == Sender(part)
    {
      var i :| 0 <= i < |parts| && parts[i] == part;
      var k := EveryPartIsCaptured(parts, cuts, messages, i);
    }
  }
}
