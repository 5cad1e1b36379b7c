/** Packing a transcript into an input budget (`apps/web/src/historyBootstrap.ts`). */
module HistoryBootstrap {
  import opened Text

  datatype Attachment = Attachment(isImage: bool, name: string)

  datatype Message = Message(role: string, text: string, attachments: seq<Attachment>)

  datatype BootstrapInput = BootstrapInput(text: string, includedCount: nat, omittedCount: nat, truncated: bool)

  const PREAMBLE := "Continue this conversation using the transcript context below. The final section is the latest user request to answer now."

  function Join(parts: seq<string>, separator: string): string {
    if parts == [] then ""
    else if |parts| == 1 then parts[0]
    else Join(parts[..|parts| - 1], separator) + separator + parts[|parts| - 1]
  }

  // One message

  function ImageNames(attachments: seq<Attachment>): seq<string> {
    if attachments == [] then []
    else
      var rest := ImageNames(attachments[1..]);
      if attachments[0].isImage then [attachments[0].name] + rest else rest
  }

  /** `attachmentSummary`: the first three names and how many more. */
  function AttachmentSummary(message: Message): Option<string> {
    var images := ImageNames(message.attachments);
    if images == [] then None
    else
      var names := if |images| <= 3 then images else images[..3];
      var extra := |images| - |names|;
      Some("[Attached image" + (if |images| == 1 then "" else "s") + ": " + Join(names, ", ")
           + (if extra > 0 then " (+" + NatText(extra) + " more)" else "") + "]")
  }

  /** `buildMessageBlock` */
  function MessageBlock(message: Message): string {
    var role := if message.role == "assistant" then "ASSISTANT" else "USER";
    var attachments := AttachmentSummary(message);
    role + ":\n" +
    if message.text != "" && attachments.Some? then message.text + "\n" + attachments.value
    else if message.text != "" then message.text
    else if attachments.Some? then attachments.value
    else "(empty message)"
  }

  function Blocks(messages: seq<Message>): seq<string> {
    seq(|messages|, i requires 0 <= i < |messages| => MessageBlock(messages[i]))
  }

  // The transcript

  function OmittedSummary(count: nat): string {
    "[" + NatText(count) + " earlier message(s) omitted to stay within input limits.]"
  }

  /** The transcript of the newest blocks, with a line for those left out before them. */
  function Transcript(omitted: nat, included: seq<string>): string {
    if omitted == 0 then Join(included, "\n\n")
    else if included == [] then OmittedSummary(omitted)
    else OmittedSummary(omitted) + "\n\n" + Join(included, "\n\n")
  }

  /** `finalizeWithPrompt` before its length is checked. */
  function WithPrompt(transcript: string, latestPrompt: string): string {
    PREAMBLE + "\n\n" + "Transcript context:" + "\n" + transcript + "\n\n"
    + "Latest user request (answer this now):" + "\n" + latestPrompt
  }

  /** The input that includes the newest `k` messages. */
  function Including(messages: seq<Message>, latestPrompt: string, k: nat): string
    requires k <= |messages|
  {
    WithPrompt(Transcript(|messages| - k, Blocks(messages[|messages| - k..])), latestPrompt)
  }

  predicate Fits(messages: seq<Message>, latestPrompt: string, budget: nat, k: nat)
    requires k <= |messages|
  {
    |Including(messages, latestPrompt, k)| <= budget
  }

  function Budget(maxChars: Number): nat {
    match maxChars
    case NotFinite => 1
    case Finite(x) => if x.Floor < 1 then 1 else x.Floor
  }

  function PromptOnly(latestPrompt: string, budget: nat): string {
    if |latestPrompt| <= budget then latestPrompt else latestPrompt[..budget]
  }

  function Reverse(s: seq<string>): seq<string> {
    if s == [] then [] else [s[|s| - 1]] + Reverse(s[..|s| - 1])
  }

  function NewestFirst(messages: seq<Message>): seq<string> {
    seq(|messages|, i requires 0 <= i < |messages| => MessageBlock(messages[|messages| - 1 - i]))
  }

  lemma {:induction false} ReversedNewest(messages: seq<Message>, k: nat)
    requires k <= |messages|
    ensures Reverse(NewestFirst(messages)[..k]) == Blocks(messages[|messages| - k..])
  {
    hide MessageBlock;
    var n := |messages|;
    if k > 0 {
      ReversedNewest(messages, k - 1);
      assert NewestFirst(messages)[..k][..k - 1] == NewestFirst(messages)[..k - 1];
      assert Blocks(messages[n - k..]) == [MessageBlock(messages[n - k])] + Blocks(messages[n - (k - 1)..]);
    }
  }

  /** What the loops compute from the collected blocks is `Including`, and it holds the prompt. */
  lemma IncludedText(messages: seq<Message>, latestPrompt: string, k: nat)
    requires k <= |messages|
    ensures WithPrompt(Transcript(|messages| - k, Reverse(NewestFirst(messages)[..k])), latestPrompt)
            == Including(messages, latestPrompt, k)
    ensures |latestPrompt| < |Including(messages, latestPrompt, k)|
  {
    hide Blocks, Reverse, Transcript;
    ReversedNewest(messages, k);
  }

  lemma CollectedNext(messages: seq<Message>, k: nat)
    requires k < |messages|
    ensures NewestFirst(messages)[..k + 1] == NewestFirst(messages)[..k] + [MessageBlock(messages[|messages| - 1 - k])]
  {}

  // What the text says

  /** The images of a message are named in their order, and nothing else is. */
  lemma {:induction false} ImagesAreNamed(a: seq<Attachment>, x: Attachment, b: seq<Attachment>)
    ensures ImageNames(a + [x] + b) == ImageNames(a) + (if x.isImage then [x.name] else []) + ImageNames(b)
    decreases |a|
  {
    var all := a + [x] + b;
    if a == [] {
      assert all[0] == x && all[1..] == b;
    } else {
      assert all[0] == a[0] && all[1..] == a[1..] + [x] + b;
      ImagesAreNamed(a[1..], x, b);
      assert ImageNames(a) == (if a[0].isImage then [a[0].name] else []) + ImageNames(a[1..]);
    }
  }

  lemma JoinFew(a: string, b: string, c: string, separator: string)
    ensures Join([a], separator) == a && Join([a, b], separator) == a + separator + b
    ensures Join([a, b, c], separator) == a + separator + b + separator + c
  {
    assert [a, b][..1] == [a] && [a, b, c][..2] == [a, b];
  }

  /** One image is named; of several the first three are, and the others counted. */
  lemma SummarySays(message: Message)
    ensures var names, s := ImageNames(message.attachments), AttachmentSummary(message);
      if |names| == 0 then s == None
      else if |names| == 1 then s == Some("[Attached image: " + names[0] + "]")
      else if |names| == 2 then s == Some("[Attached images: " + (names[0] + ", " + names[1]) + "]")
      else
        var three := names[0] + ", " + names[1] + ", " + names[2];
        if |names| == 3 then s == Some("[Attached images: " + three + "]")
        else s == Some("[Attached images: " + three + (" (+" + NatText(|names| - 3) + " more)") + "]")
  {
    hide ImageNames, Join, NatText;
    var names := ImageNames(message.attachments);
    assert "[Attached image" + "" + ": " == "[Attached image: " && "[Attached image" + "s" + ": " == "[Attached images: ";
    if names != [] {
      var b, c := if |names| > 1 then names[1] else "", if |names| > 2 then names[2] else "";
      JoinFew(names[0], b, c, ", ");
      assert |names| == 1 ==> names == [names[0]];
      assert |names| == 2 ==> names == [names[0], b];
      assert |names| >= 3 ==> names[..3] == [names[0], b, c];
      assert |names| == 3 ==> names == names[..3];
      var joined := Join(if |names| <= 3 then names else names[..3], ", ");
      assert "[Attached image: " + joined + "" == "[Attached image: " + joined;
      assert "[Attached images: " + joined + "" == "[Attached images: " + joined;
    }
  }

  /** A block names who wrote the message, the assistant or else the user, repeats its whole text, and
      closes with its images. */
  lemma BlockSays(message: Message)
    ensures var b, s := MessageBlock(message), AttachmentSummary(message);
      var who := if message.role == "assistant" then "ASSISTANT:\n" else "USER:\n";
      if message.text == "" then b == who + Or(s, "(empty message)")
      else if s.None? then b == who + message.text
      else b == who + message.text + "\n" + s.value
  {
    hide AttachmentSummary;
  }

  predicate StandsAt(part: string, text: string, i: int) {
    0 <= i <= |text| - |part| && text[i..i + |part|] == part
  }

  /** The parts stand in the text one after the other. */
  ghost predicate InOrder(parts: seq<string>, text: string)
    decreases |parts|
  {
    parts == [] ||
    exists i :: StandsAt(parts[0], text, i) && InOrder(parts[1..], text[i + |parts[0]|..])
  }

  lemma InOrderIntro(parts: seq<string>, text: string, i: nat)
    requires parts != [] && StandsAt(parts[0], text, i)
    requires InOrder(parts[1..], text[i + |parts[0]|..])
    ensures InOrder(parts, text)
  {}

  lemma InOrderElim(parts: seq<string>, text: string) returns (i: nat)
    requires parts != [] && InOrder(parts, text)
    ensures StandsAt(parts[0], text, i)
    ensures InOrder(parts[1..], text[i + |parts[0]|..])
  {
    i :| StandsAt(parts[0], text, i) && InOrder(parts[1..], text[i + |parts[0]|..]);
  }

  lemma NothingInOrder(text: string)
    ensures InOrder([], text)
  {}

  lemma OneInOrder(part: string)
    ensures InOrder([part], part)
  {
    NothingInOrder(part[|part|..]);
    assert [part][1..] == [];
    InOrderIntro([part], part, 0);
  }

  lemma {:induction false} InOrderBehind(parts: seq<string>, front: string, text: string)
    requires InOrder(parts, text)
    ensures InOrder(parts, front + text)
  {
    hide InOrder;
    if parts == [] {
      NothingInOrder(front + text);
    } else {
      var i := InOrderElim(parts, text);
      var all, j := front + text, |front| + i;
      assert all[j + |parts[0]|..] == text[i + |parts[0]|..];
      assert all[j..j + |parts[0]|] == text[i..i + |parts[0]|];
      InOrderIntro(parts, all, j);
    }
  }

  /** What stands in order in two texts does so in both together. */
  lemma {:induction false} InOrderConcat(a: seq<string>, s: string, b: seq<string>, t: string)
    requires InOrder(a, s) && InOrder(b, t)
    ensures InOrder(a + b, s + t)
    decreases |a|
  {
    hide InOrder;
    if a == [] {
      InOrderBehind(b, s, t);
      assert a + b == b;
    } else {
      var i := InOrderElim(a, s);
      var j := i + |a[0]|;
      InOrderConcat(a[1..], s[j..], b, t);
      assert (a + b)[1..] == a[1..] + b && (s + t)[j..] == s[j..] + t;
      assert (s + t)[i..j] == s[i..j];
      InOrderIntro(a + b, s + t, i);
    }
  }

  /** A gap, and one more part. */
  lemma InOrderNext(a: seq<string>, s: string, gap: string, part: string)
    requires InOrder(a, s)
    ensures InOrder(a, s + gap) && InOrder(a + [part], s + gap + part)
  {
    hide InOrder;
    NothingInOrder(gap);
    OneInOrder(part);
    InOrderConcat(a, s, [], gap);
    assert a + [] == a;
    InOrderConcat(a, s + gap, [part], part);
  }

  lemma {:induction false} JoinedInOrder(parts: seq<string>, separator: string)
    ensures InOrder(parts, Join(parts, separator))
  {
    hide InOrder;
    if parts == [] {
      NothingInOrder("");
    } else if |parts| == 1 {
      OneInOrder(parts[0]);
      assert parts == [parts[0]];
    } else {
      var n := |parts| - 1;
      JoinedInOrder(parts[..n], separator);
      InOrderNext(parts[..n], Join(parts[..n], separator), separator, parts[n]);
      assert parts == parts[..n] + [parts[n]];
    }
  }

  /** The line about omitted messages, where there are some. */
  function OmittedLine(omitted: nat): seq<string> {
    if omitted == 0 then [] else ["[" + NatText(omitted) + " earlier message(s) omitted to stay within input limits.]"]
  }

  lemma TranscriptInOrder(omitted: nat, included: seq<string>)
    ensures InOrder(OmittedLine(omitted) + included, Transcript(omitted, included))
  {
    hide NatText, InOrder, Join;
    JoinedInOrder(included, "\n\n");
    if omitted == 0 {
      assert OmittedLine(omitted) + included == included;
    } else {
      var line := OmittedSummary(omitted);
      assert OmittedLine(omitted) == [line];
      OneInOrder(line);
      if included == [] {
        assert [line] + included == [line];
      } else {
        InOrderNext([line], line, "\n\n", "");
        InOrderConcat([line], line + "\n\n", included, Join(included, "\n\n"));
      }
    }
  }

  /** The input opens with the preamble, says how many messages are omitted if any are, holds the blocks
      of the included ones in order, and closes with the latest request under its heading. */
  lemma IncludingSays(messages: seq<Message>, latestPrompt: string, k: nat)
    requires k <= |messages|
    ensures var text := Including(messages, latestPrompt, k);
      && PREAMBLE <= text && |latestPrompt| <= |text| && text[|text| - |latestPrompt|..] == latestPrompt
      && InOrder([PREAMBLE, "Transcript context:"] + (OmittedLine(|messages| - k) + Blocks(messages[|messages| - k..]))
                 + ["Latest user request (answer this now):"] + [latestPrompt], text)
  {
    hide Blocks, Transcript, InOrder, NatText, PREAMBLE, OmittedLine;
    var blocks, omitted := Blocks(messages[|messages| - k..]), |messages| - k;
    var context, request := "Transcript context:", "Latest user request (answer this now):";
    var head := PREAMBLE + "\n\n" + context;
    OneInOrder(PREAMBLE);
    InOrderNext([PREAMBLE], PREAMBLE, "\n\n", context);
    assert [PREAMBLE] + [context] == [PREAMBLE, context];
    InOrderNext([PREAMBLE, context], head, "\n", "");
    TranscriptInOrder(omitted, blocks);
    var parts := OmittedLine(omitted) + blocks;
    InOrderConcat([PREAMBLE, context], head + "\n", parts, Transcript(omitted, blocks));
    var all := [PREAMBLE, context] + parts;
    var body := head + "\n" + Transcript(omitted, blocks);
    InOrderNext(all, body, "\n\n", request);
    InOrderNext(all + [request], body + "\n\n" + request, "\n", latestPrompt);
    var text := body + "\n\n" + request + "\n" + latestPrompt;
    assert text == Including(messages, latestPrompt, k);
    assert text[|text| - |latestPrompt|..] == latestPrompt;
  }

  /** The budget is the limit in whole characters, and at least one. */
  lemma BudgetIs(x: real)
    ensures Budget(NotFinite) == 1
    ensures x < 1.0 ==> Budget(Finite(x)) == 1
    ensures x >= 1.0 ==> Budget(Finite(x)) as real <= x < Budget(Finite(x)) as real + 1.0
  {}

  /** Alone, as much of the prompt is kept as fits. */
  lemma PromptAlone(latestPrompt: string, budget: nat)
    ensures var p := PromptOnly(latestPrompt, budget);
      p <= latestPrompt && |p| <= budget && (p == latestPrompt || |p| == budget)
  {}

  /** The input never exceeds the budget, every message is either included or counted as omitted, and
      the included ones are the newest: each shorter run of newest messages would have fitted too, and
      the next older message would not. When not even the line about the omitted messages fits, the
      prompt goes alone, cut to the budget. */
  method BuildBootstrapInput(previousMessages: seq<Message>, latestPrompt: string, maxChars: Number)
    returns (r: BootstrapInput)
    ensures |r.text| <= Budget(maxChars)
    ensures r.includedCount + r.omittedCount == |previousMessages|
    ensures r.truncated <==> r.omittedCount > 0 || |latestPrompt| > Budget(maxChars)
    ensures forall j | 1 <= j <= r.includedCount :: Fits(previousMessages, latestPrompt, Budget(maxChars), j)
    ensures r.omittedCount > 0 ==> !Fits(previousMessages, latestPrompt, Budget(maxChars), r.includedCount + 1)
    ensures r.text == if previousMessages == [] || !Fits(previousMessages, latestPrompt, Budget(maxChars), r.includedCount)
                      then PromptOnly(latestPrompt, Budget(maxChars))
                      else Including(previousMessages, latestPrompt, r.includedCount)
  {
    hide Blocks, Including, Join, MessageBlock, NatText, OmittedSummary, Reverse, Transcript, WithPrompt;
    var n := |previousMessages|;
    var budget := Budget(maxChars);
    var promptOnly := PromptOnly(latestPrompt, budget);
    if n == 0 {
      return BootstrapInput(promptOnly, 0, 0, |promptOnly| != |latestPrompt|);
    }
    var newestFirstBlocks: seq<string> := [];
    ghost var newest := NewestFirst(previousMessages);
    assert |newest| == n;
    var index := n - 1;
    while index >= 0
      invariant -1 <= index < n && newestFirstBlocks == newest[..n - 1 - index]
    {
      CollectedNext(previousMessages, n - 1 - index);
      newestFirstBlocks := newestFirstBlocks + [MessageBlock(previousMessages[index])];
      index := index - 1;
    }
    assert newestFirstBlocks == newest;
    var includedNewestFirst: seq<string> := [];
    while |includedNewestFirst| < n
      invariant |includedNewestFirst| <= n && includedNewestFirst == newest[..|includedNewestFirst|]
      invariant forall j | 1 <= j <= |includedNewestFirst| :: Fits(previousMessages, latestPrompt, budget, j)
      decreases n - |includedNewestFirst|
    {
      var k := |includedNewestFirst| + 1;
      var nextNewestFirst := includedNewestFirst + [newestFirstBlocks[k - 1]];
      assert nextNewestFirst == newest[..k];
      IncludedText(previousMessages, latestPrompt, k);
      var transcriptBody := Transcript(n - k, Reverse(nextNewestFirst));
      if |WithPrompt(transcriptBody, latestPrompt)| > budget {
        break;
      }
      includedNewestFirst := nextNewestFirst;
    }
    var included := |includedNewestFirst|;
    assert included < n ==> !Fits(previousMessages, latestPrompt, budget, included + 1);
    IncludedText(previousMessages, latestPrompt, included);
    assert includedNewestFirst == NewestFirst(previousMessages)[..included];
    assert included >= 1 ==> Fits(previousMessages, latestPrompt, budget, included);
    var finalized := WithPrompt(Transcript(n - included, Reverse(includedNewestFirst)), latestPrompt);
    if |finalized| <= budget {
      return BootstrapInput(finalized, included, n - included, n - included > 0 || |latestPrompt| != |promptOnly|);
    }
    // Here the program would drop the oldest included block and try again; there is none to drop.
    assert included == 0;
    return BootstrapInput(promptOnly, 0, n, true);
  }
}
