/**
 * The solution and discussion generators: the prompts they send to the
 * completion endpoint and the splitting of the model's reply into an
 * explanation and a corrected version of the code.
 *
 * The completion endpoint is a parameter, `complete`: see
 * `Messages.Completion`.
 */
module Generation {
  import opened Wrappers
  import opened Text
  import opened Messages

  /** The line the model is asked to put between its explanation and the
      corrected code. */
  const Marker: string := "\nCódigo corrigido:\n"

  datatype Solution = Solution(explanation: string, correctedCode: string)

  /** Python's `s.split(sep, 1)`: the text before the first occurrence of
      `sep` and the text after it, or `[s]` when `sep` does not occur. */
  function SplitOnce(s: string, sep: string): (parts: seq<string>)
    requires sep != []
    ensures |parts| == 1 || |parts| == 2
    ensures |parts| == 1 <==> !Contains(s, sep)
    ensures |parts| == 1 ==> parts[0] == s
    ensures |parts| == 2 ==> s == parts[0] + sep + parts[1]
    ensures |parts| == 2 ==> forall j: nat :: j < |parts[0]| ==> !OccursAt(s, sep, j)
  {
    match Find(s, sep)
    case None => [s]
    case Some(i) =>
      assert s == s[..i] + sep + s[i + |sep|..];
      [s[..i], s[i + |sep|..]]
  }

  /** The reply split at the first marker, both halves stripped; without a
      marker the whole stripped reply is the explanation and there is no
      corrected code. */
  function ParseReply(reply: string): (r: Solution)
    ensures IsStripped(r.explanation) && IsStripped(r.correctedCode)
    ensures !Contains(reply, Marker) ==> r == Solution(Strip(reply), "")
  {
    var parts := SplitOnce(reply, Marker);
    if |parts| == 2 then Solution(Strip(parts[0]), Strip(parts[1]))
    else Solution(Strip(reply), "")
  }

  /** When the first marker starts at index `i`, the explanation is the
      stripped text before it and the corrected code the stripped text after
      it. */
  lemma ParseReplyAtFirstMarker(reply: string, i: nat)
    requires OccursAt(reply, Marker, i)
    requires forall j: nat :: j < i ==> !OccursAt(reply, Marker, j)
    ensures ParseReply(reply) == Solution(Strip(reply[..i]), Strip(reply[i + |Marker|..]))
  {
    assert Find(reply, Marker) == Some(i);
  }

  /** A marker after the first one is not a split point: its text stays in
      the corrected code, also when it shares the first marker's closing
      newline. */
  lemma LaterMarkersStayInCode(reply: string, i: nat, j: nat)
    requires OccursAt(reply, Marker, i)
    requires forall k: nat :: k < i ==> !OccursAt(reply, Marker, k)
    requires i + |Marker| <= j + 1 && OccursAt(reply, Marker, j)
    ensures Contains(ParseReply(reply).correctedCode, Marker[1..|Marker| - 1])
  {
    ParseReplyAtFirstMarker(reply, i);
    MarkerEnds();
    StripKeepsInnerOccurrence(reply, Marker, i + |Marker|, j);
  }

  /** The characters at the ends of the marker. */
  lemma MarkerEnds()
    ensures |Marker| == 19 && Marker[0] == '\n' && Marker[18] == '\n'
    ensures Marker[1] == 'C' && Marker[17] == ':'
  {
  }

  /** The marker has no newline but its first and last character. */
  lemma MarkerInterior(d: nat)
    requires 1 <= d < 18
    ensures Marker[d] != '\n'
  {
    assert Marker[1..18] == "Código corrigido:";
    assert Marker[d] == Marker[1..18][d - 1];
  }

  /** Explanation and corrected code come back from `e + Marker + c` when
      both are stripped, `e` holds no marker and `e` does not end with the
      marker short of its last newline. */
  lemma ParseReplyRoundTrip(e: string, c: string)
    requires IsStripped(e) && IsStripped(c)
    requires !Contains(e, Marker)
    requires !EndsWith(e, Marker[..|Marker| - 1])
    ensures ParseReply(e + Marker + c) == Solution(e, c)
  {
    var s := e + Marker + c;
    MarkerEnds();
    forall d | 1 <= d < |Marker| - 1
      ensures Marker[d] != Marker[0]
    {
      MarkerInterior(d);
    }
    FirstOccurrenceAfter(e, Marker, c);
    ParseReplyAtFirstMarker(s, |e|);
    AroundMiddle(e, Marker, c);
  }

  /** Without that last requirement the round trip fails: the explanation
      "x\nCódigo corrigido:" gives the marker's first newline away, the
      reply splits one character early and the marker's text lands in the
      corrected code. */
  lemma RoundTripNeedsBoundary()
    ensures ParseReply("x" + Marker[..|Marker| - 1] + Marker + "y") == Solution("x", Marker[1..] + "y")
  {
    MarkerEnds();
    var s := "x" + Marker[..|Marker| - 1] + Marker + "y";
    OverlapSplitsEarly('x', Marker, "y");
    ParseReplyAtFirstMarker(s, 1);
  }

  /** A pattern that ends with its first character, written after one other
      character and the pattern short of its last character, first occurs
      at index 1; what comes before and after that occurrence is already
      stripped when the characters at its edges are not whitespace. */
  lemma OverlapSplitsEarly(x: char, pat: string, y: string)
    requires 2 <= |pat| && pat[|pat| - 1] == pat[0] && x != pat[0]
    requires !IsSpace(x) && !IsSpace(pat[1]) && y != [] && !IsSpace(y[|y| - 1])
    ensures var s := [x] + pat[..|pat| - 1] + pat + y;
      OccursAt(s, pat, 1) && (forall j: nat :: j < 1 ==> !OccursAt(s, pat, j)) &&
      Strip(s[..1]) == [x] && Strip(s[1 + |pat|..]) == pat[1..] + y
  {
    var s := [x] + pat[..|pat| - 1] + pat + y;
    assert pat[..|pat| - 1] + [pat[0]] == pat;
    assert s[1..1 + |pat|] == pat[..|pat| - 1] + [pat[0]];
    assert s[0..|pat|][0] == x;
    assert s[..1] == [x];
    var code := pat[1..] + y;
    assert s[1 + |pat|..] == code;
    assert code[0] == pat[1] && code[|code| - 1] == y[|y| - 1];
  }

  // ---------------------------------------------------------------- prompts

  const SolutionRequest: string := "Corrija o seguinte código Python do arquivo `"
  const SolutionGuidelines: string := "` considerando as seguintes diretrizes:\n"
  const SolutionOriginal: string := "\n\nCódigo original:\n"
  const SolutionInstruction: string := "\n\nForneça uma breve explicação do problema encontrado e sugira um código corrigido."

  /** The correction prompt of `generate_solution`. */
  function SolutionPrompt(filename: string, knowledgeBase: string, code: string): string {
    SolutionRequest + filename + SolutionGuidelines + knowledgeBase + SolutionOriginal + code + SolutionInstruction
  }

  /** The correction prompt holds the file name, the guidelines and the code
      verbatim, in that order, each right after its fixed heading, and
      closes with the instruction. */
  lemma SolutionPromptEmbeds(filename: string, knowledgeBase: string, code: string)
    ensures var p := SolutionPrompt(filename, knowledgeBase, code);
      var f := |SolutionRequest|;
      var k := f + |filename| + |SolutionGuidelines|;
      var c := k + |knowledgeBase| + |SolutionOriginal|;
      |p| == c + |code| + |SolutionInstruction| &&
      p[..f] == SolutionRequest &&
      p[f..f + |filename|] == filename &&
      p[k..k + |knowledgeBase|] == knowledgeBase &&
      p[c..c + |code|] == code &&
      p[c + |code|..] == SolutionInstruction
  {
  }

  const DiscussionHeading: string := "Você está discutindo o seguinte código Python:\n\n"
  const DiscussionGuidelines: string := "\n\nConsidere as seguintes diretrizes:\n"
  const DiscussionQuestion: string := "\n\nPergunta: "

  /** The prompt of `generate_code_discussion`. */
  function DiscussionPrompt(question: string, code: string, knowledgeBase: string): string {
    DiscussionHeading + code + DiscussionGuidelines + knowledgeBase + DiscussionQuestion + question
  }

  /** The discussion prompt holds the code, the guidelines and the question
      verbatim, each after its fixed heading, the question last. */
  lemma DiscussionPromptEmbeds(question: string, code: string, knowledgeBase: string)
    ensures var p := DiscussionPrompt(question, code, knowledgeBase);
      var c := |DiscussionHeading|;
      var k := c + |code| + |DiscussionGuidelines|;
      var q := k + |knowledgeBase| + |DiscussionQuestion|;
      |p| == q + |question| &&
      p[..c] == DiscussionHeading &&
      p[c..c + |code|] == code &&
      p[k..k + |knowledgeBase|] == knowledgeBase &&
      p[q..] == question
  {
  }

  /** The two messages both generators send: the prompt as the user turn,
      then an empty assistant turn. */
  function Exchange(prompt: string): seq<Message> {
    [Message(User, prompt), Message(Assistant, "")]
  }

  /** `generate_solution`: ask for a correction of `code` and split the
      reply; a failed request fails the whole call. */
  function GenerateSolution(code: string, filename: string, knowledgeBase: string,
                            complete: Completion): (r: Option<Solution>)
    ensures r.None? <==> complete(Exchange(SolutionPrompt(filename, knowledgeBase, code))).None?
    ensures r.Some? ==> IsStripped(r.value.explanation) && IsStripped(r.value.correctedCode)
    ensures r.Some? ==> r.value == ParseReply(complete(Exchange(SolutionPrompt(filename, knowledgeBase, code))).value)
  {
    match complete(Exchange(SolutionPrompt(filename, knowledgeBase, code)))
    case None => None
    case Some(reply) => Some(ParseReply(reply))
  }

  /** `generate_code_discussion`: the reply to the discussion prompt, untouched. */
  function GenerateDiscussion(question: string, code: string, knowledgeBase: string,
                              complete: Completion): Option<string>
  {
    complete(Exchange(DiscussionPrompt(question, code, knowledgeBase)))
  }
}
