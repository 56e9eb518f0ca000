/**
 * The session state the script keeps between reruns and the steps that
 * update it: starting a conversation, loading one, holding the uploaded
 * files, generating solutions for all of them, and one chat turn with its
 * token metrics.
 *
 * What the user types, the files read from the upload, the completion
 * endpoint and the tokenizer are inputs of these steps.
 */
module Session {
  import opened Wrappers
  import opened Text
  import opened Messages
  import opened Tokens
  import opened Generation
  import opened Client

  /** An uploaded Python file: its base name and its text. */
  datatype SourceFile = SourceFile(name: string, code: string)

  // ------------------------------------------------------ the system message

  const SystemPreamble: string :=
    "Você é um assistente útil e objetivo. Responda de forma concisa e verdadeira. " +
    "Se não tiver certeza sobre algo, diga que não sabe. Comunique-se sempre em Português do Brasil. " +
    "Seu propósito é auxiliar Marcos da melhor maneira possível.\n\n"

  const KnowledgeBaseHeading: string := "Base de Conhecimento:\n"

  /** The system message of a new conversation: the fixed instructions, then
      the knowledge base as it is when the conversation starts. */
  function SystemMessage(knowledgeBase: string): (m: Message)
    ensures m.role == System
    ensures EndsWith(m.content, KnowledgeBaseHeading + knowledgeBase)
    ensures |SystemPreamble| <= |m.content| && m.content[..|SystemPreamble|] == SystemPreamble
  {
    var content := SystemPreamble + KnowledgeBaseHeading + knowledgeBase;
    assert content[|content| - |KnowledgeBaseHeading + knowledgeBase|..] == KnowledgeBaseHeading + knowledgeBase;
    Message(System, content)
  }

  // ------------------------------------------------------- uploaded files

  /** The names of the files. */
  function Names(files: seq<SourceFile>): set<string> {
    if files == [] then {} else {files[0].name} + Names(files[1..])
  }

  /** The files have pairwise distinct names, as the keys of a dictionary. */
  predicate DistinctNames(files: seq<SourceFile>) {
    files == [] || (files[0].name !in Names(files[1..]) && DistinctNames(files[1..]))
  }

  /** The text stored under `name`, if any. */
  function Lookup(files: seq<SourceFile>, name: string): (r: Option<string>)
    ensures r.Some? <==> name in Names(files)
  {
    if files == [] then None
    else if files[0].name == name then Some(files[0].code)
    else Lookup(files[1..], name)
  }

  /** `uploaded_codes[name] = code`: a new name goes last, a known name keeps
      its place and gets the new text (the old one is silently lost). */
  function Put(files: seq<SourceFile>, name: string, code: string): (r: seq<SourceFile>)
    requires DistinctNames(files)
    ensures DistinctNames(r) && Names(r) == Names(files) + {name}
  {
    if files == [] then [SourceFile(name, code)]
    else if files[0].name == name then
      var r := [SourceFile(name, code)] + files[1..];
      assert r[1..] == files[1..];
      r
    else
      var r := [files[0]] + Put(files[1..], name, code);
      assert r[1..] == Put(files[1..], name, code);
      r
  }

  /** A new name is appended; a known name keeps the length and every file
      keeps its position. */
  lemma {:induction false} PutShape(files: seq<SourceFile>, name: string, code: string)
    requires DistinctNames(files)
    ensures name !in Names(files) ==> Put(files, name, code) == files + [SourceFile(name, code)]
    ensures name in Names(files) ==> |Put(files, name, code)| == |files|
    ensures forall i :: 0 <= i < |files| ==> Put(files, name, code)[i].name == files[i].name
    decreases |files|
  {
    if files != [] && files[0].name != name {
      var rest := Put(files[1..], name, code);
      var r := Put(files, name, code);
      PutShape(files[1..], name, code);
      assert r == [files[0]] + rest;
      if name !in Names(files) {
        assert files == [files[0]] + files[1..];
      }
      forall i | 1 <= i < |files|
        ensures r[i].name == files[i].name
      {
        assert r[i] == rest[i - 1] && files[i] == files[1..][i - 1];
      }
    }
  }

  /** After the store, the name holds the new text and every other name
      holds what it held before. */
  lemma {:induction false} PutLookup(files: seq<SourceFile>, name: string, code: string, n: string)
    requires DistinctNames(files)
    ensures Lookup(Put(files, name, code), n) == if n == name then Some(code) else Lookup(files, n)
    decreases |files|
  {
    if files != [] && files[0].name != name {
      PutLookup(files[1..], name, code, n);
      var r := Put(files, name, code);
      assert r == [files[0]] + Put(files[1..], name, code);
      assert r[1..] == Put(files[1..], name, code);
    }
  }

  // ----------------------------------------------- accumulated suggestions

  /** One save of the generate-all loop: a non-empty explanation is added
      after a blank line; an empty one leaves the suggestions as they are. */
  function AppendExplanation(suggestions: string, explanation: string): (r: string)
    ensures explanation == "" ==> r == suggestions
    ensures explanation != "" ==>
      (|r| == |suggestions| + 2 + |explanation| && r[..|suggestions|] == suggestions &&
       r[|suggestions|..|suggestions| + 2] == "\n\n" && EndsWith(r, explanation))
  {
    if explanation == "" then suggestions else suggestions + "\n\n" + explanation
  }

  /** The suggestions after saving `explanations` one after the other. */
  function Accumulate(suggestions: string, explanations: seq<string>): string {
    if explanations == [] then suggestions
    else AppendExplanation(Accumulate(suggestions, explanations[..|explanations| - 1]),
                           explanations[|explanations| - 1])
  }

  lemma AccumulateSnoc(suggestions: string, explanations: seq<string>, e: string)
    ensures Accumulate(suggestions, explanations + [e]) == AppendExplanation(Accumulate(suggestions, explanations), e)
  {
    assert (explanations + [e])[..|explanations|] == explanations;
  }

  /** What the loop adds, independently: a blank line and the explanation
      for every non-empty explanation, in order. */
  function Appended(explanations: seq<string>): string {
    if explanations == [] then ""
    else (if explanations[0] == "" then "" else "\n\n" + explanations[0]) + Appended(explanations[1..])
  }

  lemma {:induction false} AppendedSnoc(explanations: seq<string>, e: string)
    ensures Appended(explanations + [e]) == Appended(explanations) + (if e == "" then "" else "\n\n" + e)
    decreases |explanations|
  {
    if explanations == [] {
      assert explanations + [e] == [e];
    } else {
      assert (explanations + [e])[1..] == explanations[1..] + [e];
      AppendedSnoc(explanations[1..], e);
    }
  }

  /** The suggestions after the loop are the earlier suggestions followed by
      a blank line and each non-empty explanation, in file order. */
  lemma {:induction false} AccumulateAppends(suggestions: string, explanations: seq<string>)
    ensures Accumulate(suggestions, explanations) == suggestions + Appended(explanations)
    decreases |explanations|
  {
    if explanations != [] {
      var n := |explanations| - 1;
      var earlier, e := explanations[..n], explanations[n];
      assert earlier + [e] == explanations;
      calc {
        Accumulate(suggestions, explanations);
        AppendExplanation(Accumulate(suggestions, earlier), e);
        { AccumulateAppends(suggestions, earlier); }
        AppendExplanation(suggestions + Appended(earlier), e);
        suggestions + Appended(earlier) + (if e == "" then "" else "\n\n" + e);
        { AppendedSnoc(earlier, e); }
        suggestions + Appended(explanations);
      }
    }
  }

  /** Empty explanations add nothing. */
  lemma {:induction false} AppendedOfEmpty(explanations: seq<string>)
    requires forall k :: 0 <= k < |explanations| ==> explanations[k] == ""
    ensures Appended(explanations) == ""
    decreases |explanations|
  {
    if explanations != [] {
      AppendedOfEmpty(explanations[1..]);
    }
  }

  function Explanations(solutions: seq<Solution>): (r: seq<string>)
    ensures |r| == |solutions|
  {
    seq(|solutions|, i requires 0 <= i < |solutions| => solutions[i].explanation)
  }

  /** Each of `solutions` is the solution generated for the file at its
      position, and there is no more of them than files. */
  ghost predicate Solved(files: seq<SourceFile>, knowledgeBase: string, complete: Completion,
                         solutions: seq<Solution>) {
    |solutions| <= |files| &&
    forall i :: 0 <= i < |solutions| ==>
      GenerateSolution(files[i].code, files[i].name, knowledgeBase, complete) == Some(solutions[i])
  }

  /** The correction request for the file at position `k` fails. */
  ghost predicate FailsAt(files: seq<SourceFile>, knowledgeBase: string, complete: Completion, k: nat)
    requires k < |files|
  {
    GenerateSolution(files[k].code, files[k].name, knowledgeBase, complete).None?
  }

  lemma SolvedSnoc(files: seq<SourceFile>, knowledgeBase: string, complete: Completion,
                   solutions: seq<Solution>, s: Solution)
    requires Solved(files, knowledgeBase, complete, solutions) && |solutions| < |files|
    requires GenerateSolution(files[|solutions|].code, files[|solutions|].name, knowledgeBase, complete) == Some(s)
    ensures Solved(files, knowledgeBase, complete, solutions + [s])
  {
    var extended := solutions + [s];
    forall i | 0 <= i < |extended|
      ensures GenerateSolution(files[i].code, files[i].name, knowledgeBase, complete) == Some(extended[i])
    {
      if i < |solutions| {
        assert extended[i] == solutions[i];
        assert GenerateSolution(files[i].code, files[i].name, knowledgeBase, complete) == Some(solutions[i]);
      } else {
        assert extended[i] == s;
      }
    }
  }

  lemma ExplanationsSnoc(solutions: seq<Solution>, s: Solution)
    ensures Explanations(solutions + [s]) == Explanations(solutions) + [s.explanation]
  {
  }

  // ------------------------------------------------------- the session

  class SessionState {
    var messages: seq<Message>
    var conversationName: Option<string>
    /** The token metrics: one entry per chat turn. */
    var inputTokens: seq<nat>
    var outputTokens: seq<nat>
    /** The uploaded files in insertion order, keyed by name. */
    var uploadedCodes: seq<SourceFile>
    const openrouter: OpenRouterChat

    /** Uploaded names are distinct, and no turn records an output count
        without its input count. */
    ghost predicate Valid()
      reads this
    {
      DistinctNames(uploadedCodes) && |outputTokens| <= |inputTokens|
    }

    /** The state a fresh session starts with. */
    constructor (openrouter: OpenRouterChat)
      ensures Valid() && this.openrouter == openrouter
      ensures messages == [] && conversationName == None
      ensures inputTokens == [] && outputTokens == [] && uploadedCodes == []
    {
      this.openrouter := openrouter;
      messages := [];
      conversationName := None;
      inputTokens, outputTokens := [], [];
      uploadedCodes := [];
    }

    /** A session without messages gets the system message built from the
        knowledge base file; a conversation already under way is left alone. */
    method StartConversation()
      requires Valid()
      modifies this
      ensures Valid()
      ensures old(messages) == [] ==> messages == [SystemMessage(openrouter.LoadKnowledgeBase())]
      ensures old(messages) != [] ==> messages == old(messages)
      ensures conversationName == old(conversationName) && uploadedCodes == old(uploadedCodes)
      ensures inputTokens == old(inputTokens) && outputTokens == old(outputTokens)
    {
      if messages == [] {
        var knowledgeBase := openrouter.LoadKnowledgeBase();
        messages := [SystemMessage(knowledgeBase)];
      }
    }

    /** Loading a saved conversation replaces the messages (an unknown name
        loads as no messages) and remembers its name; the metrics stay. */
    method LoadConversation(name: string, loaded: seq<Message>)
      requires Valid()
      modifies this
      ensures Valid()
      ensures messages == loaded && conversationName == Some(name)
      ensures uploadedCodes == old(uploadedCodes)
      ensures inputTokens == old(inputTokens) && outputTokens == old(outputTokens)
    {
      messages := loaded;
      conversationName := Some(name);
    }

    /** Holds one Python file read from an upload under its name. */
    method StoreUpload(name: string, code: string)
      requires Valid()
      modifies this
      ensures Valid()
      ensures uploadedCodes == Put(old(uploadedCodes), name, code)
      ensures messages == old(messages) && conversationName == old(conversationName)
      ensures inputTokens == old(inputTokens) && outputTokens == old(outputTokens)
    {
      uploadedCodes := Put(uploadedCodes, name, code);
    }

    /** "Generate solutions for all files": one correction request per
        uploaded file, in order, each non-empty explanation saved after the
        suggestions. A failed request stops the loop; `failed` says so, and
        what was saved before stays saved. */
    method GenerateAll(complete: Completion) returns (solutions: seq<Solution>, failed: bool)
      modifies openrouter
      ensures Solved(uploadedCodes, old(openrouter.LoadKnowledgeBase()), complete, solutions)
      ensures !failed ==> |solutions| == |uploadedCodes|
      ensures failed ==> (|solutions| < |uploadedCodes| &&
        FailsAt(uploadedCodes, old(openrouter.LoadKnowledgeBase()), complete, |solutions|))
      ensures openrouter.LoadSuggestions() == Accumulate(old(openrouter.LoadSuggestions()), Explanations(solutions))
      ensures openrouter.LoadSuggestions() == old(openrouter.LoadSuggestions()) + Appended(Explanations(solutions))
      ensures openrouter.knowledgeBaseFile == old(openrouter.knowledgeBaseFile)
    {
      var files := uploadedCodes;
      var knowledgeBase := openrouter.LoadKnowledgeBase();
      ghost var before := openrouter.LoadSuggestions();
      ghost var explanations: seq<string> := [];
      solutions, failed := [], false;
      while |solutions| < |files|
        invariant Solved(files, knowledgeBase, complete, solutions)
        invariant explanations == Explanations(solutions)
        invariant openrouter.LoadSuggestions() == Accumulate(before, explanations)
        invariant openrouter.knowledgeBaseFile == old(openrouter.knowledgeBaseFile)
        decreases |files| - |solutions|
      {
        var file := files[|solutions|];
        var solution := GenerateSolution(file.code, file.name, knowledgeBase, complete);
        if solution.None? {
          AccumulateAppends(before, explanations);
          failed := true;
          return;
        }
        var explanation := solution.value.explanation;
        AccumulateSnoc(before, explanations, explanation);
        if explanation != "" {
          openrouter.SaveSuggestions(openrouter.LoadSuggestions() + "\n\n" + explanation);
        }
        ExplanationsSnoc(solutions, solution.value);
        SolvedSnoc(files, knowledgeBase, complete, solutions, solution.value);
        solutions := solutions + [solution.value];
        explanations := explanations + [explanation];
      }
      AccumulateAppends(before, explanations);
    }

    /** The messages the completion endpoint receives for a chat turn: with
        files uploaded, a discussion of the first one; otherwise the whole
        conversation, the new question last. */
    function ChatRequest(prompt: string): (r: seq<Message>)
      reads this, openrouter
      ensures uploadedCodes != [] ==>
        |r| == 2 && r[0].role == User && EndsWith(r[0].content, prompt) && r[1] == Message(Assistant, "") &&
        |DiscussionHeading| + |uploadedCodes[0].code| <= |r[0].content| &&
        r[0].content[|DiscussionHeading|..|DiscussionHeading| + |uploadedCodes[0].code|] == uploadedCodes[0].code
      ensures uploadedCodes != [] ==>
        var kb := openrouter.LoadKnowledgeBase();
        var k := |DiscussionHeading| + |uploadedCodes[0].code| + |DiscussionGuidelines|;
        k + |kb| <= |r[0].content| && r[0].content[k..k + |kb|] == kb
      ensures uploadedCodes == [] ==>
        |r| == |messages| + 1 && r[..|messages|] == messages && r[|messages|] == Message(User, prompt)
    {
      if uploadedCodes != [] then
        DiscussionPromptEmbeds(prompt, uploadedCodes[0].code, openrouter.LoadKnowledgeBase());
        Exchange(DiscussionPrompt(prompt, uploadedCodes[0].code, openrouter.LoadKnowledgeBase()))
      else
        messages + [Message(User, prompt)]
    }

    /** The request of a chat turn: the reply to `ChatRequest(prompt)`,
        which already holds the question as the page sends it after
        recording it. */
    method Ask(prompt: string, complete: Completion) returns (response: Option<string>)
      ensures response == complete(ChatRequest(prompt))
    {
      if uploadedCodes != [] {
        var knowledgeBase := openrouter.LoadKnowledgeBase();
        response := GenerateDiscussion(prompt, uploadedCodes[0].code, knowledgeBase, complete);
      } else {
        response := complete(messages + [Message(User, prompt)]);
      }
    }

    /** The first half of a chat turn: the question and its token count. */
    method RecordQuestion(prompt: string, encoding: Option<Encoding>)
      requires Valid()
      modifies this
      ensures Valid()
      ensures messages == old(messages) + [Message(User, prompt)]
      ensures inputTokens == old(inputTokens) + [CountTokens(prompt, encoding)]
      ensures |outputTokens| < |inputTokens|
      ensures outputTokens == old(outputTokens) && uploadedCodes == old(uploadedCodes)
      ensures conversationName == old(conversationName)
    {
      messages := messages + [Message(User, prompt)];
      inputTokens := inputTokens + [CountTokens(prompt, encoding)];
    }

    /** The second half of a chat turn: the reply and its token count. */
    method RecordReply(reply: string, encoding: Option<Encoding>)
      requires |outputTokens| < |inputTokens|
      requires DistinctNames(uploadedCodes)
      modifies this
      ensures Valid()
      ensures messages == old(messages) + [Message(Assistant, reply)]
      ensures outputTokens == old(outputTokens) + [CountTokens(reply, encoding)]
      ensures inputTokens == old(inputTokens) && uploadedCodes == old(uploadedCodes)
      ensures conversationName == old(conversationName)
    {
      outputTokens := outputTokens + [CountTokens(reply, encoding)];
      messages := messages + [Message(Assistant, reply)];
    }

    /** One chat turn, which the page runs only for a non-empty question:
        the question is recorded with its token count, the reply is
        requested and, when the request succeeds, recorded with its token
        count. A failed request ends the turn after the question. */
    method ChatTurn(prompt: string, encoding: Option<Encoding>, complete: Completion)
      returns (response: Option<string>)
      requires prompt != ""
      requires Valid()
      modifies this
      ensures Valid()
      ensures response == complete(old(ChatRequest(prompt)))
      ensures inputTokens == old(inputTokens) + [CountTokens(prompt, encoding)]
      ensures response.None? ==>
        messages == old(messages) + [Message(User, prompt)] && outputTokens == old(outputTokens)
      ensures response.Some? ==>
        messages == old(messages) + [Message(User, prompt), Message(Assistant, response.value)] &&
        outputTokens == old(outputTokens) + [CountTokens(response.value, encoding)]
      ensures uploadedCodes == old(uploadedCodes) && conversationName == old(conversationName)
    {
      response := Ask(prompt, complete);
      RecordQuestion(prompt, encoding);
      if response.Some? {
        RecordReply(response.value, encoding);
      }
    }
  }
}
