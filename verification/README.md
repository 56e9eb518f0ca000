# OpenRouter chat agent: a Dafny model of its core rules

The application is a single Streamlit script (`app.py`): a chat front end for
an OpenRouter completion endpoint that helps review uploaded Python projects.
Behind the widgets it keeps a few rules of its own, and this project models
them and proves what they do:

- **The reply splitter and the prompts** (`generation.dfy`). `generate_solution`
  asks the model for a correction of one file, then splits the reply at the
  first `"\nCódigo corrigido:\n"` into a stripped explanation and stripped
  corrected code. `generate_code_discussion` builds the discussion prompt.
  The completion endpoint is a parameter: a function from the message list to
  the reply text, or to None when the request fails.
- **The static analyzer** (`analyzer.dfy`). `analyze_code` records a syntax
  error, runs the unused-variable pass over the syntax tree in `ast.walk`
  order, and adds a "no globals" advisory when the knowledge base asks for it.
  Python's parser is an oracle: the model gets the walk's node sequence or the
  exception the parser raised.
- **Token counting** (`tokens.dfy`). `count_tokens` uses the tokenizer the
  library resolves for the model. When the library does not know the model,
  it falls back to `len(text.split())`.
- **The Python string operations** these rules use (`text.dfy`): whitespace as
  `str.isspace()` defines it, `strip()`, `split()`, `in`, `split(sep, 1)` and
  `lower()`.
- **The client's two text files** (`client.dfy`): the knowledge base and the
  accumulated suggestions. Each is an in-memory slot that loads as `""` until
  something writes it.
- **The session state** (`session.dfy`). This covers:
  - the message list and its opening system message;
  - the token metrics and the uploaded files, which form a dictionary in
    insertion order;
  - the "generate solutions for all files" loop that rewrites the
    suggestions;
  - one chat turn.

What the user types, the files read from an upload, the completion endpoint
and the tokenizer are parameters of the operations that use them.

The knowledge base sent in prompts is the one in the client's file, as the
code reads it (`openrouter.load_knowledge_base()`, app.py:275, 313, 357). The
sidebar's "save knowledge base" and "save suggestions" buttons only change
the text shown in the sidebar, never the files (app.py:226-240). So the text
edited there does not reach the prompts.

## Model

| member | source | states |
|---|---|---|
| Text.TrimStart | app.py:180 | `lstrip()`: the result is a suffix of the text that does not start with whitespace |
| Text.TrimStartDropsSpace | app.py:180 | everything `lstrip()` drops is whitespace |
| Text.TrimEnd | app.py:180 | `rstrip()`: the result is a prefix of the text that does not end with whitespace |
| Text.TrimEndDropsSpace | app.py:180 | everything `rstrip()` drops is whitespace |
| Text.Strip | app.py:180-182 | `strip()` gives text with no whitespace at either end and leaves already-stripped text unchanged |
| Text.StripDropsOnlySpace | app.py:180-182 | every character before and after that slice is whitespace |
| Text.FindFrom | app.py:178 | the match found at or after `k` is an occurrence of the pattern, and no earlier position from `k` on is one; None means there is none at all |
| Text.Find | app.py:178 | leftmost occurrence: the index found is an occurrence and no smaller index is; None means the pattern does not occur |
| Text.StripKeepsOccurrence | app.py:180 | an occurrence of a pattern whose first and last characters are not whitespace survives `strip()` |
| Text.ContainsWithin | app.py:180 | an occurrence lying inside a slice of the text is an occurrence in that slice |
| Text.OccursAtInner | app.py:178-180 | a pattern occurring at `q` has its inner part, without first and last character, occurring at `q + 1` |
| Text.StripKeepsInnerOccurrence | app.py:180 | a pattern occurring after `start` survives `s[start..].strip()` without its first and last character, when the next characters inward are not whitespace |
| Text.FirstOccurrenceAfter | app.py:178 | in `e + pat + c` the first occurrence of `pat` is right after `e`, when `pat` repeats its first character nowhere but possibly at its last position (as the marker does), and `e` neither holds `pat` nor ends with `pat` minus its last character |
| Text.Lower | app.py:149 | the model's per-character lowering keeps the length of the text (Python's `lower()` need not: `"İ".lower()` has two characters) |
| Text.WordPrefix | app.py:64 | the longest whitespace-free prefix, followed by whitespace or the end of the text |
| Text.Words | app.py:64 | `split()`: at most one word per character, no words exactly when the text is all whitespace, and every word is nonempty and free of whitespace |
| Text.WordsCountRuns | app.py:64 | the number of words equals the number of non-whitespace characters that open the text or follow whitespace (maximal runs) |
| Text.WordsKeepText | app.py:64 | joining the words gives back every non-whitespace character in order, so splitting drops only whitespace |
| Text.WordsSplitFirst | app.py:64 | where `split()` cuts: the first word is the first run of non-whitespace after the leading whitespace, followed by the words of the rest, which fixes every word boundary |
| Tokens.CountTokens | app.py:59-64 | with an encoding, the count is the length of the encoding. Without one, it is the number of maximal non-whitespace runs: at most the text length, and 0 exactly for empty or all-whitespace text |
| Tokens.CountTokensWords | app.py:64 | without an encoding, `"a b c"` counts three tokens |
| Generation.SplitOnce | app.py:178 | `split(sep, 1)`: one part exactly when `sep` does not occur, and then it is the whole text. Otherwise there are two parts that rebuild the text around `sep`, and `sep` occurs nowhere before the first part's end |
| Generation.ParseReply | app.py:177-184 | both halves are stripped; with no marker the explanation is the whole stripped reply and the corrected code is empty |
| Generation.ParseReplyAtFirstMarker | app.py:178-180 | when the first marker starts at `i`, the explanation is the stripped text before `i` and the code is the stripped text after the marker |
| Generation.LaterMarkersStayInCode | app.py:178-180 | any marker after the first one, even one sharing the first marker's closing newline, is not a split point: its text stays inside the corrected code |
| Generation.MarkerInterior | app.py:178 | the marker holds no newline except its first and last character |
| Generation.ParseReplyRoundTrip | app.py:177-184 | stripped `e` and `c` come back from `e + marker + c`, when `e` holds no marker and does not end with the marker minus its last newline |
| Generation.RoundTripNeedsBoundary | app.py:178-180 | without that last condition the round trip fails: the explanation `"x\nCódigo corrigido:"` gives its newline to the marker and the split comes one character early |
| Generation.OverlapSplitsEarly | app.py:178-180 | a pattern that ends with its first character, written after a character and the pattern minus its last character, first occurs at index 1, and both sides of that occurrence are already stripped when their edge characters are not whitespace |
| Generation.SolutionPromptEmbeds | app.py:167-171 | the correction prompt carries the file name, the guidelines and the code verbatim, each at its place after its fixed heading, and ends with the instruction |
| Generation.DiscussionPromptEmbeds | app.py:188-192 | the discussion prompt carries the code, the guidelines and the question verbatim after their headings, with the question last |
| Generation.GenerateSolution | app.py:166-184 | the call fails exactly when the request for the correction prompt fails; otherwise the result is the reply split at its first marker (`ParseReply`), with both halves stripped |
| Analyzer.Triggered | app.py:149 | the globals rule is on exactly when some stretch of the knowledge base lowers to `"não use variáveis globais"` |
| Analyzer.TriggeredIgnoresCase | app.py:149 | the rule switches on for the phrase written in any mix of cases (any text that lowers to it), with any text around it |
| Analyzer.Visit | app.py:135-141 | one visited node only adds the plain names an assignment targets and only removes the name a read (`Load`) refers to |
| Analyzer.ScanChanges | app.py:134-141 | over a whole walk, a name joins the candidate set only through an assignment in the walk and leaves it only through a read in the walk |
| Analyzer.UnusedNames | app.py:134-143 | every reported name is assigned somewhere in the walk |
| Analyzer.ScanLastEvent | app.py:134-141 | from any starting set, a name is kept exactly when its last event in the walk is an assignment, or when it started in the set and the walk never reads it |
| Analyzer.UnusedNamesLastEvent | app.py:134-141 | a name is reported unused exactly when some assignment to it is followed, in walk order, by no read. A read visited before the assignment does not count, and every reported name is assigned |
| Analyzer.ScanAppend | app.py:134-141 | the pass over a walk split in two is the pass over the second part starting from the names left by the first |
| Analyzer.UnusedWhenNeverRead | app.py:134-141 | for `x = 1` (its breadth-first walk, context objects included) the name `x` is reported |
| Analyzer.UsedWhenReadAfter | app.py:134-141 | for `x = 1` followed by `print(x)` nothing is reported |
| Analyzer.UnusedWhenReadBefore | app.py:134-141 | for a nested `x = 1` under `if a:` / `if b:` followed by the top-level statement `x`, the read is visited first and `x` is still reported |
| Analyzer.UnusedPass | app.py:134-141 | the loop over the walk leaves exactly the names of `UnusedNames`, which `UnusedNamesLastEvent` characterises |
| Analyzer.AnyGlobal | app.py:150 | the scan answers true exactly when the walk holds a `global` statement |
| Analyzer.AnalyzeCode | app.py:122-153 | a parser failure other than a syntax error escapes. A syntax error escapes when the globals rule is on; otherwise it gives one syntax-error entry and one "advanced analysis" error entry. A parsed tree gives no syntax errors, an unused-names entry exactly when the set is nonempty, then the globals advisory exactly when the rule is on and the tree has a `global` statement |
| Client.OpenRouterChat.constructor | app.py:68-82 | a new client holds the chosen model, and its two files are whatever is stored at its fixed paths, None when missing |
| Client.OpenRouterChat.LoadKnowledgeBase | app.py:84-89 | a missing knowledge-base file loads as `""` |
| Client.OpenRouterChat.LoadSuggestions | app.py:95-100 | a missing suggestions file loads as `""` |
| Client.OpenRouterChat.SaveKnowledgeBase | app.py:91-93 | the file holds exactly the new text afterwards, and the suggestions file is untouched |
| Client.OpenRouterChat.SaveSuggestions | app.py:102-104 | the file holds exactly the new text afterwards, and the knowledge-base file is untouched |
| Session.SystemMessage | app.py:278-286 | the opening message has the `system` role, starts with the fixed instructions and ends with `"Base de Conhecimento:\n"` plus the knowledge base |
| Session.Lookup | app.py:305 | a lookup finds a file exactly when its name is among the stored names |
| Session.Put | app.py:305 | dictionary store: names stay distinct and the stored names gain exactly the new one |
| Session.PutShape | app.py:305 | a new name is appended at the end, a known name keeps the length, and every position keeps its name |
| Session.PutLookup | app.py:305 | lookup of the stored name gives the new text, and every other lookup is unchanged |
| Session.AppendedSnoc | app.py:328-329 | the text added for one more explanation goes at the end |
| Session.AppendExplanation | app.py:328-329 | one save keeps the earlier suggestions as a prefix and, for a non-empty explanation only, adds a blank line and the explanation at the end |
| Session.AccumulateAppends | app.py:314-329 | after the saves, the suggestions are the old text followed by `"\n\n"` and each non-empty explanation, in order |
| Session.AppendedOfEmpty | app.py:328 | empty explanations add nothing to the suggestions |
| Session.SessionState.constructor | app.py:267-272 | a fresh session has no messages, no conversation name, empty token metrics and no uploads |
| Session.SessionState.StartConversation | app.py:275-286 | a session without messages gets exactly one system message built from the knowledge-base file; a session with messages keeps them; nothing else changes |
| Session.SessionState.LoadConversation | app.py:207-210 | the messages become the loaded ones and the conversation name is remembered; metrics and uploads stay |
| Session.SessionState.StoreUpload | app.py:305 | the uploads become the dictionary store of the file under its name; nothing else changes |
| Session.SessionState.GenerateAll | app.py:312-329 | each solution is the one generated for the file at its position, in upload order (`Solved`), and a failed request stops the loop at that file (`FailsAt`). The suggestions become the old text followed by `"\n\n"` and each non-empty explanation; the knowledge base is untouched |
| Session.SessionState.ChatRequest | app.py:355-360 | with files uploaded the endpoint gets two messages: a user turn carrying the first file's code and the knowledge-base file's text, each after its heading, and ending with the question, then an empty assistant turn; without uploads it gets the whole conversation with the question as the last user message |
| Session.SessionState.Ask | app.py:354-360 | the reply of a turn is the endpoint's answer to `ChatRequest` of the question: the discussion of the first uploaded file, or the conversation followed by the question |
| Session.SessionState.RecordQuestion | app.py:342-352 | the question joins the messages as a user turn and its token count joins the input metrics; nothing else changes |
| Session.SessionState.RecordReply | app.py:364-370 | the reply joins the messages as an assistant turn and its token count joins the output metrics; nothing else changes |
| Session.SessionState.ChatTurn | app.py:341-370 | a turn runs only for a non-empty question. The reply is the endpoint's answer to the discussion of the first uploaded file, or to the whole conversation when there are no uploads. The question and its token count are recorded first. On success the reply and its token count follow, so exactly two messages and one count per list are added; a failed request adds only the question and its input count |

## Left out

- Streamlit rendering, widgets, `st.stop` and the token chart (app.py:196-252, 331-339, 372-381). They are presentation. The sidebar's "save" buttons for the knowledge base and suggestions only change text shown on screen, so they have no effect on the model.
- Saving a conversation (app.py:213-224) and listing conversations, Firebase's ordering, and the store's error handling. They belong to the remote store. A loaded conversation is an input of `LoadConversation`; an unknown name arrives as the empty list.
- The HTTP request of `OpenRouterChat.generate`, its headers and temperature (app.py:106-119). The endpoint is the `Completion` parameter, and a failed request is None.
- The tokenizer library. Its encoding is the optional `Encoding` parameter of `CountTokens`, None when the library does not know the model.
- `ast.parse` and `ast.walk`. They are replaced by the walk's node sequence or the parser's exception. `SyntaxError` text formatting is carried as an opaque string.
- ZIP extraction, `os.walk` and the file reads (app.py:156-163, 289-304). An upload reaches the model as one `StoreUpload` call per file, in walk order. The preview of a file's first 20 lines is not modelled.
- The order of the names in the "never used" message (app.py:144). It follows Python's set iteration order, so the model reports the names as a set.
- Text.LowerChar: exact for ASCII and Latin-1 only; other characters are left unchanged, whereas Python also lowers the rest of Unicode.
- Client.OpenRouterChat.LoadKnowledgeBase: the file is read in text mode, so Python turns `"\r\n"` and `"\r"` into `"\n"`; a file that is not valid UTF-8 raises, because only a missing file is caught (app.py:86-89). The model returns the stored text unchanged and has no decode error.
- Client.OpenRouterChat.LoadSuggestions: the same text-mode translation and the same escaping decode error (app.py:97-100) are not modelled.
- Client.OpenRouterChat.SaveKnowledgeBase: writing in text mode turns `"\n"` into the platform's line ending (`"\r\n"` on Windows), so loading after a save gives back exactly the saved text only for text without `"\r"` on platforms that write `"\n"`; the model promises it for all text.
- Client.OpenRouterChat.SaveSuggestions: the same newline translation on write (app.py:102-104) is not modelled.
- Session.SessionState.GenerateAll: its statement of the suggestions text inherits the two points above: with `"\r"` in an explanation, the file read back differs from the stated text.
- Creating a new client when the selected model changes (app.py:254-262). The model keeps one client; the files it reads persist across clients anyway.
- Session.SessionState.ChatTurn: it asks the endpoint before recording the question, whereas the page records it first. The request it sends already holds the question, so only the order of the two steps differs, and no state shows that order.
- Generation.Exchange: the two-message request of app.py:174 and 193 (the prompt as a user turn, then an empty assistant turn) is taken as written; it carries no property of its own beyond the literal.
- The sampling of the endpoint at temperature 0.7 (app.py:110): a `Completion` gives one fixed reply per request. Every request is sent once, so no contract depends on this.
- Generation.GenerateDiscussion and the unused `model` parameter of both generators. The discussion reply is passed through unchanged, and `ChatTurn` states the request it sends.
