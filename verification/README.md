# Streaming chat output and byte-level cores of llama.cpp, verified

A Dafny model of the parts of the vendored llama.cpp that turn a growing text into a chat message, and of the small
algorithms next to them. `dafny verify dfyconfig.toml` checks everything.

While a language model is generating, the server re-parses the whole text after every piece and sends the client the
difference to the previous parse. That only works if every parser is monotone in its input, which no single function of
the program states. The main results are about whole runs:

- **Streaming** (`Text`, `ChatMessage`, `ChatParser`, `Streaming`, `Layout`): however a text is cut into pieces,
  `compute_diffs` never throws, the client that adds up the differences always holds the message last shown, every
  tool-call id is sent once and never changes. Two consecutive parses can break monotonicity in one family of inputs only
  (white space before a half-seen start tag), which is characterised exactly; the run survives it because the server ignores
  empty messages. What the parser makes of a text is given for every text, by laying it out as reasoning blocks, closed or
  still open, and content.
- **Tool calls in XML style** (`XmlToolCall`, `XmlRendering`, `XmlStreaming`, `XmlRun`, `XmlGrowth`, `XmlExact`,
  `XmlJson`): calls rendered with any white space before their tags are read back exactly, with one or two separators
  between key and value, with or without a scope and a separator behind the name, and their arguments are JSON; answering
  "false" leaves no trace, and is the answer where text stands instead of a tag. The calls shown on the prefixes of a
  rendering grow if and only if no name seems to end early and no key is mistaken for an earlier one; one such name makes the
  server throw, and one such key leaves the client with text that is not JSON.
- **JSON healing** (`JsonText`, `JsonPartial`, `JsonHealing`, `JsonString`, `JsonTokens`, `JsonValue`, `JsonRoundTrip`,
  `JsonDump`): which truncated texts the branches of `common_json_parse` turn into JSON, as an if-and-only-if over all byte
  strings, and into which text. They fail in two families, an escape behind a false high surrogate and a text that breaks off
  inside a UTF-8 character, each with an input; and cutting the dump of the healed value at the marker gives back a prefix of
  the text. Parsing undoes dumping for every value, and the tokens are exactly those of RFC 8259.
- **Factored tensors** (`Tensors`, `Lora`, `LoraIndex`, `LoraTuple`, `LoraShape`, `LoraPermute`, `LoraJoin`,
  `LoraProgram`): every chain of slices, indices, reshapes, permutations, stacks and concatenations on the pair (A, B)
  computes what the same chain computes on the product B·A, with the exact conditions under which each operation is
  accepted and does.
- **Bytes** (`Utf8`, `LineEditor`, `Console`, `Base64`, `Escapes`, `Csv`): UTF-8 boundaries and truncation, the line
  editor's invariant over every key sequence, base64 and escape decoding in place, CSV rows; base64, escapes and CSV rows are
  each tied to a description of every text that they read.
- **Grammar** (`Gbnf`): what the trie-to-grammar compiler accepts, and exactly when it keeps the promise in its comment.
- **Download** (`Download`): the temp-file protocol is safe under every interleaving of failures, exactly when a download
  can still be finished, and exactly when a call succeeds.

Strings are sequences of `char`, one per byte of a `std::string`; `isspace` is the six-character ASCII set. Exceptions are
values (`Result`, `Option`, or a constructor of the result). Code that updates state is imperative Dafny: a method with
loops, proved equal to a function of the old state, about which the laws are then proved.

## Model

| member | source | states |
|---|---|---|
| Text.FindPartialStop | llama.cpp/common/common.h:709-722 | the descending loop finds the least place whose suffix is a non-empty prefix of the stop word, or that there is none |
| Text.PartialStopLeast | llama.cpp/common/common.h:709-722 | the answer is a hold-back place and no earlier one exists; no answer means no place |
| Text.HoldBackExact | llama.cpp/common/chat-parser.cpp:387-397 | an occurrence of the stop word in any extension of a text that does not contain it starts at or behind the held-back place |
| Text.HoldBackMonotone | llama.cpp/common/chat-parser.cpp:387-397 | as the text grows, the held-back place never moves left |
| Text.HoldBackSuffix | llama.cpp/common/chat-parser.cpp:257-279 | seen from a cursor, hold-back is that of the unread part |
| Text.StringStrip | llama.cpp/common/common.cpp:410-420 | the two index loops compute the stripped text |
| Text.StripSplits | llama.cpp/common/common.cpp:410-420 | only spaces are taken away, from both ends, and none is left at either end |
| Text.StripMonotone | llama.cpp/common/common.cpp:410-420 | stripping a longer text extends the stripped shorter text |
| ChatMessage.ComputeDiffs | llama.cpp/common/chat.cpp:136-183 | the loop and its branches compute the list of differences, or the exception, that the client laws are about |
| ChatMessage.DiffsRebuild | llama.cpp/common/chat.cpp:136-183 | no exception and a client that applies the differences holds the new message, if and only if the new message extends the old one |
| ChatMessage.DiffsExact | llama.cpp/common/chat.cpp:136-183 | there are differences exactly if one of the old and the new text begins the other, no call is gone and the last one keeps its name and continues or takes back its arguments; otherwise the first of these that fails is the exception; a client that applies them holds the longer texts, the earlier calls, and the new ones |
| ChatMessage.NothingIsSent | llama.cpp/common/chat.cpp:136-183 | the list of differences is empty exactly if the texts are unchanged, no call is new and the last one has no new name, id or argument text |
| ChatMessage.FilledIds | llama.cpp/common/chat.h:55-66 | a call gets the id it had before, else its own, else the next generated one, and nothing else of it changes |
| ChatMessage.SetToolCallIds | llama.cpp/common/chat.h:55-66 | the cache is extended by the calls it does not know, old ids unchanged, and every call is stamped from it |
| ChatMessage.GrownCacheGrows | llama.cpp/common/chat.h:55-66 | the new cache extends the old one and covers all calls; a new entry is the call's own id or the next generated one |
| ChatMessage.UpdateKeepsStep | llama.cpp/tools/server/server-task.cpp:156-174 | one update with a message that grows does not throw and keeps client, server, cache and sent ids in step |
| ChatMessage.RunRebuilds | llama.cpp/tools/server/server-task.cpp:156-174 | over every run of messages that only grow, nothing throws, the client holds the last message shown, each id is sent exactly once in order, and an assigned id never changes |
| ChatParser.MsgParser.MoveTo | llama.cpp/common/chat-parser.h:37-42 | the cursor moves only to places inside the input |
| ChatParser.MsgParser.AddToolCall | llama.cpp/common/chat-parser.cpp:159-172 | a call without a name is refused and changes nothing; otherwise it is appended |
| ChatParser.MsgParser.EmitReasoning | llama.cpp/common/chat-parser.cpp:309-328 | a stripped block goes to the reasoning, or with its tags to the content, and an empty one nowhere |
| ChatParser.MsgParser.ConsumeSpaces | llama.cpp/common/chat-parser.cpp:232-240 | the cursor ends at the first character that is not a space |
| ChatParser.MsgParser.TryConsumeLiteral | llama.cpp/common/chat-parser.cpp:242-255 | the whole literal is consumed if the input has it at the cursor; otherwise, also where it is cut off, nothing is |
| ChatParser.MsgParser.TryFindLiteral | llama.cpp/common/chat-parser.cpp:257-279 | a whole occurrence or, in a partial input, a cut-off one is found, with the text before it and the cursor behind it |
| ChatParser.MsgParser.ConsumeRest | llama.cpp/common/chat-parser.cpp:433-438 | everything from the cursor on is returned and the cursor is at the end |
| ChatParser.MsgParser.TryParseReasoning | llama.cpp/common/chat-parser.cpp:287-431 | the cursor machine with its nested loops and save and restore computes the reasoning function that the streaming results are about |
| ChatParser.MsgParser.RunBlocks | llama.cpp/common/chat-parser.cpp:381-430 | the loop over reasoning blocks appends exactly the texts of the block recursion and stops where it stops |
| ChatParser.MsgParser.RunOneBlock | llama.cpp/common/chat-parser.cpp:382-429 | one turn: a closed block, or a cut-off one with its half-seen end tag held back |
| ChatParser.MsgParser.ParseContentOnly | llama.cpp/common/chat-parser.cpp:1501-1504 | reasoning first, then the rest as content |
| Streaming.BlocksGrow | llama.cpp/common/chat-parser.cpp:381-430 | the block loop on a longer text continues what it emitted on the shorter one |
| Streaming.ContentOnlyGrows | llama.cpp/common/chat-parser.cpp:287-431 | for all tags, flags and texts: the parse of the longer text continues that of the shorter one, if and only if it is not the case that white space was shown and then turns out to stand before a start tag |
| Streaming.NoLeadingSpaceNeverWithdraws | llama.cpp/common/chat-parser.cpp:340-379 | a text that does not begin with white space is never withdrawn |
| Streaming.WithdrawalHappens | llama.cpp/common/chat-parser.cpp:340-379 | an input on which shown white space is withdrawn |
| Streaming.FinalGrows | llama.cpp/common/chat-parser.cpp:287-431 | the final parse continues the last partial one |
| Streaming.StreamingRunRebuilds | llama.cpp/tools/server/server-task.cpp:156-174 | whatever the text and however it is cut into pieces, no update throws and the client ends with the last message, because empty messages are skipped |
| Streaming.TaskState.UpdateChatMsg | llama.cpp/tools/server/server-task.cpp:156-174 | parsing the text so far, stamping the ids and computing the differences is one update of the session; an empty parse changes nothing |
| Layout.ContentOnlyExact | llama.cpp/common/chat-parser.cpp:287-431 | every text can be read as content, as tagged or forced-open reasoning with its blocks, white space and tail, or as the beginning of a start tag; the message is what that reading means, for all flags and any reading of the text, and the parser answers whether it is reasoning |
| Layout.BlocksLaidOut | llama.cpp/common/chat-parser.cpp:381-430 | the block loop emits the stripped text of every block, in tags or behind its surfaced opening, and of an open block the part in front of the longest suffix that begins the end tag |
| Layout.OpenBlock | llama.cpp/common/chat-parser.cpp:387-398 | of a block that breaks off anywhere before the end of its end tag, the part in front of a cut-off end tag is shown, stripped; the final parse closes it unless it seems to end in an end tag |
| Layout.OpenForced | llama.cpp/common/chat-parser.cpp:373-398 | the same without a start tag where thinking is forced open, and none is made up |
| Layout.FinalKeepsReasoning | llama.cpp/common/chat-parser.cpp:387-398 | an answer cut off while thinking keeps all of its reasoning, closed if it is inlined |
| Layout.ReasoningRoundTrip | llama.cpp/common/chat-parser.cpp:287-431 | wrapping clean blocks in the tags and parsing gives back the blocks as reasoning and the rest as content |
| XmlToolCall.RFind | llama.cpp/common/chat-parser-xml-toolcall.cpp:314-318 | the last occurrence at or before a place, or that there is none |
| XmlToolCall.RestTruncated | llama.cpp/common/chat-parser-xml-toolcall.cpp:332-335 | the rest of the input, cut to whole characters |
| XmlToolCall.AddPartialCall | llama.cpp/common/chat-parser-xml-toolcall.cpp:332-343 | the call is added with its arguments cut at the needle, or not at all |
| XmlToolCall.ReadValue | llama.cpp/common/chat-parser-xml-toolcall.cpp:557-583 | a complete value is stored; a cut-off one is sent with the needle and ends the parse |
| XmlToolCall.ReadSecondSep | llama.cpp/common/chat-parser-xml-toolcall.cpp:479-499 | text before the second separator is a syntax error, a cut-off one ends the parse |
| XmlToolCall.ReadKey | llama.cpp/common/chat-parser-xml-toolcall.cpp:466-499 | the key, cut off or whole, and what follows it |
| XmlToolCall.ReadArgument | llama.cpp/common/chat-parser-xml-toolcall.cpp:448-583 | one turn of the key loop, with its partial exits, moves the cursor and adds calls as the turn function says |
| XmlToolCall.ReadArguments | llama.cpp/common/chat-parser-xml-toolcall.cpp:447-585 | the key loop collects the pairs, or ends in the exception that the argument function gives |
| XmlToolCall.ReadName | llama.cpp/common/chat-parser-xml-toolcall.cpp:409-425 | the name ends at the separator, or at the end of a tool without arguments |
| XmlToolCall.ReadClosing | llama.cpp/common/chat-parser-xml-toolcall.cpp:586-611 | the call is added whole behind its closing tag, and partially before it |
| XmlToolCall.ReadTool | llama.cpp/common/chat-parser-xml-toolcall.cpp:399-611 | one turn of the tool loop |
| XmlToolCall.ReadScopeEnd | llama.cpp/common/chat-parser-xml-toolcall.cpp:612-632 | the scope ends, breaks off, or is rolled back while nothing has been added |
| XmlToolCall.ReadTools | llama.cpp/common/chat-parser-xml-toolcall.cpp:386-632 | the tool loop with its recovery flag ends as the recursion over tools does |
| XmlToolCall.ParseXmlToolCalls | llama.cpp/common/chat-parser-xml-toolcall.cpp:298-633 | the whole parser returns, throws and leaves cursor and calls as the function does that round trip and streaming are about |
| XmlToolCall.TryConsumeXmlToolCalls | llama.cpp/common/chat-parser-xml-toolcall.cpp:640-648 | a syntax exception is undone; whenever the answer is false, cursor and message are as they were at entry |
| XmlToolCall.FalseMeansUntouched | llama.cpp/common/chat-parser-xml-toolcall.cpp:306-312 | false implies nothing changed, and no answer or exception ever takes away calls that were there |
| XmlToolCall.TrueMeansClosed | llama.cpp/common/chat-parser-xml-toolcall.cpp:612-632 | on any input, true is answered only behind the closing tag of the scope, or at the end of a partial input that breaks off in it |
| XmlRendering.PartialJsonCuts | llama.cpp/common/chat-parser-xml-toolcall.cpp:314-331 | the needle that was put in is the one that is found, whatever stands before it |
| XmlRendering.CutInKey | llama.cpp/common/chat-parser-xml-toolcall.cpp:466-475 | the arguments sent while a key is being read |
| XmlRendering.CutInValue | llama.cpp/common/chat-parser-xml-toolcall.cpp:557-583 | the arguments sent while a value is being read |
| XmlStreaming.PairRead | llama.cpp/common/chat-parser-xml-toolcall.cpp:448-583 | a rendered pair, with any white space before it, is read as that pair |
| XmlStreaming.PairCut | llama.cpp/common/chat-parser-xml-toolcall.cpp:448-583 | on every proper prefix of a rendered pair exactly the view of the pair is sent, unless a stored key is mistaken for the one arriving |
| XmlStreaming.ArgumentsRead | llama.cpp/common/chat-parser-xml-toolcall.cpp:447-585 | all pairs of a call are read, in order, up to the white space before its closing tag |
| XmlStreaming.ArgumentsCut | llama.cpp/common/chat-parser-xml-toolcall.cpp:447-611 | a call cut off anywhere behind its name, also in white space, is sent with the view of its arguments |
| XmlStreaming.CallRead | llama.cpp/common/chat-parser-xml-toolcall.cpp:399-611 | a rendered call, with any white space before its tags, is read as that call and the cursor is behind it |
| XmlStreaming.CallCut | llama.cpp/common/chat-parser-xml-toolcall.cpp:399-611 | a call cut off anywhere is sent as its view |
| XmlRun.FormatsAreSafe | llama.cpp/common/chat-parser.cpp:882-1053 | the delimiters of MiniMax-M2, of Seed-OSS and of GLM-4.5 meet the conditions of the results below, and in all three a tool's end begins in what ends a name at most at its beginning |
| XmlRun.RoundTrip | llama.cpp/common/chat-parser-xml-toolcall.cpp:298-633 | for every list of calls with stripped names and distinct keys, whose parts do not contain the delimiter ending them and whose keys and values are UTF-8 without surrogates, and any white space before the scope, tool, key and closing tags: with one or two separators, with or without a scope and a separator behind the name: rendering and parsing returns exactly that list behind the calls already there, and the cursor is right behind the scope's end (if the scope has no closing tag: whatever follows that is not another tool) |
| XmlRun.PartialParse | llama.cpp/common/chat-parser-xml-toolcall.cpp:298-632 | on every proper prefix of a rendering of streamable calls the parser shows exactly the view of the calls, does not take it back, and ends exactly as it should: false before the scope, true once the closing tag has begun or where an unclosed scope may end, and otherwise by waiting for more |
| XmlStreaming.SecondCut | llama.cpp/common/chat-parser-xml-toolcall.cpp:479-499 | a text that breaks off before or in the second separator sends the key with nothing of the value |
| XmlStreaming.NameAhead | llama.cpp/common/chat-parser-xml-toolcall.cpp:409-428 | the name is found with any white space behind it, up to the separator or, where there is none, up to the first key or the end of the tool, also while these are cut off |
| XmlGrowth.SeenGrows | llama.cpp/common/chat-parser-xml-toolcall.cpp:332-343 | hold-back and UTF-8 truncation together never withdraw what was shown of a key or value |
| XmlGrowth.PairGrows | llama.cpp/common/chat-parser-xml-toolcall.cpp:466-583 | the arguments text grows while a pair arrives |
| XmlGrowth.ArgsBetween | llama.cpp/common/chat-parser-xml-toolcall.cpp:447-611 | the arguments sent are always a prefix of the final dump |
| XmlGrowth.ShownGrows | llama.cpp/common/chat-parser-xml-toolcall.cpp:399-632 | as more of a rendering of streamable calls arrives the calls shown grow: earlier calls are final, the last keeps its name and its arguments are a prefix of the final ones |
| XmlGrowth.ToolRunRebuilds | llama.cpp/tools/server/server-task.cpp:156-174 | however a rendering of streamable calls is cut into growing prefixes, no update throws, the client holds what was shown last, and in the end exactly the calls |
| XmlExact.GrowthExact | llama.cpp/common/chat-parser-xml-toolcall.cpp:399-611 | for every list of safe calls, the calls shown grow over all cuts of the rendering, if and only if no name seems to end early and no key, while it arrives with the needle behind it, is mistaken for an earlier key of its call |
| XmlExact.PlainExact | llama.cpp/common/chat-parser-xml-toolcall.cpp:409-428 | where a tool's end does not begin in the separator, a name seems to end early exactly if a character behind its first one begins a delimiter |
| XmlExact.TextBeforeSecond | llama.cpp/common/chat-parser-xml-toolcall.cpp:479-490 | text between the two separators of a pair, wherever it stands and however many calls were read before, makes the parser answer false with the cursor and the calls as they were |
| XmlExact.TextBeforeClose | llama.cpp/common/chat-parser-xml-toolcall.cpp:586-593 | text between the arguments of a call and its closing tag, after however many calls, makes the parser answer false with the cursor and the calls as they were |
| XmlExact.TextBehindCalls | llama.cpp/common/chat-parser-xml-toolcall.cpp:612-632 | behind complete calls without a closing tag the parser waits if only white space is left, also in the final parse; other text makes it answer false with everything as it was |
| XmlExact.EarlyNameThrows | llama.cpp/common/chat-parser-xml-toolcall.cpp:409-428 | the condition on names is needed in every run, for any list of calls and any message: a name that seems to end early is shown too short, and the next update throws |
| XmlExact.NeedleKeyIsSentTwice | llama.cpp/common/chat-parser-xml-toolcall.cpp:466-475 | an input whose first key is the needle: nothing throws, and the client ends with the first pair twice in its arguments |
| XmlExact.ClashShort | llama.cpp/common/chat-parser-xml-toolcall.cpp:314-343 | under a key that is mistaken for an earlier one, what is sent is shorter than what was sent before, or nothing |
| XmlJson.ArgumentsAreJson | llama.cpp/common/chat-parser-xml-toolcall.cpp:594-601 | the arguments with which a rendered call is read are JSON, and parsing them gives exactly the pairs of the call, stripped where the form says so, in order |
| JsonPartial.ErrorLocator.Scan | llama.cpp/common/json-partial.cpp:40-113 | the callbacks' pushes and pops leave the stack that the recogniser has for the text |
| JsonPartial.ErrorLocator.Feed | llama.cpp/common/json-partial.cpp:54-113 | one character: the callbacks that it triggers keep the stack equal to the recogniser's |
| JsonPartial.BuildClosing | llama.cpp/common/json-partial.cpp:160-170 | the loop builds the closers of the stack, innermost first |
| JsonPartial.HealTruncated | llama.cpp/common/json-partial.cpp:141-320 | the branches, taken by what the recogniser accepts (UTF-8 well-formedness included), give the healed text and marker that the laws are about |
| JsonPartial.RunTrace | llama.cpp/common/json-partial.cpp:141-158 | what the last characters of a text say about the recogniser's state, for every text |
| JsonText.RunFits | llama.cpp/common/json-partial.cpp:40-113 | in every reachable state the stack fits the mode |
| JsonHealing.CutExact | llama.cpp/common/json-partial.cpp:234-265 | cutting back to a separator gives an accepted text if and only if the separator is one of the open container |
| JsonHealing.ScalarCutLands | llama.cpp/common/json-partial.cpp:234-265 | behind a half-read number or literal it is |
| JsonHealing.PaddingCompletes | llama.cpp/common/json-partial.cpp:172-212 | the padding completes every half-read \u escape, surrogate pairs included, except behind a false high surrogate, and never a half-read character |
| JsonHealing.HealingExact | llama.cpp/common/json-partial.cpp:141-299 | for every text with an open container that can still become JSON: healing gives an accepted text, if and only if the text breaks off neither in an escape where an escaped backslash looks like a high surrogate nor inside a UTF-8 character, or the cut back to a separator lands outside the string |
| JsonHealing.PrefixesHeal | llama.cpp/common/json-partial.cpp:141-299 | every prefix of a JSON text that breaks off inside a container, but neither behind a false high surrogate nor inside a character, is healed |
| JsonHealing.PlainPrefixesHeal | llama.cpp/common/json-partial.cpp:141-299 | every prefix of a JSON object or array that reaches its opening bracket, ends between two characters and has no \u escape is complete or is healed |
| JsonHealing.HealedText | llama.cpp/common/json-partial.cpp:214-293 | for every text with an open container that can still become JSON, the branches found by trial are those that the state of the text asks for: the text is kept whole, then come the opening or the completion that the state needs, the marker, the end of the value or of a key with a value, and the closers; it is cut back exactly in or behind what may be a half-read number or literal, behind a false high surrogate, and inside a character |
| JsonHealing.PaddingIsCompletion | llama.cpp/common/json-partial.cpp:172-212 | the padding found from the last characters is the one that the state of the string asks for: zeros for missing digits, and the missing half of a surrogate pair |
| JsonHealing.LooksHighIs | llama.cpp/common/json-partial.cpp:175-183 | the code's test for a high surrogate holds exactly where the text ends in a backslash, a u and two to four digits that begin like one |
| JsonHealing.FalseHighFails | llama.cpp/common/json-partial.cpp:172-212 | an input that is not healed, because of a false high surrogate |
| JsonHealing.InsideCharFails | llama.cpp/common/json-partial.cpp:225-241 | the prefix `{"a":"x: ` with the first byte of a two-byte character is not healed, although one more byte, a quote and a bracket complete it |
| JsonHealing.TopLevelExact | llama.cpp/common/json-partial.cpp:301-320 | outside containers, healing succeeds exactly inside a string, and not in the middle of a \u escape or of a character; the healed text is then the text, the dump marker and a quote |
| JsonString.UnescapeEscape | llama.cpp/common/json-partial.h:11-12 | reading a string undoes how the dump writes it |
| JsonTokens.StringExact | llama.cpp/common/json-partial.cpp:133-140 | a text may stand between quotes exactly if it is made of unescaped characters, letter escapes, codes outside the surrogates and surrogate pairs (section 7 of RFC 8259) |
| JsonTokens.NumberExact | llama.cpp/common/json-partial.cpp:133-140 | a text is taken for a number exactly if the grammar gives it (section 6 of RFC 8259) |
| JsonRoundTrip.ParseDump | llama.cpp/common/json-partial.cpp:296-299 | every value with UTF-8 strings, numbers by the grammar of RFC 8259 and distinct keys is accepted when dumped, and parsing the dump gives the value back |
| JsonRoundTrip.SpaceBetween | llama.cpp/common/json-partial.cpp:133-140 | white space between tokens changes neither whether a text is accepted nor its value (section 2 of RFC 8259) |
| JsonRoundTrip.BrokenToken | llama.cpp/common/json-partial.cpp:133-140 | a text in which a character cannot come next in its string, number or word is not accepted, whatever comes behind |
| JsonValue.ReadText | llama.cpp/common/json-partial.cpp:296-299 | while a text is read into a value, the dump of what has been read is the text without white space |
| JsonValue.DumpIsText | llama.cpp/common/json-partial.h:11-12 | if the tokens of a JSON text are as the library writes them and no object repeats a key, the dump of its value is the text without the white space between tokens |
| JsonDump.HealedFine | llama.cpp/common/json-partial.cpp:213-298 | healing keeps the tokens as the library writes them, and the key it makes up is a new one |
| JsonDump.CutGivesPrefix | llama.cpp/common/json-partial.h:11-12 | for a truncated text with an open container or an open string in the library's own format (no white space, finished tokens and the open string as the library writes them, no repeated keys) that does not contain the marker, and that does not break off inside a \u escape or a character unless it is cut back to where a value begins: the dump of the healed value contains the dump marker, and cutting at its first occurrence gives a prefix of the text; all of it, where nothing was cut back and the dump marker does not begin earlier by overlapping the end of the text |
| Utf8.DecodeEncode | llama.cpp/common/console.cpp:363-427 | decode_utf8 undoes append_utf8 for every code point, wherever it stands |
| Utf8.PrevCharPos | llama.cpp/common/console.cpp:430-437 | the loop steps back to the start of the character before |
| Utf8.NextCharPos | llama.cpp/common/console.cpp:439-446 | the loop steps to the start of the next character |
| Utf8.PrevNextInverse | llama.cpp/common/console.cpp:430-446 | on encoded text the two move between neighbouring boundaries and undo each other |
| Utf8.Utf8TruncateSafe | llama.cpp/common/chat-parser-xml-toolcall.cpp:27-50 | the bounded backward loop computes the truncation that the next two rows are about |
| Utf8.TruncateIsGreatestBoundary | llama.cpp/common/chat-parser-xml-toolcall.cpp:27-50 | on every byte prefix of encoded text the result is the greatest character boundary |
| Utf8.TruncateMonotone | llama.cpp/common/chat-parser-xml-toolcall.cpp:27-50 | more bytes never give a shorter result |
| Lora.IndexBoth | llama.cpp/convert_lora_to_gguf.py:59-115 | if the batch indices of the two factors agree, indexing the factors is accepted and stands for indexing the product |
| LoraIndex.IntExact | llama.cpp/convert_lora_to_gguf.py:68-72 | an index is accepted exactly if both factors have it, and then the result stands for that entry of the product |
| LoraIndex.SliceExact | llama.cpp/convert_lora_to_gguf.py:73-77 | a slice stands for the slice of the product if and only if factor A stays in step in the leading dimension |
| LoraTuple.TupleExact | llama.cpp/convert_lora_to_gguf.py:78-115 | a tuple gives the indexed product if and only if PyTorch accepts it, rows and columns are sliced, and every batch dimension of A is taken whole or by number |
| LoraTuple.InnerDots | llama.cpp/convert_lora_to_gguf.py:80-97 | an ellipsis before the last entry is read as PyTorch reads it if and only if the other entries are half as many as the dimensions, or all behind it is full slices |
| LoraTuple.TrailingDots | llama.cpp/convert_lora_to_gguf.py:80-81 | a trailing ellipsis is read as PyTorch reads it; alone it is refused |
| LoraTuple.LastColumnsMissed | llama.cpp/convert_lora_to_gguf.py:82-97 | on three dimensions an ellipsis and a slice take rows where PyTorch takes columns |
| LoraShape.ReshapeExact | llama.cpp/convert_lora_to_gguf.py:131-155 | a reshape is accepted exactly if the new shape, its -1 worked out, keeps the last dimension and the number of rows and A has no batch (with columns and at most one -1: if PyTorch accepts it for the product and it keeps the last dimension); it keeps the product's elements in order under the new shape |
| LoraPermute.PermuteExact | llama.cpp/convert_lora_to_gguf.py:163-174 | a permutation is accepted exactly if PyTorch takes it for the product and the pair is a matrix or the last dimension stays and A has no batch; it is that permutation of the product; dimensions that PyTorch would refuse are named |
| LoraPermute.TransposeExact | llama.cpp/convert_lora_to_gguf.py:176-180 | a transpose is accepted exactly if PyTorch takes it for the product and the pair is a matrix or the last dimension stays and A has no batch; it exchanges the two dimensions of the product |
| LoraJoin.StackExact | llama.cpp/convert_lora_to_gguf.py:199-206 | a stack is accepted exactly if PyTorch stacks the products and the pairs have one rank and one batch of A; it is the stack of the products |
| LoraJoin.CatAccepted | llama.cpp/convert_lora_to_gguf.py:207-222 | a concatenation is accepted exactly if PyTorch takes it for the products and batched pieces agree in the rest of A, matrices in all of A |
| LoraJoin.CatExact | llama.cpp/convert_lora_to_gguf.py:207-215 | batched pieces: the result is the concatenation of the products if and only if A has the leading dimension in full in every piece, or there is one piece |
| LoraJoin.MatrixCatExact | llama.cpp/convert_lora_to_gguf.py:216-222 | matrices that share A: always the concatenation of the products |
| LoraProgram.ChainPreserves | llama.cpp/convert_lora_to_gguf.py:41-222 | a chain of operations, each used under its condition, is accepted exactly if each of them is, and every pair computed stands for the tensor the chain computes from the products |
| LineEditor.TypingInserts | llama.cpp/common/console.cpp:934-972 | typing a text anywhere puts exactly that text there |
| LineEditor.BackspaceUndoes | llama.cpp/common/console.cpp:905-933 | backspace, or left and delete, undoes typing |
| LineEditor.WordMoves | llama.cpp/common/console.cpp:571-654 | a word move passes spaces and one word, from end to start or from start to end and over the spaces behind it |
| LineEditor.EdgesHold | llama.cpp/common/console.cpp:811-829 | keys that would leave the line do nothing |
| LineEditor.LeftRight | llama.cpp/common/console.cpp:811-829 | left and right undo each other, and delete is right and backspace |
| LineEditor.HomeIsLefts | llama.cpp/common/console.cpp:519-527 | the start of the line is where any number of steps to the left ends |
| LineEditor.EndIsRights | llama.cpp/common/console.cpp:529-537 | the end of the line is where any number of steps to the right ends |
| LineEditor.UpsShow | llama.cpp/common/console.cpp:704-716 | every step up shows the next older line, up to the oldest, and the first one saves the line being typed |
| LineEditor.DownsShow | llama.cpp/common/console.cpp:717-729 | every step down shows the next newer line |
| LineEditor.NoHistory | llama.cpp/common/console.cpp:704-716 | without a history, up and down leave the line as it is |
| LineEditor.LineReturned | llama.cpp/common/console.cpp:980-1015 | an ordinary line returns itself without the newline, and another one is asked for in multi-line mode unless the stream ended |
| LineEditor.BackslashReturned | llama.cpp/common/console.cpp:986-991 | a trailing backslash goes, asks for the other of one and several lines, and leaves a newline only where the stream ended |
| LineEditor.SlashReturned | llama.cpp/common/console.cpp:992-999 | a trailing slash goes, with a lone space before it, and ends the input |
| LineEditor.EndedLineIsRecalled | llama.cpp/common/console.cpp:1008-1015 | the next line finds the one just ended first in the history, and only once if it repeats the last |
| LineEditor.NothingIsRemembered | llama.cpp/common/console.cpp:1008-1015 | a line that returns nothing, or that the stream ended, leaves the history alone |
| LineEditor.HistoryRoundTrip | llama.cpp/common/console.cpp:689-741 | any number of steps up and then down to the end gives back the line being typed, if and only if the history was not being viewed already or had saved the same line |
| LineEditor.NextLineRoundTrip | llama.cpp/common/console.cpp:693-703 | over two lines: what is typed into the second survives a walk through the history, if and only if the first did not end while viewing with nothing to remember, or the history had saved the same text |
| Console.History.Add | llama.cpp/common/console.cpp:693-703 | a line that is neither empty nor a repetition is appended, and viewing ends |
| Console.History.Prev | llama.cpp/common/console.cpp:704-716 | one entry back, stopping at the oldest |
| Console.History.Next | llama.cpp/common/console.cpp:717-729 | one entry forward, and behind the newest the saved line |
| Console.Editor.DeleteAtCursor | llama.cpp/common/console.cpp:454-480 | delete keeps the invariant, draws the rest again and leaves the cursor where it was |
| Console.Editor.DrawTail | llama.cpp/common/console.cpp:467-474 | exactly the bytes from the cursor on are drawn, and the cursor moves by their widths |
| Console.Editor.BackspaceKey | llama.cpp/common/console.cpp:905-933 | backspace keeps the invariant and moves the cursor by the width removed |
| Console.Editor.InsertKey | llama.cpp/common/console.cpp:934-972 | typing at the end or in the middle keeps the invariant and moves the cursor by the new width |
| Console.Editor.LeftKey | llama.cpp/common/console.cpp:811-819 | one character back, in bytes, characters and columns |
| Console.Editor.RightKey | llama.cpp/common/console.cpp:820-829 | one character on, in bytes, characters and columns |
| Console.Editor.MoveToLineStart | llama.cpp/common/console.cpp:519-527 | the cursor goes back by the widths before it |
| Console.Editor.MoveToLineEnd | llama.cpp/common/console.cpp:529-537 | the cursor goes on by the widths behind it |
| Console.Editor.HistoryPrev | llama.cpp/common/console.cpp:760-770 | the line being typed is saved once, and the older entry is shown |
| Console.Editor.HistoryNext | llama.cpp/common/console.cpp:771-779 | the newer entry or the saved line is shown |
| Console.Editor.SetLineContents | llama.cpp/common/console.cpp:495-517 | decoding a stored line gives its characters and widths, with the cursor at the end |
| Console.Editor.MoveWordLeft | llama.cpp/common/console.cpp:571-607 | the byte-level loops stop at the word start and move the terminal's cursor by the widths passed |
| Console.Editor.MoveWordRight | llama.cpp/common/console.cpp:609-654 | the byte-level loops stop at the next word and move the terminal's cursor by the widths passed |
| Console.Editor.HandleAll | llama.cpp/common/console.cpp:757-978 | after every sequence of keys the line is the encoding of as many characters as there are widths, the byte position is that of the character position, the terminal's cursor is at the line's start plus the widths before the cursor, and the editor is where the keys put it |
| Console.Editor.Finish | llama.cpp/common/console.cpp:980-1015 | what is returned of a line that ends, with or without a trailing slash or backslash, and the history, its viewing and its saved line at the beginning of the next one |
| Gbnf.CollectChildren | llama.cpp/common/chat-parser-xml-toolcall.cpp:99-115 | the two loops group the range by the character at the given depth |
| Gbnf.BuildExact | llama.cpp/common/chat-parser-xml-toolcall.cpp:98-146 | the expression for a sorted range accepts exactly the strings that leave the range's trie with their last character |
| Gbnf.ExpressionExact | llama.cpp/common/chat-parser-xml-toolcall.cpp:83-161 | for every list of non-empty forbidden strings the generated expression accepts exactly their escapes |
| Gbnf.AcceptsExact | llama.cpp/common/chat-parser-xml-toolcall.cpp:147-161 | the grammar accepts exactly the texts that split into escapes |
| Gbnf.SplitUnique | llama.cpp/common/chat-parser-xml-toolcall.cpp:98-161 | a text splits in one way only |
| Gbnf.SplitPointsExact | llama.cpp/common/chat-parser-xml-toolcall.cpp:98-161 | for ASCII forbidden strings: none begins at a split point of an accepted text, if and only if they are prefix-free |
| Gbnf.PromiseFails | llama.cpp/common/chat-parser-xml-toolcall.cpp:80-82 | the comment's promise fails both ways for one forbidden string of two characters |
| Gbnf.PromiseExact | llama.cpp/common/chat-parser-xml-toolcall.cpp:80-82 | "accept any strings except those containing any of the forbidden strings" holds if and only if all forbidden strings are single characters, for forbidden strings that are ASCII or prefix-free |
| Base64.EncodeText | llama.cpp/common/base64.hpp:80-144 | the loop writes the encoding that the round trip is about |
| Base64.RoundTrip | llama.cpp/common/base64.hpp:200-244 | decoding undoes encoding for every byte string, under both alphabets and under detection, strict or loose |
| Base64.DigitTable | llama.cpp/common/base64.hpp:84-87 | the digits are those of the two tables of RFC 4648 |
| Base64.ValueExact | llama.cpp/common/base64.hpp:345-391 | a character is read exactly if it is a digit of the alphabet, or of one that is still open, which its last two digits settle |
| Base64.EncodeExact | llama.cpp/common/base64.hpp:80-144 | the bits of the text, six to a digit, zeros in the last digit, and padding in the last group |
| Base64.DecodeExact | llama.cpp/common/base64.hpp:200-244 | the bits of the digits, eight to a byte, whatever follows the padding where that is not checked |
| Base64.DecodeRefuses | llama.cpp/common/base64.hpp:200-244 | any other character is refused, and so is anything but padding behind padding where that is checked |
| Base64.EncodedSize | llama.cpp/common/base64.hpp:338-341 | the encoding has exactly the required size |
| Base64.DecodedSize | llama.cpp/common/base64.hpp:324-327 | every decoded text fits the maximal size |
| Base64.MaxIsGroups | llama.cpp/common/base64.hpp:324-327 | the maximal size is three bytes for every group of four characters that the text begins |
| Base64.DecodeInPlace | llama.cpp/common/base64.hpp:294-313 | decoding over its own input gives the decoded text, or the error: nothing is overwritten before it is read |
| Download.AlwaysSafe | llama.cpp/common/download.cpp:217-286 | over every run of starts, attempts, replies, dropped connections, failed writes and crashes the temp file is a prefix of the body and the final file, when present, is the body |
| Download.SafeFromStart | llama.cpp/common/download.cpp:217-286 | from an empty disk, after every run, the temp file is a prefix of the body and the final file, when present, is the body |
| Download.StepKeeps | llama.cpp/common/download.cpp:217-286 | every single step, whatever the world does, keeps the invariant |
| Download.FinishExact | llama.cpp/common/download.cpp:349-402 | a download can still be finished if and only if the temp file is not already complete |
| Download.CompleteTempIsNeverUsed | llama.cpp/common/download.cpp:236-247 | after a crash between the last byte and the rename no later start gets any further |
| Download.StuckHappens | llama.cpp/common/download.cpp:349-402 | that state is real: a fresh download that crashes after the last byte is in it and can no longer be finished |
| Download.Downloader.PullFile | llama.cpp/common/download.cpp:217-286 | one attempt is a run of the protocol; it succeeds exactly if the reply is accepted and comes whole, and the temp file then has the pieces that came behind what it had |
| Download.Downloader.TryOnce | llama.cpp/common/download.cpp:367-388 | one turn of the retry loop: the old temp file blocks it, or it gets the body, or it leaves what it has for the next turn |
| Download.Downloader.Download | llama.cpp/common/download.cpp:290-402 | a call is a run of the protocol: 304 and the disk as it was, if a cached file is there and HEAD fails or it is current; the status of HEAD and the body in the final file, if the old one can be removed, one of three attempts gets the body before an old temp file blocks the way, and the rename works; otherwise the status of a failed HEAD or -1, with what is then on the disk |
| Download.FirstAttemptGets | llama.cpp/common/download.cpp:367-397 | from a clean start one good attempt is enough |
| Download.SecondAttemptGets | llama.cpp/common/download.cpp:367-397 | an attempt that breaks off is gone on with from what has come by asking for the rest with 206, or without range support from the beginning with 200 |
| Escapes.ProcessEscapes | llama.cpp/common/common.cpp:576-611 | rewriting in place gives the left-to-right decoding of the original text: the write index never passes the read index |
| Escapes.UnescapeWritten | llama.cpp/common/common.cpp:576-611 | characters, named escapes, bytes given by two characters, and backslashes that escape nothing are read as what they stand for |
| Escapes.EveryTextIsWritten | llama.cpp/common/common.cpp:576-611 | every text is made of these |
| Escapes.UnescapeDoubled | llama.cpp/common/common.cpp:576-611 | doubling the backslashes protects any text |
| Csv.ParseCsvRow | llama.cpp/common/arg.cpp:937-979 | the loop computes the fields that the round trip is about |
| Csv.RowRoundTrip | llama.cpp/common/arg.cpp:937-979 | every row of fields is read back: bare, with quotes behind the first character as they are; quoted, with inner quotes doubled and any text behind the closing quote; or quoted and never closed |
| Csv.EveryTextIsARow | llama.cpp/common/arg.cpp:937-979 | every text is such a row |

## Left out

- The JSON library: texts are judged by a recogniser for RFC 8259 that builds the value as it reads; the position at which it reports an error in a text that is malformed rather than cut off is not part of it, and neither is a byte-order mark at the start. How a number is written is a parameter. Healing markers are plain ASCII.
- JsonPartial.ErrorLocator.Scan: on a text that is malformed rather than cut off, the stack at the error is not modelled.
- JsonPartial.ErrorLocator.Feed: as for Scan, a malformed character empties the stack.
- JsonDump.CutGivesPrefix: texts whose half-read \u escape is padded are excluded, because the dump prints the decoded character. The dump is the one with characters outside ASCII written as they are; the one that writes them as \u escapes (chat-parser.cpp:563) agrees with it on contents below 0x7F only.
- XmlToolCall.ReadArgument: values that are themselves JSON are not modelled; values are raw strings. None of MiniMax-M2, Seed-OSS and GLM-4.5 sets `raw_argval`, so for these three formats the results on whole texts are about values that do not begin with JSON, and those on texts that break off about values of which no part does.
- XmlToolCall.ReadArguments: raw string values only.
- XmlToolCall.ReadName: the alternative closing tag `last_tool_end` is not modelled.
- XmlToolCall.ReadClosing: the alternative closing tag `last_tool_end` is not modelled.
- XmlToolCall.ReadTool: raw string values only, and not the Kimi-K2 form of tool names.
- XmlToolCall.ReadTools: raw string values only.
- XmlToolCall.ParseXmlToolCalls: raw string values, and neither `last_val_end` nor `last_tool_end`.
- `try_find_2_literal_splited_by_spaces`, which only the alternative closing tags use.
- The loop around the tool-call parser, `parse_msg_with_xml_tool_calls`, and the per-model parsers built on regular expressions: the regular expressions are not part of this model.
- Layout.ContentOnlyExact: tags are not empty and the start tag does not begin with white space, which the parser would skip.
- ChatParser.MsgParser.TryParseReasoning: both tags empty is excluded, because the loop then does not end.
- Tensors of indices as an index, conversion between number formats, and rounding: tensor elements are real numbers. The rank of a pair is positive.
- LoraJoin.CatExact: pieces with an empty leading dimension are excluded from the if-and-only-if, since their extents can add up by chance.
- Code points above 0x10FFFF as keys: append_utf8 writes nothing for them while the width list still grows.
- What the terminal shows apart from the column of its cursor, the repainting of a trailing slash, escape sequences as such (a key is what they mean), and Windows. A character is assumed to take the same width whenever it is drawn.
- Gbnf.SplitPointsExact: forbidden strings outside ASCII are excluded; if they used up every character, a forbidden string that begins another could not be left.
- The text of the grammar, that is, how characters are quoted in classes and literals; an empty forbidden string.
- The HTTP client, headers and delays; the entity tag is the answer to "is the cached file current?"; a failure when the file buffer is written at close, which the program does not notice; two downloads of the same path at once.
- PEG parser, jinja engine, option tables, ngram tables, spinner, and all calls into the inference library: wrappers or easy members.
