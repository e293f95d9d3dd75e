# Verified model of the inference console of an API-code assistant

`inference.py` runs a chat loop around a Vicuna-style language model. Each turn it reads a
request from the console and looks up related API documentation in a vector store. It wraps
both into a fixed instruction template and appends the result, plus an empty assistant slot,
to the conversation. It then streams the generated answer to the console word by word and
stores the stripped answer in the slot. A batch path (`base_inference`) cuts the answer out of
a fully decoded output at the `### Response:` marker. Before loading the model, the program
picks its placement options from the device name and the GPU count.

The Dafny project models that logic. Model loading, retrieval, prompt rendering and token
generation enter only as given values or function parameters.

| module | file | models |
|---|---|---|
| `Results` | `results.dfy` | `Option`, `Result`, and the Python exceptions the core can raise |
| `PyStr` | `py_str.dfy` | Python's `str.isspace`, `strip`, `find`, `split`, `join`, `replace`, `s[k:]` and occurrence counting |
| `SimpleChatIO` | `simple_chat_io.dfy` | `SimpleChatIO.stream_output`: a method with its loop, its specification functions, and the properties of the word emitter |
| `BaseInference` | `base_inference.dfy` | answer extraction at the `### Response:` marker |
| `ChatPrompt` | `chat_prompt.dfy` | the chat input template, reading it back, and `skip_echo_len` |
| `DevicePlacement` | `device_placement.dfy` | the `from_pretrained` keyword options and the move-to-device decision |
| `VicunaChat` | `vicuna_chat.dfy` | the conversation as a class with a mutable message list, one loop turn, and the whole loop |

Console output is modelled as the list of chunks written, in order:
- `print(x, end=" ")` writes `x + " "`;
- `print(x)` writes `x + "\n"`;
- `input(p)` and `print(p, end="")` write `p`.

`input()` raising `EOFError` is a `None` line. An exception that escapes is an `Err` carrying
the exception kind.

## Model

| member | source | states |
|---|---|---|
| `PyStr.IsSpace` | inference.py:28 | the characters `str.isspace` accepts, which `strip()` removes; its properties are stated by `LeadingSpaces`, `TrailingSpaces` and `StripSlice` |
| `PyStr.LeadingSpaces` | inference.py:28 | the count of leading `isspace` characters: all of them are whitespace, and the next character is not |
| `PyStr.TrailingSpaces` | inference.py:28 | the same for trailing whitespace |
| `PyStr.Strip` | inference.py:28 | `strip()` never lengthens a string, and its result has no whitespace at either end |
| `PyStr.StripSlice` | inference.py:28 | `strip()` returns a contiguous slice of its argument, and every character before or after that slice is whitespace |
| `PyStr.StripTrimmed` | inference.py:135 | stripping text without surrounding whitespace changes nothing |
| `PyStr.StripIdempotent` | inference.py:135 | `strip()` applied twice is `strip()` once, so re-stripping the streamed answer is harmless |
| `PyStr.StripContains` | inference.py:78 | stripping cannot create an occurrence of a pattern |
| `PyStr.FindFirst` | inference.py:78 | returns the first index where the pattern occurs, or none exactly when it does not occur |
| `PyStr.FindFirstSplits` | inference.py:78 | the text before the first occurrence holds no occurrence, and the string is that text, the pattern, and the rest |
| `PyStr.OccursAtCuts` | inference.py:78 | an occurrence at `i` cuts the string into the text before it, the pattern, and the text after it |
| `PyStr.Split` | inference.py:29 | `split(sep)` returns at least one piece; exactly one when `sep` is absent; no piece contains `sep` |
| `PyStr.Join` | inference.py:32-35 | `sep.join(parts)`; its properties are stated by `JoinSplit`, `JoinLength` and `JoinLengthDiff` |
| `PyStr.JoinSplit` | inference.py:35 | `sep.join(s.split(sep)) == s` |
| `PyStr.SplitWhole` | inference.py:78 | a string without the separator splits into itself alone |
| `PyStr.LastCharUnique` | inference.py:121 | a pattern whose last character occurs nowhere else in it cannot overlap itself |
| `PyStr.NoOverlap` | inference.py:121 | two occurrences of a self-disjoint pattern are at least its length apart |
| `PyStr.SplitAfter` | inference.py:78 | splitting `a + sep + rest`, when `a` has no `sep`, gives `a` followed by the pieces of `rest` |
| `PyStr.FindFirstAfter` | inference.py:117 | when no character of `a` starts the pattern, the first occurrence in `a + p + b` is right after `a` |
| `PyStr.BeforeFirst` | inference.py:78 | the text before the first occurrence is a prefix without the pattern |
| `PyStr.SplitSecondPiece` | inference.py:78 | `split(sep)[1]` runs from just after the first separator to the next one or the end |
| `PyStr.Replace` | inference.py:121 | `replace` as `repl.join(s.split(pat))`; its properties are stated by `ReplaceAbsent` and `ReplaceLength` |
| `PyStr.ReplaceAbsent` | inference.py:121 | a string without the pattern comes back from `replace` unchanged |
| `PyStr.JoinLength` | inference.py:121 | the length of a join is the parts' total length plus one separator per boundary |
| `PyStr.JoinLengthDiff` | inference.py:121 | joining the same parts with two separators gives lengths that differ by the separators' length difference per boundary |
| `PyStr.ReplaceLength` | inference.py:121 | `replace` changes the length by `len(repl) - len(pat)` per replaced occurrence |
| `PyStr.OccurrencesSkip` | inference.py:121 | a prefix with no occurrence start can be dropped without changing the count |
| `PyStr.SplitCountsOccurrences` | inference.py:121 | for a self-disjoint pattern, `split` makes one more piece than there are occurrences |
| `PyStr.OccurrencesAfterFirst` | inference.py:121 | the first occurrence of a self-disjoint pattern counts once, and no other occurrence starts before its end |
| `PyStr.NoOccurrenceInsideFirst` | inference.py:121 | no occurrence of a self-disjoint pattern starts strictly inside another one |
| `PyStr.SliceStart` | inference.py:28 | the start index of `s[k:]`: `k` itself when in range; counted from the end when negative; clamped to `0..len` |
| `PyStr.SliceFrom` | inference.py:28 | `s[k:]` has `len(s) - k` elements for `0 <= k <= len(s)` and `-k` for a negative `k` in range; it is empty past the end and all of `s` below its start |
| `PyStr.SliceFromSuffix` | inference.py:28 | `s[k:]` is always a suffix of `s` |
| `PyStr.ConcatAppend` | inference.py:32-34 | writing two lists of chunks one after the other writes their texts one after the other |
| `SimpleChatIO.RoleLabel` | inference.py:19-23 | the prompt before a turn is the role followed by `: ` |
| `SimpleChatIO.Words` | inference.py:28-29 | every snapshot yields at least one word |
| `SimpleChatIO.WordsRejoin` | inference.py:28-35 | rejoining a snapshot's words with spaces gives its stripped text; no word holds a space |
| `SimpleChatIO.Emission` | inference.py:32 | the chunk written is the words from the cursor up to but not including the last, each followed by a space |
| `SimpleChatIO.Advance` | inference.py:30-33 | one loop pass moves the cursor to the last word index when that is further on, writing the words in between, each followed by a space; otherwise nothing changes |
| `SimpleChatIO.Snapshots` | inference.py:27-29 | one word list per snapshot, and none is empty |
| `SimpleChatIO.SnapshotsAt` | inference.py:27-29 | the `k`-th word list is that of the `k`-th snapshot |
| `SimpleChatIO.EmitLoop` | inference.py:26-33 | the `for` loop as a fold: the cursor `pre` and the chunks written after the word lists of all snapshots so far, one `Advance` per snapshot, from `pre = 0` and nothing written; its properties are stated by `EmitLoopStep`, `CursorNeverDecreases`, `CursorIsLargestLastIndex` and `LoopWithholdsLastWord` |
| `SimpleChatIO.Printed` | inference.py:26-34 | everything `stream_output` writes: the loop's chunks, then the last snapshot's words from the cursor on and a newline; nothing for an empty stream, whose final write raises first; its properties are stated by `StreamOutput`, `GrowingPrintsAllWords` and `StreamEchoesResult` |
| `SimpleChatIO.EmitLoopStep` | inference.py:27-33 | the loop state after `i + 1` snapshots is one loop pass applied to the state after `i` |
| `SimpleChatIO.StreamOutput` | inference.py:25-35 | an empty stream is `UnboundLocalError`; otherwise the result is the last snapshot, cut at `skip_echo_len` and stripped; the writes are those of the specification `Printed` |
| `SimpleChatIO.CursorNeverDecreases` | inference.py:26-33 | across snapshots, `pre` never decreases and earlier writes are a prefix of later ones |
| `SimpleChatIO.CursorIsLargestLastIndex` | inference.py:30-33 | after the loop, `pre` is the largest last-word index of any snapshot, or 0 |
| `SimpleChatIO.LoopWithholdsLastWord` | inference.py:30-33 | every chunk the loop writes comes from some snapshot: its words from the cursor up to, but not including, its last word |
| `SimpleChatIO.JoinSpaced` | inference.py:32 | a join plus a trailing space is each word followed by a space |
| `SimpleChatIO.SpacedAppend` | inference.py:32 | writing word lists one after the other writes their words in order |
| `SimpleChatIO.SpacedThenJoin` | inference.py:32-34 | space-terminated words followed by the joined rest is the join of all the words |
| `SimpleChatIO.AdvanceSpaced` | inference.py:30-33 | when a snapshot extends what was written, one loop pass writes all of its words but the last |
| `SimpleChatIO.GrowingLoopState` | inference.py:26-33 | when word lists grow, the cursor ends on the last word, and everything before it has been written once, in order |
| `SimpleChatIO.FinalWriteCompletes` | inference.py:34 | the final `print` completes the words written so far into the joined text plus a newline |
| `SimpleChatIO.GrowingPrintsAllWords` | inference.py:32-35 | when word lists grow, all writes together are the last word list joined by spaces, plus a newline |
| `SimpleChatIO.StreamEchoesResult` | inference.py:25-35 | when word lists grow, everything written concatenates to exactly the returned text plus a newline |
| `SimpleChatIO.WordsOfOne` | inference.py:28-29 | a stripped text without spaces is one word |
| `SimpleChatIO.WordsOfMore` | inference.py:28-29 | a word, a space, and a stripped rest split into that word and the rest's words |
| `SimpleChatIO.WordsOfTwo` | inference.py:28-29 | two space-separated words split into those two words |
| `SimpleChatIO.WordsOfThree` | inference.py:28-29 | three space-separated words split into those three words |
| `SimpleChatIO.SnapshotsAppend` | inference.py:27-29 | one more snapshot adds its word list at the end |
| `SimpleChatIO.SnapshotsOfThree` | inference.py:27-29 | the snapshots `w1`, `w1 w2`, `w1 w2 w3` give the word lists `[w1]`, `[w1, w2]`, `[w1, w2, w3]` |
| `SimpleChatIO.EmitThree` | inference.py:26-33 | on those lists the loop writes `w1 `, then `w2 `, and leaves the cursor at 2 |
| `SimpleChatIO.ThreeGrowingSnapshots` | inference.py:25-35 | streaming `w1`, `w1 w2`, `w1 w2 w3` writes `w1 `, `w2 `, then `w3` and a newline |
| `BaseInference.MarkerSelfDisjoint` | inference.py:78 | `### Response:` cannot overlap itself |
| `BaseInference.ExtractResponse` | inference.py:78 | `IndexError` exactly when the marker is absent; otherwise a stripped answer containing no marker |
| `BaseInference.ExtractBetweenMarkers` | inference.py:78 | with two markers, the answer is the stripped text between the first and the second |
| `BaseInference.ExtractToEnd` | inference.py:78 | with one marker, the answer is the stripped text after it |
| `BaseInference.ExtractAfterFirstMarker` | inference.py:78 | whenever the marker first occurs at `i`, the answer is the stripped text from just after it to the next marker or the end |
| `ChatPrompt.Layout` | inference.py:117 | a string built as prefix, three parts and suffix holds each part at its offset, and its length is their total |
| `ChatPrompt.ChatInput` | inference.py:117 | the chat input starts with the fixed prefix and ends with `\n\n### Code:`; the request sits right after the prefix, the `\n\n### Input:\n` header right after the request, and the documentation right after the header |
| `ChatPrompt.Framed` | inference.py:117 | a string framed by two others is read back by slicing |
| `ChatPrompt.ParseChatInput` | inference.py:117 | any text it accepts is rebuilt exactly by the template from the parts it returns |
| `ChatPrompt.CutAtHeader` | inference.py:117 | a framed text cut at the first header is rebuilt from the text before it, the header and the rest; the text before holds no header |
| `ChatPrompt.Reassemble` | inference.py:117 | a string with a known prefix and suffix is that prefix, the middle slice and that suffix |
| `ChatPrompt.ParseChatInputRoundTrip` | inference.py:108-117 | for a console line, which holds no newline, parsing the chat input gives back the request and the documentation |
| `ChatPrompt.SkipEchoLen` | inference.py:121 | `skip_echo_len` is the prompt length less three per `</s>`, plus one, and lies in `1..len(prompt)+1` |
| `ChatPrompt.EndOfSequenceSelfDisjoint` | inference.py:121 | `</s>` cannot overlap itself, so its count is unambiguous |
| `DevicePlacement.MaxMemory` | inference.py:93 | the memory map's keys are exactly `0..n-1`, each mapped to `13GiB` |
| `DevicePlacement.MaxMemorySize` | inference.py:93 | the memory map has `n` entries, or none when `n` is negative |
| `DevicePlacement.Options` | inference.py:82-100 | `cpu` gets no options; any device other than `cpu` and `cuda` leaves `kwargs` unbound; CUDA options carry `torch_dtype=float16`, hold no keys besides `torch_dtype`, `device_map` and `max_memory`, and any `device_map` is `"auto"`; CUDA fails only on a GPU count `int()` rejects |
| `DevicePlacement.SelectPlacement` | inference.py:82-100 | the options built step by step are those of the by-case specification `Options` |
| `DevicePlacement.OptionsFailures` | inference.py:82-97 | the only failures are an unknown device (`kwargs` unbound) and a CUDA GPU count given as a string `int()` rejects (`ValueError`) |
| `DevicePlacement.MoveExcludesDeviceMap` | inference.py:82-100 | the model moves to the device exactly for `cuda` with one GPU; on CUDA, `device_map="auto"` is requested exactly when it does not move; a moved model gets only `torch_dtype=float16`; `cpu` gets no options |
| `DevicePlacement.MemoryCapPerGpu` | inference.py:89-94 | a memory cap appears exactly for CUDA with an explicit count other than one, and it covers GPUs `0..n-1` |
| `VicunaChat.Conversation.constructor` | inference.py:105 | a conversation starts with the given roles and messages |
| `VicunaChat.Conversation.AppendMessage` | inference.py:118-119 | appends exactly one entry and changes nothing else |
| `VicunaChat.Conversation.SetLastText` | inference.py:135 | only the last entry changes: it keeps its role and gets the text |
| `VicunaChat.ReadLine` | inference.py:107-110 | a read line is its text; it is empty exactly on EOF or an empty line |
| `VicunaChat.TurnMessages` | inference.py:118-119 | a turn keeps the history as a prefix and adds the user's request, then the assistant's entry |
| `VicunaChat.TurnAnswered` | inference.py:135 | filling the pending assistant entry gives the answered turn |
| `VicunaChat.TurnKeepsAlternation` | inference.py:118-119 | a turn keeps the conversation alternating user, assistant |
| `VicunaChat.Turn` | inference.py:107-135 | one loop pass: it exits exactly on an empty line or EOF, keeping the messages; otherwise it appends the wrapped request and the assistant entry; an empty stream raises `UnboundLocalError` on `outputs` and leaves that entry unfilled; otherwise the entry holds the stripped answer |
| `VicunaChat.TurnFollowsStream` | inference.py:117-135 | on a non-empty line, the turn raises exactly when the stream generated for its prompt is empty; otherwise the answer is that stream's stripped reply; the writes are the two role labels and then what `stream_output` writes for that stream |
| `VicunaChat.Reply` | inference.py:133-135 | the stored answer has no surrounding whitespace and is no longer than the last snapshot past the echo |
| `VicunaChat.StreamAnswer` | inference.py:131-135 | streams the answer; on an empty stream it fails and leaves the messages as they were; otherwise only the last entry changes, and it becomes the stripped answer |
| `VicunaChat.ChatTurn` | inference.py:107-135 | the outcome, the new messages and the writes are those of the specification `Turn`; it exits exactly on an empty line or EOF |
| `VicunaChat.NextLine` | inference.py:107-110 | the next line is the first remaining one, and `None` (EOF) exactly when none remain |
| `VicunaChat.Session` | inference.py:106-135 | the `while True` loop over the console lines, EOF after the last, as `Turn` folded from the conversation before it: an empty line or EOF quits, a raising turn ends the loop, an answered turn goes on with the next line; its properties are stated by `SessionTurns`, `SessionKeepsHistory`, `SessionExchanges` and `SessionAlternates` |
| `VicunaChat.AfterAfter` | inference.py:106-135 | answered turns in front of answered turns add up |
| `VicunaChat.SessionTurns` | inference.py:106-135 | one answered turn per leading non-empty line; the loop quits at an empty line or EOF, and raises only `UnboundLocalError` on `outputs`, at a non-empty line |
| `VicunaChat.SessionKeepsHistory` | inference.py:118-119 | the earlier messages are kept, and two entries are appended per answered turn and for a raising turn |
| `VicunaChat.SessionExchanges` | inference.py:117-135 | the `k`-th answered turn appends the `k`-th line wrapped in the template under the user role, then a stripped answer under the assistant role |
| `VicunaChat.ExchangesShift` | inference.py:106-135 | answered exchanges for the lines after the first, behind one for the first line, are answered exchanges for all of them |
| `VicunaChat.FirstExchange` | inference.py:118-119 | messages extending a turn's messages hold its two entries as the first exchange after the history |
| `VicunaChat.SessionAlternates` | inference.py:118-119 | a session keeps the conversation alternating user, assistant |
| `VicunaChat.ChatSession` | inference.py:106-135 | the end, the turn count, the messages and the writes are those of the specification `Session`; one answered turn per leading non-empty line; the loop stops at an empty line, at EOF, or at a turn raising `UnboundLocalError` on `outputs`; earlier messages are kept, with two entries per turn; alternation is preserved |

## Left out

- Model and tokenizer loading, `.to`, `.cuda()` and generation (inference.py:59-77, 96-101) are foreign library calls. The stream of decoded snapshots enters as `generate(prompt)`, and the decoded batch output as a string.
- `load_in_8bit` and `low_cpu_mem_usage` are passed straight to the loader, and nothing local decides on them.
- Vector-store loading and `similarity_search` (inference.py:47-49, 114-116) are file I/O plus a foreign index. The retrieved documentation enters as `retrieve(inp)`.
- `conv_v1_2`, `get_prompt`, `SeparatorStyle` and `generate_stream` are defined in `utils.py`, which is not part of this model. The conversation's initial messages are given to the constructor, and rendering enters as `render(messages)`.
- The stop sequence and sampling values in `params` (inference.py:123-129) only feed generation, so they are folded into `generate`.
- The `base_inference` prompt f-string (inference.py:51-57) interpolates the `repr` of foreign document objects. Only the extraction at line 78 is modelled.
- The sampling parameters `temperature`, `top_p`, `top_k`, `num_beams` and `max_new_tokens` are floats or pass-through integers with no local logic.
- Argument parsing and the `__main__` call (inference.py:12-16, 140-142) are left out. So are the `debug` prints (inference.py:102-103, 137-138) and output flushing.
- `DevicePlacement.Options`: `int(num_gpus)` is abstracted into the `GpuArg` cases. The count is `"auto"`, or a string `int()` reads as `n`, or a string it rejects (the entry point at inference.py:142 passes `"auto"`; a non-string such as `None`, for which `int()` raises `TypeError`, is not modelled). The string grammar `int()` accepts is not modelled.
- `torch.float16` is the opaque token `Float16`.
- `VicunaChat.ChatSession`: an exception escaping a turn ends the session as `Raised`. Process exit codes are not modelled.
- `VicunaChat.Conversation`: only `roles` and `messages` are modelled. The template's system text, separators and offset belong to `utils.py`.
- `VicunaChat.Conversation.SetLastText` follows the code: `conv.messages[-1][-1] = ...` overwrites the last entry whatever its text. It does not refuse to overwrite a filled turn. The code has no such check, so neither does the model.
- `SimpleChatIO.ThreeGrowingSnapshots` states the three-snapshot example for arbitrary non-empty words without spaces, not for the literal words `The`, `quick` and `brown`.
