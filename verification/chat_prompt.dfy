/** How `vicuna_chat` wraps a user line into an instruction prompt, and how many characters of
    the generated text echo the prompt and are skipped when streaming the answer. */
module ChatPrompt {
  import opened Results
  import opened PyStr

  /** The fixed instruction placed before the user's request. */
  const ChatPrefix: string := "Below is an instruction that describes a task, paired with an API references that provides further about the API. Write code that appropriately completes the request.\n\n### Instruction:\n "
  /** The header between the request and the retrieved API documentation. */
  const InputHeader: string := "\n\n### Input:\n"
  /** The header that asks the model for code. */
  const CodeHeader: string := "\n\n### Code:"
  /** The end-of-sequence token that the chat template puts after assistant turns. */
  const EndOfSequence: string := "</s>"

  /** `x` framed by `pre` and `post` can be read back by slicing. */
  lemma Framed(pre: string, x: string, post: string)
    ensures (pre + x + post)[..|pre|] == pre
    ensures (pre + x + post)[|pre|..|pre| + |x|] == x
    ensures (pre + x + post)[|pre| + |x|..] == post
  {
  }

  /** A text `a + h + b` framed by `pre` and `post`: each of the five parts sits at its offset. */
  lemma Layout(pre: string, a: string, h: string, b: string, post: string)
    ensures var s := pre + (a + h + b) + post;
      && |s| == |pre| + |a| + |h| + |b| + |post|
      && s[..|pre|] == pre
      && s[|s| - |post|..] == post
      && OccursAt(s, a, |pre|)
      && OccursAt(s, h, |pre| + |a|)
      && OccursAt(s, b, |pre| + |a| + |h|)
  {
    var mid := a + h + b;
    var s := pre + mid + post;
    Framed(pre, mid, post);
    Framed(a, h, b);
    assert s[|pre|..|pre| + |a|] == mid[..|a|];
    assert s[|pre| + |a|..|pre| + |a| + |h|] == mid[|a|..|a| + |h|];
    assert s[|pre| + |a| + |h|..|pre| + |mid|] == mid[|a| + |h|..];
  }

  /** `prefix + inp + "\n\n### Input:\n" + docs + "\n\n### Code:"`: the request and the
      documentation sit in fixed places between the headers. */
  function ChatInput(inp: string, docs: string): (s: string)
    ensures |s| == |ChatPrefix| + |inp| + |InputHeader| + |docs| + |CodeHeader|
    ensures s[..|ChatPrefix|] == ChatPrefix
    ensures s[|s| - |CodeHeader|..] == CodeHeader
    ensures OccursAt(s, inp, |ChatPrefix|)
    ensures OccursAt(s, InputHeader, |ChatPrefix| + |inp|)
    ensures OccursAt(s, docs, |ChatPrefix| + |inp| + |InputHeader|)
  {
    Layout(ChatPrefix, inp, InputHeader, docs, CodeHeader);
    ChatPrefix + (inp + InputHeader + docs) + CodeHeader
  }

  /** Reads a chat input back into the request and the documentation: the text between the
      prefix and the code header, cut at its first input header. */
  function ParseChatInput(s: string): (r: Option<(string, string)>)
    ensures r.Some? ==> ChatInput(r.value.0, r.value.1) == s && !Contains(r.value.0, InputHeader)
  {
    var p, c := |ChatPrefix|, |CodeHeader|;
    if |s| < p + c || s[..p] != ChatPrefix || s[|s| - c..] != CodeHeader then
      None
    else
      var mid := s[p..|s| - c];
      match FindFirst(mid, InputHeader)
      case None => None
      case Some(j) =>
        CutAtHeader(s, ChatPrefix, mid, InputHeader, CodeHeader, j);
        Some((mid[..j], mid[j + |InputHeader|..]))
  }

  /** A string that starts with `pre` and ends with `post`, cut at the first `h` between them,
      is rebuilt from the two pieces, and the first piece holds no `h`. */
  lemma CutAtHeader(s: string, pre: string, mid: string, h: string, post: string, j: nat)
    requires h != [] && |pre| + |post| <= |s| && s[..|pre|] == pre && s[|s| - |post|..] == post
    requires mid == s[|pre|..|s| - |post|] && FindFirst(mid, h) == Some(j)
    ensures pre + (mid[..j] + h + mid[j + |h|..]) + post == s && !Contains(mid[..j], h)
  {
    Reassemble(s, pre, post);
    FindFirstSplits(mid, h, j);
  }

  /** A string that starts with `pre` and ends with `post` is `pre`, the text between, and `post`. */
  lemma Reassemble(s: string, pre: string, post: string)
    requires |pre| + |post| <= |s| && s[..|pre|] == pre && s[|s| - |post|..] == post
    ensures pre + s[|pre|..|s| - |post|] + post == s
  {
    assert s == s[..|pre|] + s[|pre|..|s| - |post|] + s[|s| - |post|..];
  }

  /** A line read by `input()` holds no newline, so the first input header in the chat input is
      the one after the request, and parsing gives back the request and the documentation. */
  lemma ParseChatInputRoundTrip(inp: string, docs: string)
    requires forall k :: 0 <= k < |inp| ==> inp[k] != '\n'
    ensures ParseChatInput(ChatInput(inp, docs)) == Some((inp, docs))
  {
    var mid := inp + InputHeader + docs;
    assert InputHeader[0] == '\n';
    FindFirstAfter(inp, InputHeader, docs);
    Framed(ChatPrefix, mid, CodeHeader);
    Framed(inp, InputHeader, docs);
  }

  /** `len(prompt.replace("</s>", " ")) + 1`: every end-of-sequence token shrinks to one
      character, so the offset is the prompt's length less three per token, plus one. */
  function SkipEchoLen(prompt: string): (n: int)
    ensures n == |prompt| - 3 * Occurrences(prompt, EndOfSequence) + 1
    ensures 1 <= n <= |prompt| + 1
  {
    EndOfSequenceSelfDisjoint();
    ReplaceLength(prompt, EndOfSequence, " ");
    SplitCountsOccurrences(prompt, EndOfSequence);
    |Replace(prompt, EndOfSequence, " ")| + 1
  }

  /** Occurrences of `</s>` never overlap, so the count above is unambiguous. */
  lemma EndOfSequenceSelfDisjoint()
    ensures EndOfSequence != [] && SelfDisjoint(EndOfSequence)
  {
    var e := EndOfSequence;
    assert |e| == 4 && e[0] == '<' && e[1] == '/' && e[2] == 's' && e[3] == '>';
    LastCharUnique(e);
  }
}
