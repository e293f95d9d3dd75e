/**
 * The console adapter `SimpleChatIO` of inference.py. Its `stream_output` consumes the
 * generator's cumulative snapshots and writes each word once it can no longer change: every
 * word of a snapshot except its last, which the generator may still be extending.
 * Writing to the console is modelled as a returned list of the chunks written, in order.
 */
module SimpleChatIO {
  import opened Results
  import opened PyStr

  /** What `input(f"{role}: ")` and `print(f"{role}: ", end="")` write before a turn. */
  function RoleLabel(role: string): (r: string)
    ensures |r| == |role| + 2 && r[..|role|] == role && r[|role|..] == ": "
  {
    role + ": "
  }

  /** The words of one snapshot: the echoed prompt dropped, surrounding whitespace stripped,
      and the rest split on single spaces. */
  function Words(snapshot: string, skipEchoLen: int): (words: seq<string>)
    ensures |words| >= 1
  {
    Split(Strip(SliceFrom(snapshot, skipEchoLen)), " ")
  }

  /** Rejoining a snapshot's words with single spaces gives back its stripped text, and no
      word holds a space. */
  lemma WordsRejoin(snapshot: string, skipEchoLen: int)
    ensures Join(" ", Words(snapshot, skipEchoLen)) == Strip(SliceFrom(snapshot, skipEchoLen))
    ensures forall k :: 0 <= k < |Words(snapshot, skipEchoLen)| ==> !Contains(Words(snapshot, skipEchoLen)[k], " ")
  {
    JoinSplit(Strip(SliceFrom(snapshot, skipEchoLen)), " ");
  }

  /** The loop's state: the cursor `pre` (words already written) and what was written so far. */
  datatype Emitter = Emitter(pre: nat, printed: seq<string>)

  /** The chunk written for a snapshot whose words before index `pre` are already out:
      the words from `pre` up to but not including the last, each followed by a space. */
  function Emission(words: seq<string>, pre: nat): (chunk: string)
    requires pre < |words| - 1
    ensures chunk == Spaced(words[pre..|words| - 1])
  {
    JoinSpaced(words[pre..|words| - 1]);
    Join(" ", words[pre..|words| - 1]) + " "
  }

  /** One pass of the loop body on a snapshot's words. */
  function Advance(e: Emitter, words: seq<string>): (r: Emitter)
    requires |words| >= 1
    ensures r.pre == if |words| - 1 > e.pre then |words| - 1 else e.pre
    ensures r.pre == e.pre ==> r.printed == e.printed
    ensures r.pre > e.pre ==> r.printed == e.printed + [Spaced(words[e.pre..r.pre])]
  {
    var now := |words| - 1;
    if now > e.pre then Emitter(now, e.printed + [Emission(words, e.pre)]) else e
  }

  /** The word lists of all snapshots of a stream, in order. */
  function Snapshots(stream: seq<string>, skipEchoLen: int): (lists: seq<seq<string>>)
    ensures |lists| == |stream|
    ensures NonEmpty(lists)
    decreases |stream|
  {
    if stream == [] then []
    else Snapshots(stream[..|stream| - 1], skipEchoLen) + [Words(stream[|stream| - 1], skipEchoLen)]
  }

  /** The `k`-th word list is the words of the `k`-th snapshot. */
  lemma {:induction false} SnapshotsAt(stream: seq<string>, skipEchoLen: int, k: nat)
    requires k < |stream|
    ensures Snapshots(stream, skipEchoLen)[k] == Words(stream[k], skipEchoLen)
    decreases |stream|
  {
    if k < |stream| - 1 {
      SnapshotsAt(stream[..|stream| - 1], skipEchoLen, k);
    }
  }

  /** Every word list has at least one word, as `split` guarantees. */
  predicate NonEmpty(lists: seq<seq<string>>) {
    forall k :: 0 <= k < |lists| ==> |lists[k]| >= 1
  }

  /** The loop's state after it has consumed the word lists of a stream's snapshots. */
  function EmitLoop(lists: seq<seq<string>>): Emitter
    requires NonEmpty(lists)
    decreases |lists|
  {
    if lists == [] then Emitter(0, [])
    else Advance(EmitLoop(lists[..|lists| - 1]), lists[|lists| - 1])
  }

  lemma EmitLoopStep(lists: seq<seq<string>>, i: nat)
    requires NonEmpty(lists) && i < |lists|
    ensures EmitLoop(lists[..i + 1]) == Advance(EmitLoop(lists[..i]), lists[i])
  {
    assert lists[..i + 1][..i] == lists[..i];
  }

  /** Everything `stream_output` writes: the loop's chunks, then the words of the last snapshot
      from the cursor on, and a newline. Nothing is written when the stream is empty, because
      the final write fails first. */
  function Printed(stream: seq<string>, skipEchoLen: int): seq<string>
  {
    var lists := Snapshots(stream, skipEchoLen);
    if lists == [] then []
    else
      var e := EmitLoop(lists);
      e.printed + [Join(" ", SliceFrom(lists[|lists| - 1], e.pre)) + "\n"]
  }

  /** `SimpleChatIO.stream_output`: writes the stream word by word and returns the last snapshot
      without the echoed prompt and surrounding whitespace. An empty stream leaves `outputs`
      unbound when the final write reads it. */
  method StreamOutput(stream: seq<string>, skipEchoLen: int) returns (r: Result<string>, printed: seq<string>)
    ensures stream == [] ==> r == Err(UnboundLocalError("outputs"))
    ensures stream != [] ==> r == Ok(Strip(SliceFrom(stream[|stream| - 1], skipEchoLen)))
    ensures printed == Printed(stream, skipEchoLen)
  {
    ghost var lists := Snapshots(stream, skipEchoLen);
    var pre: nat := 0;
    var outputs: Option<seq<string>> := None;
    printed := [];
    for i := 0 to |stream|
      invariant Emitter(pre, printed) == EmitLoop(lists[..i])
      invariant outputs == if i == 0 then None else Some(lists[i - 1])
    {
      var words := Words(stream[i], skipEchoLen);
      SnapshotsAt(stream, skipEchoLen, i);
      EmitLoopStep(lists, i);
      ghost var next := Advance(Emitter(pre, printed), words);
      outputs := Some(words);
      var now := |words| - 1;
      if now > pre {
        printed := printed + [Emission(words, pre)];
        pre := now;
      }
      assert Emitter(pre, printed) == next;
    }
    assert lists[..|stream|] == lists;
    match outputs
    case None =>
      r := Err(UnboundLocalError("outputs"));
    case Some(words) =>
      printed := printed + [Join(" ", SliceFrom(words, pre)) + "\n"];
      WordsRejoin(stream[|stream| - 1], skipEchoLen);
      r := Ok(Join(" ", words));
  }

  /** The cursor never moves back and chunks once written stay written: the loop's state after
      `i` snapshots is contained in its state after `j >= i` snapshots. */
  lemma {:induction false} CursorNeverDecreases(lists: seq<seq<string>>, i: nat, j: nat)
    requires NonEmpty(lists) && i <= j <= |lists|
    ensures EmitLoop(lists[..i]).pre <= EmitLoop(lists[..j]).pre
    ensures EmitLoop(lists[..i]).printed <= EmitLoop(lists[..j]).printed
    decreases j
  {
    if i < j {
      CursorNeverDecreases(lists, i, j - 1);
      assert lists[..j][..j - 1] == lists[..j - 1];
    }
  }

  /** After the loop the cursor is the largest index of a last word among all snapshots
      (or 0): it bounds every snapshot's last index and is reached by one of them. */
  lemma {:induction false} CursorIsLargestLastIndex(lists: seq<seq<string>>)
    requires NonEmpty(lists)
    ensures forall k :: 0 <= k < |lists| ==> |lists[k]| - 1 <= EmitLoop(lists).pre
    ensures EmitLoop(lists).pre == 0 || exists k :: 0 <= k < |lists| && EmitLoop(lists).pre == |lists[k]| - 1
    decreases |lists|
  {
    if lists != [] {
      var init := lists[..|lists| - 1];
      CursorIsLargestLastIndex(init);
      assert forall k :: 0 <= k < |init| ==> init[k] == lists[k];
    }
  }

  /** Inside the loop the last word of a snapshot is never written: the chunk numbered `c` comes
      from some snapshot `k`, and is its words from the cursor as it stood before `k` up to but
      not including its last word. */
  lemma {:induction false} LoopWithholdsLastWord(lists: seq<seq<string>>, c: nat) returns (k: nat)
    requires NonEmpty(lists) && c < |EmitLoop(lists).printed|
    ensures k < |lists| && EmitLoop(lists[..k]).pre < |lists[k]| - 1
    ensures EmitLoop(lists).printed[c] == Emission(lists[k], EmitLoop(lists[..k]).pre)
    decreases |lists|
  {
    var n := |lists|;
    var init := lists[..n - 1];
    assert lists[..n - 1] == init;
    var before := EmitLoop(init);
    assert EmitLoop(lists) == Advance(before, lists[n - 1]);
    if c < |before.printed| {
      k := LoopWithholdsLastWord(init, c);
      assert init[..k] == lists[..k] && init[k] == lists[k];
    } else {
      k := n - 1;
    }
  }

  /** `print(..., end=" ")` of every word of `words`: each followed by one space. */
  function Spaced(words: seq<string>): string
    decreases |words|
  {
    if words == [] then "" else words[0] + " " + Spaced(words[1..])
  }

  lemma {:induction false} JoinSpaced(words: seq<string>)
    requires words != []
    ensures Join(" ", words) + " " == Spaced(words)
    decreases |words|
  {
    if |words| > 1 {
      JoinSpaced(words[1..]);
    }
  }

  lemma {:induction false} SpacedAppend(a: seq<string>, b: seq<string>)
    ensures Spaced(a + b) == Spaced(a) + Spaced(b)
    decreases |a|
  {
    if a == [] {
      assert a + b == b;
    } else {
      assert (a + b)[0] == a[0] && (a + b)[1..] == a[1..] + b;
      SpacedAppend(a[1..], b);
    }
  }

  lemma {:induction false} SpacedThenJoin(a: seq<string>, b: seq<string>)
    requires b != []
    ensures Spaced(a) + Join(" ", b) == Join(" ", a + b)
    decreases |a|
  {
    if a == [] {
      assert a + b == b;
    } else {
      assert (a + b)[0] == a[0] && (a + b)[1..] == a[1..] + b;
      SpacedThenJoin(a[1..], b);
    }
  }

  /** Every snapshot's words extend the previous snapshot's words. */
  predicate WordsGrow(lists: seq<seq<string>>) {
    forall k :: 0 < k < |lists| ==> lists[k - 1] <= lists[k]
  }

  lemma AdvanceSpaced(e: Emitter, words: seq<string>)
    requires |words| >= 1 && e.pre <= |words| - 1
    requires Concat(e.printed) == Spaced(words[..e.pre])
    ensures Advance(e, words).pre == |words| - 1
    ensures Concat(Advance(e, words).printed) == Spaced(words[..|words| - 1])
  {
    var now := |words| - 1;
    if now > e.pre {
      var chunk := Emission(words, e.pre);
      ConcatAppend(e.printed, [chunk]);
      assert Concat([chunk]) == chunk;
      JoinSpaced(words[e.pre..now]);
      SpacedAppend(words[..e.pre], words[e.pre..now]);
      assert words[..e.pre] + words[e.pre..now] == words[..now];
    }
  }

  /** With growing word lists the cursor ends on the last snapshot's last word, and the loop
      has written every word before it, each followed by a space. */
  lemma {:induction false} GrowingLoopState(lists: seq<seq<string>>)
    requires lists != [] && NonEmpty(lists) && WordsGrow(lists)
    ensures EmitLoop(lists).pre == |lists[|lists| - 1]| - 1
    ensures Concat(EmitLoop(lists).printed) == Spaced(lists[|lists| - 1][..EmitLoop(lists).pre])
    decreases |lists|
  {
    var n := |lists|;
    var init := lists[..n - 1];
    var words := lists[n - 1];
    var e := EmitLoop(init);
    if n > 1 {
      assert forall k :: 0 <= k < |init| ==> init[k] == lists[k];
      assert WordsGrow(init);
      GrowingLoopState(init);
      assert lists[n - 2] <= words;
      assert lists[n - 2][..e.pre] == words[..e.pre];
    }
    AdvanceSpaced(e, words);
  }

  /** Once every word before the cursor has been written with a trailing space, the final
      write completes the snapshot's words joined by single spaces, then a newline. */
  lemma FinalWriteCompletes(printed: seq<string>, words: seq<string>, pre: nat)
    requires pre < |words| && Concat(printed) == Spaced(words[..pre])
    ensures Concat(printed + [Join(" ", SliceFrom(words, pre)) + "\n"]) == Join(" ", words) + "\n"
  {
    assert SliceFrom(words, pre) == words[pre..];
    var last := Join(" ", words[pre..]) + "\n";
    ConcatAppend(printed, [last]);
    assert Concat([last]) == last;
    SpacedThenJoin(words[..pre], words[pre..]);
    assert words[..pre] + words[pre..] == words;
  }

  /** With growing word lists, the loop's chunks and the final write together are the last
      snapshot's words joined by single spaces, then a newline. */
  lemma GrowingPrintsAllWords(lists: seq<seq<string>>)
    requires lists != [] && NonEmpty(lists) && WordsGrow(lists)
    ensures var e := EmitLoop(lists); var words := lists[|lists| - 1];
      Concat(e.printed + [Join(" ", SliceFrom(words, e.pre)) + "\n"]) == Join(" ", words) + "\n"
  {
    GrowingLoopState(lists);
    var e := EmitLoop(lists);
    FinalWriteCompletes(e.printed, lists[|lists| - 1], e.pre);
  }

  /** When every snapshot's words extend the previous ones, what `stream_output` writes, put
      together, is exactly the text it returns followed by a newline. */
  lemma StreamEchoesResult(stream: seq<string>, skipEchoLen: int)
    requires stream != [] && WordsGrow(Snapshots(stream, skipEchoLen))
    ensures Concat(Printed(stream, skipEchoLen)) == Strip(SliceFrom(stream[|stream| - 1], skipEchoLen)) + "\n"
  {
    GrowingPrintsAllWords(Snapshots(stream, skipEchoLen));
    SnapshotsAt(stream, skipEchoLen, |stream| - 1);
    WordsRejoin(stream[|stream| - 1], skipEchoLen);
  }

  /** A stripped snapshot without spaces is one word. */
  lemma WordsOfOne(w: string)
    requires Trimmed(w) && !Contains(w, " ")
    ensures Words(w, 0) == [w]
  {
    assert SliceFrom(w, 0) == w;
    StripTrimmed(w);
    SplitWhole(w, " ");
  }

  /** A stripped snapshot splits at its first space into its first word and the words of the rest. */
  lemma WordsOfMore(w: string, rest: string)
    requires w != [] && rest != [] && Trimmed(w) && Trimmed(rest) && !Contains(w, " ")
    ensures Words(w + " " + rest, 0) == [w] + Words(rest, 0)
  {
    LastCharUnique(" ");
    var s := w + " " + rest;
    assert SliceFrom(s, 0) == s;
    assert SliceFrom(rest, 0) == rest;
    assert Trimmed(s);
    StripTrimmed(s);
    StripTrimmed(rest);
    SplitAfter(w, " ", rest);
  }

  lemma WordsOfThree(w1: string, w2: string, w3: string)
    requires w1 != [] && w2 != [] && w3 != []
    requires Trimmed(w1) && Trimmed(w2) && Trimmed(w3)
    requires !Contains(w1, " ") && !Contains(w2, " ") && !Contains(w3, " ")
    ensures Words(w1 + " " + w2 + " " + w3, 0) == [w1, w2, w3]
  {
    WordsOfOne(w3);
    WordsOfMore(w2, w3);
    assert Trimmed(w2 + " " + w3);
    WordsOfMore(w1, w2 + " " + w3);
    assert w1 + " " + (w2 + " " + w3) == w1 + " " + w2 + " " + w3;
  }

  lemma SnapshotsAppend(stream: seq<string>, snapshot: string, skipEchoLen: int)
    ensures Snapshots(stream + [snapshot], skipEchoLen) == Snapshots(stream, skipEchoLen) + [Words(snapshot, skipEchoLen)]
  {
    assert (stream + [snapshot])[..|stream|] == stream;
  }

  lemma WordsOfTwo(w1: string, w2: string)
    requires w1 != [] && w2 != []
    requires Trimmed(w1) && Trimmed(w2)
    requires !Contains(w1, " ") && !Contains(w2, " ")
    ensures Words(w1 + " " + w2, 0) == [w1, w2]
  {
    WordsOfOne(w2);
    WordsOfMore(w1, w2);
  }

  lemma SnapshotsOfThree(w1: string, w2: string, w3: string)
    requires w1 != [] && w2 != [] && w3 != []
    requires Trimmed(w1) && Trimmed(w2) && Trimmed(w3)
    requires !Contains(w1, " ") && !Contains(w2, " ") && !Contains(w3, " ")
    ensures Snapshots([w1, w1 + " " + w2, w1 + " " + w2 + " " + w3], 0) == [[w1], [w1, w2], [w1, w2, w3]]
  {
    var two, three := w1 + " " + w2, w1 + " " + w2 + " " + w3;
    SnapshotsAppend([], w1, 0);
    SnapshotsAppend([w1], two, 0);
    SnapshotsAppend([w1, two], three, 0);
    assert [] + [w1] == [w1] && [w1] + [two] == [w1, two] && [w1, two] + [three] == [w1, two, three];
    WordsOfOne(w1);
    WordsOfTwo(w1, w2);
    WordsOfThree(w1, w2, w3);
  }

  lemma EmitThree(w1: string, w2: string, w3: string)
    ensures EmitLoop([[w1], [w1, w2], [w1, w2, w3]]) == Emitter(2, [w1 + " ", w2 + " "])
  {
    var lists := [[w1], [w1, w2], [w1, w2, w3]];
    assert lists[..1] == [[w1]] && lists[..3] == lists;
    EmitLoopStep(lists, 0);
    EmitLoopStep(lists, 1);
    EmitLoopStep(lists, 2);
    assert lists[1][0..1] == [w1] && lists[2][1..2] == [w2];
    assert Emission(lists[1], 0) == w1 + " ";
    assert Emission(lists[2], 1) == w2 + " ";
  }

  /** Snapshots that grow one word at a time, with nothing to skip, such as "The",
      "The quick", "The quick brown": the loop writes the first two words, each followed by
      a space, and the final write the third word and a newline. */
  lemma ThreeGrowingSnapshots(w1: string, w2: string, w3: string)
    requires w1 != [] && w2 != [] && w3 != []
    requires Trimmed(w1) && Trimmed(w2) && Trimmed(w3)
    requires !Contains(w1, " ") && !Contains(w2, " ") && !Contains(w3, " ")
    ensures Printed([w1, w1 + " " + w2, w1 + " " + w2 + " " + w3], 0) == [w1 + " ", w2 + " ", w3 + "\n"]
  {
    SnapshotsOfThree(w1, w2, w3);
    EmitThree(w1, w2, w3);
    assert SliceFrom([w1, w2, w3], 2) == [w3];
  }
}
