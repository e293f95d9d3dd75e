/** Response extraction in `base_inference`: the decoded model output echoes the prompt, so the
    answer is the text after the first `### Response:` marker, up to the next marker or the end,
    with surrounding whitespace removed. */
module BaseInference {
  import opened Results
  import opened PyStr

  /** The marker that ends the prompt and starts the answer. */
  const ResponseMarker: string := "### Response:"

  /** The marker's last character, ':', occurs nowhere else in it, so two occurrences of the
      marker can never overlap. */
  lemma MarkerSelfDisjoint()
    ensures ResponseMarker != [] && SelfDisjoint(ResponseMarker)
  {
    var m := ResponseMarker;
    assert |m| == 13 && m[12] == ':';
    forall k | 0 <= k < 12 ensures m[k] != m[12] {
      assert m[..12] == "### Response";
      assert m[k] == m[..12][k];
    }
    LastCharUnique(m);
  }

  /** `output.split("### Response:")[1].strip()`: `IndexError` when the marker is absent,
      otherwise a stripped answer that holds no marker. */
  function ExtractResponse(output: string): (r: Result<string>)
    ensures r.Err? <==> !Contains(output, ResponseMarker)
    ensures r.Err? ==> r.error == IndexError
    ensures r.Ok? ==> Trimmed(r.value) && !Contains(r.value, ResponseMarker)
  {
    var parts := Split(output, ResponseMarker);
    if |parts| < 2 then
      Err(IndexError)
    else
      StripContains(parts[1], ResponseMarker);
      Ok(Strip(parts[1]))
  }

  /** The answer is what lies between the first marker and the second. */
  lemma ExtractBetweenMarkers(a: string, t: string, b: string)
    requires !Contains(a, ResponseMarker) && !Contains(t, ResponseMarker)
    ensures ExtractResponse(a + ResponseMarker + t + ResponseMarker + b) == Ok(Strip(t))
  {
    var m := ResponseMarker;
    MarkerSelfDisjoint();
    assert a + m + t + m + b == a + m + (t + m + b);
    SplitAfter(a, m, t + m + b);
    SplitAfter(t, m, b);
  }

  /** With a single marker the answer runs to the end of the output. */
  lemma ExtractToEnd(a: string, t: string)
    requires !Contains(a, ResponseMarker) && !Contains(t, ResponseMarker)
    ensures ExtractResponse(a + ResponseMarker + t) == Ok(Strip(t))
  {
    MarkerSelfDisjoint();
    SplitAfter(a, ResponseMarker, t);
    SplitWhole(t, ResponseMarker);
  }

  /** Whenever the marker occurs, first at index `i`, the answer is the stripped text from just
      after it up to the next marker or the end of the output: `split` agrees with `find`. */
  lemma ExtractAfterFirstMarker(output: string, i: nat)
    requires FindFirst(output, ResponseMarker) == Some(i)
    ensures i + |ResponseMarker| <= |output|
    ensures ExtractResponse(output) == Ok(Strip(BeforeFirst(output[i + |ResponseMarker|..], ResponseMarker)))
  {
    MarkerSelfDisjoint();
    SplitSecondPiece(output, ResponseMarker, i);
  }
}
