/**
 * The "Time Taken: N ms" label the ROI and seed screens write after a
 * prediction, and the parse their confirm buttons apply to it to recover N.
 */
module TimeLabels {
  import opened Wrappers
  import opened KotlinNum
  import opened Decimal
  import opened Text

  const Prefix := "Time Taken: "
  const Suffix := " ms"

  /** `"Time Taken: $timeTaken ms"` for a Long `timeTaken`. */
  function TimeLabel(t: Int64): (line: string)
    ensures |Prefix| < |line| && line[..|Prefix|] == Prefix
  {
    Prefix + LongToString(t) + Suffix
  }

  /**
   * `text.replace("Time Taken: ", "").replace(" ms", "").toLong()`: None
   * where `toLong` throws NumberFormatException.
   */
  function ParseTimeLabel(text: string): (r: Option<int>)
    ensures r.Some? ==> IsLong(r.value)
  {
    ParseLong(ReplaceAll(ReplaceAll(text, Prefix, ""), Suffix, ""))
  }

  /** Every Long written into the label is read back by the confirm button. */
  lemma TimeLabelRoundTrip(t: Int64)
    ensures ParseTimeLabel(TimeLabel(t)) == Some(t)
  {
    var digits := LongToString(t);
    assert TimeLabel(t) == Prefix + (digits + Suffix);
    ReplaceAllLeading(digits + Suffix, Prefix, "");
    ReplaceAllSkipsPrefix(digits, Suffix, Prefix, "");
    assert ReplaceAll(Suffix, Prefix, "") == Suffix;
    assert ReplaceAll(TimeLabel(t), Prefix, "") == digits + Suffix;
    ReplaceAllSkipsPrefix(digits, Suffix, Suffix, "");
    assert Suffix + [] == Suffix;
    ReplaceAllLeading([], Suffix, "");
    assert ReplaceAll([], Suffix, "") == [];
    assert ReplaceAll(digits + Suffix, Suffix, "") == digits;
    LongRoundTrip(t);
  }

  /** A label with no number in it, such as the screen's text before any prediction, makes `toLong` throw. */
  lemma EmptyLabelRefused()
    ensures ParseTimeLabel("") == None
    ensures ParseTimeLabel(Prefix + Suffix) == None
  {
    ReplaceAllLeading(Suffix, Prefix, "");
    assert ReplaceAll(Suffix, Prefix, "") == Suffix;
    assert ReplaceAll(Prefix + Suffix, Prefix, "") == Suffix;
    ReplaceAllLeading([], Suffix, "");
    assert Suffix + [] == Suffix;
    assert ReplaceAll(Suffix, Suffix, "") == [];
  }
}
