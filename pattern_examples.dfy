/** Worked cases of the RegularPatterns queries, fixing behaviour that the
    code has and a reader might not expect. */
module PatternExamples {
  import opened Common
  import opened RegularPatterns
  import opened PatternExtensions

  /** RangesOf steps by one after a success, so its intervals overlap. */
  lemma RangesOverlap()
    ensures AllRanges("aaa", Span(0, 3), [Text(false, ["aa"])])
              == Ok([StringRange("aaa", 0, 2), StringRange("aaa", 1, 3)])
  {
    var c := Chain([Text(false, ["aa"])], EndSentinel);
    assert c == Step(Text(false, ["aa"]), Done(EndSentinel));
    assert Invoke("aaa", c, 0, 3) == 2;
    assert Invoke("aaa", c, 1, 3) == 3;
    assert Invoke("aaa", c, 2, 3) == 0;
    assert ScanAll("aaa", c, 2, 3) == [];
    assert ScanAll("aaa", c, 1, 3) == [StringRange("aaa", 1, 3)];
    assert ScanAll("aaa", c, 0, 3) == [StringRange("aaa", 0, 2), StringRange("aaa", 1, 3)];
  }

  /** Too many copies abort at a start, yet RangeOf just moves on: the
      abort at 0 and the retry at 1 are both passed over. */
  lemma RepeatAbortThenFound()
    ensures Invoke("ababab", Chain([Repeat(false, "ab", 1, 2)], EndSentinel), 0, 6) == -1
    ensures Invoke("ababab", Chain([Repeat(false, "ab", 1, 2)], EndSentinel), 1, 6) == 0
    ensures FirstRange("ababab", Span(0, 6), [Repeat(false, "ab", 1, 2)])
              == Ok(StringRange("ababab", 2, 6))
  {
    assert [Repeat(false, "ab", 1, 2)][1..] == [];
  }

  /** A success whose cursor is 0 reads as a retry: matching the empty
      literal against the empty source is reported as no match. */
  lemma ZeroCursorIsNoMatch()
    ensures Invoke("", Done(NoneSentinel), 0, 0) == 0
    ensures Invoke("", Step(Text(false, [""]), Done(NoneSentinel)), 0, 0) == 0
    ensures Matches("", Span(0, 0), [Text(false, [""])]) == Ok(false)
    ensures FirstRange("", Span(0, 0), [Text(false, [""])]) == Ok(StringRange("", 0, 0))
  {
  }

  /** A trailing Any reaches the end of the whole source, beyond the limit. */
  lemma AnyEscapesTheLimit()
    ensures Matches("abc", Span(0, 1), [Any]) == Ok(true)
    ensures FirstRange("abc", Span(0, 1), [Text(false, ["a"]), Any]) == Ok(StringRange("abc", 0, 3))
  {
  }

  /** A range that starts past the source: End hands back that start, and
      Match asks only for a positive result. */
  lemma MatchPastTheSource()
    ensures Invoke("abc", Step(End, Done(NoneSentinel)), 5, Limit("abc", Span(5, 10))) == 5
    ensures Matches("abc", Span(5, 10), [End]) == Ok(true)
  {
  }

  /** Match needs the chain to end exactly at the limit, RangeOf does not. */
  lemma MatchIsAnchored()
    ensures Matches("abc", Span(0, 3), [Text(false, ["ab"])]) == Ok(false)
    ensures FirstRange("abc", Span(0, 3), [Text(false, ["ab"])]) == Ok(StringRange("abc", 0, 2))
  {
  }

  /** Text tries its literals in order and backtracks to the next one when
      the continuation does not succeed after the first. */
  lemma TextBacktracksOverAlternatives()
    ensures Matches("ab", Span(0, 2), [Text(false, ["a", "ab"])]) == Ok(true)
  {
  }

  /** Except hands on the cursor it reached inside its last literal. */
  lemma ExceptAdvancesTheCursor()
    ensures ExceptCursor("ab", false, ["ax"], 0, 2) == 1
    ensures Matches("ab", Span(0, 2), [Except(false, ["ax"]), Text(false, ["b"])]) == Ok(true)
    ensures ExceptCursor("ab", false, ["x"], 0, 2) == 0
    ensures Matches("ab", Span(0, 2), [Except(false, ["x"]), Text(false, ["b"])]) == Ok(false)
  {
  }

  /** Repeat counts complete copies but hands on the cursor after a trailing
      partial copy. */
  lemma RepeatConsumesPartialCopy()
    ensures Matches("aba", Span(0, 3), [Repeat(false, "ab", 1, 1)]) == Ok(true)
  {
  }

  /** Position 0 is never inspected: Except directly followed by Any is
      rejected in the interior but accepted at the front. */
  lemma ExceptAnyOnlyRejectedInside()
    ensures Validate([Except(false, ["x"]), Any]) == Pass
    ensures Matches("ab", Span(0, 2), [Except(false, ["x"]), Any]) == Ok(true)
    ensures Validate([Text(false, ["a"]), Except(false, ["x"]), Any]) == Fail(AnyAfterExcept)
  {
  }

  /** Between spans from the end of the previous interval to the start of
      the next match; when there is none its end is 0, before its start. */
  lemma BetweenCases()
    ensures Between(StringRange("ab-ab", 0, 2), [Text(false, ["ab"])]) == Ok(StringRange("ab-ab", 2, 3))
    ensures Between(StringRange("ab-", 0, 2), [Text(false, ["ab"])]) == Ok(StringRange("ab-", 2, 0))
  {
    var c := Chain([Text(false, ["ab"])], EndSentinel);
    assert c == Step(Text(false, ["ab"]), Done(EndSentinel));
    assert Invoke("ab-ab", c, 2, 5) == 0;
    assert Invoke("ab-ab", c, 3, 5) == 5;
    assert Invoke("ab-", c, 2, 3) == 0;
  }
}
