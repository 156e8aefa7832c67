/** Worked cases of the Deregex queries. */
module DeregexExamples {
  import opened Common
  import opened Deregex
  import opened DeregexExtensions

  /** A lone pattern is scanned against None, so RangeOf finds only the
      occurrence that ends at the limit; followed by End it finds the first. */
  lemma SentinelSplit()
    ensures FirstRange("abcabc", Span(0, 6), [Text(false, "abc")]) == Ok(Span(3, 6))
    ensures FirstRange("abcabc", Span(0, 6), [Text(false, "abc"), End]) == Ok(Span(0, 3))
  {
    var lone := Chain([Text(false, "abc")], NoneSentinel);
    assert lone == Step(Text(false, "abc"), Done(NoneSentinel));
    assert Invoke("abcabc", lone, 0, 6) == -1;
    assert Invoke("abcabc", lone, 1, 6) == 0;
    assert Invoke("abcabc", lone, 2, 6) == 0;
    assert Invoke("abcabc", lone, 3, 6) == 6;
    var pats := [Text(false, "abc"), End];
    assert pats[1..] == [End] && [End][1..] == [];
    var two := Chain(pats, EndSentinel);
    assert two == Step(Text(false, "abc"), Step(End, Done(EndSentinel)));
    assert Invoke("abcabc", two, 0, 6) == 3;
  }

  /** With ignoreCasing the test is inverted: a character that differs
      passes, one that is equal up to case stops the literal. */
  lemma IgnoreCasingIsInverted()
    ensures Matches("b", Span(0, 1), [Text(true, "a")]) == Ok(true)
    ensures Matches("a", Span(0, 1), [Text(true, "a")]) == Ok(false)
    ensures Matches("A", Span(0, 1), [Text(true, "a")]) == Ok(false)
  {
  }

  /** A literal cut off by the limit still passes. */
  lemma TruncatedLiteralPasses()
    ensures Matches("ab", Span(0, 2), [Text(false, "abc")]) == Ok(true)
  {
  }

  /** Multi walks its literals one after the other with one cursor. */
  lemma MultiWalksInSequence()
    ensures Matches("abcd", Span(0, 4), [Multi(false, ["ab", "cd"])]) == Ok(true)
  {
  }

  /** A literal that breaks leaves the cursor where it broke, and the next
      literal goes on from there: one literal passing is enough. */
  lemma MultiGoesOnAfterABreak()
    ensures Matches("acd", Span(0, 3), [Multi(false, ["ab", "cd"])]) == Ok(true)
  {
  }

  /** When every literal breaks, Multi retries. */
  lemma MultiRetriesWhenAllBreak()
    ensures Invoke("xy", Chain([Multi(false, ["ab", "cd"])], NoneSentinel), 0, 2) == 0
    ensures Matches("xy", Span(0, 2), [Multi(false, ["ab", "cd"])]) == Ok(false)
  {
    assert [Multi(false, ["ab", "cd"])][1..] == [];
  }

  /** A Multi without literals never matches. */
  lemma EmptyMultiNeverMatches(str: string, range: Span, ic: bool)
    ensures Matches(str, range, [Multi(ic, [])]) == Ok(false)
    ensures FirstRange(str, range, [Multi(ic, [])]) == Ok(Span(0, 0))
  {
  }

  /** End is only rejected in the interior: declared first it is accepted
      and, run directly, succeeds at the start without reading anything. */
  lemma EndFirstAccepted()
    ensures Matches("abc", Span(1, 3), [End, Text(false, "zz")]) == Ok(true)
    ensures Matches("abc", Span(0, 3), [Text(false, "a"), End, Text(false, "bc")]) == Err(EndNotLast)
  {
  }
}
