/** The queries of RegularPatterns.cs (static class PatternExtensions): the
    right fold of a declared pattern sequence into one continuation chain,
    with its structural checks, and the scans that run the chain at candidate
    start offsets. */
module PatternExtensions {
  import opened Common
  import opened RegularPatterns

  /** A matched interval of a source string (struct StringRange). */
  datatype StringRange = StringRange(content: string, start: nat, end: nat)

  predicate WellFormedPats(pats: seq<Pat>)
  {
    forall i :: 0 <= i < |pats| ==> WellFormedPat(pats[i])
  }

  /** The chain the fold builds: each declared pattern continued by the rest,
      the last one continued by the query's sentinel. */
  function Chain(pats: seq<Pat>, k: Sentinel): (c: Cont)
    ensures WellFormedPats(pats) ==> WellFormed(c)
  {
    if |pats| == 0 then Done(k) else Step(pats[0], Chain(pats[1..], k))
  }

  // ---------------------------------------------------------------------
  // Structural validation
  // ---------------------------------------------------------------------

  /** The fold rejects position i: `End` there, or `Except` followed by `Any`. */
  predicate Misplaced(pats: seq<Pat>, i: nat)
    requires i + 1 < |pats|
  {
    pats[i].End? || (pats[i].Except? && pats[i + 1].Any?)
  }

  /** The exception the fold throws at a misplaced position. */
  function ErrorAt(pats: seq<Pat>, i: nat): (err: ConfigError)
    requires i + 1 < |pats|
  {
    if pats[i].Except? && pats[i + 1].Any? then AnyAfterExcept else EndNotLast
  }

  /** The fold's checks from position i down to position 1, in the order it
      visits them (the Except/Any check before the End check). */
  function CheckFrom(pats: seq<Pat>, i: int): (v: Validation)
    requires i + 1 < |pats|
    ensures v == Fail(EndNotLast) ==> exists j :: 1 <= j <= i && pats[j].End?
    ensures v == Fail(AnyAfterExcept) ==> exists j :: 1 <= j <= i && pats[j].Except? && pats[j + 1].Any?
    ensures i < 1 ==> v == Pass
    decreases i
  {
    if i < 1 then Pass
    else if pats[i].Except? && pats[i + 1].Any? then Fail(AnyAfterExcept)
    else if pats[i].End? then Fail(EndNotLast)
    else CheckFrom(pats, i - 1)
  }

  /** What the fold over patterns.Skip(1).Reverse().Skip(1) decides. */
  function Validate(pats: seq<Pat>): (v: Validation)
    ensures |pats| <= 2 ==> v == Pass
    ensures v == Fail(EndNotLast) ==> exists j :: 1 <= j < |pats| - 1 && pats[j].End?
    ensures v == Fail(AnyAfterExcept) ==>
              exists j :: 1 <= j < |pats| - 1 && pats[j].Except? && pats[j + 1].Any?
  {
    CheckFrom(pats, |pats| - 2)
  }

  lemma {:induction false} CheckFromMeans(pats: seq<Pat>, i: int)
    requires i + 1 < |pats|
    ensures CheckFrom(pats, i).Pass? <==> forall j :: 1 <= j <= i ==> !Misplaced(pats, j)
    ensures CheckFrom(pats, i).Fail? ==>
              exists j :: 1 <= j <= i && Misplaced(pats, j) && CheckFrom(pats, i).error == ErrorAt(pats, j)
                          && forall j' :: j < j' <= i ==> !Misplaced(pats, j')
    decreases i
  {
    if i >= 1 && !Misplaced(pats, i) {
      CheckFromMeans(pats, i - 1);
    }
  }

  /** The fold rejects a sequence exactly when some interior position
      1 .. n-2 is misplaced; position 0 is never inspected, so sequences of
      length at most 2 always pass. The error is the one of the highest
      misplaced position. */
  lemma ValidateMeans(pats: seq<Pat>)
    ensures Validate(pats).Pass? <==> forall j :: 1 <= j < |pats| - 1 ==> !Misplaced(pats, j)
    ensures Validate(pats).Fail? ==>
              exists j :: 1 <= j < |pats| - 1 && Misplaced(pats, j) && Validate(pats).error == ErrorAt(pats, j)
                          && forall j' :: j < j' < |pats| - 1 ==> !Misplaced(pats, j')
    ensures |pats| <= 2 ==> Validate(pats).Pass?
  {
    CheckFromMeans(pats, |pats| - 2);
  }

  /** The fold: reassigns the chain from the last pattern leftwards,
      checking each interior pattern as it goes. */
  method Compile(pats: seq<Pat>, k: Sentinel) returns (res: Result<Cont>)
    requires |pats| >= 2
    ensures res == match Validate(pats) case Pass => Ok(Chain(pats, k)) case Fail(err) => Err(err)
  {
    var n := |pats|;
    var lastPatternWasAny := pats[n - 1].Any?;
    var chain := Step(pats[n - 1], Done(k));
    assert pats[n - 1..][1..] == [];
    var i := n - 2;
    while i >= 1
      invariant 0 <= i <= n - 2
      invariant lastPatternWasAny == pats[i + 1].Any?
      invariant chain == Chain(pats[i + 1..], k)
      invariant Validate(pats) == CheckFrom(pats, i)
    {
      if lastPatternWasAny && pats[i].Except? {
        return Err(AnyAfterExcept);
      }
      lastPatternWasAny := pats[i].Any?;
      if pats[i].End? {
        return Err(EndNotLast);
      }
      assert pats[i..][1..] == pats[i + 1..];
      chain := Step(pats[i], chain);
      i := i - 1;
    }
    res := Ok(Step(pats[0], chain));
  }

  // ---------------------------------------------------------------------
  // Scanning candidate start offsets
  // ---------------------------------------------------------------------

  /** The chain succeeds when started at u. */
  predicate SucceedsAt(str: string, c: Cont, u: nat, e: nat)
    requires e <= |str| && WellFormed(c)
  {
    Invoke(str, c, u, e) > 0
  }

  /** RangeOf's scan: the first start in [s, e) where the chain succeeds,
      with the cursor it reached; (0,0) when there is none. Backtrack and
      abort alike just move on to the next start. */
  function ScanFirst(str: string, c: Cont, s: nat, e: nat): (r: StringRange)
    requires e <= |str| && WellFormed(c)
    ensures r.content == str
    ensures r.end > 0 ==> s <= r.start < e && Invoke(str, c, r.start, e) == r.end
                          && forall u :: s <= u < r.start ==> !SucceedsAt(str, c, u, e)
    ensures r.end == 0 ==> r.start == 0 && forall u :: s <= u < e ==> !SucceedsAt(str, c, u, e)
    decreases e - s
  {
    if e <= s then StringRange(str, 0, 0)
    else
      var x := Invoke(str, c, s, e);
      if x > 0 then StringRange(str, s, x) else ScanFirst(str, c, s + 1, e)
  }

  /** RangesOf's scan: one interval per start in [s, e) where the chain
      succeeds, in increasing order of start. */
  function ScanAll(str: string, c: Cont, s: nat, e: nat): (rs: seq<StringRange>)
    requires e <= |str| && WellFormed(c)
    ensures forall i :: 0 <= i < |rs| ==>
              rs[i].content == str && s <= rs[i].start < e && Invoke(str, c, rs[i].start, e) == rs[i].end && rs[i].end > 0
    ensures forall i, j :: 0 <= i < j < |rs| ==> rs[i].start < rs[j].start
    decreases e - s
  {
    if e <= s then []
    else
      var x := Invoke(str, c, s, e);
      var rest := ScanAll(str, c, s + 1, e);
      if x > 0 then [StringRange(str, s, x)] + rest else rest
  }

  /** RangesOf misses no start: every start in [s, e) where the chain
      succeeds contributes its interval. */
  lemma {:induction false} ScanAllComplete(str: string, c: Cont, s: nat, e: nat, u: nat)
    requires e <= |str| && WellFormed(c) && s <= u < e && SucceedsAt(str, c, u, e)
    ensures StringRange(str, u, Invoke(str, c, u, e)) in ScanAll(str, c, s, e)
    decreases e - s
  {
    if s < u {
      ScanAllComplete(str, c, s + 1, e, u);
    }
  }

  /** One step of RangesOf's scan, from the intervals collected so far. */
  lemma ScanAllExtend(str: string, c: Cont, s0: nat, s: nat, e: nat, found: seq<StringRange>)
    requires e <= |str| && WellFormed(c) && s < e
    requires ScanAll(str, c, s0, e) == found + ScanAll(str, c, s, e)
    ensures ScanAll(str, c, s0, e) ==
              (if Invoke(str, c, s, e) > 0 then found + [StringRange(str, s, Invoke(str, c, s, e))] else found)
              + ScanAll(str, c, s + 1, e)
  {
  }

  // ---------------------------------------------------------------------
  // The queries, as functions of their inputs
  // ---------------------------------------------------------------------

  /** Match(str, range, patterns): anchored at range.Start, sentinel None. */
  function Matches(str: string, range: Span, pats: seq<Pat>): (r: Result<bool>)
    requires WellFormedPats(pats)
    ensures |pats| == 0 ==> r == Ok(false)
    ensures r.Err? <==> |pats| > 0 && Validate(pats).Fail?
    ensures r.Err? ==> r.error == Validate(pats).error
  {
    if |pats| == 0 then Ok(false)
    else
      match Validate(pats)
      case Fail(err) => Err(err)
      case Pass => Ok(Invoke(str, Chain(pats, NoneSentinel), range.start, Limit(str, range)) > 0)
  }

  /** RangeOf(str, range, patterns): first match, sentinel End. */
  function FirstRange(str: string, range: Span, pats: seq<Pat>): (r: Result<StringRange>)
    requires WellFormedPats(pats)
    ensures r.Err? <==> |pats| > 0 && Validate(pats).Fail?
    ensures r.Err? ==> r.error == Validate(pats).error
    ensures r.Ok? ==> r.value.content == str
    ensures r.Ok? && r.value.end > 0 ==>
              |pats| > 0 && range.start <= r.value.start < Limit(str, range)
    ensures r.Ok? && r.value.end == 0 ==> r.value.start == 0
  {
    if |pats| == 0 then Ok(StringRange(str, 0, 0))
    else
      match Validate(pats)
      case Fail(err) => Err(err)
      case Pass => Ok(ScanFirst(str, Chain(pats, EndSentinel), range.start, Limit(str, range)))
  }

  /** RangesOf(str, range, patterns): every match, sentinel End. */
  function AllRanges(str: string, range: Span, pats: seq<Pat>): (r: Result<seq<StringRange>>)
    requires WellFormedPats(pats)
    ensures r.Err? <==> |pats| > 0 && Validate(pats).Fail?
    ensures r.Err? ==> r.error == Validate(pats).error
    ensures r.Ok? ==> forall i :: 0 <= i < |r.value| ==>
              r.value[i].content == str && range.start <= r.value[i].start < Limit(str, range) && r.value[i].end > 0
    ensures r.Ok? ==> forall i, j :: 0 <= i < j < |r.value| ==> r.value[i].start < r.value[j].start
  {
    if |pats| == 0 then Ok([])
    else
      match Validate(pats)
      case Fail(err) => Err(err)
      case Pass => Ok(ScanAll(str, Chain(pats, EndSentinel), range.start, Limit(str, range)))
  }

  /** Between(this, patterns): from the end of `a` to the start of the next
      match searched from there to the end of the content. */
  function Between(a: StringRange, pats: seq<Pat>): (r: Result<StringRange>)
    requires WellFormedPats(pats)
    ensures r.Err? <==> |pats| > 0 && Validate(pats).Fail?
    ensures r.Ok? ==> r.value.content == a.content && r.value.start == a.end
    ensures r.Ok? && |pats| > 0 ==>
              var c, n := Chain(pats, EndSentinel), |a.content|;
              (a.end <= r.value.end < n && SucceedsAt(a.content, c, r.value.end, n)
                 && forall u :: a.end <= u < r.value.end ==> !SucceedsAt(a.content, c, u, n))
              || (r.value.end == 0 && forall u :: a.end <= u < n ==> !SucceedsAt(a.content, c, u, n))
    ensures r.Ok? && |pats| == 0 ==> r.value.end == 0
  {
    match FirstRange(a.content, Span(a.end, |a.content|), pats)
    case Err(err) => Err(err)
    case Ok(found) => Ok(StringRange(a.content, a.end, found.start))
  }

  // ---------------------------------------------------------------------
  // What the queries promise
  // ---------------------------------------------------------------------

  /** The fold ends in the query's sentinel; the continuation it hands to
      the pattern declared at position i is that sentinel exactly when i is
      the last position, which is the test Any's shortcut makes (:41). */
  lemma {:induction false} ChainShape(pats: seq<Pat>, k: Sentinel)
    requires |pats| > 0
    ensures Terminal(Chain(pats, k)) == k
    ensures forall i :: 0 <= i < |pats| ==>
              Chain(pats[i..], k) == Step(pats[i], Chain(pats[i + 1..], k))
              && (Chain(pats[i..], k).next.Done? <==> i == |pats| - 1)
    ensures LastIsAny(Chain(pats, k)) == pats[|pats| - 1].Any?
    ensures (forall i :: 0 <= i < |pats| ==> !pats[i].None? && !pats[i].End?) ==> Continues(Chain(pats, k))
  {
    forall i | 0 <= i < |pats|
      ensures Chain(pats[i..], k) == Step(pats[i], Chain(pats[i + 1..], k))
      ensures Chain(pats[i..], k).next.Done? <==> i == |pats| - 1
    {
      assert pats[i..][0] == pats[i] && pats[i..][1..] == pats[i + 1..];
    }
    if |pats| == 1 {
      assert pats[1..] == [];
    } else {
      ChainShape(pats[1..], k);
      assert pats[1..][|pats| - 2] == pats[|pats| - 1];
      assert (forall i :: 0 <= i < |pats| ==> !pats[i].None? && !pats[i].End?) ==>
             (forall i :: 0 <= i < |pats| - 1 ==> !pats[1..][i].None? && !pats[1..][i].End?);
    }
  }

  /** Match is true only when the chain, run once at range.Start, reached
      exactly the limit min(|str|, range.End), or, when Any is declared last,
      the end of the whole source. */
  lemma MatchConsumesToLimit(str: string, range: Span, pats: seq<Pat>)
    requires WellFormedPats(pats) && |pats| > 0
    requires forall i :: 0 <= i < |pats| ==> !pats[i].None? && !pats[i].End?
    ensures Matches(str, range, pats) == Ok(true) ==>
              Invoke(str, Chain(pats, NoneSentinel), range.start, Limit(str, range))
                == if pats[|pats| - 1].Any? then |str| else Limit(str, range)
  {
    ChainShape(pats, NoneSentinel);
    AnchoredSuccess(str, Chain(pats, NoneSentinel), range.start, Limit(str, range));
  }

  lemma {:induction false} ScanFirstHeadsScanAll(str: string, c: Cont, s: nat, e: nat)
    requires e <= |str| && WellFormed(c)
    ensures ScanAll(str, c, s, e) == [] <==> ScanFirst(str, c, s, e) == StringRange(str, 0, 0)
    ensures ScanAll(str, c, s, e) != [] ==> ScanAll(str, c, s, e)[0] == ScanFirst(str, c, s, e)
    decreases e - s
  {
    if s < e && Invoke(str, c, s, e) <= 0 {
      ScanFirstHeadsScanAll(str, c, s + 1, e);
    }
  }

  /** RangesOf's first interval is RangeOf's answer, and RangesOf finds
      nothing exactly when RangeOf answers (0,0). */
  lemma RangesOfHeadIsRangeOf(str: string, range: Span, pats: seq<Pat>)
    requires WellFormedPats(pats)
    ensures AllRanges(str, range, pats).Ok? <==> FirstRange(str, range, pats).Ok?
    ensures AllRanges(str, range, pats).Ok? ==>
              var all, first := AllRanges(str, range, pats).value, FirstRange(str, range, pats).value;
              (all == [] <==> first == StringRange(str, 0, 0)) && (all != [] ==> all[0] == first)
  {
    if |pats| > 0 && Validate(pats).Pass? {
      ScanFirstHeadsScanAll(str, Chain(pats, EndSentinel), range.start, Limit(str, range));
    }
  }

  /** A misplaced interior pattern makes every query fail with the fold's
      error, whatever the source text and range: nothing is scanned. */
  lemma RejectedBeforeScanning(pats: seq<Pat>, j: nat, str: string, range: Span, a: StringRange)
    requires WellFormedPats(pats) && 1 <= j < |pats| - 1 && Misplaced(pats, j)
    ensures Validate(pats).Fail?
    ensures Matches(str, range, pats) == Err(Validate(pats).error)
    ensures FirstRange(str, range, pats) == Err(Validate(pats).error)
    ensures AllRanges(str, range, pats) == Err(Validate(pats).error)
    ensures Between(a, pats) == Err(Validate(pats).error)
  {
    ValidateMeans(pats);
  }

  /** `lit` occurs in `str` at position i. */
  predicate Occurs(str: string, lit: string, i: nat)
  {
    i + |lit| <= |str| && str[i..i + |lit|] == lit
  }

  /** With case-sensitive comparison and the whole source as limit, a full
      match of a non-empty literal is an occurrence. */
  lemma FullMatchIsOccurrence(str: string, lit: string, u: nat)
    requires |lit| > 0
    ensures FullMatch(str, false, lit, u, |str|) <==> Occurs(str, lit, u)
  {
  }

  /** RangeOf with one case-sensitive literal over the whole source answers
      the first occurrence [i, i + |lit|), or (0,0) when there is none. */
  lemma TextFindsFirstOccurrence(str: string, lit: string)
    requires |lit| > 0
    ensures var r := FirstRange(str, Span(0, |str|), [Text(false, [lit])]);
            r.Ok? && r.value.content == str &&
            (r.value.end > 0 ==> Occurs(str, lit, r.value.start) && r.value.end == r.value.start + |lit|
                                 && forall i :: 0 <= i < r.value.start ==> !Occurs(str, lit, i)) &&
            (r.value.end == 0 ==> r.value.start == 0 && forall i :: 0 <= i < |str| ==> !Occurs(str, lit, i))
  {
    var pats := [Text(false, [lit])];
    assert pats[1..] == [];
    var c := Step(Text(false, [lit]), Done(EndSentinel));
    assert Chain(pats, EndSentinel) == c;
    forall u: nat
      ensures SucceedsAt(str, c, u, |str|) <==> Occurs(str, lit, u)
      ensures Occurs(str, lit, u) ==> Invoke(str, c, u, |str|) == u + |lit|
    {
      FullMatchIsOccurrence(str, lit, u);
      assert TextAlts(str, false, [lit], 1, Done(EndSentinel), u, |str|) == 0;
      assert Invoke(str, Done(EndSentinel), u + |lit|, |str|) == u + |lit|;
      assert Invoke(str, c, u, |str|) == TextAlts(str, false, [lit], 0, Done(EndSentinel), u, |str|);
    }
    var r := ScanFirst(str, c, 0, |str|);
    assert FirstRange(str, Span(0, |str|), pats) == Ok(r);
    forall i | 0 <= i < (if r.end > 0 then r.start else |str|) ensures !Occurs(str, lit, i) {
      assert !SucceedsAt(str, c, i, |str|);
    }
  }

  // ---------------------------------------------------------------------
  // The queries as the source runs them
  // ---------------------------------------------------------------------

  /** The part every query shares: a single pattern is run directly against
      the sentinel; a longer sequence goes through the fold. */
  method Prepare(pats: seq<Pat>, k: Sentinel) returns (res: Result<Cont>)
    requires |pats| >= 1
    ensures res == match Validate(pats) case Pass => Ok(Chain(pats, k)) case Fail(err) => Err(err)
  {
    if |pats| == 1 {
      assert pats[1..] == [];
      return Ok(Step(pats[0], Done(k)));
    }
    res := Compile(pats, k);
  }

  /** RangeOf's loop over candidate starts. */
  method FirstFrom(str: string, chain: Cont, start: nat, length: nat) returns (found: StringRange)
    requires length <= |str| && WellFormed(chain)
    ensures found == ScanFirst(str, chain, start, length)
  {
    var s := start;
    while s < length
      invariant ScanFirst(str, chain, start, length) == ScanFirst(str, chain, s, length)
    {
      var r := Run(str, chain, s, length);
      if r > 0 {
        return StringRange(str, s, r);
      }
      s := s + 1;
    }
    return StringRange(str, 0, 0);
  }

  /** RangesOf's loop over candidate starts, appending every success. */
  method AllFrom(str: string, chain: Cont, start: nat, length: nat) returns (ranges: seq<StringRange>)
    requires length <= |str| && WellFormed(chain)
    ensures ranges == ScanAll(str, chain, start, length)
  {
    ranges := [];
    var s := start;
    while s < length
      invariant ScanAll(str, chain, start, length) == ranges + ScanAll(str, chain, s, length)
    {
      var r := Run(str, chain, s, length);
      ScanAllExtend(str, chain, start, s, length, ranges);
      if r > 0 {
        ranges := ranges + [StringRange(str, s, r)];
      }
      s := s + 1;
    }
    assert ranges + [] == ranges;
  }

  method Match(str: string, range: Span, pats: seq<Pat>) returns (res: Result<bool>)
    requires WellFormedPats(pats)
    ensures res == Matches(str, range, pats)
  {
    if |pats| == 0 {
      return Ok(false);
    }
    var length := Limit(str, range);
    var chain := Prepare(pats, NoneSentinel);
    if chain.Err? {
      return Err(chain.error);
    }
    var r := Run(str, chain.value, range.start, length);
    return Ok(r > 0);
  }

  method RangeOf(str: string, range: Span, pats: seq<Pat>) returns (res: Result<StringRange>)
    requires WellFormedPats(pats)
    ensures res == FirstRange(str, range, pats)
  {
    if |pats| == 0 {
      return Ok(StringRange(str, 0, 0));
    }
    var length := Limit(str, range);
    var chain := Prepare(pats, EndSentinel);
    if chain.Err? {
      return Err(chain.error);
    }
    var found := FirstFrom(str, chain.value, range.start, length);
    return Ok(found);
  }

  method RangesOf(str: string, range: Span, pats: seq<Pat>) returns (res: Result<seq<StringRange>>)
    requires WellFormedPats(pats)
    ensures res == AllRanges(str, range, pats)
  {
    var length := Limit(str, range);
    if |pats| == 0 {
      return Ok([]);
    }
    var chain := Prepare(pats, EndSentinel);
    if chain.Err? {
      return Err(chain.error);
    }
    var ranges := AllFrom(str, chain.value, range.start, length);
    return Ok(ranges);
  }
}
