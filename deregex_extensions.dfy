/** The queries of Deregex.cs (static class PatternExtensions). They differ
    from the later RegularPatterns queries in three ways:
    - the only structural check is that End is not declared in the interior;
    - a lone pattern is run against the None sentinel in every query, while
      RangeOf and RangesOf run a longer sequence against End;
    - matches are plain (start, end) ranges. */
module DeregexExtensions {
  import opened Common
  import opened Deregex

  /** The chain the fold builds: each declared pattern continued by the rest,
      the last one continued by the query's sentinel. */
  function Chain(pats: seq<Pat>, k: Sentinel): (c: Cont)
    ensures |pats| > 0 ==> c.Step? && c.head == pats[0]
  {
    if |pats| == 0 then Done(k) else Step(pats[0], Chain(pats[1..], k))
  }

  /** The fold over patterns.Skip(1).Reverse().Skip(1) throws when one of
      the interior positions 1 .. n-2 holds End; position 0 and the last
      position are never inspected. */
  predicate InteriorEnd(pats: seq<Pat>): (b: bool)
    ensures |pats| <= 2 ==> !b
  {
    exists j :: 1 <= j < |pats| - 1 && pats[j].End?
  }

  /** The sentinel RangeOf and RangesOf use: None for a lone pattern, End
      after a longer sequence. */
  function ScanSentinel(pats: seq<Pat>): (k: Sentinel)
    ensures k == NoneSentinel <==> |pats| == 1
  {
    if |pats| == 1 then NoneSentinel else EndSentinel
  }

  /** The fold: reassigns the chain from the last pattern leftwards,
      rejecting an End it meets on the way. */
  method Compile(pats: seq<Pat>, k: Sentinel) returns (res: Result<Cont>)
    requires |pats| >= 2
    ensures res == if InteriorEnd(pats) then Err(EndNotLast) else Ok(Chain(pats, k))
  {
    var n := |pats|;
    var chain := Step(pats[n - 1], Done(k));
    assert pats[n - 1..][1..] == [];
    var i := n - 2;
    while i >= 1
      invariant 0 <= i <= n - 2
      invariant chain == Chain(pats[i + 1..], k)
      invariant forall j :: i < j < n - 1 ==> !pats[j].End?
    {
      if pats[i].End? {
        return Err(EndNotLast);
      }
      assert pats[i..][1..] == pats[i + 1..];
      chain := Step(pats[i], chain);
      i := i - 1;
    }
    res := Ok(Step(pats[0], chain));
  }

  // ---------------------------------------------------------------------
  // Scanning candidate start offsets
  // ---------------------------------------------------------------------

  /** The chain succeeds when started at u. */
  predicate SucceedsAt(str: string, c: Cont, u: nat, e: nat)
    requires e <= |str|
  {
    Invoke(str, c, u, e) > 0
  }

  /** RangeOf's scan: the first start in [s, e) where the chain succeeds,
      with the cursor it reached; (0,0) when there is none. */
  function ScanFirst(str: string, c: Cont, s: nat, e: nat): (r: Span)
    requires e <= |str|
    ensures r.end > 0 ==> s <= r.start < e && Invoke(str, c, r.start, e) == r.end
                          && forall u :: s <= u < r.start ==> !SucceedsAt(str, c, u, e)
    ensures r.end == 0 ==> r.start == 0 && forall u :: s <= u < e ==> !SucceedsAt(str, c, u, e)
    decreases e - s
  {
    if e <= s then Span(0, 0)
    else
      var x := Invoke(str, c, s, e);
      if x > 0 then Span(s, x) else ScanFirst(str, c, s + 1, e)
  }

  /** RangesOf's scan: one range per start in [s, e) where the chain
      succeeds, in increasing order of start. */
  function ScanAll(str: string, c: Cont, s: nat, e: nat): (rs: seq<Span>)
    requires e <= |str|
    ensures forall i :: 0 <= i < |rs| ==>
              s <= rs[i].start < e && Invoke(str, c, rs[i].start, e) == rs[i].end && rs[i].end > 0
    ensures forall i, j :: 0 <= i < j < |rs| ==> rs[i].start < rs[j].start
    decreases e - s
  {
    if e <= s then []
    else
      var x := Invoke(str, c, s, e);
      var rest := ScanAll(str, c, s + 1, e);
      if x > 0 then [Span(s, x)] + rest else rest
  }

  /** RangesOf misses no start where the chain succeeds. */
  lemma {:induction false} ScanAllComplete(str: string, c: Cont, s: nat, e: nat, u: nat)
    requires e <= |str| && s <= u < e && SucceedsAt(str, c, u, e)
    ensures Span(u, Invoke(str, c, u, e)) in ScanAll(str, c, s, e)
    decreases e - s
  {
    if s < u {
      ScanAllComplete(str, c, s + 1, e, u);
    }
  }

  /** One step of RangesOf's scan, from the ranges collected so far. */
  lemma ScanAllExtend(str: string, c: Cont, s0: nat, s: nat, e: nat, found: seq<Span>)
    requires e <= |str| && s < e
    requires ScanAll(str, c, s0, e) == found + ScanAll(str, c, s, e)
    ensures ScanAll(str, c, s0, e) ==
              (if Invoke(str, c, s, e) > 0 then found + [Span(s, Invoke(str, c, s, e))] else found)
              + ScanAll(str, c, s + 1, e)
  {
  }

  lemma {:induction false} ScanFirstHeadsScanAll(str: string, c: Cont, s: nat, e: nat)
    requires e <= |str|
    ensures ScanAll(str, c, s, e) == [] <==> ScanFirst(str, c, s, e) == Span(0, 0)
    ensures ScanAll(str, c, s, e) != [] ==> ScanAll(str, c, s, e)[0] == ScanFirst(str, c, s, e)
    decreases e - s
  {
    if s < e && Invoke(str, c, s, e) <= 0 {
      ScanFirstHeadsScanAll(str, c, s + 1, e);
    }
  }

  // ---------------------------------------------------------------------
  // The queries, as functions of their inputs
  // ---------------------------------------------------------------------

  /** Match(str, range, patterns): anchored at range.Start, sentinel None. */
  function Matches(str: string, range: Span, pats: seq<Pat>): (r: Result<bool>)
    ensures |pats| == 0 ==> r == Ok(false)
    ensures r.Err? <==> InteriorEnd(pats)
    ensures r.Err? ==> r.error == EndNotLast
  {
    if |pats| == 0 then Ok(false)
    else if InteriorEnd(pats) then Err(EndNotLast)
    else Ok(Invoke(str, Chain(pats, NoneSentinel), range.start, Limit(str, range)) > 0)
  }

  /** RangeOf(str, range, patterns): the first match. */
  function FirstRange(str: string, range: Span, pats: seq<Pat>): (r: Result<Span>)
    ensures r.Err? <==> InteriorEnd(pats)
    ensures r.Err? ==> r.error == EndNotLast
    ensures r.Ok? && r.value.end > 0 ==>
              |pats| > 0 && range.start <= r.value.start < Limit(str, range)
    ensures r.Ok? && r.value.end == 0 ==> r.value.start == 0
  {
    if |pats| == 0 then Ok(Span(0, 0))
    else if InteriorEnd(pats) then Err(EndNotLast)
    else Ok(ScanFirst(str, Chain(pats, ScanSentinel(pats)), range.start, Limit(str, range)))
  }

  /** RangesOf(str, range, patterns): every match. */
  function AllRanges(str: string, range: Span, pats: seq<Pat>): (r: Result<seq<Span>>)
    ensures r.Err? <==> InteriorEnd(pats)
    ensures r.Err? ==> r.error == EndNotLast
    ensures r.Ok? ==> forall i :: 0 <= i < |r.value| ==>
              range.start <= r.value[i].start < Limit(str, range) && r.value[i].end > 0
    ensures r.Ok? ==> forall i, j :: 0 <= i < j < |r.value| ==> r.value[i].start < r.value[j].start
  {
    if |pats| == 0 then Ok([])
    else if InteriorEnd(pats) then Err(EndNotLast)
    else Ok(ScanAll(str, Chain(pats, ScanSentinel(pats)), range.start, Limit(str, range)))
  }

  // ---------------------------------------------------------------------
  // What the queries promise
  // ---------------------------------------------------------------------

  lemma {:induction false} ChainShape(pats: seq<Pat>, k: Sentinel)
    requires |pats| > 0
    ensures Terminal(Chain(pats, k)) == k
    ensures LastIsAny(Chain(pats, k)) == pats[|pats| - 1].Any?
    ensures (forall i :: 0 <= i < |pats| ==> !pats[i].None? && !pats[i].End?) ==> Continues(Chain(pats, k))
  {
    if |pats| == 1 {
      assert pats[1..] == [];
    } else {
      ChainShape(pats[1..], k);
      assert pats[1..][|pats| - 2] == pats[|pats| - 1];
      assert (forall i :: 0 <= i < |pats| ==> !pats[i].None? && !pats[i].End?) ==>
             (forall i :: 0 <= i < |pats| - 1 ==> !pats[1..][i].None? && !pats[1..][i].End?);
    }
  }

  /** Match is true only when the chain, run once at range.Start, reached
      exactly the limit, or the end of the source when Any is declared last. */
  lemma MatchConsumesToLimit(str: string, range: Span, pats: seq<Pat>)
    requires |pats| > 0
    requires forall i :: 0 <= i < |pats| ==> !pats[i].None? && !pats[i].End?
    ensures Matches(str, range, pats) == Ok(true) ==>
              Invoke(str, Chain(pats, NoneSentinel), range.start, Limit(str, range))
                == if pats[|pats| - 1].Any? then |str| else Limit(str, range)
  {
    ChainShape(pats, NoneSentinel);
    AnchoredSuccess(str, Chain(pats, NoneSentinel), range.start, Limit(str, range));
  }

  /** Because a lone pattern is scanned against None, every range RangeOf
      finds for it ends exactly at the limit (or, for a lone Any, at the end
      of the source). */
  lemma LoneRangeEndsAtLimit(str: string, range: Span, p: Pat)
    requires !p.None? && !p.End?
    ensures var r := FirstRange(str, range, [p]);
            r.Ok? && (r.value.end > 0 ==> r.value.end == if p.Any? then |str| else Limit(str, range))
  {
    var pats := [p];
    assert pats[1..] == [];
    var c := Step(p, Done(NoneSentinel));
    assert Chain(pats, NoneSentinel) == c;
    var e := Limit(str, range);
    var r := ScanFirst(str, c, range.start, e);
    if r.end > 0 {
      AnchoredSuccess(str, c, r.start, e);
    }
  }

  /** RangesOf's first range is RangeOf's answer, and RangesOf finds
      nothing exactly when RangeOf answers (0,0). */
  lemma RangesOfHeadIsRangeOf(str: string, range: Span, pats: seq<Pat>)
    ensures AllRanges(str, range, pats).Ok? <==> FirstRange(str, range, pats).Ok?
    ensures AllRanges(str, range, pats).Ok? ==>
              var all, first := AllRanges(str, range, pats).value, FirstRange(str, range, pats).value;
              (all == [] <==> first == Span(0, 0)) && (all != [] ==> all[0] == first)
  {
    if |pats| > 0 && !InteriorEnd(pats) {
      ScanFirstHeadsScanAll(str, Chain(pats, ScanSentinel(pats)), range.start, Limit(str, range));
    }
  }

  /** An End in the interior makes every query throw, whatever the source
      text and range; End first or last is accepted. */
  lemma InteriorEndRejected(pats: seq<Pat>, j: nat, str: string, range: Span)
    requires 1 <= j < |pats| - 1 && pats[j].End?
    ensures Matches(str, range, pats) == Err(EndNotLast)
    ensures FirstRange(str, range, pats) == Err(EndNotLast)
    ensures AllRanges(str, range, pats) == Err(EndNotLast)
  {
  }

  // ---------------------------------------------------------------------
  // The queries as the source runs them
  // ---------------------------------------------------------------------

  /** A single pattern is run directly against the sentinel; a longer
      sequence goes through the fold. */
  method Prepare(pats: seq<Pat>, k: Sentinel) returns (res: Result<Cont>)
    requires |pats| >= 1
    ensures res == if InteriorEnd(pats) then Err(EndNotLast) else Ok(Chain(pats, k))
  {
    if |pats| == 1 {
      assert pats[1..] == [];
      return Ok(Step(pats[0], Done(k)));
    }
    res := Compile(pats, k);
  }

  /** RangeOf's loop over candidate starts. */
  method FirstFrom(str: string, chain: Cont, start: nat, length: nat) returns (found: Span)
    requires length <= |str|
    ensures found == ScanFirst(str, chain, start, length)
  {
    var s := start;
    while s < length
      invariant ScanFirst(str, chain, start, length) == ScanFirst(str, chain, s, length)
    {
      var r := Run(str, chain, s, length);
      if r > 0 {
        return Span(s, r);
      }
      s := s + 1;
    }
    return Span(0, 0);
  }

  /** RangesOf's loop over candidate starts, appending every success. */
  method AllFrom(str: string, chain: Cont, start: nat, length: nat) returns (ranges: seq<Span>)
    requires length <= |str|
    ensures ranges == ScanAll(str, chain, start, length)
  {
    ranges := [];
    var s := start;
    while s < length
      invariant ScanAll(str, chain, start, length) == ranges + ScanAll(str, chain, s, length)
    {
      var r := Run(str, chain, s, length);
      ScanAllExtend(str, chain, start, s, length, ranges);
      if r > 0 {
        ranges := ranges + [Span(s, r)];
      }
      s := s + 1;
    }
    assert ranges + [] == ranges;
  }

  method Match(str: string, range: Span, pats: seq<Pat>) returns (res: Result<bool>)
    ensures res == Matches(str, range, pats)
  {
    if |pats| == 0 {
      return Ok(false);
    }
    var length := Limit(str, range);
    var chain := Prepare(pats, NoneSentinel);
    if chain.Err? {
      return Err(chain.error);
    }
    var r := Run(str, chain.value, range.start, length);
    return Ok(r > 0);
  }

  method RangeOf(str: string, range: Span, pats: seq<Pat>) returns (res: Result<Span>)
    ensures res == FirstRange(str, range, pats)
  {
    if |pats| == 0 {
      return Ok(Span(0, 0));
    }
    var length := Limit(str, range);
    var chain := Prepare(pats, if |pats| == 1 then NoneSentinel else EndSentinel);
    if chain.Err? {
      return Err(chain.error);
    }
    var found := FirstFrom(str, chain.value, range.start, length);
    return Ok(found);
  }

  method RangesOf(str: string, range: Span, pats: seq<Pat>) returns (res: Result<seq<Span>>)
    ensures res == AllRanges(str, range, pats)
  {
    var length := Limit(str, range);
    if |pats| == 0 {
      return Ok([]);
    }
    var chain := Prepare(pats, if |pats| == 1 then NoneSentinel else EndSentinel);
    if chain.Err? {
      return Err(chain.error);
    }
    var ranges := AllFrom(str, chain.value, range.start, length);
    return Ok(ranges);
  }
}
