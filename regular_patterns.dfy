/** The pattern algebra of RegularPatterns.cs (struct Pattern).

    A Pattern's logic is a function (str, s, e, continuation) -> int whose
    result reads: > 0 success carrying the next cursor, 0 retry elsewhere,
    < 0 (always -1) hard abort. The source passes continuations as closures;
    here the continuation is the explicit chain `Cont` that the compilers in
    PatternExtensions build by a right fold: the declared patterns in order,
    ending in the sentinel the query chose (Pattern.None or Pattern.End). */
module RegularPatterns {
  import opened Common

  /** The primitive patterns. `None` and `End` are the two sentinels, which
      may also be declared as ordinary elements of a pattern sequence. */
  datatype Pat =
    | None
    | End
    | Any
    | Text(ignoreCasing: bool, texts: seq<string>)
    | Except(ignoreCasing: bool, texts: seq<string>)
    | Repeat(ignoreCasing: bool, text: string, atLeast: int, atMost: int)

  /** A compiled continuation: the rest of the declared sequence, then the sentinel. */
  datatype Cont = Done(sentinel: Sentinel) | Step(head: Pat, next: Cont)

  /** Repeat indexes text[0] before any length check, so its literal must not be empty. */
  predicate WellFormedPat(p: Pat)
  {
    p.Repeat? ==> |p.text| > 0
  }

  predicate WellFormed(c: Cont)
  {
    match c
    case Done(_) => true
    case Step(p, next) => WellFormedPat(p) && WellFormed(next)
  }

  /** How many leading characters of `lit` equal the source from `s` on,
      reading no further than the limit `e`: the value `j` of the inner
      character loop of Text and Except when it stops. */
  function CommonPrefix(str: string, ic: bool, lit: string, s: nat, e: nat): (k: nat)
    requires e <= |str|
    ensures k <= |lit|
    ensures k > 0 ==> s + k <= e
    ensures forall j :: 0 <= j < k ==> SameChar(ic, lit[j], str[s + j])
    ensures k < |lit| && s + k < e ==> !SameChar(ic, lit[k], str[s + k])
    decreases |lit|
  {
    if |lit| == 0 || e <= s || !SameChar(ic, lit[0], str[s]) then 0
    else 1 + CommonPrefix(str, ic, lit[1..], s + 1, e)
  }

  /** The literal lies wholly in [s, e) and equals the source there. */
  predicate FullMatch(str: string, ic: bool, lit: string, s: nat, e: nat)
    requires e <= |str|
  {
    CommonPrefix(str, ic, lit, s, e) == |lit|
  }

  /** The cursor Except hands on: the value its `idx` keeps from the last
      literal it compared, or `s` when it has no literals. */
  function ExceptCursor(str: string, ic: bool, texts: seq<string>, s: nat, e: nat): (idx: nat)
    requires e <= |str|
    ensures s <= idx
    ensures idx == s || idx <= e
  {
    if |texts| == 0 then s else s + CommonPrefix(str, ic, texts[|texts| - 1], s, e)
  }

  /** Where Repeat's scan stops when it started at `start` and has reached `p`:
      the first position whose character differs from the literal read
      cyclically, or the limit. */
  function RepeatStop(str: string, ic: bool, text: string, start: nat, p: nat, e: nat): (stop: nat)
    requires e <= |str| && |text| > 0 && start <= p
    ensures p <= stop
    ensures stop == p || stop <= e
    ensures stop < e ==> !SameChar(ic, text[(stop - start) % |text|], str[stop])
    ensures forall q :: p <= q < stop ==> SameChar(ic, text[(q - start) % |text|], str[q])
    decreases e - p
  {
    if e <= p || !SameChar(ic, text[(p - start) % |text|], str[p]) then p
    else RepeatStop(str, ic, text, start, p + 1, e)
  }

  /** Repeat's loop as it runs: `j` indexes the literal, `count` is the
      number of complete copies so far and `p` the cursor. The result is the
      cursor where the loop stops and the final count. */
  function RepeatScan(str: string, ic: bool, text: string, j: nat, count: nat, p: nat, e: nat): (w: (nat, nat))
    requires e <= |str| && j < |text|
    ensures p <= w.0 && (w.0 == p || w.0 <= e)
    ensures count <= w.1
    decreases e - p
  {
    if e <= p || !SameChar(ic, text[j], str[p]) then (p, count)
    else if j + 1 == |text| then RepeatScan(str, ic, text, 0, count + 1, p + 1, e)
    else RepeatScan(str, ic, text, j + 1, count, p + 1, e)
  }

  /** From any point of Repeat's loop where the distance scanned is `count`
      complete copies plus `j` characters, the loop stops where the literal
      read cyclically first mismatches, and the count it reports is the
      number of complete copies up to there. */
  lemma {:induction false} RepeatScanAgrees(str: string, ic: bool, text: string, start: nat, j: nat, count: nat, p: nat, e: nat)
    requires e <= |str| && j < |text| && start <= p
    requires p - start == count * |text| + j
    ensures RepeatScan(str, ic, text, j, count, p, e).0 == RepeatStop(str, ic, text, start, p, e)
    ensures RepeatScan(str, ic, text, j, count, p, e).1 == (RepeatStop(str, ic, text, start, p, e) - start) / |text|
    decreases e - p
  {
    RepeatStopStep(str, ic, text, start, j, count, p, e);
    if p < e && SameChar(ic, text[j], str[p]) {
      if j + 1 == |text| {
        MulSucc(count, |text|);
        RepeatScanAgrees(str, ic, text, start, 0, count + 1, p + 1, e);
      } else {
        RepeatScanAgrees(str, ic, text, start, j + 1, count, p + 1, e);
      }
    } else {
      DivMod(count, |text|, j);
    }
  }

  /** One step of RepeatStop, with the literal's index given as the
      remainder `j` of the distance scanned. */
  lemma RepeatStopStep(str: string, ic: bool, text: string, start: nat, j: nat, count: nat, p: nat, e: nat)
    requires e <= |str| && j < |text| && start <= p
    requires p - start == count * |text| + j
    ensures RepeatStop(str, ic, text, start, p, e) ==
              if e <= p || !SameChar(ic, text[j], str[p]) then p else RepeatStop(str, ic, text, start, p + 1, e)
  {
    DivMod(count, |text|, j);
  }

  /** What Repeat counts from `s`: it stops at RepeatStop and counts the
      complete copies of the literal in [s, stop), so a trailing partial
      copy is scanned but not counted. */
  lemma RepeatCounts(str: string, ic: bool, text: string, s: nat, e: nat)
    requires e <= |str| && |text| > 0
    ensures var w, stop := RepeatScan(str, ic, text, 0, 0, s, e), RepeatStop(str, ic, text, s, s, e);
            w.0 == stop && w.1 * |text| <= stop - s < (w.1 + 1) * |text|
  {
    RepeatScanAgrees(str, ic, text, s, 0, 0, s, e);
    DivBounds(RepeatStop(str, ic, text, s, s, e) - s, |text|);
  }

  lemma DivBounds(n: nat, d: nat)
    requires d > 0
    ensures (n / d) * d <= n < (n / d + 1) * d
  {
    var q, m := n / d, n % d;
    assert n == q * d + m && 0 <= m < d;
    assert (q + 1) * d == q * d + d;
  }

  /** Invoking a compiled continuation at cursor `s` with limit `e`: the
      logic of its head pattern, given the rest of the chain as continuation. */
  function Invoke(str: string, c: Cont, s: nat, e: nat): (r: int)
    requires e <= |str| && WellFormed(c)
    ensures -1 <= r
    decreases c, 0, 0
  {
    match c
    case Done(k) => SentinelLogic(k, s, e)
    case Step(p, next) =>
      match p
      case None => NoneLogic(s, e)
      case End => EndLogic(s)
      case Any =>
        // the continuation is Pattern.None or Pattern.End exactly when Any is last
        if next.Done? then |str| else AnyScan(str, next, s, e)
      case Text(ic, texts) => TextAlts(str, ic, texts, 0, next, s, e)
      case Except(ic, texts) =>
        if exists k :: 0 <= k < |texts| && FullMatch(str, ic, texts[k], s, e) then -1
        else Invoke(str, next, ExceptCursor(str, ic, texts, s, e), e)
      case Repeat(ic, text, lo, hi) =>
        var w := RepeatScan(str, ic, text, 0, 0, s, e);
        if lo <= w.1 <= hi then Invoke(str, next, w.0, e)
        else if w.1 == 0 then 0
        else -1
  }

  /** Any's scan: the continuation at s, s+1, ..., e-1 until one decides. */
  function AnyScan(str: string, next: Cont, s: nat, e: nat): (r: int)
    requires e <= |str| && WellFormed(next)
    ensures -1 <= r
    decreases next, 1, e - s
  {
    if e <= s then 0
    else
      var x := Invoke(str, next, s, e);
      if x > 0 then x
      else if x < 0 then -1
      else AnyScan(str, next, s + 1, e)
  }

  /** Text's alternatives, from the k-th literal on. */
  function TextAlts(str: string, ic: bool, texts: seq<string>, k: nat, next: Cont, s: nat, e: nat): (r: int)
    requires e <= |str| && WellFormed(next) && k <= |texts|
    ensures 0 <= r
    decreases next, 1, |texts| - k
  {
    if k == |texts| then 0
    else if FullMatch(str, ic, texts[k], s, e) && Invoke(str, next, s + |texts[k]|, e) > 0 then
      Invoke(str, next, s + |texts[k]|, e)
    else TextAlts(str, ic, texts, k + 1, next, s, e)
  }

  /** A Text alternative that is taken: the literal matches and the
      continuation after it succeeds. */
  predicate Accepts(str: string, ic: bool, lit: string, next: Cont, s: nat, e: nat)
    requires e <= |str| && WellFormed(next)
  {
    FullMatch(str, ic, lit, s, e) && Invoke(str, next, s + |lit|, e) > 0
  }

  // ---------------------------------------------------------------------
  // What the primitives decide.
  // ---------------------------------------------------------------------

  /** A full match of `lit` at `s` is exactly: the literal fits below the limit
      (or is empty) and every character compares equal. */
  lemma FullMatchMeans(str: string, ic: bool, lit: string, s: nat, e: nat)
    requires e <= |str|
    ensures FullMatch(str, ic, lit, s, e) <==>
              |lit| == 0 || (s + |lit| <= e && forall j :: 0 <= j < |lit| ==> SameChar(ic, lit[j], str[s + j]))
  {
  }

  /** When Any's scan reports a decision, it is the continuation's decision at
      the first position in [s, e) where the continuation does not retry: its
      success unchanged, or -1 for any abort. */
  lemma {:induction false} AnyScanDecided(str: string, next: Cont, s: nat, e: nat) returns (t: nat)
    requires e <= |str| && WellFormed(next)
    requires AnyScan(str, next, s, e) != 0
    ensures s <= t < e
    ensures forall u :: s <= u < t ==> Invoke(str, next, u, e) == 0
    ensures Invoke(str, next, t, e) != 0
    ensures AnyScan(str, next, s, e) == if Invoke(str, next, t, e) > 0 then Invoke(str, next, t, e) else -1
    decreases e - s
  {
    AnyScanStep(str, next, s, e);
    if Invoke(str, next, s, e) != 0 {
      t := s;
    } else {
      t := AnyScanDecided(str, next, s + 1, e);
      forall u | s <= u < t
        ensures Invoke(str, next, u, e) == 0
      {
        if u > s {
          assert s + 1 <= u < t;
        }
      }
    }
  }

  /** Any's scan retries (0) exactly when the continuation retries at every
      position of [s, e); it never tries the continuation at `e` itself. */
  lemma {:induction false} AnyScanExhausted(str: string, next: Cont, s: nat, e: nat)
    requires e <= |str| && WellFormed(next)
    ensures AnyScan(str, next, s, e) == 0 <==> forall u :: s <= u < e ==> Invoke(str, next, u, e) == 0
    decreases e - s
  {
    if s < e {
      AnyScanStep(str, next, s, e);
      AnyScanExhausted(str, next, s + 1, e);
      if Invoke(str, next, s, e) == 0 {
        if forall u :: s + 1 <= u < e ==> Invoke(str, next, u, e) == 0 {
          forall u | s <= u < e
            ensures Invoke(str, next, u, e) == 0
          {
            if u > s {
              assert s + 1 <= u < e;
            }
          }
        }
      } else {
        assert AnyScan(str, next, s, e) != 0;
      }
    }
  }

  /** One step of Any's scan. */
  lemma AnyScanStep(str: string, next: Cont, s: nat, e: nat)
    requires e <= |str| && WellFormed(next) && s < e
    ensures var x := Invoke(str, next, s, e);
            AnyScan(str, next, s, e) == if x > 0 then x else if x < 0 then -1 else AnyScan(str, next, s + 1, e)
  {
  }

  /** A positive result of Text is the continuation's result after the first
      literal, in declared order, that matches and whose continuation succeeds. */
  lemma {:induction false} TextAltsTaken(str: string, ic: bool, texts: seq<string>, k: nat, next: Cont, s: nat, e: nat)
    returns (q: nat)
    requires e <= |str| && WellFormed(next) && k <= |texts|
    requires TextAlts(str, ic, texts, k, next, s, e) > 0
    ensures k <= q < |texts|
    ensures Accepts(str, ic, texts[q], next, s, e)
    ensures forall q' :: k <= q' < q ==> !Accepts(str, ic, texts[q'], next, s, e)
    ensures TextAlts(str, ic, texts, k, next, s, e) == Invoke(str, next, s + |texts[q]|, e)
    decreases |texts| - k
  {
    TextAltsStep(str, ic, texts, k, next, s, e);
    if Accepts(str, ic, texts[k], next, s, e) {
      q := k;
    } else {
      q := TextAltsTaken(str, ic, texts, k + 1, next, s, e);
    }
  }

  /** Text takes the k-th literal when it matches and its continuation succeeds. */
  lemma TextAltsTake(str: string, ic: bool, texts: seq<string>, k: nat, next: Cont, s: nat, e: nat)
    requires e <= |str| && WellFormed(next) && k < |texts|
    requires Accepts(str, ic, texts[k], next, s, e)
    ensures TextAlts(str, ic, texts, k, next, s, e) == Invoke(str, next, s + |texts[k]|, e)
  {
    TextAltsStep(str, ic, texts, k, next, s, e);
  }

  /** Text goes on to the next literal otherwise. */
  lemma TextAltsSkip(str: string, ic: bool, texts: seq<string>, k: nat, next: Cont, s: nat, e: nat)
    requires e <= |str| && WellFormed(next) && k < |texts|
    requires !Accepts(str, ic, texts[k], next, s, e)
    ensures TextAlts(str, ic, texts, k, next, s, e) == TextAlts(str, ic, texts, k + 1, next, s, e)
  {
    TextAltsStep(str, ic, texts, k, next, s, e);
  }

  /** One step of Text's alternatives. */
  lemma TextAltsStep(str: string, ic: bool, texts: seq<string>, k: nat, next: Cont, s: nat, e: nat)
    requires e <= |str| && WellFormed(next) && k < |texts|
    ensures TextAlts(str, ic, texts, k, next, s, e) ==
              if Accepts(str, ic, texts[k], next, s, e) then Invoke(str, next, s + |texts[k]|, e)
              else TextAlts(str, ic, texts, k + 1, next, s, e)
  {
  }

  /** Text returns 0 exactly when no literal is taken; in particular it never
      aborts, even where the continuation does. */
  lemma {:induction false} TextAltsRejected(str: string, ic: bool, texts: seq<string>, k: nat, next: Cont, s: nat, e: nat)
    requires e <= |str| && WellFormed(next) && k <= |texts|
    ensures TextAlts(str, ic, texts, k, next, s, e) == 0 <==>
              forall q :: k <= q < |texts| ==> !Accepts(str, ic, texts[q], next, s, e)
    decreases |texts| - k
  {
    if k < |texts| {
      TextAltsRejected(str, ic, texts, k + 1, next, s, e);
    }
  }

  /** Every outcome is -1, 0 or a cursor in [s, |str|]: a success never moves
      backwards and never leaves the source. */
  lemma {:induction false} InvokeBounds(str: string, c: Cont, s: nat, e: nat)
    requires e <= |str| && WellFormed(c) && s <= |str|
    ensures Invoke(str, c, s, e) <= |str|
    ensures Invoke(str, c, s, e) > 0 ==> s <= Invoke(str, c, s, e)
    decreases c, 1
  {
    match c
    case Done(_) =>
    case Step(p, next) =>
      match p
      case None =>
      case End =>
      case Any =>
        if !next.Done? && AnyScan(str, next, s, e) > 0 {
          assert Invoke(str, c, s, e) == AnyScan(str, next, s, e);
          var t := AnyScanDecided(str, next, s, e);
          InvokeBounds(str, next, t, e);
        }
      case Text(ic, texts) =>
        TextBounds(str, c, s, e);
      case Except(ic, texts) =>
        ExceptBounds(str, c, s, e);
      case Repeat(ic, text, lo, hi) =>
        RepeatBounds(str, c, s, e);
  }

  lemma {:induction false} TextBounds(str: string, c: Cont, s: nat, e: nat)
    requires e <= |str| && WellFormed(c) && s <= |str| && c.Step? && c.head.Text?
    ensures Invoke(str, c, s, e) <= |str|
    ensures Invoke(str, c, s, e) > 0 ==> s <= Invoke(str, c, s, e)
    decreases c, 0
  {
    var Text(ic, texts) := c.head;
    if TextAlts(str, ic, texts, 0, c.next, s, e) > 0 {
      var q := TextAltsTaken(str, ic, texts, 0, c.next, s, e);
      InvokeBounds(str, c.next, s + |texts[q]|, e);
    }
  }

  lemma {:induction false} ExceptBounds(str: string, c: Cont, s: nat, e: nat)
    requires e <= |str| && WellFormed(c) && s <= |str| && c.Step? && c.head.Except?
    ensures Invoke(str, c, s, e) <= |str|
    ensures Invoke(str, c, s, e) > 0 ==> s <= Invoke(str, c, s, e)
    decreases c, 0
  {
    var Except(ic, texts) := c.head;
    InvokeBounds(str, c.next, ExceptCursor(str, ic, texts, s, e), e);
  }

  lemma {:induction false} RepeatBounds(str: string, c: Cont, s: nat, e: nat)
    requires e <= |str| && WellFormed(c) && s <= |str| && c.Step? && c.head.Repeat?
    ensures Invoke(str, c, s, e) <= |str|
    ensures Invoke(str, c, s, e) > 0 ==> s <= Invoke(str, c, s, e)
    decreases c, 0
  {
    var Repeat(ic, text, lo, hi) := c.head;
    InvokeBounds(str, c.next, RepeatScan(str, ic, text, 0, 0, s, e).0, e);
  }

  /** Every element of the chain hands control on to its continuation
      (no None or End declared inside the sequence). */
  predicate Continues(c: Cont)
  {
    match c
    case Done(_) => true
    case Step(p, next) => !p.None? && !p.End? && Continues(next)
  }

  /** The sentinel at the end of the chain. */
  function Terminal(c: Cont): (k: Sentinel)
  {
    match c
    case Done(k) => k
    case Step(_, next) => Terminal(next)
  }

  /** The last declared element of the chain is Any. */
  predicate LastIsAny(c: Cont)
  {
    match c
    case Done(_) => false
    case Step(p, next) => if next.Done? then p.Any? else LastIsAny(next)
  }

  /** Under the None sentinel a chain can only succeed by consuming exactly
      up to the limit, unless a trailing Any short-circuits to the end of the
      whole source (past the limit when the limit is smaller). */
  lemma {:induction false} AnchoredSuccess(str: string, c: Cont, s: nat, e: nat)
    requires e <= |str| && WellFormed(c) && Continues(c) && Terminal(c) == NoneSentinel
    ensures Invoke(str, c, s, e) > 0 ==> Invoke(str, c, s, e) == if LastIsAny(c) then |str| else e
    decreases c
  {
    match c
    case Done(_) =>
    case Step(p, next) =>
      match p
      case None =>
      case End =>
      case Any =>
        if !next.Done? && AnyScan(str, next, s, e) > 0 {
          var t := AnyScanDecided(str, next, s, e);
          AnchoredSuccess(str, next, t, e);
        }
      case Text(ic, texts) =>
        if TextAlts(str, ic, texts, 0, next, s, e) > 0 {
          var q := TextAltsTaken(str, ic, texts, 0, next, s, e);
          AnchoredSuccess(str, next, s + |texts[q]|, e);
        }
      case Except(ic, texts) =>
        AnchoredSuccess(str, next, ExceptCursor(str, ic, texts, s, e), e);
      case Repeat(ic, text, lo, hi) =>
        AnchoredSuccess(str, next, RepeatScan(str, ic, text, 0, 0, s, e).0, e);
  }

  // ---------------------------------------------------------------------
  // The pattern logic as the source runs it: loops over local cursors.
  // ---------------------------------------------------------------------

  /** The inner character loop shared by Text and Except. */
  method MatchedLength(str: string, ic: bool, text: string, s: nat, e: nat) returns (j: nat)
    requires e <= |str|
    ensures j == CommonPrefix(str, ic, text, s, e)
  {
    j := 0;
    var idx := s;
    while j < |text| && idx < e
      invariant j <= |text| && idx == s + j
      invariant j > 0 ==> idx <= e
      invariant forall q :: 0 <= q < j ==> SameChar(ic, text[q], str[s + q])
    {
      if SameChar(ic, text[j], str[idx]) {
        j := j + 1;
        idx := idx + 1;
      } else {
        break;
      }
    }
  }

  /** Pattern.Logic applied to a compiled continuation. */
  method Run(str: string, c: Cont, s: nat, e: nat) returns (r: int)
    requires e <= |str| && WellFormed(c)
    ensures r == Invoke(str, c, s, e)
    decreases c, 0, 0
  {
    match c
    case Done(k) =>
      r := SentinelLogic(k, s, e);
    case Step(p, next) =>
      match p
      case None =>
        r := NoneLogic(s, e);
      case End =>
        r := EndLogic(s);
      case Any =>
        r := AnyLogic(str, next, s, e);
      case Text(ic, texts) =>
        r := TextLogic(str, ic, texts, next, s, e);
      case Except(ic, texts) =>
        r := ExceptLogic(str, ic, texts, next, s, e);
      case Repeat(ic, text, lo, hi) =>
        r := RepeatLogic(str, ic, text, lo, hi, next, s, e);
  }

  /** Pattern.Any. */
  method AnyLogic(str: string, next: Cont, s: nat, e: nat) returns (r: int)
    requires e <= |str| && WellFormed(next)
    ensures r == Invoke(str, Step(Any, next), s, e)
    decreases next, 1, 0
  {
    if next.Done? {
      return |str|;
    }
    var t := s;
    while t < e
      invariant s <= t
      invariant AnyScan(str, next, s, e) == AnyScan(str, next, t, e)
    {
      var x := Run(str, next, t, e);
      if x > 0 {
        return x;
      }
      if x < 0 {
        return -1;
      }
      t := t + 1;
    }
    return 0;
  }

  /** Pattern.Text(ignoreCasing, texts). */
  method TextLogic(str: string, ic: bool, texts: seq<string>, next: Cont, s: nat, e: nat) returns (r: int)
    requires e <= |str| && WellFormed(next)
    ensures r == Invoke(str, Step(Text(ic, texts), next), s, e)
    decreases next, 1, 0
  {
    var k := 0;
    while k < |texts|
      invariant k <= |texts|
      invariant TextAlts(str, ic, texts, 0, next, s, e) == TextAlts(str, ic, texts, k, next, s, e)
    {
      var j := MatchedLength(str, ic, texts[k], s, e);
      if j == |texts[k]| {
        var x := Run(str, next, s + j, e);
        if x > 0 {
          TextAltsTake(str, ic, texts, k, next, s, e);
          return x;
        }
      }
      TextAltsSkip(str, ic, texts, k, next, s, e);
      k := k + 1;
    }
    return 0;
  }

  /** Pattern.Except(ignoreCasing, texts). */
  method ExceptLogic(str: string, ic: bool, texts: seq<string>, next: Cont, s: nat, e: nat) returns (r: int)
    requires e <= |str| && WellFormed(next)
    ensures r == Invoke(str, Step(Except(ic, texts), next), s, e)
    decreases next, 1, 0
  {
    var idx := s;
    var k := 0;
    while k < |texts|
      invariant k <= |texts|
      invariant idx == if k == 0 then s else s + CommonPrefix(str, ic, texts[k - 1], s, e)
      invariant forall q :: 0 <= q < k ==> !FullMatch(str, ic, texts[q], s, e)
    {
      var j := MatchedLength(str, ic, texts[k], s, e);
      idx := s + j;
      if j == |texts[k]| {
        assert FullMatch(str, ic, texts[k], s, e);
        return -1;
      }
      k := k + 1;
    }
    assert idx == ExceptCursor(str, ic, texts, s, e);
    r := Run(str, next, idx, e);
  }

  /** Pattern.Repeat(ignoreCasing, text, atleast, atmost). */
  method RepeatLogic(str: string, ic: bool, text: string, lo: int, hi: int, next: Cont, s: nat, e: nat)
    returns (r: int)
    requires e <= |str| && WellFormed(next) && |text| > 0
    ensures r == Invoke(str, Step(Repeat(ic, text, lo, hi), next), s, e)
    decreases next, 1, 0
  {
    var count := 0;
    var j := 0;
    var p := s;
    while p < e
      invariant j < |text|
      invariant RepeatScan(str, ic, text, 0, 0, s, e) == RepeatScan(str, ic, text, j, count, p, e)
    {
      if !SameChar(ic, text[j], str[p]) {
        break;
      }
      j := j + 1;
      if j == |text| {
        j := 0;
        count := count + 1;
      }
      p := p + 1;
    }
    if lo <= count <= hi {
      r := Run(str, next, p, e);
    } else if count == 0 {
      r := 0;
    } else {
      r := -1;
    }
  }

  /** Euclidean division of count * d + j by d, for 0 <= j < d. */
  lemma DivMod(count: nat, d: nat, j: nat)
    requires 0 <= j < d
    ensures (count * d + j) / d == count
    ensures (count * d + j) % d == j
  {
    var n := count * d + j;
    var q, m := n / d, n % d;
    assert n == q * d + m;
    if q < count {
      assert (count - q) * d == count * d - q * d;
      MulAtLeast(count - q, d);
    } else if q > count {
      assert (q - count) * d == q * d - count * d;
      MulAtLeast(q - count, d);
    }
  }

  lemma MulSucc(c: nat, d: nat)
    ensures (c + 1) * d == c * d + d
  {
  }

  lemma {:induction false} MulAtLeast(a: nat, d: nat)
    requires a >= 1
    ensures a * d >= d
  {
    if a > 1 {
      MulAtLeast(a - 1, d);
      assert a * d == (a - 1) * d + d;
    }
  }
}
