/** The pattern algebra of Deregex.cs, the earlier variant of the engine
    (struct Pattern in the same namespace, hence its own module here).

    Results are read as in RegularPatterns: > 0 success carrying the next
    cursor, 0 retry elsewhere, -1 hard abort. This variant has a single
    literal per Text, a sequential Multi, and no Except or Repeat. Its
    literal loops stop at the limit without failing, so a literal cut off by
    the limit still passes, and their ignore-case test is inverted. */
module Deregex {
  import opened Common

  datatype Pat =
    | None
    | End
    | Any
    | Text(ignoreCasing: bool, text: string)
    | Multi(ignoreCasing: bool, texts: seq<string>)

  /** A compiled continuation: the rest of the declared sequence, then the sentinel. */
  datatype Cont = Done(sentinel: Sentinel) | Step(head: Pat, next: Cont)

  /** The test that makes Text and Multi stop at a character: a difference
      when case matters, but an equality of the upper-cased characters when
      it does not (the two arms of the source's guard are not symmetric). */
  predicate Rejects(ic: bool, a: char, b: char)
  {
    if ic then Upper(a) == Upper(b) else a != b
  }

  /** Against the character test of the other variant, the guard is the
      negation when case matters and the test itself when it does not: with
      ignoreCasing an equal character stops the literal and a different
      letter, or a different non-letter, lets it pass. */
  lemma RejectsIsInverted(ic: bool, a: char, b: char)
    ensures !ic ==> (Rejects(ic, a, b) <==> !SameChar(false, a, b))
    ensures ic ==> (Rejects(ic, a, b) <==> SameChar(true, a, b))
    ensures ic && a == b ==> Rejects(ic, a, b)
    ensures ic && !AsciiLetter(a) && !AsciiLetter(b) ==> (Rejects(ic, a, b) <==> a == b)
  {
  }

  /** How many characters of `lit` the literal loop passes from `s` on: it
      stops at the first rejected character, at the end of the literal, or
      at the limit `e`. */
  function Walk(str: string, ic: bool, lit: string, s: nat, e: nat): (n: nat)
    requires e <= |str|
    ensures n <= |lit|
    ensures n > 0 ==> s + n <= e
    decreases |lit|
  {
    if |lit| == 0 || e <= s || Rejects(ic, lit[0], str[s]) then 0
    else 1 + Walk(str, ic, lit[1..], s + 1, e)
  }

  /** The literal loop stopped at a rejected character (it returns 0 in
      Text, counts a failure in Multi). */
  predicate Broken(str: string, ic: bool, lit: string, s: nat, e: nat): (b: bool)
    requires e <= |str|
    ensures b ==> s < e && 0 < |lit|
    ensures b ==> Walk(str, ic, lit, s, e) < |lit|
  {
    var n := Walk(str, ic, lit, s, e);
    n < |lit| && s + n < e
  }

  /** Multi's walk from cursor `idx` over its literals in order: the cursor
      it ends at, and how many literals broke on the way. The cursor is
      never reset between literals. */
  function MultiWalk(str: string, ic: bool, texts: seq<string>, idx: nat, e: nat): (w: (nat, nat))
    requires e <= |str|
    ensures idx <= w.0 && (w.0 == idx || w.0 <= e)
    ensures w.1 <= |texts|
    decreases |texts|
  {
    if |texts| == 0 then (idx, 0)
    else
      var n := Walk(str, ic, texts[0], idx, e);
      var rest := MultiWalk(str, ic, texts[1..], idx + n, e);
      (rest.0, rest.1 + if Broken(str, ic, texts[0], idx, e) then 1 else 0)
  }

  /** Invoking a compiled continuation at cursor `s` with limit `e`. */
  function Invoke(str: string, c: Cont, s: nat, e: nat): (r: int)
    requires e <= |str|
    ensures -1 <= r
    decreases c, 0, 0
  {
    match c
    case Done(k) => SentinelLogic(k, s, e)
    case Step(p, next) =>
      match p
      case None => NoneLogic(s, e)
      case End => EndLogic(s)
      case Any =>
        // the continuation is Pattern.None or Pattern.End exactly when Any is last
        if next.Done? then |str| else AnyScan(str, next, s, e)
      case Text(ic, lit) =>
        if Broken(str, ic, lit, s, e) then 0
        else Invoke(str, next, s + Walk(str, ic, lit, s, e), e)
      case Multi(ic, texts) =>
        var w := MultiWalk(str, ic, texts, s, e);
        if w.1 == |texts| then 0 else Invoke(str, next, w.0, e)
  }

  /** Any's scan: the continuation at s, s+1, ..., e-1 until one decides. */
  function AnyScan(str: string, next: Cont, s: nat, e: nat): (r: int)
    requires e <= |str|
    ensures -1 <= r
    decreases next, 1, e - s
  {
    if e <= s then 0
    else
      var x := Invoke(str, next, s, e);
      if x > 0 then x
      else if x < 0 then -1
      else AnyScan(str, next, s + 1, e)
  }

  // ---------------------------------------------------------------------
  // What the primitives decide.
  // ---------------------------------------------------------------------

  /** The cursor a literal loop that does not break ends at: past the whole
      literal when it fits below the limit, otherwise the limit itself (or
      `s`, when it starts at or beyond the limit). */
  function Clamp(s: nat, len: nat, e: nat): (c: nat)
    ensures s <= c <= s + len
    ensures c == s + len || c == e || c == s
  {
    if s + len <= e then s + len else if s <= e then e else s
  }

  /** The literal loop breaks exactly when some character it reaches below
      the limit is rejected; otherwise it ends at the clamped cursor. */
  lemma {:induction false} WalkMeans(str: string, ic: bool, lit: string, s: nat, e: nat)
    requires e <= |str|
    ensures Broken(str, ic, lit, s, e) <==>
              exists j :: 0 <= j < |lit| && s + j < e && Rejects(ic, lit[j], str[s + j])
    ensures !Broken(str, ic, lit, s, e) ==> s + Walk(str, ic, lit, s, e) == Clamp(s, |lit|, e)
    decreases |lit|
  {
    WalkClamp(str, ic, lit, s, e);
    if |lit| > 0 && s < e {
      if Rejects(ic, lit[0], str[s]) {
        assert 0 < |lit| && s + 0 < e && Rejects(ic, lit[0], str[s + 0]);
      } else {
        var rest := lit[1..];
        WalkMeans(str, ic, rest, s + 1, e);
        assert Broken(str, ic, lit, s, e) == Broken(str, ic, rest, s + 1, e);
        if exists j :: 0 <= j < |lit| && s + j < e && Rejects(ic, lit[j], str[s + j]) {
          var j :| 0 <= j < |lit| && s + j < e && Rejects(ic, lit[j], str[s + j]);
          assert j > 0 && rest[j - 1] == lit[j];
          assert 0 <= j - 1 < |rest| && s + 1 + (j - 1) < e && Rejects(ic, rest[j - 1], str[s + 1 + (j - 1)]);
        }
        if exists j :: 0 <= j < |rest| && s + 1 + j < e && Rejects(ic, rest[j], str[s + 1 + j]) {
          var j :| 0 <= j < |rest| && s + 1 + j < e && Rejects(ic, rest[j], str[s + 1 + j]);
          assert lit[j + 1] == rest[j];
          assert 0 <= j + 1 < |lit| && s + (j + 1) < e && Rejects(ic, lit[j + 1], str[s + (j + 1)]);
        }
      }
    }
  }

  /** A literal loop that does not break ends at the clamped cursor. */
  lemma WalkClamp(str: string, ic: bool, lit: string, s: nat, e: nat)
    requires e <= |str|
    ensures !Broken(str, ic, lit, s, e) ==> s + Walk(str, ic, lit, s, e) == Clamp(s, |lit|, e)
  {
  }

  /** Text(lit): 0 when a character reached below the limit is rejected;
      otherwise the continuation's result, unchanged (an abort included), at
      the clamped cursor, so a literal cut off by the limit still passes. */
  lemma TextMeans(str: string, ic: bool, lit: string, next: Cont, s: nat, e: nat)
    requires e <= |str|
    ensures (exists j :: 0 <= j < |lit| && s + j < e && Rejects(ic, lit[j], str[s + j])) ==>
              Invoke(str, Step(Text(ic, lit), next), s, e) == 0
    ensures (forall j :: 0 <= j < |lit| && s + j < e ==> !Rejects(ic, lit[j], str[s + j])) ==>
              Invoke(str, Step(Text(ic, lit), next), s, e) == Invoke(str, next, Clamp(s, |lit|, e), e)
  {
    if exists j :: 0 <= j < |lit| && s + j < e && Rejects(ic, lit[j], str[s + j]) {
      TextRejected(str, ic, lit, next, s, e);
    }
    if forall j :: 0 <= j < |lit| && s + j < e ==> !Rejects(ic, lit[j], str[s + j]) {
      TextPasses(str, ic, lit, next, s, e);
    }
  }

  lemma TextRejected(str: string, ic: bool, lit: string, next: Cont, s: nat, e: nat)
    requires e <= |str|
    requires exists j :: 0 <= j < |lit| && s + j < e && Rejects(ic, lit[j], str[s + j])
    ensures Invoke(str, Step(Text(ic, lit), next), s, e) == 0
  {
    WalkMeans(str, ic, lit, s, e);
  }

  lemma TextPasses(str: string, ic: bool, lit: string, next: Cont, s: nat, e: nat)
    requires e <= |str|
    requires forall j :: 0 <= j < |lit| && s + j < e ==> !Rejects(ic, lit[j], str[s + j])
    ensures Invoke(str, Step(Text(ic, lit), next), s, e) == Invoke(str, next, Clamp(s, |lit|, e), e)
  {
    WalkMeans(str, ic, lit, s, e);
    assert !Broken(str, ic, lit, s, e);
  }

  /** Multi over a single literal behaves as Text over that literal. */
  lemma MultiOfOneIsText(str: string, ic: bool, lit: string, next: Cont, s: nat, e: nat)
    requires e <= |str|
    ensures Invoke(str, Step(Multi(ic, [lit]), next), s, e) == Invoke(str, Step(Text(ic, lit), next), s, e)
  {
    assert [lit][1..] == [];
    var n := Walk(str, ic, lit, s, e);
    assert MultiWalk(str, ic, [], s + n, e) == (s + n, 0);
    assert MultiWalk(str, ic, [lit], s, e) == (s + n, if Broken(str, ic, lit, s, e) then 1 else 0);
  }

  /** The literals laid end to end. */
  function Concat(texts: seq<string>): (all: string)
  {
    if |texts| == 0 then [] else texts[0] + Concat(texts[1..])
  }

  /** Walking `a + b` is walking `a`, then `b` from where `a` left off when
      `a` passed completely. */
  lemma {:induction false} WalkAppend(str: string, ic: bool, a: string, b: string, s: nat, e: nat)
    requires e <= |str|
    ensures Walk(str, ic, a, s, e) == |a| ==>
              Walk(str, ic, a + b, s, e) == |a| + Walk(str, ic, b, s + |a|, e)
              && (Broken(str, ic, a + b, s, e) <==> Broken(str, ic, b, s + |a|, e))
    ensures Walk(str, ic, a, s, e) < |a| ==>
              Walk(str, ic, a + b, s, e) == Walk(str, ic, a, s, e)
              && (Broken(str, ic, a + b, s, e) <==> Broken(str, ic, a, s, e))
    decreases |a|
  {
    if |a| > 0 && s < e && !Rejects(ic, a[0], str[s]) {
      assert (a + b)[1..] == a[1..] + b;
      WalkAppend(str, ic, a[1..], b, s + 1, e);
    } else if |a| == 0 {
      assert a + b == b;
    }
  }

  /** A walk that starts at or beyond the limit passes nothing and does not break. */
  lemma {:induction false} PastLimit(str: string, ic: bool, texts: seq<string>, s: nat, e: nat)
    requires e <= s && e <= |str|
    ensures MultiWalk(str, ic, texts, s, e) == (s, 0)
    ensures !Broken(str, ic, Concat(texts), s, e) && Walk(str, ic, Concat(texts), s, e) == 0
    decreases |texts|
  {
    if |texts| > 0 {
      PastLimit(str, ic, texts[1..], s, e);
    }
  }

  /** When no literal breaks, Multi walks exactly as Text over their
      concatenation: same verdict, same final cursor. */
  lemma {:induction false} MultiIsSequential(str: string, ic: bool, texts: seq<string>, s: nat, e: nat)
    requires e <= |str|
    ensures MultiWalk(str, ic, texts, s, e).1 == 0 <==> !Broken(str, ic, Concat(texts), s, e)
    ensures MultiWalk(str, ic, texts, s, e).1 == 0 ==>
              MultiWalk(str, ic, texts, s, e).0 == s + Walk(str, ic, Concat(texts), s, e)
    decreases |texts|
  {
    if |texts| > 0 {
      var a, rest := texts[0], texts[1..];
      var all := Concat(rest);
      var whole := Concat(texts);
      assert whole == a + all;
      var n := Walk(str, ic, a, s, e);
      var w, tail := MultiWalk(str, ic, texts, s, e), MultiWalk(str, ic, rest, s + n, e);
      var broke := Broken(str, ic, a, s, e);
      assert w == (tail.0, tail.1 + if broke then 1 else 0);
      WalkAppend(str, ic, a, all, s, e);
      if n == |a| {
        // `a` passed completely: both go on from s + |a|
        MultiIsSequential(str, ic, rest, s + n, e);
        assert w.1 == tail.1 && w.0 == tail.0;
        assert Broken(str, ic, whole, s, e) == Broken(str, ic, all, s + n, e);
        assert Walk(str, ic, whole, s, e) == n + Walk(str, ic, all, s + n, e);
      } else if !broke {
        // `a` was cut off by the limit: nothing further is read
        PastLimit(str, ic, rest, s + n, e);
        assert w == (s + n, 0);
        assert !Broken(str, ic, whole, s, e) && Walk(str, ic, whole, s, e) == n;
      } else {
        assert w.1 > 0 && Broken(str, ic, whole, s, e);
      }
    }
  }

  /** When Any's scan reports a decision, it is the continuation's decision at
      the first position in [s, e) where the continuation does not retry. */
  lemma {:induction false} AnyScanDecided(str: string, next: Cont, s: nat, e: nat) returns (t: nat)
    requires e <= |str|
    requires AnyScan(str, next, s, e) != 0
    ensures s <= t < e
    ensures forall u :: s <= u < t ==> Invoke(str, next, u, e) == 0
    ensures Invoke(str, next, t, e) != 0
    ensures AnyScan(str, next, s, e) == if Invoke(str, next, t, e) > 0 then Invoke(str, next, t, e) else -1
    decreases e - s
  {
    AnyScanStep(str, next, s, e);
    if Invoke(str, next, s, e) != 0 {
      t := s;
    } else {
      t := AnyScanDecided(str, next, s + 1, e);
      forall u | s <= u < t
        ensures Invoke(str, next, u, e) == 0
      {
        if u > s {
          assert s + 1 <= u < t;
        }
      }
    }
  }

  /** Any's scan retries exactly when the continuation retries at every
      position of [s, e). */
  lemma {:induction false} AnyScanExhausted(str: string, next: Cont, s: nat, e: nat)
    requires e <= |str|
    ensures AnyScan(str, next, s, e) == 0 <==> forall u :: s <= u < e ==> Invoke(str, next, u, e) == 0
    decreases e - s
  {
    if s < e {
      AnyScanStep(str, next, s, e);
      AnyScanExhausted(str, next, s + 1, e);
      if Invoke(str, next, s, e) == 0 {
        if forall u :: s + 1 <= u < e ==> Invoke(str, next, u, e) == 0 {
          forall u | s <= u < e
            ensures Invoke(str, next, u, e) == 0
          {
            if u > s {
              assert s + 1 <= u < e;
            }
          }
        }
      } else {
        assert AnyScan(str, next, s, e) != 0;
      }
    }
  }

  /** One step of Any's scan. */
  lemma AnyScanStep(str: string, next: Cont, s: nat, e: nat)
    requires e <= |str| && s < e
    ensures var x := Invoke(str, next, s, e);
            AnyScan(str, next, s, e) == if x > 0 then x else if x < 0 then -1 else AnyScan(str, next, s + 1, e)
  {
  }

  /** A success never moves backwards and never leaves the source. */
  lemma {:induction false} InvokeBounds(str: string, c: Cont, s: nat, e: nat)
    requires e <= |str| && s <= |str|
    ensures Invoke(str, c, s, e) <= |str|
    ensures Invoke(str, c, s, e) > 0 ==> s <= Invoke(str, c, s, e)
    decreases c
  {
    match c
    case Done(_) =>
    case Step(p, next) =>
      match p
      case None =>
      case End =>
      case Any =>
        if !next.Done? && AnyScan(str, next, s, e) > 0 {
          assert Invoke(str, c, s, e) == AnyScan(str, next, s, e);
          var t := AnyScanDecided(str, next, s, e);
          InvokeBounds(str, next, t, e);
        }
      case Text(ic, lit) =>
        var idx := s + Walk(str, ic, lit, s, e);
        assert Invoke(str, c, s, e) == 0 || Invoke(str, c, s, e) == Invoke(str, next, idx, e);
        InvokeBounds(str, next, idx, e);
      case Multi(ic, texts) =>
        var idx := MultiWalk(str, ic, texts, s, e).0;
        assert Invoke(str, c, s, e) == 0 || Invoke(str, c, s, e) == Invoke(str, next, idx, e);
        InvokeBounds(str, next, idx, e);
  }

  /** Every element of the chain hands control on to its continuation. */
  predicate Continues(c: Cont)
  {
    match c
    case Done(_) => true
    case Step(p, next) => !p.None? && !p.End? && Continues(next)
  }

  /** The sentinel at the end of the chain. */
  function Terminal(c: Cont): (k: Sentinel)
  {
    match c
    case Done(k) => k
    case Step(_, next) => Terminal(next)
  }

  /** The last declared element of the chain is Any. */
  predicate LastIsAny(c: Cont)
  {
    match c
    case Done(_) => false
    case Step(p, next) => if next.Done? then p.Any? else LastIsAny(next)
  }

  /** Under the None sentinel a chain can only succeed by reaching exactly
      the limit, unless a trailing Any short-circuits to the end of the source. */
  lemma {:induction false} AnchoredSuccess(str: string, c: Cont, s: nat, e: nat)
    requires e <= |str| && Continues(c) && Terminal(c) == NoneSentinel
    ensures Invoke(str, c, s, e) > 0 ==> Invoke(str, c, s, e) == if LastIsAny(c) then |str| else e
    decreases c
  {
    match c
    case Done(_) =>
    case Step(p, next) =>
      match p
      case Any =>
        if !next.Done? && AnyScan(str, next, s, e) > 0 {
          var t := AnyScanDecided(str, next, s, e);
          AnchoredSuccess(str, next, t, e);
        }
      case Text(ic, lit) =>
        AnchoredSuccess(str, next, s + Walk(str, ic, lit, s, e), e);
      case Multi(ic, texts) =>
        AnchoredSuccess(str, next, MultiWalk(str, ic, texts, s, e).0, e);
  }

  // ---------------------------------------------------------------------
  // The pattern logic as the source runs it: loops over local cursors.
  // ---------------------------------------------------------------------

  /** The literal loop of Text and Multi; `broken` tells whether it stopped
      at a rejected character. */
  method WalkLiteral(str: string, ic: bool, text: string, s: nat, e: nat) returns (idx: nat, broken: bool)
    requires e <= |str|
    ensures idx == s + Walk(str, ic, text, s, e)
    ensures broken == Broken(str, ic, text, s, e)
  {
    var j := 0;
    idx := s;
    broken := false;
    while j < |text| && idx < e
      invariant j <= |text| && idx == s + j
      invariant Walk(str, ic, text, s, e) == j + Walk(str, ic, text[j..], idx, e)
      invariant Broken(str, ic, text, s, e) <==> Broken(str, ic, text[j..], idx, e)
    {
      assert text[j..][0] == text[j] && text[j..][1..] == text[j + 1..];
      if Rejects(ic, text[j], str[idx]) {
        broken := true;
        break;
      }
      idx := idx + 1;
      j := j + 1;
    }
  }

  /** Pattern.Logic applied to a compiled continuation. */
  method Run(str: string, c: Cont, s: nat, e: nat) returns (r: int)
    requires e <= |str|
    ensures r == Invoke(str, c, s, e)
    decreases c, 0, 0
  {
    match c
    case Done(k) =>
      r := SentinelLogic(k, s, e);
    case Step(p, next) =>
      match p
      case None =>
        r := NoneLogic(s, e);
      case End =>
        r := EndLogic(s);
      case Any =>
        r := AnyLogic(str, next, s, e);
      case Text(ic, lit) =>
        r := TextLogic(str, ic, lit, next, s, e);
      case Multi(ic, texts) =>
        r := MultiLogic(str, ic, texts, next, s, e);
  }

  /** Pattern.Any. */
  method AnyLogic(str: string, next: Cont, s: nat, e: nat) returns (r: int)
    requires e <= |str|
    ensures r == Invoke(str, Step(Any, next), s, e)
    decreases next, 1, 0
  {
    if next.Done? {
      return |str|;
    }
    var t := s;
    while t < e
      invariant s <= t
      invariant AnyScan(str, next, s, e) == AnyScan(str, next, t, e)
    {
      var x := Run(str, next, t, e);
      if x > 0 {
        return x;
      }
      if x < 0 {
        return -1;
      }
      t := t + 1;
    }
    return 0;
  }

  /** Pattern.Text(ignoreCasing, text). */
  method TextLogic(str: string, ic: bool, text: string, next: Cont, s: nat, e: nat) returns (r: int)
    requires e <= |str|
    ensures r == Invoke(str, Step(Text(ic, text), next), s, e)
    decreases next, 1, 0
  {
    var idx, broken := WalkLiteral(str, ic, text, s, e);
    if broken {
      return 0;
    }
    r := Run(str, next, idx, e);
  }

  /** Multi's loop over its literals, sharing one cursor. */
  method WalkLiterals(str: string, ic: bool, texts: seq<string>, s: nat, e: nat) returns (idx: nat, fails: nat)
    requires e <= |str|
    ensures (idx, fails) == MultiWalk(str, ic, texts, s, e)
  {
    idx := s;
    fails := 0;
    var k := 0;
    while k < |texts|
      invariant k <= |texts|
      invariant MultiWalk(str, ic, texts, s, e).0 == MultiWalk(str, ic, texts[k..], idx, e).0
      invariant MultiWalk(str, ic, texts, s, e).1 == fails + MultiWalk(str, ic, texts[k..], idx, e).1
    {
      ghost var from := idx;
      var broken;
      idx, broken := WalkLiteral(str, ic, texts[k], idx, e);
      MultiWalkStep(str, ic, texts, k, from, e);
      if broken {
        fails := fails + 1;
      }
      k := k + 1;
    }
    assert texts[k..] == [];
  }

  /** One step of Multi's walk from the k-th literal: that literal, then the
      rest from where it stopped. */
  lemma MultiWalkStep(str: string, ic: bool, texts: seq<string>, k: nat, idx: nat, e: nat)
    requires e <= |str| && k < |texts|
    ensures var tail := MultiWalk(str, ic, texts[k + 1..], idx + Walk(str, ic, texts[k], idx, e), e);
            MultiWalk(str, ic, texts[k..], idx, e) == (tail.0, tail.1 + if Broken(str, ic, texts[k], idx, e) then 1 else 0)
  {
    assert texts[k..][0] == texts[k] && texts[k..][1..] == texts[k + 1..];
  }

  /** Pattern.Multi(ignoreCasing, texts). */
  method MultiLogic(str: string, ic: bool, texts: seq<string>, next: Cont, s: nat, e: nat) returns (r: int)
    requires e <= |str|
    ensures r == Invoke(str, Step(Multi(ic, texts), next), s, e)
    decreases next, 1, 0
  {
    var idx, fails := WalkLiterals(str, ic, texts, s, e);
    if fails == |texts| {
      return 0;
    }
    r := Run(str, next, idx, e);
  }
}
