/** Rate limits over whole histories of attempts, shared by the notification engine and the diagnoser. */
module Cooldowns {
  import opened Types

  /** An attempt that reads the clock at `check` and, if let through, records `mark`; or a reset. */
  datatype Tick = Try(check: Time, mark: Time, cooldown: Time) | Reset

  predicate LetThrough(last: Option<Time>, check: Time, cooldown: Time) {
    last.None? || check - last.value >= cooldown
  }

  /** The mark recorded after this history. */
  function Cell(h: seq<Tick>): Option<Time> {
    if h == [] then None
    else
      var before, tick := Cell(h[..|h| - 1]), h[|h| - 1];
      if tick.Reset? then None
      else if LetThrough(before, tick.check, tick.cooldown) then Some(tick.mark)
      else before
  }

  /** The attempt at position `i` was let through. */
  predicate Fired(h: seq<Tick>, i: nat)
    requires i < |h|
  {
    h[i].Try? && LetThrough(Cell(h[..i]), h[i].check, h[i].cooldown)
  }

  /** One more tick: whether it is let through, and the mark it leaves. */
  lemma OneMoreTick(h: seq<Tick>, tick: Tick)
    ensures Fired(h + [tick], |h|) <==> tick.Try? && LetThrough(Cell(h), tick.check, tick.cooldown)
    ensures Cell(h + [tick]) ==
            if tick.Reset? then None else if Fired(h + [tick], |h|) then Some(tick.mark) else Cell(h)
  {
    assert (h + [tick])[..|h|] == h;
  }

  /** Clocks never run backwards, within an attempt or from one to the next. */
  ghost predicate Forward(h: seq<Tick>) {
    && (forall i | 0 <= i < |h| && h[i].Try? :: h[i].check <= h[i].mark)
    && (forall i, k | 0 <= i < k < |h| && h[i].Try? && h[k].Try? :: h[i].mark <= h[k].check)
  }

  ghost predicate NoReset(h: seq<Tick>, i: nat, k: nat) {
    forall x | i < x < k && x < |h| :: !h[x].Reset?
  }

  /** Once fired, and without a reset since, the recorded mark is no older than that firing. */
  lemma {:induction false} CellSince(h: seq<Tick>, i: nat, k: nat)
    requires Forward(h) && i < k <= |h| && Fired(h, i) && NoReset(h, i, k)
    ensures Cell(h[..k]).Some? && h[i].mark <= Cell(h[..k]).value
  {
    assert h[..k][..k - 1] == h[..k - 1];
    if i < k - 1 {
      CellSince(h, i, k - 1);
      assert h[k - 1].Try?;
      assert h[i].mark <= h[k - 1].check <= h[k - 1].mark;
    }
  }

  /** Two firings with no reset between them are a cooldown apart. */
  lemma FiringsApart(h: seq<Tick>, i: nat, k: nat)
    requires Forward(h) && i < k < |h| && Fired(h, i) && Fired(h, k) && NoReset(h, i, k)
    ensures h[k].check - h[i].mark >= h[k].cooldown
  {
    CellSince(h, i, k);
  }

  // --- Who is let through, and how many ---

  /** The last attempt let through before position `k`, with no reset since. */
  ghost predicate LastFired(h: seq<Tick>, i: nat, k: nat)
    requires k <= |h|
  {
    i < k && Fired(h, i) && forall x | i < x < k :: h[x].Try? && !Fired(h, x)
  }

  lemma FiredAsBefore(h: seq<Tick>, k: nat, i: nat)
    requires i < k <= |h|
    ensures Fired(h[..k], i) == Fired(h, i)
  {
    assert h[..k][..i] == h[..i];
  }

  lemma OneMoreLast(h: seq<Tick>, i: nat, m: nat, k: nat)
    requires i < m < |h| && k == m + 1
    ensures LastFired(h, i, k) <==> h[m].Try? && !Fired(h, m) && LastFired(h, i, m)
  {
    hide Fired;
  }

  lemma LastIsFired(h: seq<Tick>, m: nat, k: nat)
    requires m < |h| && k == m + 1
    ensures LastFired(h, m, k) <==> Fired(h, m)
    ensures Fired(h, m) ==> forall i: nat | i < m :: !LastFired(h, i, k)
  {
  }

  /** The recorded mark is that of the last attempt let through; there is none before the first or after a reset. */
  lemma {:induction false} CellIs(h: seq<Tick>, k: nat)
    requires k <= |h|
    ensures forall i: nat | i < k && LastFired(h, i, k) :: Cell(h[..k]) == Some(h[i].mark)
    ensures Cell(h[..k]).Some? ==> exists i: nat :: i < k && LastFired(h, i, k)
  {
    hide Fired, LastFired, Cell;
    if k == 0 {
      NothingRecorded();
    } else {
      var m := k - 1;
      assert h[..k] == h[..m] + [h[m]];
      CellIs(h, m);
      OneMoreTick(h[..m], h[m]);
      FiredAsBefore(h, k, m);
      FiredIsTry(h, m);
      LastIsFired(h, m, k);
      forall i: nat | i < m { OneMoreLast(h, i, m, k); }
    }
  }

  lemma NothingRecorded()
    ensures Cell([]).None?
  {
  }

  lemma FiredIsTry(h: seq<Tick>, k: nat)
    requires k < |h|
    ensures Fired(h, k) ==> h[k].Try?
  {
  }

  /**
   * An attempt is let through exactly when no attempt was let through before it since the last reset, or
   * the last one was recorded at least the cooldown ago.
   */
  lemma FiredIff(h: seq<Tick>, k: nat)
    requires k < |h| && h[k].Try?
    ensures Fired(h, k) <==> forall i: nat | i < k && LastFired(h, i, k) :: h[k].check - h[i].mark >= h[k].cooldown
  {
    hide Cell;
    CellIs(h, k);
  }

  /** The positions of the attempts among the first `k` that were let through in the window. */
  ghost function Let(h: seq<Tick>, start: Time, span: Time, k: nat): set<nat>
    requires k <= |h|
  {
    set i | 0 <= i < k && Fired(h, i) && start <= h[i].mark <= start + span
  }

  lemma OneMoreLet(h: seq<Tick>, start: Time, span: Time, k: nat)
    requires k < |h|
    ensures var yes := Fired(h, k) && start <= h[k].mark <= start + span;
            |Let(h, start, span, k + 1)| == |Let(h, start, span, k)| + (if yes then 1 else 0)
  {
    var yes := Fired(h, k) && start <= h[k].mark <= start + span;
    assert Let(h, start, span, k + 1) == Let(h, start, span, k) + (if yes then {k} else {});
  }

  /** The attempts let through in the window so far: `n`, the latest of them `reach` or more past the start. */
  lemma {:induction false} LetSoFar(h: seq<Tick>, c: Time, start: Time, span: Time, k: nat)
    returns (n: nat, reach: Time, last: nat)
    requires Forward(h) && c > 0 && 0 <= span && k <= |h|
    requires forall i | 0 <= i < |h| :: h[i].Try? && h[i].cooldown >= c
    ensures n == |Let(h, start, span, k)| && reach + c == n * c
    ensures n > 0 ==> last < k && Fired(h, last) && start + reach <= h[last].mark <= start + span
  {
    hide Fired;
    if k == 0 {
      assert Let(h, start, span, 0) == {};
      n, reach, last := 0, -c, 0;
    } else {
      n, reach, last := LetSoFar(h, c, start, span, k - 1);
      OneMoreLet(h, start, span, k - 1);
      if Fired(h, k - 1) && start <= h[k - 1].mark <= start + span {
        if n > 0 {
          FiringsApart(h, last, k - 1);
          assert start + reach + c <= h[k - 1].check <= h[k - 1].mark;
        }
        OneStepFurther(n, c);
        n, reach, last := n + 1, reach + c, k - 1;
      }
    }
  }

  lemma OneStepFurther(n: nat, c: Time)
    ensures (n + 1) * c == n * c + c && (n == 0 ==> n * c == 0)
  {
  }

  /** In any window of length `span` at most 1 + span / cooldown attempts are let through. */
  lemma RateLimit(h: seq<Tick>, c: Time, start: Time, span: Time)
    requires Forward(h) && c > 0 && 0 <= span && forall i | 0 <= i < |h| :: h[i].Try? && h[i].cooldown >= c
    ensures |set i | 0 <= i < |h| && Fired(h, i) && start <= h[i].mark <= start + span| <= 1 + span / c
  {
    var n, reach, last := LetSoFar(h, c, start, span, |h|);
    if n > 0 {
      OneStepFurther(n - 1, c);
      QuotientBound(n - 1, c, span);
    }
    assert Let(h, start, span, |h|) == set i | 0 <= i < |h| && Fired(h, i) && start <= h[i].mark <= start + span;
  }

  lemma TimesMonotone(a: int, b: int, c: int)
    requires a <= b && c > 0
    ensures a * c <= b * c
  {
  }

  lemma QuotientBound(n: nat, c: Time, span: Time)
    requires c > 0 && n * c <= span
    ensures n <= span / c
  {
    var q := span / c;
    if q + 1 <= n {
      TimesMonotone(q + 1, n, c);
    }
  }
}
