/**
 The virtualised audit table: which rows are rendered for a scroll offset, and the
 follow/scroll state machine that decides the offset. Offsets are real: browsers scroll by
 fractions of a pixel.
 */
module AuditWindow {
  import opened Numbers

  const ROW_H: int := 44
  const VIEWPORT: int := 440
  const OVERSCAN: int := 4

  /** The viewport in rows, rounded up, and the overscan on both sides. */
  const WINDOW_COUNT: int := (VIEWPORT + ROW_H - 1) / ROW_H + OVERSCAN * 2

  function MaxTop(count: nat): real {
    Max(0, count * ROW_H - VIEWPORT) as real
  }

  function Start(top: real): int {
    Max(0, (top / ROW_H as real).Floor - OVERSCAN)
  }

  function End(top: real, count: nat): int {
    Min(count, Start(top) + WINDOW_COUNT)
  }

  /** Row `i` shows some pixel of the viewport scrolled to `top`. */
  predicate Visible(i: nat, top: real) {
    (i * ROW_H) as real < top + VIEWPORT as real && ((i + 1) * ROW_H) as real > top
  }

  predicate Rendered(i: nat, top: real, count: nat) {
    Start(top) <= i < End(top, count)
  }

  /** The row at an offset, as plain inequalities. */
  lemma {:induction false} FloorBounds(top: real) returns (row: int)
    ensures row == (top / ROW_H as real).Floor
    ensures (row * ROW_H) as real <= top < ((row + 1) * ROW_H) as real
  {
    row := (top / ROW_H as real).Floor;
    var exact := top / ROW_H as real;
    assert exact * ROW_H as real == top;
    assert row as real <= exact < (row + 1) as real;
  }

  /**
   A window computed at `top` still covers a viewport that sits up to a row above it: the
   overscan absorbs the difference. With equal offsets this is plain coverage.
   */
  lemma {:induction false} WindowCovers(top: real, shown: real, count: nat, i: nat)
    requires top - ROW_H as real <= shown <= top && i < count && Visible(i, shown)
    ensures Rendered(i, top, count)
  {
    var row := FloorBounds(top);
    assert row - 1 <= i + 1;
    assert i <= row + VIEWPORT / ROW_H;
  }

  /** However many rows there are, a bounded number is rendered. */
  lemma {:induction false} WindowIsBounded(top: real, count: nat)
    ensures End(top, count) - Start(top) <= WINDOW_COUNT == 18
    ensures 0 <= Start(top) && End(top, count) <= count
  {
  }

  lemma {:induction false} LastRowVisibleAtBottom(count: nat)
    requires count > 0
    ensures Visible(count - 1, MaxTop(count))
  {
  }

  // ---------------------------------------------------------------------------------------
  // Following and scrolling
  // ---------------------------------------------------------------------------------------

  /**
   `count` is the number of rows after filtering, `scrollTop` the component's copy of the
   offset. The scroll container is mounted only while there are rows; `shown` is its actual
   offset, and 0 when there is none. A fresh container starts at 0.
   */
  datatype Table = Table(count: nat, following: bool, scrollTop: real, shown: real)

  datatype Step = Scroll(top: real) | Rows(count: nat) | JumpToLatest

  function EffectiveTop(t: Table): real {
    if t.following then MaxTop(t.count) else t.scrollTop
  }

  /** The effect: whenever `following` or the bottom changed, a followed container is pinned to it. */
  function Pin(before: Table, t: Table): Table {
    if t.following && t.count > 0 && (!before.following || MaxTop(t.count) != MaxTop(before.count))
    then t.(scrollTop := MaxTop(t.count), shown := MaxTop(t.count))
    else t
  }

  function HandleScroll(t: Table, top: real): Table {
    t.(shown := top, scrollTop := top, following := top >= MaxTop(t.count) - ROW_H as real)
  }

  /** Rendering `count` rows: without any the container goes, with the first a new one comes. */
  function Render(t: Table, count: nat): Table {
    t.(count := count, shown := if t.count == 0 || count == 0 then 0.0 else t.shown)
  }

  /**
   Scrolling and jumping need the container. The browser keeps offsets within the content,
   and reports a clamped one as a scroll.
   */
  function Next(t: Table, step: Step): Table {
    match step
    case Scroll(top) =>
      if t.count > 0 && 0.0 <= top <= MaxTop(t.count) then Pin(t, HandleScroll(t, top)) else t
    case Rows(count) =>
      var changed := Pin(t, Render(t, count));
      if changed.shown > MaxTop(count) then Pin(changed, HandleScroll(changed, MaxTop(count))) else changed
    case JumpToLatest => if t.count > 0 then Pin(t, t.(following := true)) else t
  }

  function Run(t: Table, steps: seq<Step>): Table {
    if steps == [] then t else Next(Run(t, steps[..|steps| - 1]), steps[|steps| - 1])
  }

  const EMPTY_TABLE := Table(0, true, 0.0, 0.0)

  /** Only a container that came back while paused can be away from the component's copy. */
  ghost predicate Invariant(t: Table) {
    && 0.0 <= t.scrollTop && 0.0 <= t.shown <= MaxTop(t.count)
    && (t.following ==> t.shown >= MaxTop(t.count) - ROW_H as real)
    && (!t.following ==> t.scrollTop == t.shown || t.shown == 0.0)
  }

  lemma {:induction false} StepKeepsInvariant(t: Table, step: Step)
    requires Invariant(t)
    ensures Invariant(Next(t, step))
  {
  }

  lemma {:induction false} RunKeepsInvariant(steps: seq<Step>)
    ensures Invariant(Run(EMPTY_TABLE, steps))
  {
    if steps != [] {
      RunKeepsInvariant(steps[..|steps| - 1]);
      StepKeepsInvariant(Run(EMPTY_TABLE, steps[..|steps| - 1]), steps[|steps| - 1]);
    }
  }

  /** Every row that shows some pixel is rendered. */
  ghost predicate Covered(t: Table) {
    forall i: nat :: i < t.count && Visible(i, t.shown) ==> Rendered(i, EffectiveTop(t), t.count)
  }

  /** A copy below this offset still starts its window at the first row. */
  const STALE_LIMIT: int := (OVERSCAN + 1) * ROW_H

  lemma {:induction false} StartsAtFirstRow(top: real)
    requires 0.0 <= top
    ensures Start(top) == 0 <==> top < STALE_LIMIT as real
  {
    var row := FloorBounds(top);
  }

  lemma {:induction false} CoveredWhen(t: Table)
    requires Invariant(t) && t.count > 0
    ensures Covered(t) <==> t.following || t.scrollTop == t.shown || t.scrollTop < STALE_LIMIT as real
  {
    var top := EffectiveTop(t);
    if t.following || t.scrollTop == t.shown {
      forall i: nat | i < t.count && Visible(i, t.shown) ensures Rendered(i, top, t.count) {
        WindowCovers(top, t.shown, t.count, i);
      }
    } else {
      StartsAtFirstRow(t.scrollTop);
      assert Visible(0, t.shown);
    }
  }

  /**
   In every state with rows reached by scrolling, growing, shrinking, emptying and jumping:
   every row the user can see is rendered if and only if the table follows, or the
   container is where the component believes it is, or that belief is within the first five
   rows. At most eighteen rows are rendered, and a followed table renders its last one.
   */
  lemma {:induction false} EveryVisibleRowIsRendered(steps: seq<Step>)
    requires Run(EMPTY_TABLE, steps).count > 0
    ensures var t := Run(EMPTY_TABLE, steps);
            var top := EffectiveTop(t);
            && (Covered(t) <==> t.following || t.scrollTop == t.shown || t.scrollTop < (5 * ROW_H) as real)
            && End(top, t.count) - Start(top) <= 18
            && (t.following ==> Rendered(t.count - 1, top, t.count))
  {
    RunKeepsInvariant(steps);
    var t := Run(EMPTY_TABLE, steps);
    CoveredWhen(t);
    if t.following {
      LastRowVisibleAtBottom(t.count);
      WindowCovers(MaxTop(t.count), MaxTop(t.count), t.count, t.count - 1);
    }
  }

  /**
   What the container does: a scroll shows the offset scrolled to, unless it comes within a
   row of the bottom, where the table starts, or goes on, to follow; jumping pins it there.
   */
  lemma {:induction false} ScrollsFollow(t: Table, top: real)
    requires t.count > 0 && 0.0 <= top <= MaxTop(t.count)
    ensures MaxTop(t.count) == if t.count <= 10 then 0.0 else (t.count * 44 - 440) as real
    ensures var scrolled := Next(t, Scroll(top));
            && (scrolled.following <==> MaxTop(t.count) - top <= 44.0)
            && (!scrolled.following || t.following ==> scrolled.shown == top && scrolled.scrollTop == top)
            && (scrolled.following && !t.following ==> scrolled.shown == MaxTop(t.count))
    ensures var jumped := Next(t, JumpToLatest);
            jumped.following && (!t.following ==> jumped.shown == MaxTop(t.count) && jumped.scrollTop == MaxTop(t.count))
  {
  }

  /** New rows: a followed table goes to the new bottom, a paused one stays where it is while it can. */
  lemma {:induction false} RowsFollow(t: Table, count: nat)
    requires Invariant(t) && t.count > 0 && count > 0
    ensures var grown := Next(t, Rows(count));
            && grown.count == count
            && (t.following ==> grown.following && (MaxTop(count) != MaxTop(t.count) ==> grown.shown == MaxTop(count)))
            && (!t.following && t.shown <= MaxTop(count) ==>
                  !grown.following && grown.shown == t.shown && grown.scrollTop == t.scrollTop)
            && (!t.following && t.shown > MaxTop(count) ==> grown.following && grown.shown == MaxTop(count))
  {
  }

  /** Paused at an offset whose window leaves out the first row, with the container elsewhere. */
  ghost predicate Lost(t: Table) {
    !t.following && t.scrollTop >= STALE_LIMIT as real && t.scrollTop != t.shown
  }

  /** The step scrolls the container, or sends it to the latest rows. */
  ghost predicate Moves(t: Table, step: Step) {
    t.count > 0 && (step.JumpToLatest? || (step.Scroll? && 0.0 <= step.top <= MaxTop(t.count)))
  }

  /** The step takes away the rows of a table that is paused below the first five. */
  ghost predicate Empties(t: Table, step: Step) {
    step == Rows(0) && t.count > 0 && !t.following && t.scrollTop >= STALE_LIMIT as real
  }

  lemma {:induction false} StepLoses(t: Table, step: Step)
    requires Invariant(t)
    ensures Lost(Next(t, step)) <==> (Lost(t) && !Moves(t, step)) || Empties(t, step)
  {
  }

  /** The table was emptied while paused below the first five rows, and has not been moved since. */
  ghost predicate LeftBehind(steps: seq<Step>) {
    exists i :: 0 <= i < |steps| && EmptiedAt(steps, i) && forall j :: i < j < |steps| ==> !MovedAt(steps, j)
  }

  ghost predicate EmptiedAt(steps: seq<Step>, i: nat)
    requires i < |steps|
  {
    Empties(Run(EMPTY_TABLE, steps[..i]), steps[i])
  }

  ghost predicate MovedAt(steps: seq<Step>, i: nat)
    requires i < |steps|
  {
    Moves(Run(EMPTY_TABLE, steps[..i]), steps[i])
  }

  lemma {:induction false} LeftBehindSnoc(init: seq<Step>, step: Step)
    ensures var t := Run(EMPTY_TABLE, init);
            LeftBehind(init + [step]) <==> (LeftBehind(init) && !Moves(t, step)) || Empties(t, step)
  {
    var steps, n := init + [step], |init|;
    assert steps[..n] == init;
    assert forall i :: 0 <= i < n ==> steps[..i] == init[..i];
    assert forall i :: 0 <= i < n ==> EmptiedAt(steps, i) == EmptiedAt(init, i) && MovedAt(steps, i) == MovedAt(init, i);
    assert EmptiedAt(steps, n) == Empties(Run(EMPTY_TABLE, init), step);
    assert MovedAt(steps, n) == Moves(Run(EMPTY_TABLE, init), step);
    if LeftBehind(init) && !MovedAt(steps, n) {
      var i :| 0 <= i < n && EmptiedAt(init, i) && forall j :: i < j < n ==> !MovedAt(init, j);
      assert EmptiedAt(steps, i);
    }
    if i :| 0 <= i < n && EmptiedAt(steps, i) && forall j :: i < j < |steps| ==> !MovedAt(steps, j) {
      assert EmptiedAt(init, i);
    }
  }

  lemma {:induction false} LostIsLeftBehind(steps: seq<Step>)
    ensures Lost(Run(EMPTY_TABLE, steps)) <==> LeftBehind(steps)
  {
    if steps != [] {
      var init, step := steps[..|steps| - 1], steps[|steps| - 1];
      assert steps == init + [step];
      LostIsLeftBehind(init);
      RunKeepsInvariant(init);
      StepLoses(Run(EMPTY_TABLE, init), step);
      LeftBehindSnoc(init, step);
    }
  }

  /**
   The same condition on what happened: some visible row is missing if and only if the table
   was emptied while paused at 220 pixels or more, and has since been neither scrolled nor
   sent to the latest rows.
   */
  lemma {:induction false} RowsAreMissingWhen(steps: seq<Step>)
    requires Run(EMPTY_TABLE, steps).count > 0
    ensures !Covered(Run(EMPTY_TABLE, steps)) <==> LeftBehind(steps)
    ensures STALE_LIMIT == 220
  {
    RunKeepsInvariant(steps);
    CoveredWhen(Run(EMPTY_TABLE, steps));
    LostIsLeftBehind(steps);
  }

  /** A table that is never emptied again once it has rows always renders what is visible. */
  lemma {:induction false} NeverEmptiedIsCovered(steps: seq<Step>)
    requires Rows(0) !in steps
    ensures Covered(Run(EMPTY_TABLE, steps))
  {
    InStep(steps);
    RunKeepsInvariant(steps);
    if Run(EMPTY_TABLE, steps).count > 0 {
      CoveredWhen(Run(EMPTY_TABLE, steps));
    }
  }

  lemma {:induction false} InStep(steps: seq<Step>)
    requires Rows(0) !in steps
    ensures var t := Run(EMPTY_TABLE, steps);
            t.following || (t.count > 0 && t.scrollTop == t.shown)
  {
    if steps != [] {
      var init := steps[..|steps| - 1];
      InStep(init);
      RunKeepsInvariant(init);
      assert steps[|steps| - 1] in steps;
    }
  }

  /**
   Emptying a paused table, say by a facet nothing matches, and filling it again: the new
   container is at the top and the window at the old offset, so the visible rows are rendered
   if and only if that offset was within the first five rows.
   */
  lemma {:induction false} RefilledTable(steps: seq<Step>, count: nat)
    requires var t := Run(EMPTY_TABLE, steps); t.count > 0 && !t.following
    requires count > 0
    ensures var t := Run(EMPTY_TABLE, steps);
            var refilled := Next(Next(t, Rows(0)), Rows(count));
            && refilled == Table(count, false, t.scrollTop, 0.0)
            && (Covered(refilled) <==> t.scrollTop < (5 * ROW_H) as real)
  {
    RunKeepsInvariant(steps);
    var t := Run(EMPTY_TABLE, steps);
    StepKeepsInvariant(t, Rows(0));
    StepKeepsInvariant(Next(t, Rows(0)), Rows(count));
    var refilled := Next(Next(t, Rows(0)), Rows(count));
    assert refilled == Table(count, false, t.scrollTop, 0.0);
    CoveredWhen(refilled);
  }

  /** A hundred rows, scrolled half-way up, emptied and filled again: the first row shows and is not rendered. */
  lemma {:induction false} RefilledTableExample()
    ensures var t := Next(Next(Next(Next(EMPTY_TABLE, Rows(100)), Scroll(800.0)), Rows(0)), Rows(100));
            Visible(0, t.shown) && !Rendered(0, EffectiveTop(t), t.count)
  {
    var scrolled := Next(Next(EMPTY_TABLE, Rows(100)), Scroll(800.0));
    assert scrolled == Table(100, false, 800.0, 800.0);
    StartsAtFirstRow(800.0);
  }

  class AuditTable {
    var count: nat
    var following: bool
    var scrollTop: real
    var shown: real

    ghost function State(): Table
      reads this
    {
      Table(count, following, scrollTop, shown)
    }

    constructor ()
      ensures State() == EMPTY_TABLE
    {
      count, following, scrollTop, shown := 0, true, 0.0, 0.0;
    }

    /** The effect, keyed on `following` and the bottom offset; it needs the container. */
    method Effect(wasFollowing: bool, oldMaxTop: real)
      modifies this
      ensures State() == if old(following) && old(count) > 0 && (!wasFollowing || MaxTop(count) != oldMaxTop)
                         then old(State()).(scrollTop := MaxTop(count), shown := MaxTop(count))
                         else old(State())
    {
      if following && count > 0 && (!wasFollowing || MaxTop(count) != oldMaxTop) {
        shown := MaxTop(count);
        scrollTop := MaxTop(count);
      }
    }

    method OnScroll(top: real)
      modifies this
      ensures State() == Pin(old(State()), HandleScroll(old(State()), top))
    {
      var wasFollowing := following;
      shown := top;
      scrollTop := top;
      following := top >= MaxTop(count) - ROW_H as real;
      Effect(wasFollowing, MaxTop(count));
    }

    method OnJump()
      requires count > 0
      modifies this
      ensures State() == Next(old(State()), JumpToLatest)
    {
      var wasFollowing := following;
      following := true;
      Effect(wasFollowing, MaxTop(count));
    }

    /** Without rows the container is unmounted; the first rows mount one at the top. */
    method SetRows(rows: nat)
      modifies this
      ensures State() == Next(old(State()), Rows(rows))
    {
      var oldMaxTop := MaxTop(count);
      if count == 0 || rows == 0 {
        shown := 0.0;
      }
      count := rows;
      Effect(following, oldMaxTop);
      if shown > MaxTop(count) {
        OnScroll(MaxTop(count));
      }
    }

    /** The slice of rows to render. */
    method Window() returns (start: int, end: int)
      ensures start == Start(EffectiveTop(State())) && end == End(EffectiveTop(State()), count)
    {
      var top := if following then MaxTop(count) else scrollTop;
      start := Start(top);
      end := Min(count, start + WINDOW_COUNT);
    }
  }
}
