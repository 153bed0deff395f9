/**
 * The per-carousel controller of script.js (lines 179-296), with its closure
 * variables gathered into one immutable state record and every event handler
 * written as a pure transition.
 *
 * What is kept: the slide count, the current index, the drag flag and drag
 * origin, the autoplay handle together with the set of intervals this
 * carousel has alive in the host, and the dot buttons. What is dropped: the
 * smooth `scrollTo` the navigation issues, pixel layout (slide centre
 * positions and the track's `scrollLeft` are integer inputs) and timing
 * (interval and debounce callbacks are events that simply happen).
 */
module Carousel {
  import opened Wrappers
  import Snap

  /** One dot button: the slide its click navigates to and whether it carries the `active` class. */
  datatype Dot = Dot(target: nat, active: bool)

  datatype State = State(
    n: nat,                     // slide count, fixed at initialisation
    current: int,               // index of the current slide
    isDown: bool,               // a pointer drag is in progress
    startX: int,                // pointer x where the drag started
    scrollOrigin: int,          // track scroll position where the drag started
    autoplay: Option<nat>,      // the interval handle held by the carousel, if any
    intervals: set<nat>,        // intervals of this carousel alive in the host
    dots: Option<seq<Dot>>      // None when the markup has no dot container
  )

  /** Dot `i` sends to slide `i`, there is one dot per slide, and only the current one is active. */
  predicate DotsMirror(ds: seq<Dot>, n: nat, current: int)
  {
    && |ds| == n
    && forall i :: 0 <= i < |ds| ==> ds[i].target == i && (ds[i].active <==> i == current)
  }

  /** The invariant every reachable carousel state keeps. */
  predicate Valid(s: State)
  {
    && s.n >= 1
    && 0 <= s.current < s.n
    && (s.autoplay.None? ==> s.intervals == {})
    && (s.autoplay.Some? ==> s.intervals == {s.autoplay.value})
    && (s.dots.Some? ==> DotsMirror(s.dots.value, s.n, s.current))
  }

  /** The index bound of `goTo` (line 208): clamps into the slides, never wraps. */
  function Clamp(index: int, n: nat): (k: int)
    requires n >= 1
    ensures 0 <= k < n
    ensures 0 <= index < n ==> k == index
    ensures index < 0 ==> k == 0
    ensures index >= n ==> k == n - 1
  {
    var upper := if n - 1 < index then n - 1 else index;
    if 0 < upper then upper else 0
  }

  /** `updateDots` (lines 228-231): toggles `active` on each existing dot by its position. */
  function UpdateDots(ds: seq<Dot>, current: int): (r: seq<Dot>)
    ensures |r| == |ds|
    ensures forall i :: 0 <= i < |r| ==> r[i].target == ds[i].target
    ensures forall i :: 0 <= i < |r| ==> (r[i].active <==> i == current)
  {
    seq(|ds|, i requires 0 <= i < |ds| => ds[i].(active := i == current))
  }

  /** The guard of `updateDots` (line 229): without a dot container nothing happens, otherwise the dots follow `current`. */
  function SyncDots(dots: Option<seq<Dot>>, current: int): (r: Option<seq<Dot>>)
    ensures r.Some? <==> dots.Some?
    ensures r.Some? ==> |r.value| == |dots.value|
    ensures r.Some? ==> forall i :: 0 <= i < |r.value| ==>
      r.value[i].target == dots.value[i].target && (r.value[i].active <==> i == current)
  {
    match dots
    case None => None
    case Some(ds) => Some(UpdateDots(ds, current))
  }

  /** `buildDots` (lines 215-226): a handle dot per slide in slide order, then `updateDots`. */
  function BuildDots(n: nat, current: int): (ds: seq<Dot>)
    requires 0 <= current < n
    ensures DotsMirror(ds, n, current)
  {
    UpdateDots(seq(n, i requires 0 <= i < n => Dot(i, false)), current)
  }

  /** `goTo` (lines 207-213): clamp the index, record it as current, refresh the dots. */
  function GoTo(s: State, index: int): (r: State)
    requires s.n >= 1
    ensures 0 <= r.current < s.n
    ensures 0 <= index < s.n ==> r.current == index
    ensures index < 0 ==> r.current == 0
    ensures index >= s.n ==> r.current == s.n - 1
    ensures r == s.(current := r.current, dots := r.dots)
    ensures r.dots.Some? <==> s.dots.Some?
    ensures r.dots.Some? ==> |r.dots.value| == |s.dots.value|
    ensures r.dots.Some? ==> forall i :: 0 <= i < |r.dots.value| ==>
      r.dots.value[i].target == s.dots.value[i].target && (r.dots.value[i].active <==> i == r.current)
    ensures Valid(s) ==> Valid(r)
  {
    var k := Clamp(index, s.n);
    s.(current := k, dots := SyncDots(s.dots, k))
  }

  /** Click on the previous button (line 234): one slide back, staying on the first slide. */
  function Prev(s: State): (r: State)
    requires Valid(s)
    ensures Valid(r)
    ensures s.current == 0 ==> r.current == 0
    ensures s.current > 0 ==> r.current == s.current - 1
    ensures r == s.(current := r.current, dots := SyncDots(s.dots, r.current))
  {
    GoTo(s, s.current - 1)
  }

  /** Click on the next button (line 235): one slide forward, staying on the last slide. */
  function Next(s: State): (r: State)
    requires Valid(s)
    ensures Valid(r)
    ensures s.current == s.n - 1 ==> r.current == s.n - 1
    ensures s.current < s.n - 1 ==> r.current == s.current + 1
    ensures r == s.(current := r.current, dots := SyncDots(s.dots, r.current))
  {
    GoTo(s, s.current + 1)
  }

  /** Click on dot `i` (line 222): navigates to the dot's slide. */
  function DotClick(s: State, i: nat): (r: State)
    requires Valid(s)
    requires s.dots.Some? && i < |s.dots.value|
    ensures Valid(r)
    ensures r.current == i
    ensures r.dots.Some? && r.dots.value[i].active
    ensures r == s.(current := r.current, dots := SyncDots(s.dots, r.current))
  {
    GoTo(s, s.dots.value[i].target)
  }

  /** One autoplay interval callback (lines 253-255): advance modulo the slide count. */
  function Tick(s: State): (r: State)
    requires Valid(s)
    ensures Valid(r)
    ensures s.current == s.n - 1 ==> r.current == 0
    ensures s.current < s.n - 1 ==> r.current == s.current + 1
    ensures r == s.(current := r.current, dots := SyncDots(s.dots, r.current))
  {
    GoTo(s, (s.current + 1) % s.n)
  }

  datatype Key = ArrowLeft | ArrowRight | OtherKey

  /** The carousel's keydown handler (lines 286-289). */
  function KeyDown(s: State, key: Key): (r: State)
    requires Valid(s)
    ensures Valid(r)
    ensures key == OtherKey ==> r == s
    ensures key == ArrowRight ==> r.current == if s.current < s.n - 1 then s.current + 1 else s.current
    ensures key == ArrowLeft ==> r.current == if s.current > 0 then s.current - 1 else s.current
    ensures key != OtherKey ==> r == s.(current := r.current, dots := SyncDots(s.dots, r.current))
  {
    match key
    case ArrowRight =>
      GoTo(s, if s.current + 1 < s.n - 1 then s.current + 1 else s.n - 1)
    case ArrowLeft =>
      GoTo(s, if s.current - 1 > 0 then s.current - 1 else 0)
    case OtherKey => s
  }

  /** `startAuto` (lines 251-257): creates interval `handle` unless a handle is already held. */
  function StartAuto(s: State, handle: nat): (r: State)
    ensures s.autoplay.Some? ==> r == s
    ensures s.autoplay.None? ==> r.autoplay == Some(handle) && r.intervals == s.intervals + {handle}
    ensures r.autoplay.Some?
    ensures r == s.(autoplay := r.autoplay, intervals := r.intervals)
    ensures Valid(s) ==> Valid(r) && |r.intervals| == 1
  {
    if s.autoplay.Some? then s
    else s.(autoplay := Some(handle), intervals := s.intervals + {handle})
  }

  /** `stopAuto` (line 258): clears the held interval, if any, and drops the handle. */
  function StopAuto(s: State): (r: State)
    ensures r.autoplay.None?
    ensures s.autoplay.None? ==> r == s
    ensures s.autoplay.Some? ==> r.intervals == s.intervals - {s.autoplay.value}
    ensures r == s.(autoplay := None, intervals := r.intervals)
    ensures Valid(s) ==> Valid(r) && r.intervals == {}
  {
    match s.autoplay
    case None => s
    case Some(h) => s.(autoplay := None, intervals := s.intervals - {h})
  }

  /** `pointerdown` on the track (lines 265-268): start a drag and stop autoplay. */
  function PointerDown(s: State, clientX: int, trackScroll: int): (r: State)
    ensures r.isDown && r.autoplay.None?
    ensures r.startX == clientX && r.scrollOrigin == trackScroll
    ensures r.current == s.current && r.dots == s.dots && r.n == s.n
    ensures Valid(s) ==> Valid(r) && r.intervals == {}
  {
    StopAuto(s.(isDown := true, startX := clientX, scrollOrigin := trackScroll))
  }

  /**
   * `pointermove` on the track (lines 269-273): the new track scroll position
   * while dragging, None when no drag is in progress.
   */
  function PointerMove(s: State, clientX: int): (scroll: Option<int>)
    ensures scroll.Some? <==> s.isDown
    ensures scroll.Some? ==> scroll.value + clientX == s.scrollOrigin + s.startX
  {
    if !s.isDown then None else Some(s.scrollOrigin - (clientX - s.startX))
  }

  /**
   * `endDrag` (lines 274-280), bound to pointerup, pointercancel and
   * pointerleave: snap to the slide nearest `trackScroll` and restart autoplay
   * with the host-supplied handle `handle`.
   */
  function EndDrag(s: State, centers: seq<int>, trackScroll: int, handle: nat): (r: State)
    requires s.n >= 1 && |centers| == s.n
    ensures !s.isDown ==> r == s
    ensures s.isDown ==> !r.isDown && Snap.IsFirstNearest(centers, trackScroll, r.current) && r.autoplay.Some?
    ensures s.isDown ==> r == s.(isDown := false, current := r.current, dots := SyncDots(s.dots, r.current),
                                 autoplay := r.autoplay, intervals := r.intervals)
    ensures s.isDown && s.autoplay.None? ==> r.autoplay == Some(handle) && r.intervals == s.intervals + {handle}
    ensures s.isDown && s.autoplay.Some? ==> r.autoplay == s.autoplay && r.intervals == s.intervals
    ensures Valid(s) ==> Valid(r)
  {
    if !s.isDown then s
    else StartAuto(GoTo(s.(isDown := false), Snap.SnapIndex(centers, trackScroll)), handle)
  }

  /**
   * The debounced scroll-settle callback (lines 241-246): take the nearest
   * slide as current and refresh the dots; no navigation is issued.
   */
  function ScrollSettle(s: State, centers: seq<int>, trackScroll: int): (r: State)
    requires s.n >= 1 && |centers| == s.n
    ensures Snap.IsFirstNearest(centers, trackScroll, r.current)
    ensures r == s.(current := r.current, dots := SyncDots(s.dots, r.current))
    ensures Valid(s) ==> Valid(r)
  {
    var k := Snap.SnapIndex(centers, trackScroll);
    s.(current := k, dots := SyncDots(s.dots, k))
  }

  /** The debounced resize callback (line 295): navigate to the current slide again. */
  function Resize(s: State): (r: State)
    requires s.n >= 1
    ensures Valid(s) ==> r == s
  {
    ResizeKeepsState(s);
    GoTo(s, s.current)
  }

  lemma ResizeKeepsState(s: State)
    requires s.n >= 1
    ensures Valid(s) ==> GoTo(s, s.current) == s
  {
    if Valid(s) && s.dots.Some? {
      assert GoTo(s, s.current).dots.value == s.dots.value;
    }
  }

  /**
   * Per-carousel initialisation (lines 180-181, 192-193, 292-294): a carousel
   * without a track or without slides is skipped; otherwise the dots are
   * built, slide 0 is shown and autoplay starts with handle `handle`.
   */
  function Init(hasTrack: bool, n: nat, hasDots: bool, handle: nat): (r: Option<State>)
    ensures r.None? <==> !hasTrack || n == 0
    ensures r.Some? ==> Valid(r.value) && r.value.n == n && r.value.current == 0
    ensures r.Some? ==> !r.value.isDown && r.value.autoplay == Some(handle)
    ensures r.Some? ==> (r.value.dots.Some? <==> hasDots)
  {
    if !hasTrack || n == 0 then None
    else
      var dots := if hasDots then Some(BuildDots(n, 0)) else None;
      var s0 := State(n, 0, false, 0, 0, None, {}, dots);
      Some(StartAuto(GoTo(s0, 0), handle))
  }

  /** The indices of the dots carrying the `active` class. */
  function ActiveDots(ds: seq<Dot>): set<int>
  {
    set i | 0 <= i < |ds| && ds[i].active
  }

  /** In every valid state with dots, exactly one dot is active: the current slide's. */
  lemma ExactlyOneActiveDot(s: State)
    requires Valid(s) && s.dots.Some?
    ensures ActiveDots(s.dots.value) == {s.current}
    ensures s.dots.value[s.current].target == s.current
  {
  }

  /** The keyboard's own bounds are redundant: arrows act exactly like the buttons. */
  lemma KeysActLikeButtons(s: State)
    requires Valid(s)
    ensures KeyDown(s, ArrowRight) == Next(s)
    ensures KeyDown(s, ArrowLeft) == Prev(s)
  {
  }

  /** Navigating twice to the same index is the same as once. */
  lemma GoToIdempotent(s: State, index: int)
    requires s.n >= 1
    ensures GoTo(GoTo(s, index), index) == GoTo(s, index)
  {
    var r := GoTo(s, index);
    if r.dots.Some? {
      assert GoTo(r, index).dots.value == r.dots.value;
    }
  }

  /** A second `startAuto` while one interval runs changes nothing: at most one interval. */
  lemma StartAutoTwice(s: State, f1: nat, f2: nat)
    requires Valid(s)
    ensures StartAuto(StartAuto(s, f1), f2) == StartAuto(s, f1)
    ensures |StartAuto(StartAuto(s, f1), f2).intervals| == 1
  {
  }

  /** `k` presses of the next button. */
  function NextTimes(s: State, k: nat): (r: State)
    requires Valid(s)
    ensures Valid(r) && r.n == s.n
    decreases k
  {
    if k == 0 then s else NextTimes(Next(s), k - 1)
  }

  /** `k` presses of the previous button. */
  function PrevTimes(s: State, k: nat): (r: State)
    requires Valid(s)
    ensures Valid(r) && r.n == s.n
    decreases k
  {
    if k == 0 then s else PrevTimes(Prev(s), k - 1)
  }

  /** `k` autoplay ticks. */
  function TickTimes(s: State, k: nat): (r: State)
    requires Valid(s)
    ensures Valid(r) && r.n == s.n
    decreases k
  {
    if k == 0 then s else TickTimes(Tick(s), k - 1)
  }

  /** Buttons saturate: `k` next presses land on `min(current + k, n - 1)`. */
  lemma {:induction false} NextTimesSaturates(s: State, k: nat)
    requires Valid(s)
    ensures NextTimes(s, k).current == if s.current + k < s.n - 1 then s.current + k else s.n - 1
    decreases k
  {
    if k > 0 {
      NextTimesSaturates(Next(s), k - 1);
    }
  }

  /** Buttons saturate: `k` previous presses land on `max(current - k, 0)`. */
  lemma {:induction false} PrevTimesSaturates(s: State, k: nat)
    requires Valid(s)
    ensures PrevTimes(s, k).current == if s.current - k > 0 then s.current - k else 0
    decreases k
  {
    if k > 0 {
      PrevTimesSaturates(Prev(s), k - 1);
    }
  }

  /** Autoplay cycles: `k` ticks land on `(current + k) mod n`. */
  lemma {:induction false} TickTimesCycles(s: State, k: nat)
    requires Valid(s)
    ensures TickTimes(s, k).current == (s.current + k) % s.n
    decreases k
  {
    if k == 0 {
      ModOfSmall(s.current, s.n);
    } else {
      var t := Tick(s);
      TickTimesCycles(t, k - 1);
      if s.current == s.n - 1 {
        assert t.current == 0;
        ModPlusN(k - 1, s.n);
      } else {
        assert t.current == s.current + 1;
      }
    }
  }

  /** Euclidean remainder is determined by any quotient/remainder split. */
  lemma ModUnique(x: int, n: int, q: int, r: int)
    requires 0 < n && 0 <= r < n && x == q * n + r
    ensures x % n == r
  {
    var q', r' := x / n, x % n;
    assert x == q' * n + r';
    assert (q - q') * n == r' - r;
    if q - q' >= 1 {
      MulAtLeast(q - q', n);
    } else if q' - q >= 1 {
      MulAtLeast(q' - q, n);
    }
  }

  lemma MulAtLeast(a: int, n: int)
    requires a >= 1 && n > 0
    ensures a * n >= n
  {
    assert a * n == (a - 1) * n + n;
  }

  lemma ModFullRound(c: int, n: int)
    requires 0 <= c < n
    ensures (c + n) % n == c
  {
    ModPlusN(c, n);
    ModOfSmall(c, n);
  }

  lemma ModOfSmall(x: nat, n: nat)
    requires x < n
    ensures x % n == x
  {
    ModUnique(x, n, 0, x);
  }

  lemma ModPlusN(x: nat, n: nat)
    requires n > 0
    ensures (x + n) % n == x % n
  {
    var q, r := x / n, x % n;
    assert x + n == (q + 1) * n + r;
    ModUnique(x + n, n, q + 1, r);
  }

  /** A full round of `n` ticks returns to the starting slide. */
  lemma {:induction false} TicksFullRound(s: State)
    requires Valid(s)
    ensures TickTimes(s, s.n).current == s.current
  {
    var c, n := s.current, s.n;
    assert (c + n) % n == c by {
      ModFullRound(c, n);
    }
    assert TickTimes(s, n).current == (c + n) % n by {
      TickTimesCycles(s, n);
    }
  }

  /**
   * Navigating to slide `k` and letting the track come to rest on its centre
   * leaves `k` current after the scroll settles, when centres are distinct.
   */
  lemma SettleAfterGoTo(s: State, k: nat, centers: seq<int>)
    requires Valid(s) && k < s.n && |centers| == s.n
    requires Snap.StrictlyIncreasing(centers)
    ensures ScrollSettle(GoTo(s, k), centers, centers[k]) == GoTo(s, k)
  {
    Snap.SnapAtCentre(centers, k);
    var g := GoTo(s, k);
    if g.dots.Some? {
      assert ScrollSettle(g, centers, centers[k]).dots.value == g.dots.value;
    }
  }

  /**
   * Autoplay resumes after a drag even while the pointer still hovers the
   * track: the hover-entry stop does not outlast a drag.
   */
  lemma DragResumesAutoplayWhileHovering(s: State, x: int, scroll: int, centers: seq<int>, handle: nat)
    requires Valid(s) && |centers| == s.n
    ensures var hovered := StopAuto(s);
            var dragged := EndDrag(PointerDown(hovered, x, scroll), centers, scroll, handle);
            dragged.autoplay == Some(handle) && dragged.intervals == {handle}
  {
  }
}
