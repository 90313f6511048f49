/**
 * The screenshot carousel of src/components/AppPreviewSection.js.
 *
 * currentScreenshot starts at 0; an effect that depends on inView installs a
 * 3000 ms interval while inView is true, whose callback advances the index
 * modulo the number of screenshots, and whose cleanup clears it.  The visibility
 * observer is configured with triggerOnce, so inView, once true, stays true.
 *
 * Timer firings, visibility reports and unmounting are events delivered by the
 * environment; activeIntervals counts the intervals installed and not cleared.
 */
module Carousel {

  datatype Screenshot = Screenshot(id: nat, title: string)

  const Screenshots: seq<Screenshot> :=
    [Screenshot(1, "Home Screen"), Screenshot(2, "NFT Details"), Screenshot(3, "Profile")]

  /** The interval callback's update, (prev + 1) % n, for any positive length n. */
  function Next(prev: nat, n: nat): (r: nat)
    requires n > 0
    ensures r < n
    ensures prev < n - 1 ==> r == prev + 1
    ensures prev == n - 1 ==> r == 0
  {
    (prev + 1) % n
  }

  /** k interval callbacks in a row. */
  function Rotate(i: nat, n: nat, k: nat): nat
    requires n > 0
    decreases k
  {
    if k == 0 then i else Rotate(Next(i, n), n, k - 1)
  }

  lemma {:induction false} RotateSplit(i: nat, n: nat, a: nat, b: nat)
    requires n > 0
    ensures Rotate(i, n, a + b) == Rotate(Rotate(i, n, a), n, b)
    decreases a
  {
    if a > 0 {
      RotateSplit(Next(i, n), n, a - 1, b);
    }
  }

  /** Below the last screenshot, k callbacks move the index k places forward. */
  lemma {:induction false} RotateNoWrap(i: nat, n: nat, k: nat)
    requires n > 0 && i + k < n
    ensures Rotate(i, n, k) == i + k
    decreases k
  {
    if k > 0 {
      RotateNoWrap(i + 1, n, k - 1);
    }
  }

  /** n callbacks bring the index back to where it started: up to the last
      screenshot, one wrap to 0, and on to the start again. */
  lemma FullCycle(i: nat, n: nat)
    requires n > 0 && i < n
    ensures Rotate(i, n, n) == i
  {
    RotateSplit(i, n, n - 1 - i, 1 + i);
    RotateNoWrap(i, n, n - 1 - i);
    RotateSplit(n - 1, n, 1, i);
    assert Rotate(n - 1, n, 1) == Rotate(0, n, 0) == 0;
    RotateNoWrap(0, n, i);
  }

  /** With the three screenshots, from 0 the index runs 0, 1, 2, 0. */
  lemma ThreeScreenshots()
    ensures |Screenshots| == 3
    ensures Rotate(0, |Screenshots|, 1) == 1 && Rotate(0, |Screenshots|, 2) == 2
    ensures Rotate(0, |Screenshots|, 3) == 0
  {
  }

  datatype CarouselState = CarouselState(mounted: bool, inView: bool, index: nat, activeIntervals: nat)

  /** Mounted, not yet seen, index 0; the first run of the effect sees inView false
      and installs nothing. */
  const Initial := CarouselState(true, false, 0, 0)

  datatype CarouselEvent =
    | Visibility(visible: bool)  // the observer reports the section's visibility
    | Tick                       // the clock reaches a multiple of the period
    | Unmount

  /** Each event's effect.  With triggerOnce the observer stops once it has
      reported true, so a later report changes nothing; the effect re-runs only
      when inView changes, i.e. once, from false to true. */
  function Step(s: CarouselState, ev: CarouselEvent): CarouselState {
    match ev
    case Visibility(v) =>
      if s.mounted && !s.inView && v then s.(inView := true, activeIntervals := s.activeIntervals + 1)
      else s
    case Tick =>
      if s.activeIntervals > 0 then s.(index := Next(s.index, |Screenshots|)) else s
    case Unmount =>
      if !s.mounted then s
      else if s.inView && s.activeIntervals > 0 then s.(mounted := false, activeIntervals := s.activeIntervals - 1)
      else s.(mounted := false)
  }

  function Run(s: CarouselState, evs: seq<CarouselEvent>): CarouselState
    decreases |evs|
  {
    if evs == [] then s else Run(Step(s, evs[0]), evs[1..])
  }

  /** The invariant: the index stays in range, and exactly one interval is
      active while the section is mounted and in view, none otherwise. */
  predicate Inv(s: CarouselState) {
    && s.index < |Screenshots|
    && s.activeIntervals == (if s.mounted && s.inView then 1 else 0)
  }

  lemma {:induction false} RunKeepsInv(s: CarouselState, evs: seq<CarouselEvent>)
    requires Inv(s)
    ensures Inv(Run(s, evs))
    decreases |evs|
  {
    if evs != [] {
      RunKeepsInv(Step(s, evs[0]), evs[1..]);
    }
  }

  /** From mount on, the index is always one of the screenshots and at most one
      interval is ever active. */
  lemma ReachableInv(evs: seq<CarouselEvent>)
    ensures Run(Initial, evs).index < 3
    ensures Run(Initial, evs).activeIntervals <= 1
  {
    RunKeepsInv(Initial, evs);
  }

  /** triggerOnce: once in view, the section stays in view. */
  lemma {:induction false} InViewStays(s: CarouselState, evs: seq<CarouselEvent>)
    requires s.inView
    ensures Run(s, evs).inView
    decreases |evs|
  {
    if evs != [] {
      InViewStays(Step(s, evs[0]), evs[1..]);
    }
  }

  /** Before the section is first reported visible no interval exists, so the
      index has not moved. */
  lemma {:induction false} NoRotationBeforeVisible(s: CarouselState, evs: seq<CarouselEvent>)
    requires !s.inView && s.activeIntervals == 0
    requires forall i | 0 <= i < |evs| :: evs[i] != Visibility(true)
    ensures Run(s, evs).index == s.index
    ensures !Run(s, evs).inView && Run(s, evs).activeIntervals == 0
    decreases |evs|
  {
    if evs != [] {
      var t := Step(s, evs[0]);
      assert t.index == s.index && !t.inView && t.activeIntervals == 0;
      NoRotationBeforeVisible(t, evs[1..]);
    }
  }

  /** After unmount the cleanup has cleared the interval: nothing changes any more. */
  lemma {:induction false} NothingAfterUnmount(s: CarouselState, evs: seq<CarouselEvent>)
    requires Inv(s) && !s.mounted
    ensures Run(s, evs) == s
    decreases |evs|
  {
    if evs != [] {
      assert Step(s, evs[0]) == s;
      NothingAfterUnmount(s, evs[1..]);
    }
  }

  /** Every tick while mounted and in view advances the index by one, modulo three,
      however the observer reports afterwards. */
  lemma VisibleTicksAdvance(s: CarouselState, v: bool)
    requires Inv(s) && s.mounted && s.inView
    ensures Run(s, [Visibility(v), Tick]).index == (s.index + 1) % 3
  {
    var evs := [Visibility(v), Tick];
    assert evs[1..] == [Tick] && [Tick][1..] == [];
    assert Run(s, evs) == Run(Step(s, Visibility(v)), [Tick]);
    assert Run(Step(s, Visibility(v)), [Tick]) == Step(Step(s, Visibility(v)), Tick);
  }

  /** The number of timer firings among the events. */
  function TickCount(evs: seq<CarouselEvent>): (k: nat)
    ensures k <= |evs|
    ensures k == 0 <==> Tick !in evs
    decreases |evs|
  {
    if evs == [] then 0 else (if evs[0] == Tick then 1 else 0) + TickCount(evs[1..])
  }

  /** Without an unmount the section stays mounted, whatever the observer and
      the clock do. */
  lemma {:induction false} MountedUntilUnmount(s: CarouselState, evs: seq<CarouselEvent>)
    requires s.mounted
    requires CarouselEvent.Unmount !in evs
    ensures Run(s, evs).mounted
    decreases |evs|
  {
    if evs != [] {
      assert evs[0] != CarouselEvent.Unmount && CarouselEvent.Unmount !in evs[1..];
      MountedUntilUnmount(Step(s, evs[0]), evs[1..]);
    }
  }

  /** Rotation continues until unmount: once the section is in view, any events
      short of an unmount move the index exactly as many places (modulo the
      number of screenshots) as there were timer firings among them. */
  lemma {:induction false} RotationUntilUnmount(s: CarouselState, evs: seq<CarouselEvent>)
    requires Inv(s) && s.mounted && s.inView
    requires CarouselEvent.Unmount !in evs
    ensures Inv(Run(s, evs)) && Run(s, evs).mounted && Run(s, evs).inView
    ensures Run(s, evs).index == Rotate(s.index, |Screenshots|, TickCount(evs))
    decreases |evs|
  {
    if evs != [] {
      var t := Step(s, evs[0]);
      assert evs[0] != CarouselEvent.Unmount && CarouselEvent.Unmount !in evs[1..];
      if evs[0] == Tick {
        assert t == s.(index := Next(s.index, |Screenshots|));
      } else {
        assert t == s;
      }
      RotationUntilUnmount(t, evs[1..]);
    }
  }

  /** k firings in a row, once in view, are k interval callbacks. */
  lemma TicksRotate(s: CarouselState, k: nat)
    requires Inv(s) && s.mounted && s.inView
    ensures Run(s, seq(k, _ => Tick)).index == Rotate(s.index, |Screenshots|, k)
  {
    var evs := seq(k, _ => Tick);
    assert forall i | 0 <= i < |evs| :: evs[i] == Tick;
    TicksAreCounted(evs);
    RotationUntilUnmount(s, evs);
  }

  lemma {:induction false} TicksAreCounted(evs: seq<CarouselEvent>)
    requires forall i | 0 <= i < |evs| :: evs[i] == Tick
    ensures TickCount(evs) == |evs| && CarouselEvent.Unmount !in evs
    decreases |evs|
  {
    if evs != [] {
      TicksAreCounted(evs[1..]);
    }
  }

  /** From mount, a first sighting followed by any three firings, and no unmount,
      shows the screenshot it started from again. */
  lemma ThreeTicksAfterSighting(evs: seq<CarouselEvent>)
    requires CarouselEvent.Unmount !in evs && TickCount(evs) == 3
    ensures Run(Initial, [Visibility(true)] + evs).index == Initial.index
  {
    var s := Step(Initial, Visibility(true));
    assert ([Visibility(true)] + evs)[1..] == evs;
    assert Run(Initial, [Visibility(true)] + evs) == Run(s, evs);
    RotationUntilUnmount(s, evs);
    FullCycle(0, |Screenshots|);
  }

  class AppPreviewSection {
    var mounted: bool
    var inView: bool
    var currentScreenshot: nat
    var activeIntervals: nat

    ghost function State(): CarouselState
      reads this
    {
      CarouselState(mounted, inView, currentScreenshot, activeIntervals)
    }

    ghost predicate Valid()
      reads this
    {
      Inv(State())
    }

    constructor ()
      ensures Valid() && State() == Initial
    {
      mounted, inView, currentScreenshot, activeIntervals := true, false, 0, 0;
    }

    /** The observer's report.  The first true report sets inView and re-runs the
        effect, which installs one interval; every other report is ignored. */
    method ObserverReports(visible: bool)
      requires Valid()
      modifies this
      ensures Valid() && State() == Step(old(State()), Visibility(visible))
      ensures old(inView) ==> inView && activeIntervals == old(activeIntervals)
      ensures currentScreenshot == old(currentScreenshot)
    {
      if mounted && !inView && visible {
        inView := true;
        activeIntervals := activeIntervals + 1;
      }
    }

    /** A period elapses: the interval callback runs if an interval is installed. */
    method ClockTick()
      requires Valid()
      modifies this
      ensures Valid() && State() == Step(old(State()), Tick)
      ensures old(mounted && inView) ==> currentScreenshot == (old(currentScreenshot) + 1) % |Screenshots|
      ensures !old(mounted && inView) ==> currentScreenshot == old(currentScreenshot)
      ensures mounted == old(mounted) && inView == old(inView) && activeIntervals == old(activeIntervals)
    {
      if activeIntervals > 0 {
        currentScreenshot := (currentScreenshot + 1) % |Screenshots|;
      }
    }

    /** Unmounting runs the effect's cleanup, clearing the interval if there is one. */
    method Unmount()
      requires Valid()
      modifies this
      ensures Valid() && State() == Step(old(State()), CarouselEvent.Unmount)
      ensures !mounted && activeIntervals == 0
      ensures currentScreenshot == old(currentScreenshot)
    {
      if mounted {
        if inView && activeIntervals > 0 {
          activeIntervals := activeIntervals - 1;
        }
        mounted := false;
      }
    }
  }
}
