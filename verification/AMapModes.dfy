/** Mode changes while a button is held. */
module AMapModes {
  import opened Curve
  import opened AMap

  /** Allowed, or a change from the one mode to the other. */
  predicate AllowedBut(mode: int, held: bool, w: int, e: Event, from: int, to: int) {
    Allowed(mode, held, w, e) || (mode == from && e == SetMode(to))
  }

  predicate AllAllowedBut(mode: int, held: bool, w: int, es: seq<Event>, from: int, to: int)
    decreases |es|
  {
    es == [] ||
    (AllowedBut(mode, held, w, es[0], from, to) &&
     AllAllowedBut(ModeAfter(mode, es[0]), HeldAfter(held, es[0]), w, es[1..], from, to))
  }

  function First(w: int, h: int): Machine
    requires w >= 1
  {
    Machine(Cleared(Blank(w), w, h), NOACTION, false)
  }

  /** Slide to the right end, and add a point in column 1. */
  function AddAtRight(w: int): seq<Event> {
    [SetMode(SLIDE), Press(w - 1, 0), Motion(0, 0), Release(0, 0), SetMode(ADD), Press(1, 0), Release(1, 0)]
  }

  /** Press in the one mode, change to the other with the button held, and drag to the right. */
  function ChangeAndDrag(w: int, from: int, to: int): seq<Event> {
    [SetMode(from), Press(1, 0), SetMode(to), SetMode(ADD), Motion(w + 1, 0)]
  }

  lemma {:induction false} RunSplit(m: Machine, w: int, h: int, es: seq<Event>, fs: seq<Event>)
    requires AllPossible(m, w, h, es)
    ensures AllPossible(m, w, h, es + fs) <==> AllPossible(Run(m, w, h, es), w, h, fs)
    ensures AllPossible(m, w, h, es + fs) ==> Run(m, w, h, es + fs) == Run(Run(m, w, h, es), w, h, fs)
    decreases |es|
  {
    hide Possible, Step;
    if es == [] {
      assert es + fs == fs;
    } else {
      assert (es + fs)[1..] == es[1..] + fs;
      RunSplit(Step(m, w, h, es[0]), w, h, es[1..], fs);
    }
  }

  lemma RunFirst(m: Machine, w: int, h: int, e: Event, es: seq<Event>)
    requires Possible(m, w, e)
    ensures AllPossible(m, w, h, [e] + es) <==> AllPossible(Step(m, w, h, e), w, h, es)
    ensures AllPossible(m, w, h, [e] + es) ==> Run(m, w, h, [e] + es) == Run(Step(m, w, h, e), w, h, es)
  {
    hide Possible, Step;
    assert ([e] + es)[1..] == es;
  }

  /** After a slide to the right end of a cleared map column 1 is free. */
  lemma SlidRight(w: int, h: int)
    requires w >= 3
    ensures var m := First(w, h);
            var es := [SetMode(SLIDE), Press(w - 1, 0), Motion(0, 0), Release(0, 0)];
            && AllPossible(m, w, h, es)
            && var t := Run(m, w, h, es);
            Fits(t.s, w) && t.s.left == 2 * w - 1 && !t.held && !t.s.down && !t.s.p[2 * w].flag
  {
    var m := First(w, h);
    FirstClear(w, h);
    var m1 := m.(mode := SLIDE);
    var m2 := Machine(Pressed(m.s, w, h, SLIDE, w - 1, 0), SLIDE, true);
    var m3 := Machine(Slid(m2.s, w, 0), SLIDE, true);
    assert m3.s.left == 2 * w - 1;
    RunFirst(m3, w, h, Release(0, 0), []);
    RunFirst(m2, w, h, Motion(0, 0), [Release(0, 0)]);
    RunFirst(m1, w, h, Press(w - 1, 0), [Motion(0, 0), Release(0, 0)]);
    RunFirst(m, w, h, SetMode(SLIDE), [Press(w - 1, 0), Motion(0, 0), Release(0, 0)]);
  }

  /** After a point is added in an inner column the grip has no range. */
  lemma AddedLooseGrip(m: Machine, w: int, h: int)
    requires w >= 3 && Fits(m.s, w) && m.s.left == 2 * w - 1 && !m.held && !m.s.down && !m.s.p[2 * w].flag
    ensures var es := [SetMode(ADD), Press(1, 0), Release(1, 0)];
            && AllPossible(m, w, h, es)
            && var t := Run(m, w, h, es);
            Fits(t.s, w) && LooseGrip(t, w)
  {
    hide AnchoredLeft, AnchoredRight, Anchored, Ends, Interpolated, Flagged;
    var m1 := m.(mode := ADD);
    PressedOk(m.s, w, h, ADD, 1, 0);
    var m2 := Machine(Pressed(m.s, w, h, ADD, 1, 0), ADD, true);
    assert m2.s.down && m2.s.cur == 1 && m2.s.left == m.s.left;
    ReleasedOk(m2.s, w, h, ADD, 1, 0);
    RunFirst(m2, w, h, Release(1, 0), []);
    RunFirst(m1, w, h, Press(1, 0), [Release(1, 0)]);
    RunFirst(m, w, h, SetMode(ADD), [Press(1, 0), Release(1, 0)]);
  }

  predicate LooseGrip(m: Machine, w: int) {
    m.s.left == 2 * w - 1 && m.s.lo == -1 && m.s.hi == w + 1 && m.s.cur == 1 && !m.held && !m.s.down
  }

  /** With such a grip a drag to the right takes the last point of the map, and the next drag leaves it
      unset. */
  lemma LooseGripBreaks(m: Machine, w: int, h: int, from: int, to: int)
    requires !Harmless(w, from, to) && Fits(m.s, w) && LooseGrip(m, w)
    ensures AllPossible(m, w, h, ChangeAndDrag(w, from, to)) && Past(Run(m, w, h, ChangeAndDrag(w, from, to)), w)
  {
    hide Flagged, Interpolated, Ends;
    var m1 := m.(mode := from);
    PressedOk(m.s, w, h, from, 1, 0);
    var m2 := Machine(Pressed(m.s, w, h, from, 1, 0), from, true);
    assert m2.s.down && m2.s.cur == 1 && m2.s.left == m.s.left && m2.s.lo == -1 && m2.s.hi == w + 1;
    var m4 := m2.(mode := ADD);
    TakesLast(m2.s, w, h);
    RunFirst(m4, w, h, Motion(w + 1, 0), []);
    RunFirst(m2.(mode := to), w, h, SetMode(ADD), [Motion(w + 1, 0)]);
    RunFirst(m2, w, h, SetMode(to), [SetMode(ADD), Motion(w + 1, 0)]);
    RunFirst(m1, w, h, Press(1, 0), [SetMode(to), SetMode(ADD), Motion(w + 1, 0)]);
    RunFirst(m, w, h, SetMode(from), [Press(1, 0), SetMode(to), SetMode(ADD), Motion(w + 1, 0)]);
  }

  lemma TakesLast(s: State, w: int, h: int)
    requires w >= 3 && Fits(s, w) && s.down && s.left == 2 * w - 1 && s.lo == -1 && s.hi == w + 1 && s.cur == 1
    ensures Draggable(s, w, ADD, w + 1) && Past(Machine(Dragged(s, w, h, ADD, w + 1, 0), ADD, true), w)
  {
    hide Interpolated;
    var t := Dragged(s, w, h, ADD, w + 1, 0);
    assert t.cur == w;
    LeavesIff(Moved(t, 1, 0), 0);
  }

  /** A motion to column 1 would send interpolation past the last point. */
  predicate Past(m: Machine, w: int) {
    m.mode == ADD && m.s.down && Inner(w, m.s.cur) && Reaches(m.s, 1) && |m.s.p| >= 2 && Leaves(Moved(m.s, 1, 0), 0)
  }

  /** Two modes with a harmful change between them, and a run in which all the rest is allowed: its last
      motion sends interpolation past the last point. */
  lemma HarmfulChange(w: int, h: int, from: int, to: int)
    requires w >= 1 && !Harmless(w, from, to)
    ensures var es := AddAtRight(w) + ChangeAndDrag(w, from, to);
            && AllAllowedBut(NOACTION, false, w, es + [Motion(1, 0)], from, to)
            && AllPossible(First(w, h), w, h, es) && Past(Run(First(w, h), w, h, es), w)
  {
    hide Possible, Step, Fits, LooseGrip, Past, First;
    SlidRight(w, h);
    var slide := [SetMode(SLIDE), Press(w - 1, 0), Motion(0, 0), Release(0, 0)];
    var add := [SetMode(ADD), Press(1, 0), Release(1, 0)];
    var m := Run(First(w, h), w, h, slide);
    AddedLooseGrip(m, w, h);
    RunSplit(First(w, h), w, h, slide, add);
    assert AddAtRight(w) == slide + add;
    RunSplit(First(w, h), w, h, AddAtRight(w), ChangeAndDrag(w, from, to));
    LooseGripBreaks(Run(m, w, h, add), w, h, from, to);
    BreaksAllowed(w, from, to);
  }

  lemma BreaksAllowed(w: int, from: int, to: int)
    requires w >= 1 && !Harmless(w, from, to)
    ensures AllAllowedBut(NOACTION, false, w, AddAtRight(w) + ChangeAndDrag(w, from, to) + [Motion(1, 0)], from, to)
  {
    var last := [Motion(1, 0)];
    assert AllAllowedBut(ADD, true, w, last, from, to) by { assert last[1..] == []; }
    var drag := [SetMode(ADD), Motion(w + 1, 0)] + last;
    assert AllAllowedBut(to, true, w, drag, from, to) by { assert drag[1..][1..] == last; }
    var change := [SetMode(from), Press(1, 0), SetMode(to)] + drag;
    assert AllAllowedBut(ADD, false, w, change, from, to) by { assert change[1..][1..][1..] == drag; }
    var add := [SetMode(ADD), Press(1, 0), Release(1, 0)] + change;
    assert AllAllowedBut(SLIDE, false, w, add, from, to) by { assert add[1..][1..][1..] == change; }
    var slid := [Motion(0, 0), Release(0, 0)] + add;
    assert AllAllowedBut(SLIDE, true, w, slid, from, to) by { assert slid[1..][1..] == add; }
    var all := [SetMode(SLIDE), Press(w - 1, 0)] + slid;
    assert all == AddAtRight(w) + ChangeAndDrag(w, from, to) + [Motion(1, 0)] && all[1..][1..] == slid;
  }

  /** Exactly the harmless mode changes may be made while a button is held, whatever else is done. */
  lemma HarmlessIff(w: int, h: int, from: int, to: int)
    requires w >= 1
    ensures Harmless(w, from, to) <==>
            forall es :: AllAllowedBut(NOACTION, false, w, es, from, to) ==> AllPossible(First(w, h), w, h, es)
  {
    if Harmless(w, from, to) {
      forall es | AllAllowedBut(NOACTION, false, w, es, from, to)
        ensures AllPossible(First(w, h), w, h, es)
      {
        FirstClear(w, h);
        AllowedAnyway(NOACTION, false, w, es, from, to);
        RunSound(First(w, h), w, h, es);
      }
    } else {
      var es, e := AddAtRight(w) + ChangeAndDrag(w, from, to), Motion(1, 0);
      HarmfulChange(w, h, from, to);
      RunSplit(First(w, h), w, h, es, [e]);
      PastIsLast(Run(First(w, h), w, h, es), w);
      assert AllAllowedBut(NOACTION, false, w, es + [e], from, to);
    }
  }

  lemma PastIsLast(m: Machine, w: int)
    requires Past(m, w)
    ensures !Possible(m, w, Motion(1, 0))
  {
    LeavesIff(Moved(m.s, 1, 0), 0);
  }

  lemma {:induction false} AllowedAnyway(mode: int, held: bool, w: int, es: seq<Event>, from: int, to: int)
    requires Harmless(w, from, to) && AllAllowedBut(mode, held, w, es, from, to)
    ensures AllAllowed(mode, held, w, es)
    decreases |es|
  {
    if es != [] {
      AllowedAnyway(ModeAfter(mode, es[0]), HeldAfter(held, es[0]), w, es[1..], from, to);
    }
  }
}
