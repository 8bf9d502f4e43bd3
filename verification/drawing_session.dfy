/** The page session of the estimator: one collection of drawn polygons,
    the result panel (area and perimeter, or a warning) and the cost panel.

    Three handlers change it: the drawing tool's `onDraw`, the "Erase Last"
    button and the "Compute Area" button. Polygons are opaque (`P`); their
    union's area and perimeter come from the platform, passed in as the
    function `measure`. */
module DrawingSession {
  import opened Wrappers
  import opened Rounding
  import opened CostModel

  /** The platform's area (m²) and perimeter (m) of the union of a collection. */
  datatype Measurement = Measurement(area: NonNegReal, perimeter: NonNegReal)

  /** What the result panel shows. */
  datatype ResultView =
    | Blank
    | NoPolygonWarning
    | Measured(area: nat, perimeter: nat)

  /** The drawn collection and the two panels; `costs` is the cost panel,
      `None` when it is blank. */
  datatype Session<P> = Session(drawn: seq<P>, result: ResultView, costs: Option<Breakdown>)

  /** The page as loaded: an empty collection and two blank panels. */
  function Initial<P>(): Session<P> {
    Session([], Blank, None)
  }

  /** `onDraw`: the new polygon is merged into the collection. */
  function Draw<P>(s: Session<P>, geometry: P): (s': Session<P>)
    ensures |s'.drawn| == |s.drawn| + 1
    ensures s'.drawn[..|s.drawn|] == s.drawn
    ensures s'.drawn[|s.drawn|] == geometry
    ensures s'.result == s.result && s'.costs == s.costs
  {
    s.(drawn := s.drawn + [geometry])
  }

  /** "Erase Last": despite the label, the whole collection is replaced by an
      empty one, and both panels are cleared. */
  function EraseLast<P>(s: Session<P>): (s': Session<P>)
    ensures s'.drawn == []
    ensures s'.result == Blank
    ensures s'.costs == None
  {
    Initial()
  }

  /** "Compute Area". With nothing drawn, only the result panel changes, to
      the warning. Otherwise the result panel shows the rounded area and
      perimeter of the union and the cost panel the breakdown for that area. */
  function ComputeArea<P>(s: Session<P>, measure: seq<P> -> Measurement): (s': Session<P>)
    ensures s'.drawn == s.drawn
    ensures s'.result == NoPolygonWarning <==> |s.drawn| == 0
    ensures |s.drawn| == 0 ==> s'.costs == s.costs
    ensures |s.drawn| > 0 ==>
      && s'.result.Measured?
      && NearestHalfUp(measure(s.drawn).area, s'.result.area)
      && NearestHalfUp(measure(s.drawn).perimeter, s'.result.perimeter)
      && s'.costs == Some(Estimate(s'.result.area))
  {
    if |s.drawn| == 0 then
      s.(result := NoPolygonWarning)
    else
      var m := measure(s.drawn);
      var area := RoundReal(m.area);
      Session(s.drawn, Measured(area, RoundReal(m.perimeter)), Some(Estimate(area)))
  }

  /** A user action. */
  datatype Event<P> = Drew(geometry: P) | ErasePressed | ComputePressed

  /** The handler each action reaches: the drawing tool's `onDraw`, the
      "Erase Last" button, the "Compute Area" button. Only drawing and
      erasing touch the collection. */
  function Step<P>(s: Session<P>, e: Event<P>, measure: seq<P> -> Measurement): (s': Session<P>)
    ensures s'.drawn
         == if e.ErasePressed? then [] else s.drawn + (if e.Drew? then [e.geometry] else [])
    ensures e.Drew? ==> s'.result == s.result && s'.costs == s.costs
    ensures e.ErasePressed? ==> s'.result == Blank && s'.costs == None
    ensures e.ComputePressed? ==> (s'.result == NoPolygonWarning <==> |s.drawn| == 0)
  {
    match e
    case Drew(g) => Draw(s, g)
    case ErasePressed => EraseLast(s)
    case ComputePressed => ComputeArea(s, measure)
  }

  /** The session after a sequence of actions, first action first. */
  function Run<P>(s: Session<P>, events: seq<Event<P>>, measure: seq<P> -> Measurement): Session<P>
    decreases |events|
  {
    if |events| == 0 then s else Run(Step(s, events[0], measure), events[1..], measure)
  }

  lemma {:induction false} RunSnoc<P>(s: Session<P>, events: seq<Event<P>>, e: Event<P>,
                                     measure: seq<P> -> Measurement)
    ensures Run(s, events + [e], measure) == Step(Run(s, events, measure), e, measure)
    decreases |events|
  {
    if |events| == 0 {
      assert events + [e] == [e];
    } else {
      assert (events + [e])[1..] == events[1..] + [e];
      RunSnoc(Step(s, events[0], measure), events[1..], e, measure);
    }
  }

  // ---- What the collection holds after a run, stated independently ----

  ghost predicate HasErase<P>(events: seq<Event<P>>) {
    exists i :: 0 <= i < |events| && events[i].ErasePressed?
  }

  /** The events after the last "Erase Last", or all of them if there is none. */
  function AfterLastErase<P>(events: seq<Event<P>>): (tail: seq<Event<P>>)
    ensures |tail| <= |events|
    ensures tail == events[|events| - |tail|..]
    ensures forall i :: 0 <= i < |tail| ==> !tail[i].ErasePressed?
    ensures |tail| < |events| ==> events[|events| - |tail| - 1].ErasePressed?
  {
    if |events| == 0 then []
    else if events[|events| - 1].ErasePressed? then []
    else AfterLastErase(events[..|events| - 1]) + [events[|events| - 1]]
  }

  /** The geometries of the draw events, in order. */
  function Draws<P>(events: seq<Event<P>>): seq<P> {
    if |events| == 0 then []
    else
      var last := events[|events| - 1];
      Draws(events[..|events| - 1]) + (if last.Drew? then [last.geometry] else [])
  }

  lemma HasEraseSnoc<P>(pre: seq<Event<P>>, e: Event<P>)
    ensures HasErase(pre + [e]) <==> HasErase(pre) || e.ErasePressed?
  {
    var events := pre + [e];
    if HasErase(events) && !e.ErasePressed? {
      var i :| 0 <= i < |events| && events[i].ErasePressed?;
      assert i < |pre| && pre[i] == events[i];
    }
    if HasErase(pre) {
      var i :| 0 <= i < |pre| && pre[i].ErasePressed?;
      assert events[i] == pre[i];
    }
    if e.ErasePressed? {
      assert events[|pre|] == e;
    }
  }

  lemma DrawsSnoc<P>(pre: seq<Event<P>>, e: Event<P>)
    ensures Draws(pre + [e]) == Draws(pre) + (if e.Drew? then [e.geometry] else [])
  {
    assert (pre + [e])[..|pre|] == pre;
  }

  /** `Step`'s effect on the collection, with the result named by the caller. */
  lemma StepExtends<P>(s: Session<P>, e: Event<P>, measure: seq<P> -> Measurement, base: seq<P>)
    requires base == if e.ErasePressed? then [] else s.drawn
    ensures Step(s, e, measure).drawn == base + (if e.Drew? then [e.geometry] else [])
  {
  }

  /** The collection holds exactly the polygons drawn since the last erase,
      in drawing order, after what was there before if nothing was erased. */
  lemma {:induction false} RunDrawn<P>(s: Session<P>, events: seq<Event<P>>,
                                      measure: seq<P> -> Measurement)
    ensures Run(s, events, measure).drawn
         == (if HasErase(events) then [] else s.drawn) + Draws(AfterLastErase(events))
    decreases |events|
  {
    if |events| > 0 {
      var pre, e := events[..|events| - 1], events[|events| - 1];
      assert events == pre + [e];
      var before := Run(s, pre, measure);
      RunSnoc(s, pre, e, measure);
      RunDrawn(s, pre, measure);
      HasEraseSnoc(pre, e);
      StepExtends(before, e, measure, if e.ErasePressed? then [] else before.drawn);
      if !e.ErasePressed? {
        assert AfterLastErase(events) == AfterLastErase(pre) + [e];
        DrawsSnoc(AfterLastErase(pre), e);
      }
    }
  }

  // ---- The panels are consistent with the collection ----

  /** A cost breakdown is only ever on show next to the area it was computed
      from, and only while something is drawn. */
  ghost predicate Consistent<P>(s: Session<P>) {
    && (s.costs.Some? <==> s.result.Measured?)
    && (s.costs.Some? ==> |s.drawn| > 0 && s.costs.value == Estimate(s.result.area))
  }

  lemma {:induction false} RunPreservesConsistent<P>(s: Session<P>, events: seq<Event<P>>,
                                                    measure: seq<P> -> Measurement)
    requires Consistent(s)
    ensures Consistent(Run(s, events, measure))
    decreases |events|
  {
    if |events| > 0 {
      RunPreservesConsistent(Step(s, events[0], measure), events[1..], measure);
    }
  }

  /** Every session the page can reach is consistent; in particular, when
      nothing is drawn, "Compute Area" shows the warning and nothing else:
      no area, no perimeter, no cost figure, and the collection stays empty. */
  lemma ComputeWithNothingDrawn<P>(events: seq<Event<P>>, measure: seq<P> -> Measurement)
    ensures Consistent(Run(Initial(), events, measure))
    ensures Run(Initial(), events, measure).drawn == [] ==>
      ComputeArea(Run(Initial(), events, measure), measure) == Session([], NoPolygonWarning, None)
  {
    RunPreservesConsistent(Initial(), events, measure);
  }

  /** "Erase Last" followed by "Compute Area" always ends at the warning,
      whatever was drawn before. */
  lemma ComputeAfterErase<P>(s: Session<P>, measure: seq<P> -> Measurement)
    ensures ComputeArea(EraseLast(s), measure) == Session([], NoPolygonWarning, None)
  {
  }

  /** The collection without its last polygon, which is what the button's
      label promises. */
  function DropLast<P>(xs: seq<P>): (ys: seq<P>)
    ensures |xs| > 0 ==> xs == ys + [xs[|xs| - 1]]
    ensures |xs| == 0 ==> ys == []
  {
    if |xs| == 0 then [] else xs[..|xs| - 1]
  }

  /** "Erase Last" agrees with removing only the last polygon exactly when at
      most one polygon is drawn; with two or more it also discards the rest. */
  lemma EraseLastIsDropLastOnlyUpToOne<P>(s: Session<P>)
    ensures EraseLast(s).drawn == DropLast(s.drawn) <==> |s.drawn| <= 1
  {
  }
}
