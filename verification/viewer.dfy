/**
  The full-screen PDF viewer: its zoom and rotation controls, the reset on
  close, the loading and error flags driven by the embedded frame, the list of
  related resources shown beside the document, and which parts are on screen.
  The viewer's React state is one record and every handler one transition.
 */
module Viewer {
  import opened Seqs
  import PdfData
  import DriveLinks

  type Resource = PdfData.Resource

  const MinZoom: int := 50
  const MaxZoom: int := 200
  const ZoomStep: int := 25
  const InitialZoom: int := 100
  const RelatedLimit: nat := 6
  const LoadFailure: string := "Failed to load PDF. This might be due to browser restrictions."

  datatype State = State(fullscreen: bool, zoom: int, rotation: int, loading: bool,
                         error: Option<string>, showControls: bool, related: seq<Resource>)

  /** The state the component mounts with. */
  const Initial: State := State(false, InitialZoom, 0, true, None, true, [])

  // ---------------------------------------------------------------------------
  // Zoom and rotation
  // ---------------------------------------------------------------------------

  /** A zoom level the buttons can reach: a multiple of 25 between 50 and 200 per cent. */
  predicate ZoomLevel(z: int)
  {
    MinZoom <= z <= MaxZoom && z % ZoomStep == 0
  }

  /** One of the four quarter turns. */
  predicate QuarterTurn(r: int)
  {
    0 <= r < 360 && r % 90 == 0
  }

  function ZoomIn(z: int): (r: int)
    ensures ZoomLevel(z) ==> ZoomLevel(r)
    ensures r <= MaxZoom && (z <= MaxZoom ==> r >= z)
  {
    Min(z + ZoomStep, MaxZoom)
  }

  function ZoomOut(z: int): (r: int)
    ensures ZoomLevel(z) ==> ZoomLevel(r)
    ensures r >= MinZoom && (z >= MinZoom ==> r <= z)
  {
    Max(z - ZoomStep, MinZoom)
  }

  /** Zooming in and back out returns to the start, except at the top where zoom-in does nothing. */
  lemma ZoomInOut(z: int)
    requires ZoomLevel(z)
    ensures z < MaxZoom ==> ZoomOut(ZoomIn(z)) == z
    ensures z > MinZoom ==> ZoomIn(ZoomOut(z)) == z
    ensures ZoomIn(z) == z <==> z == MaxZoom
    ensures ZoomOut(z) == z <==> z == MinZoom
  {
  }

  function ZoomInTimes(z: int, n: nat): int
  {
    if n == 0 then z else ZoomIn(ZoomInTimes(z, n - 1))
  }

  /** n presses of zoom-in from a level z add 25 per press until 200 is reached. */
  lemma {:induction false} ZoomInTimesSaturates(z: int, n: nat)
    requires ZoomLevel(z)
    ensures ZoomInTimes(z, n) == Min(z + ZoomStep * n, MaxZoom)
    decreases n
  {
    if n > 0 {
      ZoomInTimesSaturates(z, n - 1);
    }
  }

  /** `(prev + 90) % 360`; the angle is never negative, so the remainders agree. */
  function Rotate(r: int): (t: int)
    requires r >= 0
    ensures QuarterTurn(r) ==> QuarterTurn(t)
    ensures 0 <= t < 360
  {
    (r + 90) % 360
  }

  /** Four quarter turns bring every reachable angle back to itself. */
  lemma RotateFour(r: int)
    requires QuarterTurn(r)
    ensures Rotate(Rotate(Rotate(Rotate(r)))) == r
    ensures Rotate(r) != r
  {
  }

  function RotateTimes(n: nat): (t: int)
    ensures 0 <= t < 360
  {
    if n == 0 then 0 else Rotate(RotateTimes(n - 1))
  }

  /** After n presses from the upright page the angle is 90n degrees reduced modulo a full turn. */
  lemma {:induction false} RotateTimesAngle(n: nat)
    ensures RotateTimes(n) == (90 * n) % 360
    decreases n
  {
    if n > 0 {
      RotateTimesAngle(n - 1);
      QuarterAfter(90 * (n - 1));
    }
  }

  /** Reducing before or after adding a quarter turn gives the same angle. */
  lemma QuarterAfter(k: nat)
    ensures (k % 360 + 90) % 360 == (k + 90) % 360
  {
    assert k == (k / 360) * 360 + k % 360;
    assert k + 90 == (k / 360) * 360 + (k % 360 + 90);
  }

  // ---------------------------------------------------------------------------
  // Handlers
  // ---------------------------------------------------------------------------

  /**
    The handlers that change the viewer's own state. `Fullscreen(on)` is the
    document's fullscreen-change notification with the new flag.
   */
  datatype Event =
    | ZoomInPressed
    | ZoomOutPressed
    | RotatePressed
    | FrameLoaded
    | FrameFailed
    | RelatedSelected
    | Fullscreen(on: bool)

  /** What `handleClose` leaves behind, and whether it asks the document to leave fullscreen first. */
  datatype Closed = Closed(state: State, exitFullscreen: bool)

  /** The invariant every reachable state keeps. */
  predicate Valid(v: State)
  {
    && ZoomLevel(v.zoom)
    && QuarterTurn(v.rotation)
    && (v.loading ==> v.error.None?)
    && |v.related| <= RelatedLimit
  }

  function Step(v: State, e: Event): (r: State)
    requires v.rotation >= 0
    ensures r.related == v.related
    ensures r.rotation >= 0
    ensures e.Fullscreen? ==> r.fullscreen == e.on && (!e.on ==> r.showControls)
    ensures !e.Fullscreen? ==> r.fullscreen == v.fullscreen && r.showControls == v.showControls
    ensures e.FrameLoaded? ==> !r.loading && r.error == None
    ensures e.FrameFailed? ==> !r.loading && r.error == Some(LoadFailure)
    ensures e.RelatedSelected? ==> r.loading && r.error == None
  {
    match e
    case ZoomInPressed => v.(zoom := ZoomIn(v.zoom))
    case ZoomOutPressed => v.(zoom := ZoomOut(v.zoom))
    case RotatePressed => v.(rotation := Rotate(v.rotation))
    case FrameLoaded => v.(loading := false, error := None)
    case FrameFailed => v.(loading := false, error := Some(LoadFailure))
    case RelatedSelected => v.(loading := true, error := None)
    case Fullscreen(on) => if on then v.(fullscreen := true) else v.(fullscreen := false, showControls := true)
  }

  function Close(v: State): (r: Closed)
    ensures r.state.zoom == InitialZoom && r.state.rotation == 0
    ensures !r.state.fullscreen && r.state.error == None
    ensures r.state.loading == v.loading && r.state.showControls == v.showControls && r.state.related == v.related
    ensures r.exitFullscreen <==> v.fullscreen
  {
    Closed(v.(fullscreen := false, zoom := InitialZoom, rotation := 0, error := None), v.fullscreen)
  }

  /** Closing forgets zoom and rotation: closing after a zoom or a turn is closing straight away. */
  lemma CloseForgetsView(v: State, e: Event)
    requires v.rotation >= 0
    requires e.ZoomInPressed? || e.ZoomOutPressed? || e.RotatePressed?
    ensures Close(Step(v, e)) == Close(v)
  {
  }

  /** Closing twice is closing once, and the second close never asks to leave fullscreen. */
  lemma CloseIdempotent(v: State)
    ensures Close(Close(v).state).state == Close(v).state
    ensures !Close(Close(v).state).exitFullscreen
  {
  }

  /** The frame reports after a selection: a load clears the error, a failure leaves exactly one. */
  lemma SelectThenFrame(v: State)
    requires v.rotation >= 0
    ensures var s := Step(v, RelatedSelected);
      && Step(s, FrameLoaded) == v.(loading := false, error := None)
      && Step(s, FrameFailed) == v.(loading := false, error := Some(LoadFailure))
  {
  }

  // ---------------------------------------------------------------------------
  // Related resources
  // ---------------------------------------------------------------------------

  /** The test that keeps every resource other than the open one. */
  function Other(current: string): Resource -> bool
  {
    (x: Resource) => x.id != current
  }

  /** The fetched list without the open resource, cut to its first six entries. */
  function Related(fetched: seq<Resource>, current: string): (r: seq<Resource>)
    ensures |r| <= RelatedLimit
    ensures forall x :: x in r ==> x in fetched && x.id != current
  {
    Take(Filter(Other(current), fetched), RelatedLimit)
  }

  /** A walk over the fetched list that keeps each other resource while fewer than n are kept. */
  function Collect(fetched: seq<Resource>, current: string, n: nat): seq<Resource>
  {
    if |fetched| == 0 || n == 0 then []
    else if fetched[0].id != current then [fetched[0]] + Collect(fetched[1..], current, n - 1)
    else Collect(fetched[1..], current, n)
  }

  lemma {:induction false} TakeFilterCollect(fetched: seq<Resource>, current: string, n: nat)
    ensures Take(Filter(Other(current), fetched), n) == Collect(fetched, current, n)
    decreases |fetched|
  {
    if |fetched| > 0 && n > 0 {
      var rest := fetched[1..];
      var keep := fetched[0].id != current;
      TakeFilterCollect(rest, current, if keep then n - 1 else n);
      FilterCons(Other(current), fetched);
      if keep {
        TakeCons(fetched[0], Filter(Other(current), rest), n);
      }
    }
  }

  lemma TakeCons<T>(x: T, xs: seq<T>, n: nat)
    requires n > 0
    ensures Take([x] + xs, n) == [x] + Take(xs, n - 1)
  {
    assert ([x] + xs)[..Min(n, |xs| + 1)] == [x] + xs[..Min(n - 1, |xs|)];
  }

  /** The related list is the first six other resources met in fetched order. */
  lemma RelatedIsCollect(fetched: seq<Resource>, current: string)
    ensures Related(fetched, current) == Collect(fetched, current, RelatedLimit)
  {
    TakeFilterCollect(fetched, current, RelatedLimit);
  }

  /** Fewer than six related resources means none was cut: every other fetched resource is listed. */
  lemma RelatedComplete(fetched: seq<Resource>, current: string, x: Resource)
    requires |Related(fetched, current)| < RelatedLimit
    requires x in fetched && x.id != current
    ensures x in Related(fetched, current)
  {
  }

  /** The fetch result, `None` when the service threw: the list is then left as it was. */
  function Fetched(v: State, current: string, fetched: Option<seq<Resource>>): (r: State)
    ensures fetched.None? ==> r == v
    ensures fetched.Some? ==> r.related == Related(fetched.value, current) && r == v.(related := r.related)
  {
    match fetched
    case None => v
    case Some(rs) => v.(related := Related(rs, current))
  }

  // ---------------------------------------------------------------------------
  // The invariant
  // ---------------------------------------------------------------------------

  lemma InitialValid()
    ensures Valid(Initial)
  {
  }

  /** Every handler, the fetch and the close keep the invariant. */
  lemma StepValid(v: State, e: Event, current: string, fetched: Option<seq<Resource>>)
    requires Valid(v)
    ensures Valid(Step(v, e))
    ensures Valid(Fetched(v, current, fetched))
    ensures Valid(Close(v).state)
  {
  }

  function Run(v: State, es: seq<Event>): State
    requires v.rotation >= 0
    decreases |es|
  {
    if |es| == 0 then v else Run(Step(v, es[0]), es[1..])
  }

  /** From the mounted state, any sequence of handlers keeps the invariant. */
  lemma {:induction false} RunValid(v: State, es: seq<Event>)
    requires Valid(v)
    ensures Valid(Run(v, es))
    decreases |es|
  {
    if |es| > 0 {
      StepValid(v, es[0], "", None);
      RunValid(Step(v, es[0]), es[1..]);
    }
  }

  // ---------------------------------------------------------------------------
  // What is on screen
  // ---------------------------------------------------------------------------

  /** The header and footer bars. */
  predicate ControlsVisible(v: State)
  {
    v.showControls || !v.fullscreen
  }

  /** The related-resources sidebar. */
  predicate SidebarVisible(v: State)
  {
    !v.fullscreen && |v.related| > 0
  }

  /** What the component draws: the frame address, the two bars and the sidebar entries. */
  datatype Screen = Screen(embed: string, controls: bool, sidebar: seq<Resource>)

  function Render(open: bool, resource: Option<Resource>, v: State): (r: Option<Screen>)
    ensures r.Some? <==> open && resource.Some?
    ensures r.Some? ==> r.value.embed == DriveLinks.EmbedLink(resource.value.fileLink)
    ensures r.Some? ==> (r.value.controls <==> v.showControls || !v.fullscreen)
    ensures r.Some? ==> (|r.value.sidebar| > 0 <==> !v.fullscreen && |v.related| > 0)
  {
    if !open || resource.None? then None
    else
      Some(Screen(DriveLinks.EmbedLink(resource.value.fileLink), ControlsVisible(v),
                  if SidebarVisible(v) then v.related else []))
  }

  /** Outside fullscreen both bars show; the sidebar appears only with the bars. */
  lemma ControlsOutsideFullscreen(v: State)
    requires v.rotation >= 0
    ensures !v.fullscreen ==> ControlsVisible(v)
    ensures SidebarVisible(v) ==> ControlsVisible(v)
    ensures ControlsVisible(Step(v, Fullscreen(false))) && !SidebarVisible(Step(v, Fullscreen(true)))
  {
  }

  /** After closing, the bars are back and the sidebar shows whatever related list was loaded. */
  lemma ControlsAfterClose(v: State)
    ensures ControlsVisible(Close(v).state)
    ensures SidebarVisible(Close(v).state) <==> |v.related| > 0
  {
  }
}
