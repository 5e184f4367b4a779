/**
 * The main screen's controller (`AutoClickerApp`): the tap-point list, the
 * start/stop toggle, the fixed-rate tap task, the privilege bridge's
 * availability, configuration import and the floating-window button.
 *
 * Everything is one immutable state and one step function per event. UI
 * events and firings of the periodic task are interleaved as discrete steps.
 * The tap itself (`performClick`) is a platform call whose only observable
 * outcome here is whether it returned or threw, given as an input.
 */
module AutoClicker {
  import opened Optional
  import opened KotlinText
  import opened Json
  import opened ConfigDatabase
  import opened Points
  import OverlayWindow

  /** The fixed-rate period, in milliseconds, when the list is empty at start. */
  const DEFAULT_PERIOD: int := 500

  /**
   * The periodic tap task started by `LaunchedEffect(isRunning)`.
   * `Scheduled.index` is the task's own `currentIndex`. `Suppressed` is a
   * task whose run threw: the executor runs it no more. `Rejected` is a start
   * whose period was not positive: `scheduleAtFixedRate` refuses it.
   */
  datatype Timer =
    | Idle
    | Scheduled(index: nat, period: int)
    | Suppressed
    | Rejected

  /** The remembered state of the main screen. */
  datatype App = App(
    points: seq<ClickPoint>,
    isRunning: bool,
    runningFlag: bool,
    bridgeAvailable: bool,
    timer: Timer,
    store: Store<Text>,
    showFloating: bool,
    overlay: OverlayWindow.Manager)

  datatype Event =
    | AddPoint(xText: string, yText: string, intervalText: string)
    | RemovePoint(index: nat)
    | ClearPoints
    | ToggleRunning
    | Tick(clickOk: bool)
    | BridgeChanged(available: bool)
    | ImportConfig(file: Text)
    | OverlayButton(permitted: bool, platformOk: bool)
    | OverlayClose(platformOk: bool)

  /** What the user is told: a snackbar, a toast or the error dialog; and taps made. */
  datatype Notice =
    | Quiet
    | InvalidInput
    | NeedBridge
    | NeedPoints
    | Clicked(point: ClickPoint)
    | ClickFailed(point: ClickPoint)
    | ImportDone
    | ImportFailed
    | NeedOverlayPermission

  datatype Reaction = Reaction(app: App, notice: Notice)

  /** The notice a tap at `p` leaves: a made tap, or the snackbar for one that threw. */
  function TapNotice(p: ClickPoint, clickOk: bool): Notice {
    if clickOk then Clicked(p) else ClickFailed(p)
  }

  /** The screen's state when first composed over `store`. */
  function Launch(store: Store<Text>): (s: App)
    ensures s.points == Load(store)
    ensures !s.isRunning && !s.runningFlag && s.timer == Idle
    ensures !s.showFloating && !s.overlay.showing
  {
    App(Load(store), false, false, false, Idle, store, false, OverlayWindow.New())
  }

  // ---------------------------------------------------------------------
  // Adding a point
  // ---------------------------------------------------------------------

  /**
   * Kotlin's `Char.isWhitespace`: Java's `isWhitespace` (tab to carriage
   * return, the four separators U+001C to U+001F, and every Unicode space,
   * line and paragraph separator except the no-break ones) joined with
   * `isSpaceChar`, which adds back the no-break spaces.
   */
  predicate IsWhitespace(c: char) {
    || '\t' <= c <= '\r'
    || '\U{001C}' <= c <= ' '
    || c == '\U{00A0}' || c == '\U{1680}'
    || '\U{2000}' <= c <= '\U{200A}'
    || c == '\U{2028}' || c == '\U{2029}' || c == '\U{202F}' || c == '\U{205F}'
    || c == '\U{3000}'
  }

  /** `isBlank()`: empty or whitespace only. */
  predicate IsBlank(t: string) {
    forall i :: 0 <= i < |t| ==> IsWhitespace(t[i])
  }

  /** The add button is enabled only while no field is blank. */
  predicate AddEnabled(xText: string, yText: string, intervalText: string) {
    !IsBlank(xText) && !IsBlank(yText) && !IsBlank(intervalText)
  }

  /**
   * The add button's check: x and y must read as `Int`, the interval as a
   * `Long` greater than zero. The point built is the one the texts denote.
   */
  function Validate(xText: string, yText: string, intervalText: string): (r: Option<ClickPoint>)
    ensures r.Some? ==> r.value.interval > 0
    ensures r.Some? ==> Numeral(xText) == Some(r.value.x as int) &&
                        Numeral(yText) == Some(r.value.y as int) &&
                        Numeral(intervalText) == Some(r.value.interval as int)
  {
    match (ToIntOrNull(xText), ToIntOrNull(yText), ToLongOrNull(intervalText))
    case (Some(x), Some(y), Some(interval)) =>
      if interval > 0 then Some(ClickPoint(x, y, interval)) else None
    case _ => None
  }

  /**
   * The add dialog's confirm: an accepted point is appended and the whole
   * list saved; a rejected one opens the error dialog and changes nothing.
   */
  function Add(s: App, xText: string, yText: string, intervalText: string): (r: Reaction)
    ensures !AddEnabled(xText, yText, intervalText) ==> r == Reaction(s, Quiet)
    ensures AddEnabled(xText, yText, intervalText) && Validate(xText, yText, intervalText).None? ==>
              r == Reaction(s, InvalidInput)
    ensures AddEnabled(xText, yText, intervalText) && Validate(xText, yText, intervalText).Some? ==>
              && r.notice == Quiet
              && |r.app.points| == |s.points| + 1
              && r.app.points[..|s.points|] == s.points
              && r.app.points[|s.points|] == Validate(xText, yText, intervalText).value
              && Load(r.app.store) == r.app.points
              && (forall k :: k != CLICK_POINTS_KEY ==> Get(r.app.store, k) == Get(s.store, k))
              && r.app == s.(points := r.app.points, store := r.app.store)
  {
    if !AddEnabled(xText, yText, intervalText) then Reaction(s, Quiet)
    else
      match Validate(xText, yText, intervalText)
      case None => Reaction(s, InvalidInput)
      case Some(p) =>
        var points := s.points + [p];
        assert points[..|s.points|] == s.points;
        LoadSave(s.store, points);
        Reaction(s.(points := points, store := Save(s.store, points)), Quiet)
  }

  // ---------------------------------------------------------------------
  // Removing and clearing
  // ---------------------------------------------------------------------

  /** A row's remove button: exactly element `i` goes, the rest keep their order; nothing is saved. */
  function Remove(s: App, i: nat): (r: App)
    requires i < |s.points|
    ensures |r.points| == |s.points| - 1
    ensures forall j :: 0 <= j < i ==> r.points[j] == s.points[j]
    ensures forall j :: i <= j < |r.points| ==> r.points[j] == s.points[j + 1]
    ensures r == s.(points := r.points)
  {
    s.(points := s.points[..i] + s.points[i + 1..])
  }

  /** The clear button: the list empties; nothing is saved. */
  function Clear(s: App): (r: App)
    ensures |r.points| == 0
    ensures r == s.(points := r.points)
  {
    s.(points := [])
  }

  // ---------------------------------------------------------------------
  // Starting and stopping
  // ---------------------------------------------------------------------

  /** `clickPoints.getOrNull(0)?.interval ?: 500`. */
  function Period(points: seq<ClickPoint>): (p: int)
    ensures |points| == 0 ==> p == DEFAULT_PERIOD
    ensures |points| > 0 ==> p == points[0].interval as int
  {
    if |points| > 0 then points[0].interval as int else DEFAULT_PERIOD
  }

  /** The task `LaunchedEffect` schedules when running starts: from index 0, at a fixed period. */
  function Start(points: seq<ClickPoint>): (t: Timer)
    ensures Period(points) > 0 ==> t == Scheduled(0, Period(points))
    ensures Period(points) <= 0 ==> t == Rejected
  {
    if Period(points) > 0 then Scheduled(0, Period(points)) else Rejected
  }

  /**
   * The start/stop button (and the floating panels' copies of it): refused
   * without the bridge or without points; otherwise `isRunning` flips,
   * `runningFlag` follows it, and the task is started or cancelled.
   */
  function Toggle(s: App): (r: Reaction)
    ensures !s.bridgeAvailable ==> r == Reaction(s, NeedBridge)
    ensures s.bridgeAvailable && |s.points| == 0 ==> r == Reaction(s, NeedPoints)
    ensures s.bridgeAvailable && |s.points| > 0 ==>
              && r.notice == Quiet
              && r.app.isRunning == !s.isRunning
              && r.app.runningFlag == r.app.isRunning
              && (r.app.isRunning ==> r.app.timer == Start(s.points))
              && (!r.app.isRunning ==> r.app.timer == Idle)
              && r.app == s.(isRunning := r.app.isRunning, runningFlag := r.app.runningFlag, timer := r.app.timer)
  {
    if !s.bridgeAvailable then Reaction(s, NeedBridge)
    else if |s.points| == 0 then Reaction(s, NeedPoints)
    else
      var running := !s.isRunning;
      Reaction(s.(isRunning := running, runningFlag := running,
                  timer := if running then Start(s.points) else Idle), Quiet)
  }

  // ---------------------------------------------------------------------
  // One firing of the fixed-rate task
  // ---------------------------------------------------------------------

  /** The guard the task checks on every firing. */
  predicate Fires(s: App) {
    s.timer.Scheduled? && s.runningFlag && s.bridgeAvailable && |s.points| > 0
  }

  /**
   * One firing: tap `points[currentIndex]` and advance the index modulo the
   * current length, whether the tap returned or threw. Reading an index past
   * the end throws outside the try, and the executor suppresses the task.
   * Only the task changes.
   */
  function Fire(s: App, clickOk: bool): (r: Reaction)
    ensures r.app == s.(timer := r.app.timer)
    ensures !Fires(s) ==> r == Reaction(s, Quiet)
    ensures r.notice.Clicked? || r.notice.ClickFailed? ==> r.notice.point in s.points
    ensures r.app.timer.Scheduled? ==> s.timer.Scheduled? && r.app.timer.period == s.timer.period
  {
    if !Fires(s) then Reaction(s, Quiet)
    else if s.timer.index >= |s.points| then Reaction(s.(timer := Suppressed), Quiet)
    else
      var p := s.points[s.timer.index];
      var next := Scheduled((s.timer.index + 1) % |s.points|, s.timer.period);
      Reaction(s.(timer := next), TapNotice(p, clickOk))
  }

  // ---------------------------------------------------------------------
  // Import and the floating window
  // ---------------------------------------------------------------------

  /**
   * A configuration file chosen for import: `parseConfig` writes the store
   * only; the list on screen is not reloaded.
   */
  function Import(s: App, file: Text): (r: Reaction)
    ensures r.app == s.(store := r.app.store)
    ensures r.notice == (if ConfigPoints(file).Some? then ImportDone else ImportFailed)
    ensures ConfigPoints(file).Some? ==> Load(r.app.store) == ConfigPoints(file).value
    ensures ConfigPoints(file).None? ==> r.app == s
  {
    var done := ConfigPoints(file).Some?;
    Reaction(s.(store := ParseConfig(s.store, file)), if done then ImportDone else ImportFailed)
  }

  /**
   * The floating-window button: without overlay permission only a snackbar;
   * otherwise hide or show through the manager, then flip `showFloatingWindow`
   * whether or not the manager's platform call succeeded.
   */
  function OverlayToggle(s: App, permitted: bool, platformOk: bool): (r: Reaction)
    ensures !permitted ==> r == Reaction(s, NeedOverlayPermission)
    ensures permitted ==> r.app.showFloating == !s.showFloating
    ensures permitted && s.showFloating ==> r.app.overlay == OverlayWindow.Hide(s.overlay, platformOk)
    ensures permitted && !s.showFloating ==> r.app.overlay == OverlayWindow.Show(s.overlay, platformOk)
    ensures r.app == s.(showFloating := r.app.showFloating, overlay := r.app.overlay)
  {
    if !permitted then Reaction(s, NeedOverlayPermission)
    else
      var overlay := if s.showFloating then OverlayWindow.Hide(s.overlay, platformOk)
                     else OverlayWindow.Show(s.overlay, platformOk);
      Reaction(s.(showFloating := !s.showFloating, overlay := overlay), Quiet)
  }

  /** The floating panel's close button: clear the screen's flag, then hide. */
  function OverlayDismiss(s: App, platformOk: bool): (r: App)
    ensures !r.showFloating
    ensures r.overlay == OverlayWindow.Hide(s.overlay, platformOk)
    ensures r == s.(showFloating := false, overlay := r.overlay)
  {
    s.(showFloating := false, overlay := OverlayWindow.Hide(s.overlay, platformOk))
  }

  // ---------------------------------------------------------------------
  // Event dispatch and runs
  // ---------------------------------------------------------------------

  /**
   * One event. A remove for a row that is not on screen, or a close on a
   * panel that is not shown, has no control to come from and does nothing.
   */
  /**
   * One event on the screen. Each piece of state has its own writers: only
   * an add or an import writes the store, only the list controls change the
   * list, only the start/stop button changes `isRunning`, only the firing
   * and the button touch the task, and only the floating-window controls
   * touch the window.
   */
  function Step(s: App, e: Event): (r: Reaction)
    ensures !(e.AddPoint? || e.ImportConfig?) ==> r.app.store == s.store
    ensures !(e.AddPoint? || e.RemovePoint? || e.ClearPoints?) ==> r.app.points == s.points
    ensures !e.ToggleRunning? ==> r.app.isRunning == s.isRunning && r.app.runningFlag == s.runningFlag
    ensures !(e.ToggleRunning? || e.Tick?) ==> r.app.timer == s.timer
    ensures !e.BridgeChanged? ==> r.app.bridgeAvailable == s.bridgeAvailable
    ensures !(e.OverlayButton? || e.OverlayClose?) ==>
              r.app.overlay == s.overlay && r.app.showFloating == s.showFloating
  {
    match e
    case AddPoint(x, y, interval) => Add(s, x, y, interval)
    case RemovePoint(i) => if i < |s.points| then Reaction(Remove(s, i), Quiet) else Reaction(s, Quiet)
    case ClearPoints => Reaction(Clear(s), Quiet)
    case ToggleRunning => Toggle(s)
    case Tick(ok) => Fire(s, ok)
    case BridgeChanged(available) => Reaction(s.(bridgeAvailable := available), Quiet)
    case ImportConfig(file) => Import(s, file)
    case OverlayButton(permitted, ok) => OverlayToggle(s, permitted, ok)
    case OverlayClose(ok) => if s.overlay.showing then Reaction(OverlayDismiss(s, ok), Quiet) else Reaction(s, Quiet)
  }

  function Run(s: App, es: seq<Event>): App
    decreases |es|
  {
    if |es| == 0 then s else Run(Step(s, es[0]).app, es[1..])
  }

  function Notices(s: App, es: seq<Event>): (ns: seq<Notice>)
    ensures |ns| == |es|
    decreases |es|
  {
    if |es| == 0 then [] else [Step(s, es[0]).notice] + Notices(Step(s, es[0]).app, es[1..])
  }
}
