/**
 * `FloatingWindowManager`: the floating control panel drawn over other apps.
 * A two-state machine on `isWindowShowing`; the flag changes only when the
 * window manager's `addView` / `removeView` call returns normally, which the
 * model takes as a boolean input.
 */
module OverlayWindow {

  /**
   * `showing` is `isWindowShowing`; `viewCreated` records that the lateinit
   * `windowManager` and `composeView` have been assigned, which happens the
   * first time `showFloatingWindow` gets past its early return.
   */
  datatype Manager = Manager(showing: bool, viewCreated: bool)

  /** A freshly constructed manager. */
  function New(): (m: Manager)
    ensures !m.showing
  {
    Manager(false, false)
  }

  /** A shown window always has its view and window manager. */
  predicate Consistent(m: Manager) {
    m.showing ==> m.viewCreated
  }

  /** `showFloatingWindow`; `addOk` says whether `addView` returned normally. */
  function Show(m: Manager, addOk: bool): (r: Manager)
    ensures m.showing ==> r == m
    ensures !m.showing ==> (r.showing <==> addOk) && r.viewCreated
    ensures Consistent(m) ==> Consistent(r)
  {
    if m.showing then m else Manager(addOk, true)
  }

  /** `hideFloatingWindow`; `removeOk` says whether `removeView` returned normally. */
  function Hide(m: Manager, removeOk: bool): (r: Manager)
    ensures !m.showing ==> r == m
    ensures Consistent(m) && m.showing ==> (!r.showing <==> removeOk)
    ensures r.viewCreated == m.viewCreated
    ensures Consistent(m) ==> Consistent(r)
  {
    if m.showing && m.viewCreated then Manager(!removeOk, m.viewCreated) else m
  }

  /** A platform call made on the manager, with whether it returned normally. */
  datatype Call = ShowCall(addOk: bool) | HideCall(removeOk: bool)

  function Apply(m: Manager, c: Call): Manager {
    match c
    case ShowCall(ok) => Show(m, ok)
    case HideCall(ok) => Hide(m, ok)
  }

  function Replay(m: Manager, calls: seq<Call>): Manager
    decreases |calls|
  {
    if |calls| == 0 then m else Replay(Apply(m, calls[0]), calls[1..])
  }

  /**
   * Whatever calls succeed or fail, a shown window has its view, so the
   * `isInitialized` checks in `hideFloatingWindow` never decide anything.
   */
  lemma {:induction false} AlwaysConsistent(m: Manager, calls: seq<Call>)
    requires Consistent(m)
    ensures Consistent(Replay(m, calls))
    ensures Replay(m, calls).showing ==> Replay(m, calls).viewCreated
    decreases |calls|
  {
    if |calls| > 0 {
      AlwaysConsistent(Apply(m, calls[0]), calls[1..]);
    }
  }

  /** A successful show followed by a successful hide is back to not showing. */
  lemma ShowHideRoundTrip(m: Manager)
    requires !m.showing
    ensures Show(m, true).showing
    ensures !Hide(Show(m, true), true).showing
  {
  }

  /** A failed `addView` leaves the window hidden; a failed `removeView` leaves it shown. */
  lemma FailedCallsKeepState(m: Manager)
    requires Consistent(m)
    ensures !m.showing ==> !Show(m, false).showing
    ensures m.showing ==> Hide(m, false).showing
  {
  }
}
