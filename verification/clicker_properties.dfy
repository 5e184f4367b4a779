/**
 * Properties of the main screen's controller over single events and over
 * runs of interleaved events.
 */
module ClickerProperties {
  import opened Optional
  import opened KotlinText
  import opened Json
  import opened ConfigDatabase
  import opened Points
  import OverlayWindow
  import opened AutoClicker

  // ---------------------------------------------------------------------
  // Input validation
  // ---------------------------------------------------------------------

  /** A point is accepted exactly when x and y read as `Int` and the interval as a positive `Long`. */
  lemma ValidateAcceptsExactly(xText: string, yText: string, intervalText: string)
    ensures Validate(xText, yText, intervalText).Some? <==>
              && ToIntOrNull(xText).Some?
              && ToIntOrNull(yText).Some?
              && ToLongOrNull(intervalText).Some?
              && ToLongOrNull(intervalText).value > 0
  {
  }

  /** Whatever point the user has in mind, typing it in decimal gets exactly that point accepted. */
  lemma ValidateAcceptsDecimal(x: Int32, y: Int32, interval: Int64)
    requires interval > 0
    ensures Validate(Decimal(x as int), Decimal(y as int), Decimal(interval as int)) ==
            Some(ClickPoint(x, y, interval))
  {
    IntRoundTrip(x);
    IntRoundTrip(y);
    LongRoundTrip(interval);
  }

  /** A zero or negative interval is rejected however it is written. */
  lemma ValidateRejectsNonPositive(xText: string, yText: string, intervalText: string)
    requires Numeral(intervalText).Some? && Numeral(intervalText).value <= 0
    ensures Validate(xText, yText, intervalText).None?
  {
  }

  /** No blank text is a numeral: its first character is whitespace, neither a sign nor a digit. */
  lemma BlankIsNoNumeral(t: string)
    requires IsBlank(t)
    ensures Numeral(t).None?
  {
    if |t| > 0 {
      assert IsWhitespace(t[0]);
      assert !IsDigit(t[0]);
    }
  }

  /**
   * The add button's enabling rule blocks only input that the check behind
   * it would reject anyway, so the disabled button hides no point the user
   * could otherwise add.
   */
  lemma DisabledAddRejectsNothingValid(xText: string, yText: string, intervalText: string)
    requires !AddEnabled(xText, yText, intervalText)
    ensures Validate(xText, yText, intervalText).None?
  {
    if IsBlank(xText) {
      BlankIsNoNumeral(xText);
    } else if IsBlank(yText) {
      BlankIsNoNumeral(yText);
    } else {
      BlankIsNoNumeral(intervalText);
    }
  }

  // ---------------------------------------------------------------------
  // The state invariant
  // ---------------------------------------------------------------------

  /**
   * `runningFlag` mirrors `isRunning`, a task exists exactly while running,
   * and a shown floating window has its view.
   */
  predicate Invariant(s: App) {
    && s.runningFlag == s.isRunning
    && (s.isRunning <==> !s.timer.Idle?)
    && OverlayWindow.Consistent(s.overlay)
  }

  lemma StepKeepsInvariant(s: App, e: Event)
    requires Invariant(s)
    ensures Invariant(Step(s, e).app)
  {
  }

  /** Every state reachable from launch satisfies the invariant. */
  lemma {:induction false} RunKeepsInvariant(s: App, es: seq<Event>)
    requires Invariant(s)
    ensures Invariant(Run(s, es))
    decreases |es|
  {
    if |es| > 0 {
      StepKeepsInvariant(s, es[0]);
      RunKeepsInvariant(Step(s, es[0]).app, es[1..]);
    }
  }

  lemma LaunchInvariant(store: Store<Text>, es: seq<Event>)
    ensures Invariant(Launch(store))
    ensures Invariant(Run(Launch(store), es))
  {
    RunKeepsInvariant(Launch(store), es);
  }

  // ---------------------------------------------------------------------
  // Toggle and the list operations
  // ---------------------------------------------------------------------

  /** Removing and clearing change the list on screen but not the stored list. */
  lemma ListEditsNotPersisted(s: App, i: nat)
    requires i < |s.points|
    ensures Launch(Clear(s).store).points == Launch(s.store).points
    ensures Launch(Remove(s, i).store).points == Launch(s.store).points
  {
  }

  /**
   * While running, clearing the list or losing the bridge makes the toggle
   * refuse to stop: `isRunning` stays set.
   */
  lemma StopRefused(s: App)
    requires s.isRunning
    ensures s.bridgeAvailable ==>
              var c := Step(s, ClearPoints).app;
              c.isRunning && Step(c, ToggleRunning) == Reaction(c, NeedPoints)
    ensures var d := Step(s, BridgeChanged(false)).app;
            d.isRunning && Step(d, ToggleRunning) == Reaction(d, NeedBridge)
  {
  }

  // ---------------------------------------------------------------------
  // The tap task
  // ---------------------------------------------------------------------

  /** A tap that throws advances the index exactly as one that returns. */
  lemma TickAdvancesEvenOnFailure(s: App)
    ensures Fire(s, false).app == Fire(s, true).app
    ensures Fires(s) && s.timer.index < |s.points| ==>
              Fire(s, false).notice == ClickFailed(s.points[s.timer.index]) &&
              Fire(s, false).app.timer.index == (s.timer.index + 1) % |s.points|
  {
  }

  /** Euclidean remainders are unique. */
  lemma ModUnique(x: int, n: int, q: int, r: int)
    requires n > 0 && 0 <= r < n && x == q * n + r
    ensures x % n == r
  {
    var q2, r2 := x / n, x % n;
    assert x == q2 * n + r2;
    assert (q - q2) * n == r2 - r;
    if q > q2 {
      MulAtLeast(q - q2, n);
    } else if q < q2 {
      MulAtLeast(q2 - q, n);
    }
  }

  lemma MulAtLeast(a: int, n: int)
    requires a >= 1 && n > 0
    ensures a * n >= n
  {
  }

  lemma ModShift(a: nat, m: nat, n: nat)
    requires n > 0
    ensures (a % n + m) % n == (a + m) % n
  {
    var d := (a + m) / n;
    assert a + m == d * n + (a + m) % n;
    assert a == (a / n) * n + a % n;
    assert a % n + m == (d - a / n) * n + (a + m) % n;
    ModUnique(a % n + m, n, d - a / n, (a + m) % n);
  }

  lemma FireAdvances(s: App, e: Event)
    requires Fires(s) && s.timer.index < |s.points| && e.Tick?
    ensures Step(s, e) == Reaction(s.(timer := Scheduled((s.timer.index + 1) % |s.points|, s.timer.period)),
                                   TapNotice(s.points[s.timer.index], e.clickOk))
  {
  }

  /**
   * Uninterrupted firings visit the points cyclically in list order from the
   * current index, advance it modulo the length, and change nothing else.
   */
  lemma TicksVisitCyclically(s: App, es: seq<Event>)
    requires Fires(s) && s.timer.index < |s.points|
    requires forall k :: 0 <= k < |es| ==> es[k].Tick?
    ensures Run(s, es) == s.(timer := Scheduled((s.timer.index + |es|) % |s.points|, s.timer.period))
    ensures forall k :: 0 <= k < |es| ==>
              Notices(s, es)[k] == TapNotice(s.points[(s.timer.index + k) % |s.points|], es[k].clickOk)
  {
    TicksFinalState(s, es);
    TicksNotices(s, es);
  }

  lemma {:induction false} TicksFinalState(s: App, es: seq<Event>)
    requires Fires(s) && s.timer.index < |s.points|
    requires forall k :: 0 <= k < |es| ==> es[k].Tick?
    ensures Run(s, es) == s.(timer := Scheduled((s.timer.index + |es|) % |s.points|, s.timer.period))
    decreases |es|
  {
    var i, n := s.timer.index, |s.points|;
    if |es| == 0 {
      ModUnique(i, n, 0, i);
    } else {
      FireAdvances(s, es[0]);
      var s1 := s.(timer := Scheduled((i + 1) % n, s.timer.period));
      var rest := es[1..];
      assert forall k :: 0 <= k < |rest| ==> rest[k] == es[k + 1];
      TicksFinalState(s1, rest);
      assert Run(s, es) == Run(s1, rest);
      ModShift(i + 1, |rest|, n);
    }
  }

  lemma {:induction false} TicksNotices(s: App, es: seq<Event>)
    requires Fires(s) && s.timer.index < |s.points|
    requires forall k :: 0 <= k < |es| ==> es[k].Tick?
    ensures forall k :: 0 <= k < |es| ==>
              Notices(s, es)[k] == TapNotice(s.points[(s.timer.index + k) % |s.points|], es[k].clickOk)
    decreases |es|
  {
    var i, n := s.timer.index, |s.points|;
    if |es| > 0 {
      FireAdvances(s, es[0]);
      var s1 := s.(timer := Scheduled((i + 1) % n, s.timer.period));
      var rest := es[1..];
      assert forall k :: 0 <= k < |rest| ==> rest[k] == es[k + 1];
      TicksNotices(s1, rest);
      assert Notices(s, es) == [TapNotice(s.points[i], es[0].clickOk)] + Notices(s1, rest);
      ModUnique(i, n, 0, i);
      forall k | 0 <= k < |es|
        ensures Notices(s, es)[k] == TapNotice(s.points[(i + k) % n], es[k].clickOk)
      {
        if k > 0 {
          ModShift(i + 1, k - 1, n);
        }
      }
    }
  }

  /**
   * After a successful start, the k-th firing taps `points[k % |points|]`,
   * at the first point's interval.
   */
  lemma StartThenTicks(s: App, es: seq<Event>)
    requires !s.isRunning && s.bridgeAvailable && |s.points| > 0 && s.points[0].interval > 0
    requires forall k :: 0 <= k < |es| ==> es[k].Tick?
    ensures var started := Step(s, ToggleRunning).app;
            && started.timer == Scheduled(0, s.points[0].interval as int)
            && Run(started, es).timer == Scheduled(|es| % |s.points|, s.points[0].interval as int)
            && forall k :: 0 <= k < |es| ==>
                 Notices(started, es)[k] == TapNotice(s.points[k % |s.points|], es[k].clickOk)
  {
    StartSchedulesFirstInterval(s);
    var started := Step(s, ToggleRunning).app;
    TicksVisitCyclically(started, es);
    assert started.timer.index == 0;
  }

  lemma StartSchedulesFirstInterval(s: App)
    requires !s.isRunning && s.bridgeAvailable && |s.points| > 0 && s.points[0].interval > 0
    ensures Step(s, ToggleRunning).app ==
            s.(isRunning := true, runningFlag := true, timer := Scheduled(0, s.points[0].interval as int))
  {
    assert Step(s, ToggleRunning) == Toggle(s);
  }

  /** Only the first point's interval sets the period; the others' intervals are never read. */
  lemma PeriodFromFirstPointOnly(a: seq<ClickPoint>, b: seq<ClickPoint>)
    requires |a| > 0 && |b| > 0 && a[0].interval == b[0].interval
    ensures Start(a) == Start(b)
  {
  }

  /**
   * The period is fixed when the task starts: until the next toggle, adding,
   * removing or importing points never changes it, and the task is either
   * still scheduled or suppressed.
   */
  lemma {:induction false} PeriodFixedUntilToggle(s: App, es: seq<Event>, period: int)
    requires s.timer.Scheduled? || s.timer.Suppressed?
    requires s.timer.Scheduled? ==> s.timer.period == period
    requires forall k :: 0 <= k < |es| ==> !es[k].ToggleRunning?
    ensures Run(s, es).timer.Scheduled? || Run(s, es).timer.Suppressed?
    ensures Run(s, es).timer.Scheduled? ==> Run(s, es).timer.period == period
    decreases |es|
  {
    if |es| > 0 {
      assert !es[0].ToggleRunning?;
      assert forall k :: 0 <= k < |es| - 1 ==> es[1..][k] == es[k + 1];
      PeriodFixedUntilToggle(Step(s, es[0]).app, es[1..], period);
    }
  }

  /** The task's index is in range of the list. */
  predicate InBounds(s: App) {
    s.timer.Scheduled? ==> s.timer.index < |s.points|
  }

  predicate Shrinks(e: Event) {
    e.RemovePoint? || e.ClearPoints?
  }

  /** No point is removed and the list is not cleared while a task is scheduled. */
  predicate NoShrinkWhileTicking(s: App, es: seq<Event>)
    decreases |es|
  {
    |es| == 0 ||
    (!(s.timer.Scheduled? && Shrinks(es[0])) && NoShrinkWhileTicking(Step(s, es[0]).app, es[1..]))
  }

  lemma StepKeepsInBounds(s: App, e: Event)
    requires InBounds(s)
    requires !(s.timer.Scheduled? && Shrinks(e))
    ensures InBounds(Step(s, e).app)
    ensures Step(s, e).app.timer.Suppressed? ==> s.timer.Suppressed?
  {
  }

  /**
   * If the list does not shrink while the task runs, the task's index stays
   * in range and the task is never suppressed.
   */
  lemma {:induction false} RunKeepsInBounds(s: App, es: seq<Event>)
    requires InBounds(s)
    requires NoShrinkWhileTicking(s, es)
    ensures InBounds(Run(s, es))
    ensures Run(s, es).timer.Suppressed? ==> s.timer.Suppressed?
    decreases |es|
  {
    if |es| > 0 {
      StepKeepsInBounds(s, es[0]);
      RunKeepsInBounds(Step(s, es[0]).app, es[1..]);
    }
  }

  /** From launch, with no shrinking while ticking, the tap task never faults. */
  lemma NeverSuppressedFromLaunch(store: Store<Text>, es: seq<Event>)
    requires NoShrinkWhileTicking(Launch(store), es)
    ensures InBounds(Run(Launch(store), es))
    ensures !Run(Launch(store), es).timer.Suppressed?
  {
    RunKeepsInBounds(Launch(store), es);
  }

  /** A firing whose index has fallen past the end of the list kills the task but leaves it "running". */
  lemma StaleIndexSuppresses(s: App, clickOk: bool)
    requires Fires(s) && s.timer.index >= |s.points|
    ensures Fire(s, clickOk).app.timer == Suppressed
    ensures Fire(s, clickOk).app.isRunning == s.isRunning
  {
  }

  /**
   * A reachable run that faults the task: start with two saved points, let
   * one tap happen, remove the second point; the next firing reads past the
   * end and the task dies while the screen still shows it running.
   */
  lemma RemoveWhileRunningSuppresses(p: ClickPoint, q: ClickPoint, clickOk: bool)
    requires p.interval > 0
    ensures var s := Run(Launch(Save(Fresh(), [p, q])),
                         [BridgeChanged(true), ToggleRunning, Tick(clickOk), RemovePoint(1), Tick(clickOk)]);
            s.timer == Suppressed && s.isRunning && s.points == [p]
  {
    var store := Save(Fresh(), [p, q]);
    LoadSave(Fresh(), [p, q]);
    var s0 := Launch(store);
    assert s0.points == [p, q];
    var s1 := Step(s0, BridgeChanged(true)).app;
    var s2 := Step(s1, ToggleRunning).app;
    assert s2.timer == Scheduled(0, p.interval as int) && s2.isRunning;
    var s3 := Step(s2, Tick(clickOk)).app;
    assert s3.timer == Scheduled(1, p.interval as int);
    var s4 := Step(s3, RemovePoint(1)).app;
    assert s4.points == [p];
    var s5 := Step(s4, Tick(clickOk)).app;
    assert s5.timer == Suppressed && s5.isRunning;
    var es := [BridgeChanged(true), ToggleRunning, Tick(clickOk), RemovePoint(1), Tick(clickOk)];
    assert es[1..][1..][1..][1..][1..] == [];
    assert Run(s0, es) == Run(s1, es[1..]);
    assert Run(s1, es[1..]) == Run(s2, es[1..][1..]);
    assert Run(s2, es[1..][1..]) == Run(s3, es[1..][1..][1..]);
    assert Run(s3, es[1..][1..][1..]) == Run(s4, es[1..][1..][1..][1..]);
    assert Run(s4, es[1..][1..][1..][1..]) == s5;
  }

  // ---------------------------------------------------------------------
  // Import
  // ---------------------------------------------------------------------

  /**
   * Import does not refresh the list on screen, so the next accepted add
   * saves the on-screen list plus the new point over the imported one.
   */
  lemma ImportThenAddDropsImport(s: App, file: Text, xText: string, yText: string, intervalText: string)
    requires AddEnabled(xText, yText, intervalText) && Validate(xText, yText, intervalText).Some?
    ensures Import(s, file).app.points == s.points
    ensures Load(Add(Import(s, file).app, xText, yText, intervalText).app.store) ==
            s.points + [Validate(xText, yText, intervalText).value]
  {
    var r := Add(Import(s, file).app, xText, yText, intervalText).app;
    assert r.points == s.points + [Validate(xText, yText, intervalText).value];
  }

  /**
   * An imported point with a zero interval survives to the next launch, and
   * starting then asks `scheduleAtFixedRate` for a zero period, which it refuses.
   */
  lemma ImportedZeroIntervalRejectedAtStart(store: Store<Text>)
    ensures var zero := Object(map["x" := Number(10), "y" := Number(20), "interval" := Number(0)]);
            var imported := ParseConfig(store, Document(Object(map[CLICK_POINTS_KEY := Array([zero])])));
            var s := Run(Launch(imported), [BridgeChanged(true), ToggleRunning]);
            s.isRunning && s.timer == Rejected
  {
    ImportAcceptsZeroInterval(store);
    var zero := Object(map["x" := Number(10), "y" := Number(20), "interval" := Number(0)]);
    var imported := ParseConfig(store, Document(Object(map[CLICK_POINTS_KEY := Array([zero])])));
    var s0 := Launch(imported);
    assert s0.points == [ClickPoint(10, 20, 0)];
    var es := [BridgeChanged(true), ToggleRunning];
    assert es[1..][1..] == [];
    var s1 := Step(s0, BridgeChanged(true)).app;
    assert Run(s0, es) == Run(s1, es[1..]);
    assert Run(s1, es[1..]) == Step(s1, ToggleRunning).app;
  }

  // ---------------------------------------------------------------------
  // The floating window's two flags
  // ---------------------------------------------------------------------

  predicate PlatformCallsSucceed(es: seq<Event>) {
    forall k :: 0 <= k < |es| ==>
      (es[k].OverlayButton? ==> es[k].platformOk) && (es[k].OverlayClose? ==> es[k].platformOk)
  }

  lemma StepKeepsFlagsAgreed(s: App, e: Event)
    requires s.showFloating == s.overlay.showing && OverlayWindow.Consistent(s.overlay)
    requires e.OverlayButton? ==> e.platformOk
    requires e.OverlayClose? ==> e.platformOk
    ensures Step(s, e).app.showFloating == Step(s, e).app.overlay.showing
    ensures OverlayWindow.Consistent(Step(s, e).app.overlay)
  {
  }

  /**
   * While every `addView` and `removeView` succeeds, the screen's
   * `showFloatingWindow` and the manager's `isWindowShowing` agree.
   */
  lemma {:induction false} FlagsAgreeWhilePlatformSucceeds(s: App, es: seq<Event>)
    requires s.showFloating == s.overlay.showing && OverlayWindow.Consistent(s.overlay)
    requires PlatformCallsSucceed(es)
    ensures Run(s, es).showFloating == Run(s, es).overlay.showing
    decreases |es|
  {
    if |es| > 0 {
      StepKeepsFlagsAgreed(s, es[0]);
      assert PlatformCallsSucceed(es[1..]) by {
        forall k | 0 <= k < |es| - 1 ensures es[1..][k] == es[k + 1] { }
      }
      FlagsAgreeWhilePlatformSucceeds(Step(s, es[0]).app, es[1..]);
    }
  }

  /**
   * One failed `addView` splits the flags: the screen believes the window
   * is shown while the manager does not. The next press "hides" a window the
   * manager never showed, which does nothing, and the flags meet again.
   */
  lemma FailedShowSplitsFlags(s: App, ok: bool)
    requires !s.showFloating && !s.overlay.showing
    ensures var t := Step(s, OverlayButton(true, false)).app;
            && t.showFloating && !t.overlay.showing
            && !Step(t, OverlayButton(true, ok)).app.showFloating
            && !Step(t, OverlayButton(true, ok)).app.overlay.showing
  {
  }

  /** One failed `removeView` splits the flags the other way round. */
  lemma FailedHideSplitsFlags(s: App)
    requires s.showFloating && s.overlay.showing && OverlayWindow.Consistent(s.overlay)
    ensures var t := Step(s, OverlayButton(true, false)).app;
            !t.showFloating && t.overlay.showing
  {
  }

  // ---------------------------------------------------------------------
  // Notices along a run
  // ---------------------------------------------------------------------

  /** The k-th notice of a run is what the k-th event reports in the state the earlier events left. */
  lemma {:induction false} NoticesFollowRun(s: App, es: seq<Event>, k: nat)
    requires k < |es|
    ensures Notices(s, es)[k] == Step(Run(s, es[..k]), es[k]).notice
    decreases k
  {
    if k > 0 {
      var s1 := Step(s, es[0]).app;
      NoticesFollowRun(s1, es[1..], k - 1);
      assert es[..k][1..] == es[1..][..k - 1];
      assert Run(s, es[..k]) == Run(s1, es[..k][1..]);
    }
  }
}
