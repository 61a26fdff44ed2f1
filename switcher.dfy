/**
 * The selection and cycling state machine of `AppSwitcher`: a letter is
 * resolved to a candidate list, a selection index is chosen in it, and the
 * chosen app is activated, hidden or launched. The platform calls (activate,
 * hide, launch, the overlay and the HUD) are recorded, in order, in a log of
 * effects, so contracts can say which app gets activated and with which
 * selected index.
 */
module Switcher {
  import opened Wrappers
  import opened Text
  import opened Store
  import opened Candidates

  /** A platform call the switcher makes. */
  datatype Effect =
    | Activate(app: RunningApp)                               // activate(app:)
    | HideApp(app: RunningApp)                                // NSRunningApplication.hide()
    | Launch(assignment: AppAssignment)                       // launch(assignment:)
    | OverlayShow(apps: seq<RunningApp>, selectedIndex: int)  // overlay.show(apps:selectedIndex:)
    | OverlayScheduleHide                                     // overlay.scheduleHide(after: 8.0)
    | OverlayHide                                             // overlay.hide()
    | HudShow(message: string, icon: Option<RunningApp>)      // hud.show(message:appIcon:), icon of the app given
    | ConfigSaved                                             // configStore.save()

  /** The apps activated by a run of effects, in order. */
  function Activated(effects: seq<Effect>): (r: seq<RunningApp>)
    ensures |r| <= |effects|
    ensures forall a :: a in r <==> Activate(a) in effects
  {
    if effects == [] then []
    else
      assert effects == [effects[0]] + effects[1..];
      (if effects[0].Activate? then [effects[0].app] else []) + Activated(effects[1..])
  }

  lemma {:induction false} ActivatedConcat(s: seq<Effect>, t: seq<Effect>)
    ensures Activated(s + t) == Activated(s) + Activated(t)
  {
    if s != [] {
      assert (s + t)[1..] == s[1..] + t;
      ActivatedConcat(s[1..], t);
    } else {
      assert s + t == t;
    }
  }

  /** The switcher's state: `currentApps`, `currentSelectedIndex` and the effects so far. */
  datatype View = View(apps: seq<RunningApp>, selected: int, log: seq<Effect>)

  /** `w` only appended effects to `v`'s log. */
  predicate Extends(v: View, w: View)
  {
    |v.log| <= |w.log| && w.log[..|v.log|] == v.log
  }

  /** The effects `w` appended to `v`'s log. */
  function Emitted(v: View, w: View): seq<Effect>
    requires Extends(v, w)
  {
    w.log[|v.log|..]
  }

  /** `firstIndex(of:)`. */
  function IndexOf(apps: seq<RunningApp>, x: RunningApp): (r: Option<nat>)
    ensures r.Some? ==> r.value < |apps| && apps[r.value] == x
    ensures r.Some? ==> forall j :: 0 <= j < r.value ==> apps[j] != x
    ensures r.None? <==> x !in apps
  {
    if apps == [] then None
    else if apps[0] == x then Some(0)
    else
      assert apps == [apps[0]] + apps[1..];
      match IndexOf(apps[1..], x)
      case None => None
      case Some(i) => Some(i + 1)
  }

  /** The position before `i` on a ring of `n` positions. */
  function RingPred(i: nat, n: nat): nat
    requires i < n
  {
    if i == 0 then n - 1 else i - 1
  }

  /** `a % n` is the `r` in `a == n * q + r` with `0 <= r < n`. */
  lemma ModUnique(a: int, n: int, q: int, r: int)
    requires n > 0 && 0 <= r < n && a == n * q + r
    ensures a % n == r
  {
    var q0, r0 := a / n, a % n;
    assert a == n * q0 + r0;
    var d := q - q0;
    assert n * d == r0 - r;
    MultipleOutsideBand(n, d);
  }

  /** A non-zero multiple of `n` is at least `n` away from zero. */
  lemma MultipleOutsideBand(n: int, d: int)
    requires n > 0
    ensures d >= 1 ==> n * d >= n
    ensures d <= -1 ==> n * d <= -n
  {
    if d >= 1 {
      assert n * d == n * (d - 1) + n;
    } else if d <= -1 {
      assert n * d == n * (d + 1) - n;
    }
  }

  /** One step round a ring of `n`: `(k + 1) % n` is `k + 1`, or 0 past the end. */
  lemma RingNext(k: nat, n: nat)
    requires k < n
    ensures (k + 1) % n == if k + 1 < n then k + 1 else 0
  {
    if k + 1 < n {
      ModUnique(k + 1, n, 0, k + 1);
    } else {
      ModUnique(k + 1, n, 1, 0);
    }
  }

  /** `(idx + 1) % apps.count` for the first index `idx` of `x`, or 0 when `x` is absent. */
  function SuccessorIndex(apps: seq<RunningApp>, x: RunningApp): (i: nat)
    requires |apps| > 0
    ensures i < |apps|
    ensures x in apps ==> apps[RingPred(i, |apps|)] == x
    ensures x in apps ==> forall j :: 0 <= j < RingPred(i, |apps|) ==> apps[j] != x
    ensures x !in apps ==> i == 0
  {
    match IndexOf(apps, x)
    case Some(k) =>
      RingNext(k, |apps|);
      (k + 1) % |apps|
    case None => 0
  }

  /** The first index of `x`, or 0 when `x` is absent. */
  function OwnIndex(apps: seq<RunningApp>, x: RunningApp): (i: nat)
    ensures x in apps ==> i < |apps| && apps[i] == x
    ensures x in apps ==> forall j :: 0 <= j < i ==> apps[j] != x
    ensures x !in apps ==> i == 0
  {
    match IndexOf(apps, x)
    case Some(k) => k
    case None => 0
  }

  /** Swift's `a % n` for `n > 0`: it truncates, so the remainder takes the sign of `a`; for `a >= 0` it is Dafny's `%`. */
  function SwiftRem(a: int, n: int): (r: int)
    requires n > 0
    ensures a >= 0 ==> 0 <= r < n && r == a % n
    ensures a < 0 ==> -n < r <= 0
    ensures a < 0 ==> (r == 0 <==> (-a) % n == 0)
  {
    if a >= 0 then a % n else -((-a) % n)
  }

  /**
   * Whenever Swift's `(i + offset + n) % n` is not negative (it never is for a
   * non-negative sum, and is 0 for a negative multiple of `n`), it is in range and
   * moves `offset` steps round the ring.
   */
  lemma OffsetSelectionInRange(i: int, offset: int, n: int)
    requires n > 0 && SwiftRem(i + offset + n, n) >= 0
    ensures 0 <= SwiftRem(i + offset + n, n) < n
    ensures SwiftRem(i + offset + n, n) == (i + offset) % n
  {
    var x := i + offset;
    var a := x + n;
    if a >= 0 {
      ModUnique(a, n, x / n + 1, x % n);
    } else {
      var q := (-a) / n;
      assert -a == n * q;
      ModUnique(x, n, -q - 1, 0);
    }
  }

  /**
   * Below `i + offset + n >= 0` the result depends on divisibility: index 0 on a
   * ring of 2 moved by -3 gives -1 (and indexing with it traps), moved by -4 gives 0.
   */
  lemma OffsetSelectionBelowRange()
    ensures SwiftRem(0 + -3 + 2, 2) == -1
    ensures SwiftRem(0 + -4 + 2, 2) == 0
  {
  }

  /** Overlay, activation of `target`, and a fresh hide timer. */
  function OverlayEffects(apps: seq<RunningApp>, selected: int, target: RunningApp): (e: seq<Effect>)
    ensures Activated(e) == [target]
    ensures OverlayShow(apps, selected) in e
    ensures forall x :: x in e ==> !x.Launch?
  {
    var e := [OverlayShow(apps, selected), Activate(target), OverlayScheduleHide];
    assert e == [OverlayShow(apps, selected)] + [Activate(target)] + [OverlayScheduleHide];
    ActivatedConcat([OverlayShow(apps, selected)] + [Activate(target)], [OverlayScheduleHide]);
    ActivatedConcat([OverlayShow(apps, selected)], [Activate(target)]);
    e
  }

  /** Activation of `target` and a HUD with `name` and the target's icon. */
  function HudEffects(target: RunningApp, name: string): (e: seq<Effect>)
    ensures Activated(e) == [target]
    ensures forall x :: x in e ==> !x.OverlayShow? && !x.Launch?
  {
    var e := [Activate(target), HudShow(name, Some(target))];
    ActivatedConcat([Activate(target)], [HudShow(name, Some(target))]);
    e
  }

  /** `cycleDynamic`: select the app after the frontmost one (or the first), activate it, show the overlay or the HUD. */
  function CycleStep(v: View, apps: seq<RunningApp>, frontmost: Option<RunningApp>, showOverlay: bool): (w: View)
    ensures Extends(v, w)
    ensures apps == [] ==> w == v
    ensures apps != [] ==> w.apps == apps && 0 <= w.selected < |apps|
    ensures apps != [] && frontmost.Some? ==> w.selected == SuccessorIndex(apps, frontmost.value)
    ensures apps != [] && frontmost.None? ==> w.selected == 0
    ensures apps != [] ==> Activated(Emitted(v, w)) == [apps[w.selected]]
    ensures apps != [] ==> (OverlayShow(apps, w.selected) in Emitted(v, w) <==> showOverlay && |apps| > 1)
  {
    if apps == [] then v
    else
      var selected := if frontmost.Some? then SuccessorIndex(apps, frontmost.value) else 0;
      var target := apps[selected];
      var out :=
        if showOverlay && |apps| > 1 then OverlayEffects(apps, selected, target)
        else HudEffects(target, target.localizedName.GetOr("App"));
      var w := View(apps, selected, v.log + out);
      assert Emitted(v, w) == out;
      w
  }

  /** The overlay branch when the assigned app is in front and its action is `hide`: hide it, then select and activate the next app. */
  function HideAndAdvance(app: RunningApp, apps: seq<RunningApp>, selected: nat): (e: seq<Effect>)
    ensures |e| > 0 && e[0] == HideApp(app)
    ensures selected < |apps| ==> Activated(e) == [apps[selected]]
    ensures OverlayShow(apps, selected) in e
    ensures forall x :: x in e ==> !x.Launch?
  {
    var shown := [HideApp(app), OverlayShow(apps, selected)];
    var activated := if selected < |apps| then [Activate(apps[selected])] else [];
    var e := shown + activated + [OverlayScheduleHide];
    ActivatedConcat(shown + activated, [OverlayScheduleHide]);
    ActivatedConcat(shown, activated);
    ActivatedConcat([HideApp(app)], [OverlayShow(apps, selected)]);
    e
  }

  /** `handleStaticAssignment` when the overlay is on and there are several candidates. */
  function StaticOverlayStep(v: View, a: AppAssignment, apps: seq<RunningApp>, ws: Workspace): (w: View)
    requires |apps| > 1
    ensures Extends(v, w) && w.apps == apps
    ensures var m := FirstWithBundle(ws.running, a.bundleIdentifier);
      m.None? ==> Emitted(v, w) == [Launch(a)] && w.selected == v.selected
    ensures var m := FirstWithBundle(ws.running, a.bundleIdentifier);
      m.Some? && ws.frontmost != m ==>
        w.selected == OwnIndex(apps, m.value) && Activated(Emitted(v, w)) == [m.value] &&
        forall x :: x in Emitted(v, w) ==> !x.Launch?
    ensures var m := FirstWithBundle(ws.running, a.bundleIdentifier);
      m.Some? && ws.frontmost == m ==>
        w.selected == SuccessorIndex(apps, m.value) && Activated(Emitted(v, w)) == [apps[w.selected]] &&
        (a.whenFocusedAction == Hide ==> Emitted(v, w)[0] == HideApp(m.value))
  {
    match FirstWithBundle(ws.running, a.bundleIdentifier)
    case Some(app) =>
      if ws.frontmost == Some(app) then
        var selected := SuccessorIndex(apps, app);
        var out :=
          match a.whenFocusedAction
          case Hide => HideAndAdvance(app, apps, selected)
          case Cycle => OverlayEffects(apps, selected, apps[selected]);
        var w := View(apps, selected, v.log + out);
        assert Emitted(v, w) == out;
        w
      else
        var selected := OwnIndex(apps, app);
        var out := OverlayEffects(apps, selected, app);
        var w := View(apps, selected, v.log + out);
        assert Emitted(v, w) == out;
        w
    case None =>
      var w := View(apps, v.selected, v.log + [Launch(a)]);
      assert Emitted(v, w) == [Launch(a)];
      w
  }

  /** `handleStaticAssignment` with the overlay off or at most one candidate: the HUD fallback. */
  function StaticHudStep(v: View, a: AppAssignment, apps: seq<RunningApp>, ws: Workspace, showOverlay: bool): (w: View)
    ensures Extends(v, w)
    ensures var m := FirstWithBundle(ws.running, a.bundleIdentifier);
      m.None? ==> Emitted(v, w) == [Launch(a)] && w.apps == v.apps && w.selected == v.selected
    ensures var m := FirstWithBundle(ws.running, a.bundleIdentifier);
      m.Some? && ws.frontmost != m ==>
        Emitted(v, w) == HudEffects(m.value, m.value.localizedName.GetOr(a.bundleIdentifier)) &&
        w.apps == v.apps && w.selected == v.selected
    ensures var m := FirstWithBundle(ws.running, a.bundleIdentifier);
      m.Some? && ws.frontmost == m && a.whenFocusedAction == Hide ==>
        Emitted(v, w) == [HideApp(m.value)] && w.apps == v.apps && w.selected == v.selected
    ensures var m := FirstWithBundle(ws.running, a.bundleIdentifier);
      m.Some? && ws.frontmost == m && a.whenFocusedAction == Cycle ==>
        w == CycleStep(v, apps, ws.frontmost, showOverlay)
  {
    match FirstWithBundle(ws.running, a.bundleIdentifier)
    case Some(app) =>
      if ws.frontmost == Some(app) then
        match a.whenFocusedAction
        case Hide =>
          var w := v.(log := v.log + [HideApp(app)]);
          assert Emitted(v, w) == [HideApp(app)];
          w
        case Cycle => CycleStep(v, apps, ws.frontmost, showOverlay)
      else
        var out := HudEffects(app, app.localizedName.GetOr(a.bundleIdentifier));
        var w := v.(log := v.log + out);
        assert Emitted(v, w) == out;
        w
    case None =>
      var w := v.(log := v.log + [Launch(a)]);
      assert Emitted(v, w) == [Launch(a)];
      w
  }

  /** `handleStaticAssignment`: the letter has the row `a`; `apps` is its candidate list. */
  function StaticStep(v: View, a: AppAssignment, apps: seq<RunningApp>, ws: Workspace, showOverlay: bool): (w: View)
    ensures Extends(v, w)
    ensures showOverlay && |apps| > 1 ==> w.apps == apps
    ensures FirstWithBundle(ws.running, a.bundleIdentifier).None? ==> Emitted(v, w) == [Launch(a)]
    ensures forall x :: x in Emitted(v, w) && x.OverlayShow? ==> showOverlay && |apps| > 1
  {
    if showOverlay && |apps| > 1 then StaticOverlayStep(v, a, apps, ws)
    else StaticHudStep(v, a, apps, ws, showOverlay)
  }

  /** `handleSwitchKey`: lowercase the letter, then take the static path if it has a row, the dynamic one if not. */
  function SwitchStep(v: View, assignments: seq<AppAssignment>, letter: char, ws: Workspace, showOverlay: bool): (w: View)
    ensures Extends(v, w)
    ensures var lower := Lower(letter);
      Lookup(assignments, lower).None? ==>
        (forall x :: x in Activated(Emitted(v, w)) ==> x in ws.running && x.isRegular && NameStartsWith(x, lower)) &&
        (Matching(ws.running, lower) != [] ==> |Activated(Emitted(v, w))| == 1)
    ensures var lower := Lower(letter);
      Lookup(assignments, lower).Some? && AssignedRunning(ws.running, assignments, lower).None? ==>
        Emitted(v, w) == [Launch(Lookup(assignments, lower).value)]
    ensures var lower := Lower(letter);
      var app := AssignedRunning(ws.running, assignments, lower);
      var apps := AppsFor(ws.running, assignments, lower);
      app.Some? && ws.frontmost != app ==>
        Activated(Emitted(v, w)) == [app.value] &&
        (showOverlay && |apps| > 1 ==> w.apps == apps && 0 <= w.selected < |apps| && apps[w.selected] == app.value)
  {
    var lower := Lower(letter);
    LowerIdempotent(letter);
    var apps := AppsFor(ws.running, assignments, lower);
    match Lookup(assignments, lower)
    case Some(a) =>
      StaticPathTargetsAssigned(v, assignments, lower, a, ws, showOverlay);
      StaticStep(v, a, apps, ws, showOverlay)
    case None =>
      DynamicPathTargetsMatching(v, assignments, lower, ws, showOverlay);
      CycleStep(v, apps, ws.frontmost, showOverlay)
  }

  /** Without a row, the dynamic cycle activates one app that starts with the letter, if any does. */
  lemma DynamicPathTargetsMatching(v: View, assignments: seq<AppAssignment>, lower: char, ws: Workspace, showOverlay: bool)
    requires Lower(lower) == lower && Lookup(assignments, lower).None?
    ensures var w := CycleStep(v, AppsFor(ws.running, assignments, lower), ws.frontmost, showOverlay);
      (forall x :: x in Activated(Emitted(v, w)) ==> x in ws.running && x.isRegular && NameStartsWith(x, lower)) &&
      (Matching(ws.running, lower) != [] ==> |Activated(Emitted(v, w))| == 1)
  {
    var apps := AppsFor(ws.running, assignments, lower);
    assert forall x :: x in apps <==> x in ws.running && x.isRegular && NameStartsWith(x, lower);
    if Matching(ws.running, lower) != [] {
      assert Matching(ws.running, lower)[0] in apps;
    }
  }

  /** With a row, the static path launches the assigned app when it is not running and activates it when it is not in front. */
  lemma StaticPathTargetsAssigned(v: View, assignments: seq<AppAssignment>, lower: char, a: AppAssignment, ws: Workspace, showOverlay: bool)
    requires Lower(lower) == lower && Lookup(assignments, lower) == Some(a)
    ensures var apps := AppsFor(ws.running, assignments, lower);
      var w := StaticStep(v, a, apps, ws, showOverlay);
      var app := AssignedRunning(ws.running, assignments, lower);
      Extends(v, w) &&
      (app.None? ==> Emitted(v, w) == [Launch(a)]) &&
      (app.Some? && ws.frontmost != app ==>
        Activated(Emitted(v, w)) == [app.value] &&
        (showOverlay && |apps| > 1 ==> w.apps == apps && 0 <= w.selected < |apps| && apps[w.selected] == app.value))
  {
    var apps := AppsFor(ws.running, assignments, lower);
    var app := AssignedRunning(ws.running, assignments, lower);
    assert app.Some? ==> app.value in apps;
  }

  /** `updateOverlaySelection(offset:)` on a non-empty list: move the selection and activate the app under it. */
  function SelectStep(v: View, offset: int): (w: View)
    requires v.selected >= 0
    requires v.apps != [] ==> SwiftRem(v.selected + offset + |v.apps|, |v.apps|) >= 0
    ensures Extends(v, w)
    ensures v.apps == [] ==> w == v
    ensures v.apps != [] ==>
      w.apps == v.apps && 0 <= w.selected < |v.apps| && w.selected == (v.selected + offset) % |v.apps| &&
      Activated(Emitted(v, w)) == [v.apps[w.selected]] && OverlayShow(v.apps, w.selected) in Emitted(v, w)
  {
    if v.apps == [] then v
    else
      var n := |v.apps|;
      var selected := SwiftRem(v.selected + offset + n, n);
      assert 0 <= selected < n && selected == (v.selected + offset) % n by {
        OffsetSelectionInRange(v.selected, offset, n);
      }
      var shown := [OverlayShow(v.apps, selected), OverlayScheduleHide];
      var activated := if selected < n then [Activate(v.apps[selected])] else [];
      var out := shown + activated;
      ActivatedConcat(shown, activated);
      ActivatedConcat([OverlayShow(v.apps, selected)], [OverlayScheduleHide]);
      var w := View(v.apps, selected, v.log + out);
      assert Emitted(v, w) == out;
      w
  }

  /**
   * The index selected after `k` presses of a letter with no row, when each press
   * brings its target to the front and the list stays the same: by `CycleStep`'s
   * contract each press selects `SuccessorIndex` of the app in front.
   */
  function PressesFrom(apps: seq<RunningApp>, start: nat, k: nat): (i: nat)
    requires start < |apps|
    ensures i < |apps|
  {
    if k == 0 then start
    else SuccessorIndex(apps, apps[PressesFrom(apps, start, k - 1)])
  }

  /** Stepping from `a % n` is stepping from `a`, reduced. */
  lemma ModNext(a: nat, n: nat)
    requires n > 0
    ensures (a % n + 1) % n == (a + 1) % n
  {
    var q, r := a / n, a % n;
    assert a == n * q + r;
    if r + 1 < n {
      ModUnique(r + 1, n, 0, r + 1);
      ModUnique(a + 1, n, q, r + 1);
    } else {
      ModUnique(r + 1, n, 1, 0);
      ModUnique(a + 1, n, q + 1, 0);
    }
  }

  /** Repeated presses visit the candidates in order, wrapping round: after `k` presses the selection is `(start + k) % n`. */
  lemma {:induction false} RepeatedPressesCycle(apps: seq<RunningApp>, start: nat, k: nat)
    requires Distinct(apps) && start < |apps|
    ensures PressesFrom(apps, start, k) == (start + k) % |apps|
  {
    var n := |apps|;
    if k == 0 {
      ModUnique(start, n, 0, start);
    } else {
      var m := start + (k - 1);
      var p := PressesFrom(apps, start, k - 1);
      assert p == m % n by {
        RepeatedPressesCycle(apps, start, k - 1);
      }
      assert PressesFrom(apps, start, k) == (p + 1) % n by {
        PressAdvancesOne(apps, p);
      }
      assert (p + 1) % n == (start + k) % n by {
        ModNext(m, n);
      }
    }
  }

  /** One press with the app at `p` in front selects the next position round the ring. */
  lemma PressAdvancesOne(apps: seq<RunningApp>, p: nat)
    requires Distinct(apps) && p < |apps|
    ensures SuccessorIndex(apps, apps[p]) == (p + 1) % |apps|
  {
    var n := |apps|;
    var i := SuccessorIndex(apps, apps[p]);
    assert apps[RingPred(i, n)] == apps[p];
    RingNext(p, n);
  }

  /** A message the HUD shows after an assignment: "Assigned 'x' to Name". */
  function AssignedMessage(letter: char, name: string): (m: string)
    ensures |m| == |name| + 16
    ensures m[..10] == "Assigned '" && m[10] == letter && m[11..16] == "' to "
    ensures m[16..] == name
  {
    "Assigned '" + [letter] + "' to " + name
  }

  /** The row `handleAssignKey` stores for the frontmost app: none when there is no frontmost app or it has no bundle id. */
  function NewAssignment(frontmost: Option<RunningApp>, lower: char): (r: Option<AppAssignment>)
    ensures r.Some? <==> frontmost.Some? && frontmost.value.bundleIdentifier.Some?
    ensures r.Some? ==>
      r.value.key == [lower] && Some(r.value.bundleIdentifier) == frontmost.value.bundleIdentifier &&
      r.value.bundlePath == frontmost.value.bundlePath && r.value.whenFocusedAction == Cycle
  {
    match frontmost
    case None => None
    case Some(app) =>
      match app.bundleIdentifier
      case None => None
      case Some(id) => Some(AppAssignment([lower], id, app.bundlePath, Cycle))
  }

  /** `AppSwitcher`. */
  class AppSwitcher {
    const store: ConfigStore
    var currentApps: seq<RunningApp>
    var currentSelectedIndex: int
    var effects: seq<Effect>

    ghost predicate Valid()
      reads this
    {
      currentSelectedIndex >= 0
    }

    function State(): View
      reads this
    {
      View(currentApps, currentSelectedIndex, effects)
    }

    constructor (store: ConfigStore)
      ensures this.store == store
      ensures Valid() && State() == View([], 0, [])
    {
      this.store := store;
      currentApps := [];
      currentSelectedIndex := 0;
      effects := [];
    }

    method HandleSwitchKey(letter: char, showOverlay: bool, ws: Workspace)
      requires Valid()
      modifies this
      ensures Valid()
      ensures State() == SwitchStep(old(State()), store.config.assignments, letter, ws, showOverlay)
    {
      var lower := Lower(letter);
      var associatedApps := AppsFor(ws.running, store.config.assignments, lower);
      var assignment := Lookup(store.config.assignments, lower);
      if assignment.Some? {
        HandleStaticAssignment(lower, assignment.value, associatedApps, showOverlay, ws);
      } else {
        CycleDynamic(lower, associatedApps, showOverlay, ws);
      }
    }

    /** `handleKeyRelease`: Right Command went up, so the overlay goes away. */
    method HandleKeyRelease()
      modifies this
      ensures currentApps == old(currentApps) && currentSelectedIndex == old(currentSelectedIndex)
      ensures effects == old(effects) + [OverlayHide]
    {
      effects := effects + [OverlayHide];
    }

    method UpdateOverlaySelection(offset: int)
      requires Valid()
      requires currentApps != [] ==> SwiftRem(currentSelectedIndex + offset + |currentApps|, |currentApps|) >= 0
      modifies this
      ensures Valid()
      ensures State() == SelectStep(old(State()), offset)
    {
      if currentApps == [] {
        return;
      }
      currentSelectedIndex := SwiftRem(currentSelectedIndex + offset + |currentApps|, |currentApps|);
      effects := effects + [OverlayShow(currentApps, currentSelectedIndex), OverlayScheduleHide];
      if currentSelectedIndex < |currentApps| {
        effects := effects + [Activate(currentApps[currentSelectedIndex])];
      }
    }

    method HideOverlay()
      modifies this
      ensures Valid()
      ensures currentApps == [] && currentSelectedIndex == 0
      ensures effects == old(effects) + [OverlayHide]
    {
      effects := effects + [OverlayHide];
      currentApps := [];
      currentSelectedIndex := 0;
    }

    method HandleAssignKey(letter: char, ws: Workspace)
      requires Valid()
      modifies this, store
      ensures Valid()
      ensures currentApps == old(currentApps) && currentSelectedIndex == old(currentSelectedIndex)
      ensures var lower := Lower(letter);
        match NewAssignment(ws.frontmost, lower)
        case None =>
          store.config == old(store.config) && effects == old(effects)
        case Some(a) =>
          store.config == old(store.config).(assignments := Upserted(old(store.config.assignments), a, lower)) &&
          Lookup(store.config.assignments, lower) == Some(a) &&
          effects == old(effects) + [ConfigSaved, HudShow(AssignedMessage(lower, ws.frontmost.value.localizedName.GetOr(a.bundleIdentifier)), None)]
    {
      var lower := Lower(letter);
      if ws.frontmost.None? || ws.frontmost.value.bundleIdentifier.None? {
        return;
      }
      var frontmost := ws.frontmost.value;
      var bundleIdentifier := frontmost.bundleIdentifier.value;
      var assignment := AppAssignment([lower], bundleIdentifier, frontmost.bundlePath, Cycle);
      store.SetAssignment(assignment, lower);
      UpsertThenLookup(old(store.config.assignments), assignment, lower);
      effects := effects + [ConfigSaved];
      var name := frontmost.localizedName.GetOr(bundleIdentifier);
      effects := effects + [HudShow(AssignedMessage(lower, name), None)];
    }

    method HandleStaticAssignment(letter: char, assignment: AppAssignment, apps: seq<RunningApp>, showOverlay: bool, ws: Workspace)
      requires Valid()
      modifies this
      ensures Valid()
      ensures State() == StaticStep(old(State()), assignment, apps, ws, showOverlay)
    {
      if showOverlay && |apps| > 1 {
        StaticWithOverlay(assignment, apps, ws);
        return;
      }
      StaticWithHud(letter, assignment, apps, showOverlay, ws);
    }

    /** The first half of `handleStaticAssignment`: several candidates and the overlay on. */
    method StaticWithOverlay(assignment: AppAssignment, apps: seq<RunningApp>, ws: Workspace)
      requires Valid() && |apps| > 1
      modifies this
      ensures Valid()
      ensures State() == StaticOverlayStep(old(State()), assignment, apps, ws)
    {
      ghost var before := effects;
      var matchingRunning := FirstWithBundle(ws.running, assignment.bundleIdentifier);
      var frontmost := ws.frontmost;
      currentApps := apps;
      if matchingRunning.Some? {
        var app := matchingRunning.value;
        var assignedIndex := IndexOf(apps, app);
        if frontmost == Some(app) {
          AdvancePastFront(app, assignment.whenFocusedAction, apps);
        } else {
          if assignedIndex.Some? {
            currentSelectedIndex := assignedIndex.value;
          } else {
            currentSelectedIndex := 0;
          }
          effects := effects + [OverlayShow(apps, currentSelectedIndex), Activate(app), OverlayScheduleHide];
          assert effects == before + OverlayEffects(apps, currentSelectedIndex, app);
        }
      } else {
        effects := effects + [Launch(assignment)];
      }
    }

    /** The overlay branch of `handleStaticAssignment` when the assigned app `app` is already in front. */
    method AdvancePastFront(app: RunningApp, action: WhenFocusedAction, apps: seq<RunningApp>)
      requires |apps| > 1
      modifies this
      ensures currentApps == old(currentApps)
      ensures currentSelectedIndex == SuccessorIndex(apps, app)
      ensures effects == old(effects) + match action
        case Hide => HideAndAdvance(app, apps, currentSelectedIndex)
        case Cycle => OverlayEffects(apps, currentSelectedIndex, apps[currentSelectedIndex])
    {
      ghost var before := effects;
      var assignedIndex := IndexOf(apps, app);
      match action {
        case Hide =>
          effects := effects + [HideApp(app)];
          var next := 0;
          if assignedIndex.Some? {
            next := (assignedIndex.value + 1) % |apps|;
          }
          assert next == SuccessorIndex(apps, app);
          currentSelectedIndex := next;
          effects := effects + [OverlayShow(apps, next)];
          if next < |apps| {
            effects := effects + [Activate(apps[next])];
          }
          effects := effects + [OverlayScheduleHide];
          assert effects == before + HideAndAdvance(app, apps, next);
        case Cycle =>
          var next := 0;
          if assignedIndex.Some? {
            next := (assignedIndex.value + 1) % |apps|;
          }
          assert next == SuccessorIndex(apps, app);
          currentSelectedIndex := next;
          var target := apps[next];
          effects := effects + [OverlayShow(apps, next), Activate(target), OverlayScheduleHide];
          assert effects == before + OverlayEffects(apps, next, target);
      }
    }

    /** The second half of `handleStaticAssignment`: the HUD fallback. */
    method StaticWithHud(letter: char, assignment: AppAssignment, apps: seq<RunningApp>, showOverlay: bool, ws: Workspace)
      requires Valid()
      modifies this
      ensures Valid()
      ensures State() == StaticHudStep(old(State()), assignment, apps, ws, showOverlay)
    {
      ghost var before := effects;
      var matchingRunning := FirstWithBundle(ws.running, assignment.bundleIdentifier);
      var frontmost := ws.frontmost;
      if matchingRunning.Some? {
        var app := matchingRunning.value;
        if frontmost == Some(app) {
          match assignment.whenFocusedAction {
            case Hide =>
              effects := effects + [HideApp(app)];
            case Cycle =>
              CycleDynamic(letter, apps, showOverlay, ws);
          }
        } else {
          effects := effects + [Activate(app)];
          var name := app.localizedName.GetOr(assignment.bundleIdentifier);
          effects := effects + [HudShow(name, Some(app))];
          assert effects == before + HudEffects(app, name);
        }
      } else {
        effects := effects + [Launch(assignment)];
      }
    }

    method CycleDynamic(letter: char, apps: seq<RunningApp>, showOverlay: bool, ws: Workspace)
      requires Valid()
      modifies this
      ensures Valid()
      ensures State() == CycleStep(old(State()), apps, ws.frontmost, showOverlay)
    {
      if apps == [] {
        return;
      }
      ghost var before := effects;
      currentApps := apps;
      var frontmost := ws.frontmost;

      var target: RunningApp;
      var idx := if frontmost.Some? then IndexOf(apps, frontmost.value) else None;
      if idx.Some? {
        RingNext(idx.value, |apps|);
        currentSelectedIndex := (idx.value + 1) % |apps|;
        target := apps[currentSelectedIndex];
      } else {
        currentSelectedIndex := 0;
        target := apps[0];
      }
      assert currentSelectedIndex == if frontmost.Some? then SuccessorIndex(apps, frontmost.value) else 0;

      if showOverlay && |apps| > 1 {
        effects := effects + [OverlayShow(apps, currentSelectedIndex), Activate(target), OverlayScheduleHide];
        assert effects == before + OverlayEffects(apps, currentSelectedIndex, target);
      } else {
        effects := effects + [Activate(target)];
        var name := target.localizedName.GetOr("App");
        effects := effects + [HudShow(name, Some(target))];
        assert effects == before + HudEffects(target, name);
      }
    }
  }
}
