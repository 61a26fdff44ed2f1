/**
 * The candidate list for a letter (`apps(for:)`): the running regular apps
 * whose lowercased name starts with the letter, plus the app assigned to the
 * letter when it is running, sorted by name.
 */
module Candidates {
  import opened Wrappers
  import opened Text
  import opened Store

  /**
   * A running application as the workspace reports it. `pid` tells two
   * processes apart, so record equality is the identity the source compares
   * with `==` and `firstIndex(of:)`.
   */
  datatype RunningApp = RunningApp(
    pid: nat,
    localizedName: Option<string>,
    bundleIdentifier: Option<string>,
    bundlePath: Option<string>,
    isRegular: bool)

  /** What the workspace reports at the moment of a key press. */
  datatype Workspace = Workspace(running: seq<RunningApp>, frontmost: Option<RunningApp>)

  /** No app occurs twice. */
  predicate Distinct(s: seq<RunningApp>)
  {
    forall i, j :: 0 <= i < j < |s| ==> s[i] != s[j]
  }

  /** Distinctness is the same as every multiplicity being at most one. */
  lemma {:induction false} DistinctMultiplicity(s: seq<RunningApp>)
    ensures Distinct(s) <==> forall x :: multiset(s)[x] <= 1
  {
    if s != [] {
      var t := s[1..];
      DistinctMultiplicity(t);
      assert s == [s[0]] + t;
      assert multiset(s) == multiset{s[0]} + multiset(t);
      if Distinct(s) {
        assert s[0] !in t;
        assert Distinct(t) by {
          forall i, j | 0 <= i < j < |t| ensures t[i] != t[j] {
            assert t[i] == s[i + 1] && t[j] == s[j + 1];
          }
        }
      } else {
        var i, j :| 0 <= i < j < |s| && s[i] == s[j];
        if i == 0 {
          assert s[j] in t;
          assert multiset(s)[s[0]] >= 2;
        } else {
          assert !Distinct(t) by {
            assert t[i - 1] == t[j - 1];
          }
          var x :| multiset(t)[x] > 1;
          assert multiset(s)[x] > 1;
        }
      }
    }
  }

  /** The app's lowercased name starts with `c`. */
  predicate NameStartsWith(app: RunningApp, c: char): (r: bool)
    ensures r ==> app.localizedName.Some? && |app.localizedName.value| > 0
    ensures r ==> !('A' <= c <= 'Z')
    ensures r && 'a' <= c <= 'z' ==> app.localizedName.value[0] == c || app.localizedName.value[0] == (c as int - 32) as char
    ensures ('a' <= c <= 'z' && app.localizedName.Some? && |app.localizedName.value| > 0 &&
             (app.localizedName.value[0] == c || app.localizedName.value[0] == (c as int - 32) as char)) ==> r
  {
    app.localizedName.Some? && |app.localizedName.value| > 0 && Lower(app.localizedName.value[0]) == c
  }

  /** The two `filter` steps: regular apps whose name starts with `c`, in workspace order. */
  function Matching(running: seq<RunningApp>, c: char): (r: seq<RunningApp>)
    ensures forall x :: x in r <==> x in running && x.isRegular && NameStartsWith(x, c)
    ensures forall x :: multiset(r)[x] == if x.isRegular && NameStartsWith(x, c) then multiset(running)[x] else 0
  {
    if running == [] then []
    else
      var rest := Matching(running[1..], c);
      assert running == [running[0]] + running[1..];
      if running[0].isRegular && NameStartsWith(running[0], c) then [running[0]] + rest else rest
  }

  /** `runningApplications.first(where: { $0.bundleIdentifier == bundleId })`. */
  function FirstWithBundle(running: seq<RunningApp>, bundleId: string): (r: Option<RunningApp>)
    ensures r.None? <==> forall j :: 0 <= j < |running| ==> running[j].bundleIdentifier != Some(bundleId)
    ensures r.Some? ==> exists i :: 0 <= i < |running| && running[i] == r.value && r.value.bundleIdentifier == Some(bundleId)
                                      && forall j :: 0 <= j < i ==> running[j].bundleIdentifier != Some(bundleId)
  {
    if running == [] then None
    else if running[0].bundleIdentifier == Some(bundleId) then Some(running[0])
    else
      var r := FirstWithBundle(running[1..], bundleId);
      if r.Some? then
        var i :| 0 <= i < |running[1..]| && running[1..][i] == r.value && r.value.bundleIdentifier == Some(bundleId)
                 && forall j :: 0 <= j < i ==> running[1..][j].bundleIdentifier != Some(bundleId);
        assert running[i + 1] == r.value;
        r
      else r
  }

  /** The running app that the table assigns to `c`, if `c` has a row and that app runs. */
  function AssignedRunning(running: seq<RunningApp>, assignments: seq<AppAssignment>, c: char): (r: Option<RunningApp>)
    ensures r.Some? ==> r.value in running && Lookup(assignments, c).Some?
    ensures r.Some? ==> r.value.bundleIdentifier == Some(Lookup(assignments, c).value.bundleIdentifier)
    ensures r.None? <==> (Lookup(assignments, c).None? ||
      forall j :: 0 <= j < |running| ==> running[j].bundleIdentifier != Some(Lookup(assignments, c).value.bundleIdentifier))
    ensures Lookup(assignments, c).Some? ==> r == FirstWithBundle(running, Lookup(assignments, c).value.bundleIdentifier)
  {
    match Lookup(assignments, c)
    case None => None
    case Some(a) => FirstWithBundle(running, a.bundleIdentifier)
  }

  /** The name an app is sorted by: `localizedName ?? ""`. */
  function SortKey(app: RunningApp): (r: string)
    ensures app.localizedName.Some? ==> r == app.localizedName.value
    ensures app.localizedName.None? ==> r == ""
  {
    app.localizedName.GetOr("")
  }

  /** No later app has a name that is `<` an earlier one's. */
  predicate SortedByName(s: seq<RunningApp>)
  {
    forall i, j :: 0 <= i < j < |s| ==> !Less(SortKey(s[j]), SortKey(s[i]))
  }

  /** Puts `x` before the first app whose name is greater, after every app whose name is not. */
  function InsertByName(x: RunningApp, s: seq<RunningApp>): (r: seq<RunningApp>)
    ensures multiset(r) == multiset(s) + multiset{x}
  {
    if s == [] then [x]
    else if Less(SortKey(x), SortKey(s[0])) then [x] + s
    else
      assert s == [s[0]] + s[1..];
      [s[0]] + InsertByName(x, s[1..])
  }

  /** A sorted list stays sorted with an app in front whose name no member's name sorts before. */
  lemma ConsSorted(y: RunningApp, s: seq<RunningApp>)
    requires SortedByName(s)
    requires forall z :: z in s ==> !Less(SortKey(z), SortKey(y))
    ensures SortedByName([y] + s)
  {
    var r := [y] + s;
    forall i, j | 0 <= i < j < |r| ensures !Less(SortKey(r[j]), SortKey(r[i])) {
      assert r[j] == s[j - 1];
      if i > 0 {
        assert r[i] == s[i - 1];
      }
    }
  }

  /** Inserting into a sorted list keeps it sorted. */
  lemma {:induction false} InsertByNameSorted(x: RunningApp, s: seq<RunningApp>)
    requires SortedByName(s)
    ensures SortedByName(InsertByName(x, s))
  {
    if s == [] {
    } else if Less(SortKey(x), SortKey(s[0])) {
      forall z | z in s ensures !Less(SortKey(z), SortKey(x)) {
        if Less(SortKey(z), SortKey(x)) {
          var j :| 0 <= j < |s| && s[j] == z;
          LessTransitive(SortKey(s[j]), SortKey(x), SortKey(s[0]));
          LessIrreflexive(SortKey(s[0]));
        }
      }
      ConsSorted(x, s);
    } else {
      var rest := InsertByName(x, s[1..]);
      InsertByNameSorted(x, s[1..]);
      forall y | y in rest ensures !Less(SortKey(y), SortKey(s[0])) {
        assert y in multiset(rest);
        if y != x {
          assert y in multiset(s[1..]);
          var k :| 0 <= k < |s[1..]| && s[1..][k] == y;
          assert s[k + 1] == y;
        }
      }
      ConsSorted(s[0], rest);
    }
  }

  /** `sorted { ($0.localizedName ?? "") < ($1.localizedName ?? "") }`, stable: the last app goes after its equals. */
  function SortByName(s: seq<RunningApp>): (r: seq<RunningApp>)
    ensures SortedByName(r)
    ensures multiset(r) == multiset(s)
  {
    if s == [] then []
    else
      assert s == s[..|s| - 1] + [s[|s| - 1]];
      var sortedPrefix := SortByName(s[..|s| - 1]);
      InsertByNameSorted(s[|s| - 1], sortedPrefix);
      InsertByName(s[|s| - 1], sortedPrefix)
  }

  /** The filtered list with the assigned app appended when it runs and is not already there. */
  function WithAssigned(results: seq<RunningApp>, running: seq<RunningApp>, assignments: seq<AppAssignment>, c: char): (r: seq<RunningApp>)
    ensures forall x :: x in r <==> x in results || AssignedRunning(running, assignments, c) == Some(x)
  {
    match AssignedRunning(running, assignments, c)
    case Some(app) => if app in results then results else results + [app]
    case None => results
  }

  /** `apps(for:)`. */
  function AppsFor(running: seq<RunningApp>, assignments: seq<AppAssignment>, letter: char): (r: seq<RunningApp>)
    ensures SortedByName(r)
    ensures forall x :: x in r <==>
      (x in running && x.isRegular && NameStartsWith(x, Lower(letter))) ||
      AssignedRunning(running, assignments, Lower(letter)) == Some(x)
    ensures multiset(r) == multiset(WithAssigned(Matching(running, Lower(letter)), running, assignments, Lower(letter)))
    ensures forall x :: x in r ==> x in running
  {
    var lower := Lower(letter);
    var w := WithAssigned(Matching(running, lower), running, assignments, lower);
    var r := SortByName(w);
    assert forall x :: x in r <==> x in w by {
      forall x ensures x in r <==> x in w {
        assert x in r <==> x in multiset(r);
        assert x in w <==> x in multiset(w);
      }
    }
    r
  }

  /** The candidate list never holds an app twice unless the workspace listed it twice. */
  lemma AppsForDistinct(running: seq<RunningApp>, assignments: seq<AppAssignment>, letter: char)
    requires Distinct(running)
    ensures Distinct(AppsFor(running, assignments, letter))
  {
    var lower := Lower(letter);
    var m := Matching(running, lower);
    var w := WithAssigned(m, running, assignments, lower);
    DistinctMultiplicity(running);
    assert forall x :: multiset(m)[x] <= 1 by {
      forall x ensures multiset(m)[x] <= 1 {
        assert multiset(m)[x] <= multiset(running)[x];
      }
    }
    assert forall x :: multiset(w)[x] <= 1 by {
      forall x ensures multiset(w)[x] <= 1 {
        match AssignedRunning(running, assignments, lower)
        case None =>
        case Some(app) =>
          if app !in m {
            assert multiset(w) == multiset(m) + multiset{app};
          }
      }
    }
    DistinctMultiplicity(AppsFor(running, assignments, letter));
  }
}
