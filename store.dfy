/**
 * The persisted letter -> application table and the optional settings that
 * sit beside it. The table is an ordered list that may hold several entries
 * with one key (it is whatever the configuration file held), so lookup takes
 * the first match, setting replaces the first match or appends, and removing
 * drops every entry with the key.
 */
module Store {
  import opened Wrappers

  /** What a second press does when the assigned app is already in front. */
  datatype WhenFocusedAction = Hide | Cycle

  /** One row of the table; `key` is a one-letter string for rows the program writes. */
  datatype AppAssignment = AppAssignment(
    key: string,
    bundleIdentifier: string,
    bundlePath: Option<string>,
    whenFocusedAction: WhenFocusedAction)

  datatype SwitcherTheme = Compact | Comfortable

  /** The stored configuration; absent settings fall back to fixed defaults. */
  datatype Config = Config(
    assignments: seq<AppAssignment>,
    isOverlayEnabled: Option<bool>,
    isCheatSheetEnabled: Option<bool>,
    theme: Option<SwitcherTheme>,
    longPressDelay: Option<real>)
  {
    /** The overlay is on only when it was switched on explicitly. */
    function OverlayEnabled(): (b: bool)
      ensures b <==> isOverlayEnabled == Some(true)
    {
      isOverlayEnabled.GetOr(false)
    }

    /** The cheat sheet is on unless it was switched off explicitly. */
    function CheatSheetEnabled(): (b: bool)
      ensures !b <==> isCheatSheetEnabled == Some(false)
    {
      isCheatSheetEnabled.GetOr(true)
    }

    /** The compact theme is active only when it was chosen explicitly. */
    function ActiveTheme(): (t: SwitcherTheme)
      ensures t == Compact <==> theme == Some(Compact)
    {
      theme.GetOr(Comfortable)
    }

    /** The long-press delay, 1.5 seconds unless one was stored. */
    function Delay(): (d: real)
      ensures longPressDelay.Some? ==> d == longPressDelay.value
      ensures longPressDelay.None? ==> d == 1.5
    {
      longPressDelay.GetOr(1.5)
    }
  }

  /** `Config()`: an empty table, the overlay off, the cheat sheet on, the comfortable theme and a 1.5 s delay. */
  function EmptyConfig(): (c: Config)
    ensures c.assignments == []
    ensures !c.OverlayEnabled()
    ensures c.CheatSheetEnabled()
    ensures c.ActiveTheme() == Comfortable
    ensures c.Delay() == 1.5
  {
    Config([], None, None, None, None)
  }

  /** Keys of distinct rows differ. */
  predicate KeysDistinct(s: seq<AppAssignment>)
  {
    forall i, j :: 0 <= i < j < |s| ==> s[i].key != s[j].key
  }

  /** `firstIndex(where: { $0.key == key })`. */
  function FirstKeyIndex(s: seq<AppAssignment>, key: string): (r: Option<nat>)
    ensures r.Some? ==> r.value < |s| && s[r.value].key == key
    ensures r.Some? ==> forall j :: 0 <= j < r.value ==> s[j].key != key
    ensures r.None? <==> forall j :: 0 <= j < |s| ==> s[j].key != key
  {
    if s == [] then None
    else if s[0].key == key then Some(0)
    else match FirstKeyIndex(s[1..], key)
      case None => None
      case Some(i) => Some(i + 1)
  }

  /** `assignment(for:)`: the first row whose key is the one-letter string of `k`. */
  function Lookup(s: seq<AppAssignment>, k: char): (r: Option<AppAssignment>)
    ensures r.Some? ==> r.value in s && r.value.key == [k]
    ensures r.None? <==> forall j :: 0 <= j < |s| ==> s[j].key != [k]
  {
    if s == [] then None
    else if s[0].key == [k] then Some(s[0])
    else Lookup(s[1..], k)
  }

  /** Lookup returns the row at the first index whose key matches, and nothing when there is none. */
  lemma {:induction false} LookupIsFirstMatch(s: seq<AppAssignment>, k: char)
    ensures FirstKeyIndex(s, [k]).None? ==> Lookup(s, k) == None
    ensures FirstKeyIndex(s, [k]).Some? ==> Lookup(s, k) == Some(s[FirstKeyIndex(s, [k]).value])
  {
    if s != [] && s[0].key != [k] {
      LookupIsFirstMatch(s[1..], k);
    }
  }

  /** The table after `setAssignment(a, for: k)`. */
  function Upserted(s: seq<AppAssignment>, a: AppAssignment, k: char): (r: seq<AppAssignment>)
    ensures FirstKeyIndex(s, [k]).Some? ==>
      var i := FirstKeyIndex(s, [k]).value;
      |r| == |s| && r[i] == a && forall j :: 0 <= j < |s| && j != i ==> r[j] == s[j]
    ensures FirstKeyIndex(s, [k]).None? ==>
      |r| == |s| + 1 && r[..|s|] == s && r[|s|] == a
  {
    match FirstKeyIndex(s, [k])
    case Some(i) => s[i := a]
    case None => s + [a]
  }

  /** Storing a row under its own key makes it the row that lookup finds. */
  lemma UpsertThenLookup(s: seq<AppAssignment>, a: AppAssignment, k: char)
    requires a.key == [k]
    ensures Lookup(Upserted(s, a, k), k) == Some(a)
  {
    var r := Upserted(s, a, k);
    match FirstKeyIndex(s, [k])
    case Some(i) =>
      assert forall j :: 0 <= j < i ==> r[j].key != [k];
      assert FirstKeyIndex(r, [k]) == Some(i);
      LookupIsFirstMatch(r, k);
    case None =>
      assert forall j :: 0 <= j < |s| ==> r[j].key != [k];
      assert FirstKeyIndex(r, [k]) == Some(|s|);
      LookupIsFirstMatch(r, k);
  }

  /** Storing a row under its own key keeps a table with distinct keys distinct. */
  lemma UpsertKeepsKeysDistinct(s: seq<AppAssignment>, a: AppAssignment, k: char)
    requires KeysDistinct(s) && a.key == [k]
    ensures KeysDistinct(Upserted(s, a, k))
  {
  }

  /** The table after `removeAssignment(for: k)`: every row keyed `k` is dropped. */
  function WithoutKey(s: seq<AppAssignment>, k: char): (r: seq<AppAssignment>)
    ensures |r| <= |s|
    ensures forall x :: x in r ==> x in s && x.key != [k]
  {
    if s == [] then []
    else if s[0].key == [k] then WithoutKey(s[1..], k)
    else [s[0]] + WithoutKey(s[1..], k)
  }

  /** Removing works piecewise, so the kept rows stay in their original relative order. */
  lemma {:induction false} WithoutKeyAppend(s: seq<AppAssignment>, t: seq<AppAssignment>, k: char)
    ensures WithoutKey(s + t, k) == WithoutKey(s, k) + WithoutKey(t, k)
  {
    if s != [] {
      assert (s + t)[1..] == s[1..] + t;
      WithoutKeyAppend(s[1..], t, k);
    } else {
      assert s + t == t;
    }
  }

  /** After removal no row has the key; rows with other keys keep their multiplicity. */
  lemma {:induction false} WithoutKeyKeepsOthers(s: seq<AppAssignment>, k: char, x: AppAssignment)
    ensures x.key == [k] ==> multiset(WithoutKey(s, k))[x] == 0
    ensures x.key != [k] ==> multiset(WithoutKey(s, k))[x] == multiset(s)[x]
  {
    if s != [] {
      assert s == [s[0]] + s[1..];
      WithoutKeyKeepsOthers(s[1..], k, x);
    }
  }

  /** After removal lookup of the key finds nothing, and lookup of any other key is unchanged. */
  lemma {:induction false} RemoveThenLookup(s: seq<AppAssignment>, k: char, other: char)
    ensures Lookup(WithoutKey(s, k), k) == None
    ensures other != k ==> Lookup(WithoutKey(s, k), other) == Lookup(s, other)
  {
    if s != [] {
      RemoveThenLookup(s[1..], k, other);
    }
  }

  /** `ConfigStore`: the in-memory configuration that the settings and the table live in. */
  class ConfigStore {
    var config: Config

    /** Starts from the decoded configuration file, or from `Config()` when there is none or it does not decode. */
    constructor (loaded: Option<Config>)
      ensures config == loaded.GetOr(EmptyConfig())
    {
      config := loaded.GetOr(EmptyConfig());
    }

    /** `getAllAssignments()`: the whole table, in stored order and with any duplicate keys. */
    function AllAssignments(): (r: seq<AppAssignment>)
      reads this
      ensures r == config.assignments
    {
      config.assignments
    }

    /** `setAssignment(_:for:)`: overwrite the first row keyed `k` in place, or append. */
    method SetAssignment(a: AppAssignment, k: char)
      modifies this
      ensures config == old(config).(assignments := Upserted(old(config.assignments), a, k))
    {
      var keyString := [k];
      var i := 0;
      while i < |config.assignments| && config.assignments[i].key != keyString
        invariant 0 <= i <= |config.assignments|
        invariant forall j :: 0 <= j < i ==> config.assignments[j].key != keyString
      {
        i := i + 1;
      }
      if i < |config.assignments| {
        assert FirstKeyIndex(config.assignments, keyString) == Some(i);
        config := config.(assignments := config.assignments[i := a]);
      } else {
        config := config.(assignments := config.assignments + [a]);
      }
    }

    /** `removeAssignment(for:)`: drop every row keyed `k`. */
    method RemoveAssignment(k: char)
      modifies this
      ensures config == old(config).(assignments := WithoutKey(old(config.assignments), k))
    {
      var keyString := [k];
      var s := config.assignments;
      var kept := [];
      var i := 0;
      while i < |s|
        invariant 0 <= i <= |s|
        invariant kept == WithoutKey(s[..i], k)
        invariant config == old(config)
      {
        assert s[..i + 1] == s[..i] + [s[i]];
        WithoutKeyAppend(s[..i], [s[i]], k);
        if s[i].key != keyString {
          kept := kept + [s[i]];
        }
        i := i + 1;
      }
      assert s[..i] == s;
      assert kept == WithoutKey(old(config.assignments), k);
      config := config.(assignments := kept);
    }

    method SetOverlayEnabled(v: bool)
      modifies this
      ensures config == old(config).(isOverlayEnabled := Some(v))
      ensures config.OverlayEnabled() == v
    {
      config := config.(isOverlayEnabled := Some(v));
    }

    method SetCheatSheetEnabled(v: bool)
      modifies this
      ensures config == old(config).(isCheatSheetEnabled := Some(v))
      ensures config.CheatSheetEnabled() == v
    {
      config := config.(isCheatSheetEnabled := Some(v));
    }

    method SetTheme(t: SwitcherTheme)
      modifies this
      ensures config == old(config).(theme := Some(t))
      ensures config.ActiveTheme() == t
    {
      config := config.(theme := Some(t));
    }

    method SetLongPressDelay(d: real)
      modifies this
      ensures config == old(config).(longPressDelay := Some(d))
      ensures config.Delay() == d
    {
      config := config.(longPressDelay := Some(d));
    }
  }
}
