/**
 * The global hotkey filter of `HotkeyManager`: every key-down, key-up and
 * modifier change passes through one callback that remembers whether Right
 * Command is held, reports its release, turns Right Command + letter into a
 * switch (or, with Option, an assignment) and swallows those key presses.
 */
module Hotkeys {
  import opened Wrappers
  import opened Text

  /** The event types the tap receives; anything else is `OtherEvent`. */
  datatype EventType = FlagsChanged | KeyDown | KeyUp | OtherEvent

  /** What decoding the event as an `NSEvent` yields: the Option modifier and the typed characters. */
  datatype KeyInfo = KeyInfo(optionHeld: bool, charactersIgnoringModifiers: Option<string>)

  /** An event as the tap sees it: its type, the raw device flags, and its decoding (`None` when it does not decode). */
  datatype Event = Event(kind: EventType, cgFlags: bv64, decoded: Option<KeyInfo>)

  /** The callbacks the filter calls. */
  datatype Callback = Release | Assign(letter: char) | Switch(letter: char)

  /** What one event does: the new `wasRightCommandPressed`, the callback fired, and whether the event goes on to the apps. */
  datatype Outcome = Outcome(pressed: bool, fired: Option<Callback>, passThrough: bool)

  /** The device-dependent flag bits of the two Command keys. */
  const RightCommandMask: bv64 := 0x10
  const LeftCommandMask: bv64 := 0x08

  /** Right Command is down and Left Command is not. */
  predicate RightCommandOnly(flags: bv64)
  {
    flags & RightCommandMask != 0 && flags & LeftCommandMask == 0
  }

  /** The letter a key press stands for: the first character of the lowercased characters, when it is `a`...`z`. */
  function HotkeyLetter(chars: Option<string>): (r: Option<char>)
    ensures r.Some? <==>
      chars.Some? && |chars.value| > 0 &&
      ('a' <= chars.value[0] <= 'z' || 'A' <= chars.value[0] <= 'Z')
    ensures r.Some? ==> 'a' <= r.value <= 'z' && Lower(chars.value[0]) == r.value
  {
    match chars
    case None => None
    case Some(s) =>
      var lowered := LowerString(s);
      if |lowered| > 0 && 'a' <= lowered[0] <= 'z' then Some(lowered[0]) else None
  }

  /** `true` for a callback that a key press fires (switch or assign), not a release. */
  predicate IsLetter(c: Callback)
  {
    c.Assign? || c.Switch?
  }

  /** The callback decision for one event, given whether Right Command was held before it. */
  function Classify(pressed: bool, e: Event): (o: Outcome)
    ensures !o.passThrough <==> o.fired.Some? && IsLetter(o.fired.value)
    ensures e.decoded.None? ==> o == Outcome(pressed, None, true)
    ensures e.decoded.Some? && e.kind == FlagsChanged ==>
      o.pressed == RightCommandOnly(e.cgFlags) &&
      (o.fired == Some(Release) <==> pressed && !o.pressed) &&
      (o.fired.None? || o.fired == Some(Release))
    ensures e.kind == KeyUp || e.kind == OtherEvent ==> o == Outcome(pressed, None, true)
    ensures e.kind == KeyDown && !RightCommandOnly(e.cgFlags) ==> o == Outcome(pressed, None, true)
    ensures e.decoded.Some? && e.kind == KeyDown && RightCommandOnly(e.cgFlags) ==>
      o.pressed &&
      match HotkeyLetter(e.decoded.value.charactersIgnoringModifiers)
      case None => o.fired.None?
      case Some(c) => o.fired == Some(if e.decoded.value.optionHeld then Assign(c) else Switch(c))
    ensures o.fired == Some(Release) ==> pressed
  {
    match e.decoded
    case None => Outcome(pressed, None, true)
    case Some(info) =>
      var hasRightCommand := e.cgFlags & RightCommandMask != 0;
      var hasLeftCommand := e.cgFlags & LeftCommandMask != 0;
      if e.kind == FlagsChanged then
        var now := hasRightCommand && !hasLeftCommand;
        Outcome(now, if pressed && !now then Some(Release) else None, true)
      else if e.kind != KeyDown then Outcome(pressed, None, true)
      else if !hasRightCommand || hasLeftCommand then Outcome(pressed, None, true)
      else
        match HotkeyLetter(info.charactersIgnoringModifiers)
        case None => Outcome(true, None, true)
        case Some(c) => Outcome(true, Some(if info.optionHeld then Assign(c) else Switch(c)), false)
  }

  /** The two Command bits of the flags read exactly "right set, left clear". */
  lemma RightCommandOnlyBits(flags: bv64)
    ensures RightCommandOnly(flags) <==> flags & (RightCommandMask | LeftCommandMask) == RightCommandMask
  {
  }

  /** The letter callback an event fires whatever state it meets, if any: it depends on the event alone. */
  function Hotkey(e: Event): (r: Option<Callback>)
    ensures forall pressed: bool :: r == (var o := Classify(pressed, e); if o.passThrough then None else o.fired)
  {
    match e.decoded
    case None => None
    case Some(info) =>
      if e.kind == KeyDown && RightCommandOnly(e.cgFlags) then
        match HotkeyLetter(info.charactersIgnoringModifiers)
        case None => None
        case Some(c) => Some(if info.optionHeld then Assign(c) else Switch(c))
      else None
  }

  /** The final state and the callbacks fired, in order, when `events` reach the filter one after another. */
  function Run(pressed: bool, events: seq<Event>): (r: (bool, seq<Callback>))
    ensures |r.1| <= |events|
    ensures events == [] ==> r.0 == pressed
    ensures events != [] && events[|events| - 1].kind == FlagsChanged && events[|events| - 1].decoded.Some? ==>
      r.0 == RightCommandOnly(events[|events| - 1].cgFlags)
    ensures forall c :: c in r.1 && IsLetter(c) ==> exists e :: e in events && Hotkey(e) == Some(c)
    decreases events
  {
    if events == [] then (pressed, [])
    else
      var o := Classify(pressed, events[0]);
      var rest := Run(o.pressed, events[1..]);
      var head := if o.fired.Some? then [o.fired.value] else [];
      assert |events| > 1 ==> events[1..][|events[1..]| - 1] == events[|events| - 1];
      assert forall c :: c in head && IsLetter(c) ==> Hotkey(events[0]) == Some(c);
      assert forall e :: e in events[1..] ==> e in events;
      (rest.0, head + rest.1)
  }

  /** The letter callbacks in a run of callbacks, releases dropped. */
  function Letters(cs: seq<Callback>): (r: seq<Callback>)
    ensures forall c :: c in r <==> c in cs && IsLetter(c)
  {
    if cs == [] then []
    else (if IsLetter(cs[0]) then [cs[0]] else []) + Letters(cs[1..])
  }

  /** The hotkeys among `events`, one per qualifying key press. */
  function HotkeysOf(events: seq<Event>): (r: seq<Callback>)
    ensures |r| <= |events|
    ensures forall c :: c in r <==> exists e :: e in events && Hotkey(e) == Some(c)
  {
    if events == [] then []
    else (if Hotkey(events[0]).Some? then [Hotkey(events[0]).value] else []) + HotkeysOf(events[1..])
  }

  lemma {:induction false} LettersConcat(s: seq<Callback>, t: seq<Callback>)
    ensures Letters(s + t) == Letters(s) + Letters(t)
  {
    if s != [] {
      assert (s + t)[1..] == s[1..] + t;
      LettersConcat(s[1..], t);
    } else {
      assert s + t == t;
    }
  }

  /**
   * Whatever the modifier changes in between, the switch and assign callbacks
   * of a run are exactly one per qualifying key press, in order.
   */
  lemma {:induction false} RunFiresOnePerHotkey(pressed: bool, events: seq<Event>)
    ensures Letters(Run(pressed, events).1) == HotkeysOf(events)
    decreases events
  {
    if events != [] {
      var o := Classify(pressed, events[0]);
      var head := if o.fired.Some? then [o.fired.value] else [];
      RunFiresOnePerHotkey(o.pressed, events[1..]);
      LettersConcat(head, Run(o.pressed, events[1..]).1);
      assert Letters(head) == if Hotkey(events[0]).Some? then [Hotkey(events[0]).value] else [];
    }
  }

  /** A release fires only after Right Command was pressed, and a hotkey leaves it pressed, so a later release is reported. */
  lemma ReleaseFollowsHotkey(pressed: bool, press: Event, lift: Event)
    requires Hotkey(press).Some?
    requires lift.kind == FlagsChanged && lift.decoded.Some? && !RightCommandOnly(lift.cgFlags)
    ensures Classify(Classify(pressed, press).pressed, lift).fired == Some(Release)
  {
    assert Classify(pressed, press).pressed;
  }

  /** `HotkeyManager`: the tap handle, the Right Command state, and the callbacks fired so far. */
  class HotkeyManager {
    var eventTap: Option<nat>
    var wasRightCommandPressed: bool
    var fired: seq<Callback>

    constructor ()
      ensures eventTap == None && !wasRightCommandPressed && fired == []
    {
      eventTap := None;
      wasRightCommandPressed := false;
      fired := [];
    }

    /** `start()`: a second start keeps the tap it has; `created` is what creating a tap yields (`None` when it fails). */
    method Start(created: Option<nat>)
      modifies this
      ensures old(eventTap).Some? ==> eventTap == old(eventTap)
      ensures old(eventTap).None? ==> eventTap == created
      ensures wasRightCommandPressed == old(wasRightCommandPressed) && fired == old(fired)
    {
      if eventTap.Some? {
        return;
      }
      if created.None? {
        return;
      }
      eventTap := created;
    }

    /** The tap callback for one event; `passThrough` is false when the event is swallowed. */
    method HandleEvent(e: Event) returns (passThrough: bool)
      modifies this
      ensures var o := Classify(old(wasRightCommandPressed), e);
        wasRightCommandPressed == o.pressed && passThrough == o.passThrough &&
        fired == old(fired) + (if o.fired.Some? then [o.fired.value] else [])
      ensures eventTap == old(eventTap)
    {
      var o := Classify(wasRightCommandPressed, e);
      wasRightCommandPressed := o.pressed;
      if o.fired.Some? {
        fired := fired + [o.fired.value];
      }
      passThrough := o.passThrough;
    }
  }
}
