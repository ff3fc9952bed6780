/**
 * Key bindings: the modifier toggles of `DrawKeybinding`, and the capture
 * window `DrawKeybindingSmart` opens, which records a chord from the key
 * events it receives and writes it to the bound key on "Save".
 */
module KeyCapture {
  import opened Wrappers
  import opened Schema

  /** The modifier bits of a chord. */
  const Ctrl: bv8 := 1
  const Shift: bv8 := 2
  const Alt: bv8 := 4

  /** The modifier bit a key stands for, 0 for a key that is not a modifier. */
  function ModifierBit(k: KeyCode): (b: bv8)
    ensures b == 0 || b == Ctrl || b == Shift || b == Alt
    ensures b == Ctrl <==> k == LeftControl || k == RightControl
    ensures b == Shift <==> k == LeftShift || k == RightShift
    ensures b == Alt <==> k == LeftAlt || k == RightAlt
    ensures b != 0 ==> k != NoKey
  {
    match k
    case LeftControl => Ctrl
    case RightControl => Ctrl
    case LeftShift => Shift
    case RightShift => Shift
    case LeftAlt => Alt
    case RightAlt => Alt
    case _ => 0
  }

  predicate IsModifier(k: KeyCode) {
    ModifierBit(k) != 0
  }

  /** A `KeyBinding` object: the key and the modifier mask, changed in place. */
  class KeyBinding {
    var keyCode: KeyCode
    var modifiers: bv8

    /** `new KeyBinding()`: no key, no modifiers. */
    constructor ()
      ensures keyCode == NoKey && modifiers == 0
    {
      keyCode := NoKey;
      modifiers := 0;
    }

    function Value(): Chord
      reads this
    {
      Chord(keyCode, modifiers)
    }

    /** `KeyBinding.Change(key, modifiers)`. */
    method Change(k: KeyCode, m: bv8)
      modifies this
      ensures keyCode == k && modifiers == m
    {
      keyCode := k;
      modifiers := m;
    }
  }

  /*
   * The modifier toggles of `DrawKeybinding`.
   */

  /** The mask after the Ctrl, Shift and Alt toggles report `ctrl`, `shift` and `alt`. */
  function ToggledModifiers(m: bv8, ctrl: bool, shift: bool, alt: bool): (r: bv8)
  {
    (m & 0xF8) | (if ctrl then Ctrl else 0) | (if shift then Shift else 0) | (if alt then Alt else 0)
  }

  /** Each toggle decides its own bit; the bits the toggles do not show are kept. */
  lemma ToggledModifiersBits(m: bv8, ctrl: bool, shift: bool, alt: bool)
    ensures var r := ToggledModifiers(m, ctrl, shift, alt);
      (r & Ctrl != 0 <==> ctrl) && (r & Shift != 0 <==> shift) && (r & Alt != 0 <==> alt) && r & 0xF8 == m & 0xF8
  {
  }

  /** Toggles left as they were shown change nothing. */
  lemma ToggledModifiersUntouched(m: bv8)
    ensures ToggledModifiers(m, m & Ctrl != 0, m & Shift != 0, m & Alt != 0) == m
  {
  }

  /** A byte is determined by its three low bits and the rest. */
  lemma SameBits(a: bv8, b: bv8)
    requires a & 0xF8 == b & 0xF8
    requires a & Ctrl == b & Ctrl && a & Shift == b & Shift && a & Alt == b & Alt
    ensures a == b
  {
  }

  /** One toggle: on sets its bit, off clears it when it is set; every other bit is kept. */
  method ToggleBit(before: bv8, bit: bv8, on: bool) returns (after: bv8)
    requires bit == Ctrl || bit == Shift || bit == Alt
    ensures after & 0xF8 == before & 0xF8
    ensures after & bit == if on then bit else 0
    ensures bit != Ctrl ==> after & Ctrl == before & Ctrl
    ensures bit != Shift ==> after & Shift == before & Shift
    ensures bit != Alt ==> after & Alt == before & Alt
  {
    after := before;
    if on {
      after := after | bit;
    } else if after & bit != 0 {
      after := after ^ bit;
    }
  }

  /** What a toggle leaves in its bit `bit` of `m`. */
  function ToggledBit(m: bv8, bit: bv8, on: bool, done: bool): bv8 {
    if !done then m & bit else if on then bit else 0
  }

  /**
   * The toggle loop over the bits 1, 2 and 4: a toggle that is on sets its
   * bit, one that is off clears it when it is set.
   */
  method ApplyModifierToggles(m: bv8, toggles: seq<bool>) returns (r: bv8)
    requires |toggles| == 3
    ensures r == ToggledModifiers(m, toggles[0], toggles[1], toggles[2])
  {
    var bits: seq<bv8> := [Ctrl, Shift, Alt];
    r := m;
    var i := 0;
    while i < 3
      invariant 0 <= i <= 3
      invariant r & 0xF8 == m & 0xF8
      invariant r & Ctrl == ToggledBit(m, Ctrl, toggles[0], i > 0)
      invariant r & Shift == ToggledBit(m, Shift, toggles[1], i > 1)
      invariant r & Alt == ToggledBit(m, Alt, toggles[2], i > 2)
    {
      r := ToggleBit(r, bits[i], toggles[i]);
      i := i + 1;
    }
    SameBits(r, ToggledModifiers(m, toggles[0], toggles[1], toggles[2]));
  }

  /**
   * `DrawKeybinding`: a null key is replaced by a new binding; the toggles
   * decide the modifiers, and a key `picked` from the list is applied with
   * them.  The answer says whether the binding changed.
   */
  method DrawKeybinding(key: KeyBinding?, toggles: seq<bool>, picked: Option<KeyCode>) returns (k: KeyBinding, changed: bool)
    requires |toggles| == 3
    modifies key
    ensures key != null ==> k == key
    ensures key == null ==> fresh(k)
    ensures var m0 := if key == null then 0 else old(key.modifiers);
      var k0 := if key == null then NoKey else old(key.keyCode);
      var m := ToggledModifiers(m0, toggles[0], toggles[1], toggles[2]);
      k.modifiers == m && k.keyCode == (if picked.Some? then picked.value else k0) &&
      (changed <==> picked.Some? || m != m0)
  {
    if key == null {
      k := new KeyBinding();
    } else {
      k := key;
    }
    changed := false;
    var m := ApplyModifierToggles(k.modifiers, toggles);
    if picked.Some? {
      k.Change(picked.value, m);
      changed := true;
    }
    if k.modifiers != m {
      k.modifiers := m;
      changed := true;
    }
  }

  /*
   * The capture state machine of `DrawKeybindingSmart`.
   */

  datatype KeyEventType = KeyDown | KeyUp

  /** A keyboard event the capture window receives. */
  datatype KeyEvent = KeyEvent(kind: KeyEventType, code: KeyCode)

  /** The window's state: the chord being recorded (`newKey`) and whether it is still waiting for keys. */
  datatype Capture = Capture(pending: Chord, changing: bool)

  /** The state right after "Assign". */
  const Assigned: Capture := Capture(Chord(NoKey, 0), true)

  /** The state a window opens in: a copy of the bound chord, not capturing. */
  function Opened(bound: Chord): (s: Capture)
    ensures s.pending == bound && !s.changing
  {
    Capture(bound, false)
  }

  /**
   * One key event.  While capturing, a modifier's KeyDown adds its bit; a
   * modifier's KeyUp with no key yet flips its bit, takes that key and ends the
   * capture; any other key's KeyUp takes that key and ends the capture.  With
   * `disableModifiers` the capture ends with no modifiers.
   */
  function Step(s: Capture, e: KeyEvent, disableModifiers: bool): (r: Capture)
    ensures !s.changing ==> r == s
    ensures r.changing ==> s.changing && r.pending.keyCode == s.pending.keyCode
    ensures r.changing ==> r.pending.modifiers & s.pending.modifiers == s.pending.modifiers
    ensures s.changing && !r.changing ==> e.kind == KeyUp && e.code != NoKey && r.pending.keyCode == e.code
    ensures s.changing && !r.changing && disableModifiers ==> r.pending.modifiers == 0
  {
    if !s.changing then s
    else
      var afterKey := KeyStep(s.pending, e);
      if !afterKey.changing && disableModifiers then afterKey.(pending := afterKey.pending.(modifiers := 0))
      else afterKey
  }

  /** What one event does to the chord being recorded, before `disableModifiers` is applied. */
  function KeyStep(p: Chord, e: KeyEvent): (r: Capture)
    ensures r.changing ==> r.pending.keyCode == p.keyCode && r.pending.modifiers & p.modifiers == p.modifiers
    ensures !r.changing ==> e.kind == KeyUp && e.code != NoKey && r.pending.keyCode == e.code
  {
    var bit := ModifierBit(e.code);
    if bit != 0 then
      if e.kind == KeyUp && p.keyCode == NoKey then Capture(Chord(e.code, p.modifiers ^ bit), false)
      else if e.kind == KeyDown then
        OrKeeps(p.modifiers, bit);
        Capture(p.(modifiers := p.modifiers | bit), true)
      else
        OrKeeps(p.modifiers, 0);
        Capture(p, true)
    else if e.code != NoKey && e.kind == KeyUp then Capture(p.(keyCode := e.code), false)
    else
      OrKeeps(p.modifiers, 0);
      Capture(p, true)
  }

  /** Setting bits keeps the bits already set. */
  lemma OrKeeps(m: bv8, b: bv8)
    ensures (m | b) & m == m
  {
  }

  /** Outside a capture, and for an event with no key, a step changes nothing. */
  lemma StepIgnored(s: Capture, e: KeyEvent, d: bool)
    ensures !s.changing || e.code == NoKey ==> Step(s, e, d) == s
  {
  }

  /** A modifier's KeyDown adds its bit; its KeyUp with no key yet takes it and ends the capture. */
  lemma StepModifier(s: Capture, e: KeyEvent, d: bool)
    requires s.changing && IsModifier(e.code)
    ensures e.kind == KeyDown ==>
      Step(s, e, d) == Capture(s.pending.(modifiers := s.pending.modifiers | ModifierBit(e.code)), true)
    ensures e.kind == KeyUp && s.pending.keyCode == NoKey ==>
      Step(s, e, d) == Capture(Chord(e.code, if d then 0 else s.pending.modifiers ^ ModifierBit(e.code)), false)
    ensures e.kind == KeyUp && s.pending.keyCode != NoKey ==> Step(s, e, d) == s
  {
  }

  /** Any other key's KeyUp takes it and ends the capture; its KeyDown changes nothing. */
  lemma StepOther(s: Capture, e: KeyEvent, d: bool)
    requires s.changing && !IsModifier(e.code)
    ensures e.code != NoKey && e.kind == KeyUp ==>
      Step(s, e, d) == Capture(Chord(e.code, if d then 0 else s.pending.modifiers), false)
    ensures e.kind == KeyDown ==> Step(s, e, d) == s
  {
  }

  /** The cases of `Step`, one by one. */
  lemma StepCases(s: Capture, e: KeyEvent, d: bool)
    ensures !s.changing || e.code == NoKey ==> Step(s, e, d) == s
    ensures s.changing && IsModifier(e.code) && e.kind == KeyDown ==>
      Step(s, e, d) == Capture(s.pending.(modifiers := s.pending.modifiers | ModifierBit(e.code)), true)
    ensures s.changing && IsModifier(e.code) && e.kind == KeyUp && s.pending.keyCode == NoKey ==>
      Step(s, e, d) == Capture(Chord(e.code, if d then 0 else s.pending.modifiers ^ ModifierBit(e.code)), false)
    ensures s.changing && IsModifier(e.code) && e.kind == KeyUp && s.pending.keyCode != NoKey ==> Step(s, e, d) == s
    ensures s.changing && !IsModifier(e.code) && e.code != NoKey && e.kind == KeyUp ==>
      Step(s, e, d) == Capture(Chord(e.code, if d then 0 else s.pending.modifiers), false)
    ensures s.changing && !IsModifier(e.code) && e.kind == KeyDown ==> Step(s, e, d) == s
  {
    StepIgnored(s, e, d);
    if s.changing && IsModifier(e.code) {
      StepModifier(s, e, d);
    }
    if s.changing && !IsModifier(e.code) {
      StepOther(s, e, d);
    }
  }

  /**
   * A sequence of key events, one per frame.  A capture never restarts, and
   * while it goes on the key stays as it was and modifier bits only accumulate.
   */
  function Run(s: Capture, events: seq<KeyEvent>, disableModifiers: bool): (r: Capture)
    ensures r.changing ==> s.changing && r.pending.keyCode == s.pending.keyCode
    ensures r.changing ==> r.pending.modifiers & s.pending.modifiers == s.pending.modifiers
    decreases |events|
  {
    if events == [] then s else Run(Step(s, events[0], disableModifiers), events[1..], disableModifiers)
  }

  /** Running `a` then `b` is running `a + b`. */
  lemma {:induction false} RunAppend(s: Capture, a: seq<KeyEvent>, b: seq<KeyEvent>, d: bool)
    ensures Run(Run(s, a, d), b, d) == Run(s, a + b, d)
    decreases |a|
  {
    if a == [] {
      assert a + b == b;
    } else {
      assert (a + b)[0] == a[0];
      assert (a + b)[1..] == a[1..] + b;
      RunAppend(Step(s, a[0], d), a[1..], b, d);
    }
  }

  /** While capturing no key has been taken yet. */
  predicate NoKeyWhileCapturing(s: Capture) {
    s.changing ==> s.pending.keyCode == NoKey
  }

  /** Once the capture has ended, further key events change nothing. */
  lemma {:induction false} RunAfterCapture(s: Capture, events: seq<KeyEvent>, d: bool)
    requires !s.changing
    ensures Run(s, events, d) == s
    decreases |events|
  {
    if events != [] {
      RunAfterCapture(Step(s, events[0], d), events[1..], d);
    }
  }

  /** Every state reached from "Assign" has no key while capturing. */
  lemma {:induction false} RunKeepsNoKey(s: Capture, events: seq<KeyEvent>, d: bool)
    requires NoKeyWhileCapturing(s)
    ensures NoKeyWhileCapturing(Run(s, events, d))
    decreases |events|
  {
    if events != [] {
      RunKeepsNoKey(Step(s, events[0], d), events[1..], d);
    }
  }

  /** With `disableModifiers`, every finished capture from "Assign" has no modifiers. */
  lemma {:induction false} DisabledModifiersStayClear(s: Capture, events: seq<KeyEvent>)
    requires !s.changing ==> s.pending.modifiers == 0
    ensures var r := Run(s, events, true); !r.changing ==> r.pending.modifiers == 0
    decreases |events|
  {
    if events != [] {
      DisabledModifiersStayClear(Step(s, events[0], true), events[1..]);
    }
  }

  lemma DisabledCaptureHasNoModifiers(events: seq<KeyEvent>)
    ensures var r := Run(Assigned, events, true); !r.changing ==> r.pending.modifiers == 0
  {
    DisabledModifiersStayClear(Assigned, events);
  }

  /** The modifiers a sequence of modifier KeyDowns holds. */
  function HeldBits(downs: seq<KeyCode>): bv8
    decreases |downs|
  {
    if downs == [] then 0 else ModifierBit(downs[0]) | HeldBits(downs[1..])
  }

  function Presses(downs: seq<KeyCode>): (es: seq<KeyEvent>)
    ensures |es| == |downs|
    ensures forall j :: 0 <= j < |downs| ==> es[j] == KeyEvent(KeyDown, downs[j])
  {
    seq(|downs|, j requires 0 <= j < |downs| => KeyEvent(KeyDown, downs[j]))
  }

  /** Holding modifiers while capturing adds their bits and keeps capturing. */
  lemma {:induction false} HoldModifiers(m: bv8, downs: seq<KeyCode>, d: bool)
    requires forall j :: 0 <= j < |downs| ==> IsModifier(downs[j])
    ensures Run(Capture(Chord(NoKey, m), true), Presses(downs), d) == Capture(Chord(NoKey, m | HeldBits(downs)), true)
    decreases |downs|
  {
    if downs != [] {
      var s := Capture(Chord(NoKey, m), true);
      var es := Presses(downs);
      assert es[1..] == Presses(downs[1..]);
      StepModifier(s, es[0], d);
      HoldModifiers(m | ModifierBit(downs[0]), downs[1..], d);
    }
  }

  /**
   * Holding any modifiers and releasing another key records that key with the
   * held modifiers (none with `disableModifiers`), and ends the capture.
   */
  lemma ChordCapture(downs: seq<KeyCode>, k: KeyCode, d: bool)
    requires forall j :: 0 <= j < |downs| ==> IsModifier(downs[j])
    requires !IsModifier(k) && k != NoKey
    ensures Run(Assigned, Presses(downs) + [KeyEvent(KeyUp, k)], d) ==
      Capture(Chord(k, if d then 0 else HeldBits(downs)), false)
  {
    HoldModifiers(0, downs, d);
    RunAppend(Assigned, Presses(downs), [KeyEvent(KeyUp, k)], d);
  }

  /** Pressing and releasing a single modifier records that modifier key alone. */
  lemma ModifierTap(k: KeyCode, d: bool)
    requires IsModifier(k)
    ensures Run(Assigned, [KeyEvent(KeyDown, k), KeyEvent(KeyUp, k)], d) == Capture(Chord(k, 0), false)
  {
    var events := [KeyEvent(KeyDown, k), KeyEvent(KeyUp, k)];
    var s1 := Step(Assigned, events[0], d);
    assert s1 == Capture(Chord(NoKey, ModifierBit(k)), true);
    var s2 := Step(s1, events[1], d);
    assert s2 == Capture(Chord(k, 0), false);
    assert events[1..][1..] == [];
    assert Run(s1, events[1..], d) == Run(s2, [], d);
  }

  /** "Save": the bound chord and whether it changed; it changes only when the recorded chord differs. */
  function Saved(bound: Chord, pending: Chord): (r: (Chord, bool))
    ensures r.1 <==> bound != pending
    ensures r.0 == pending
  {
    if bound.keyCode != pending.keyCode || bound.modifiers != pending.modifiers then (pending, true) else (bound, false)
  }

  /**
   * The capture window: the key it binds, the chord being recorded, whether it
   * is waiting for keys, and whether it is still shown.  `notified` records the
   * chords `onChange` was invoked with.
   */
  class KeyCaptureWindow {
    const key: KeyBinding
    const newKey: KeyBinding
    const disableModifiers: bool
    const hasOnChange: bool
    var changing: bool
    var open: bool
    var notified: seq<Chord>

    predicate Valid()
      reads this
    {
      key != newKey
    }

    function State(): Capture
      reads this, newKey
    {
      Capture(newKey.Value(), changing)
    }

    /** Clicking the key's button: a window showing a copy of the chord, not capturing. */
    constructor (key: KeyBinding, disableModifiers: bool, hasOnChange: bool)
      ensures Valid() && this.key == key && fresh(newKey)
      ensures State() == Opened(key.Value()) && open && notified == []
      ensures this.disableModifiers == disableModifiers && this.hasOnChange == hasOnChange
    {
      this.key := key;
      var n := new KeyBinding();
      n.Change(key.keyCode, key.modifiers);
      newKey := n;
      this.disableModifiers := disableModifiers;
      this.hasOnChange := hasOnChange;
      changing := false;
      open := true;
      notified := [];
    }

    /** "Assign": clear the recorded chord and wait for keys. */
    method Assign()
      requires Valid()
      modifies this, newKey
      ensures open == old(open) && notified == old(notified)
      ensures old(open) ==> State() == Assigned
      ensures !old(open) ==> State() == old(State())
      ensures key.Value() == old(key.Value())
    {
      if open {
        newKey.Change(NoKey, 0);
        changing := true;
      }
    }

    /** A frame that carries a key event. */
    method OnKeyEvent(e: KeyEvent)
      requires Valid()
      modifies this, newKey
      ensures open == old(open) && notified == old(notified)
      ensures State() == if old(open) then Step(old(State()), e, disableModifiers) else old(State())
      ensures key.Value() == old(key.Value())
    {
      if !open || !changing {
        return;
      }
      StepCases(State(), e, disableModifiers);
      var bit := ModifierBit(e.code);
      if bit != 0 {
        if newKey.keyCode == NoKey && e.kind == KeyUp {
          newKey.modifiers := newKey.modifiers ^ bit;
          newKey.keyCode := e.code;
          changing := false;
        }
        if e.kind == KeyDown {
          newKey.modifiers := newKey.modifiers | bit;
        }
      } else if e.code != NoKey {
        if e.kind == KeyUp {
          newKey.keyCode := e.code;
          changing := false;
        }
      }
      if !changing && disableModifiers {
        newKey.modifiers := 0;
      }
    }

    /** "Save": write a differing chord to the key, tell `onChange`, and close. */
    method Save()
      requires Valid()
      modifies this, key
      ensures !open && State() == old(State())
      ensures old(open) ==> key.Value() == Saved(old(key.Value()), old(newKey.Value())).0
      ensures !old(open) ==> key.Value() == old(key.Value())
      ensures notified == old(notified) +
        (if old(open) && hasOnChange && Saved(old(key.Value()), old(newKey.Value())).1 then [old(newKey.Value())] else [])
    {
      if open {
        if key.keyCode != newKey.keyCode || key.modifiers != newKey.modifiers {
          key.Change(newKey.keyCode, newKey.modifiers);
          if hasOnChange {
            notified := notified + [key.Value()];
          }
        }
      }
      open := false;
    }

    /** "Close": discard the recorded chord. */
    method Close()
      modifies this
      ensures !open && notified == old(notified) && changing == old(changing)
      ensures key.Value() == old(key.Value()) && newKey.Value() == old(newKey.Value())
    {
      open := false;
    }
  }

  /**
   * `DrawKeybindingSmart`'s entry: a null key is an error unless there is an
   * `onChange` to hand a new binding to; a click on the key's button opens the window.
   */
  method DrawKeybindingSmart(key: KeyBinding?, hasOnChange: bool, disableModifiers: bool, clicked: bool)
    returns (r: Result<Option<KeyCaptureWindow>, Error>)
    ensures key == null && !hasOnChange ==> r == Err(ArgumentNull("key"))
    ensures key != null || hasOnChange ==> r.Ok?
    ensures r.Ok? ==> (r.value.Some? <==> clicked)
    ensures r.Ok? && r.value.Some? ==>
      var w := r.value.value;
      fresh(w) && w.Valid() && w.open && !w.changing && w.notified == [] &&
      w.newKey.Value() == (if key == null then Chord(NoKey, 0) else key.Value()) &&
      (key != null ==> w.key == key) && w.disableModifiers == disableModifiers && w.hasOnChange == hasOnChange
  {
    var k: KeyBinding;
    if key == null {
      if !hasOnChange {
        return Err(ArgumentNull("key"));
      }
      k := new KeyBinding();
    } else {
      k := key;
    }
    if !clicked {
      return Ok(None);
    }
    var w := new KeyCaptureWindow(k, disableModifiers, hasOnChange);
    r := Ok(Some(w));
  }
}
