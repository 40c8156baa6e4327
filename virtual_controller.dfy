/**
 * The virtual controller service: it turns key names from the skill script
 * into Xbox 360 controller input, and can put every control back to rest.
 *
 * The ViGEm client and its driver calls (Connect, SubmitReport, Disconnect,
 * Dispose) are replaced by the controller's state: a record of the four
 * thumb-stick axes, the two triggers and the set of pressed buttons.
 */
module VirtualController {
  import opened Wrappers
  import opened Text

  datatype Axis = LeftThumbX | LeftThumbY | RightThumbX | RightThumbY
  datatype Slider = LeftTrigger | RightTrigger
  datatype Button =
    | Up | Down | Left | Right | Start | Back | LeftThumb | RightThumb
    | LeftShoulder | RightShoulder | Guide | A | B | X | Y

  /** One control of the pad. */
  datatype Control = AxisControl(axis: Axis) | SliderControl(slider: Slider) | ButtonControl(button: Button)

  /** The state the controller reports. */
  datatype Pad = Pad(
    leftThumbX: int, leftThumbY: int, rightThumbX: int, rightThumbY: int,
    leftTrigger: int, rightTrigger: int,
    pressed: set<Button>)

  const RestingPad: Pad := Pad(0, 0, 0, 0, 0, 0, {})

  /** The value a control shows: axis and trigger positions, 1 for a pressed button. */
  function Value(p: Pad, c: Control): int {
    match c
    case AxisControl(LeftThumbX) => p.leftThumbX
    case AxisControl(LeftThumbY) => p.leftThumbY
    case AxisControl(RightThumbX) => p.rightThumbX
    case AxisControl(RightThumbY) => p.rightThumbY
    case SliderControl(LeftTrigger) => p.leftTrigger
    case SliderControl(RightTrigger) => p.rightTrigger
    case ButtonControl(b) => if b in p.pressed then 1 else 0
  }

  /** Every control at rest. */
  ghost predicate AtRest(p: Pad) {
    forall c: Control :: Value(p, c) == 0
  }

  /** The pad with one control set; a button is pressed for any non-zero value. */
  function SetControl(p: Pad, c: Control, v: int): (q: Pad)
    ensures Value(q, c) == if c.ButtonControl? then (if v != 0 then 1 else 0) else v
    ensures forall other: Control | other != c :: Value(q, other) == Value(p, other)
  {
    match c
    case AxisControl(LeftThumbX) => p.(leftThumbX := v)
    case AxisControl(LeftThumbY) => p.(leftThumbY := v)
    case AxisControl(RightThumbX) => p.(rightThumbX := v)
    case AxisControl(RightThumbY) => p.(rightThumbY := v)
    case SliderControl(LeftTrigger) => p.(leftTrigger := v)
    case SliderControl(RightTrigger) => p.(rightTrigger := v)
    case ButtonControl(b) => p.(pressed := if v != 0 then p.pressed + {b} else p.pressed - {b})
  }

  // ---------------------------------------------------------------------------
  // Key names
  // ---------------------------------------------------------------------------

  /** The form SendInput matches on: trimmed, then upper-cased (NormalizeSpan says which characters it keeps). */
  function Normalize(key: string): (r: string)
    ensures |r| <= |key|
    ensures r == [] <==> IsNullOrWhiteSpace(key)
    ensures forall i | 0 <= i < |r| :: !('a' <= r[i] <= 'z')
  {
    ToUpper(Trim(key))
  }

  /**
   * The normal form is the run of the key after its leading white space,
   * upper-cased, and only white space follows that run in the key.
   */
  lemma NormalizeSpan(key: string)
    ensures Lead(key) + |Normalize(key)| <= |key|
    ensures IsNullOrWhiteSpace(key[Lead(key) + |Normalize(key)|..])
    ensures forall i | 0 <= i < |Normalize(key)| :: Normalize(key)[i] == UpperChar(key[Lead(key) + i])
  {
    TrimSpan(key);
  }

  /** The button dictionary, in declaration order; it compares names ignoring case. */
  const ButtonMap: seq<(string, Button)> := [
    ("A", A), ("B", B), ("X", X), ("Y", Y),
    ("LB", LeftShoulder), ("RB", RightShoulder),
    ("LT_BTN", LeftThumb), ("RT_BTN", RightThumb),
    ("Start", Start), ("Back", Back)
  ]

  /** The buttons the dictionary names. */
  function MappedButtons(): set<Button> {
    set i | 0 <= i < |ButtonMap| :: ButtonMap[i].1
  }

  /** Dictionary lookup with an ordinal, case-insensitive comparer. */
  function LookupButton(key: string): (r: Option<Button>)
    ensures r.Some? <==> exists i | 0 <= i < |ButtonMap| :: ToUpper(ButtonMap[i].0) == ToUpper(key)
    ensures r.Some? ==> r.value in MappedButtons()
    ensures r.Some? ==> exists i | 0 <= i < |ButtonMap| :: ToUpper(ButtonMap[i].0) == ToUpper(key) && r.value == ButtonMap[i].1
  {
    LookupFrom(key, 0)
  }

  function LookupFrom(key: string, i: nat): (r: Option<Button>)
    requires i <= |ButtonMap|
    ensures r.Some? <==> exists j | i <= j < |ButtonMap| :: ToUpper(ButtonMap[j].0) == ToUpper(key)
    ensures r.Some? ==> exists j | i <= j < |ButtonMap| :: ToUpper(ButtonMap[j].0) == ToUpper(key) && r.value == ButtonMap[j].1
    decreases |ButtonMap| - i
  {
    if i == |ButtonMap| then None
    else if ToUpper(ButtonMap[i].0) == ToUpper(key) then Some(ButtonMap[i].1)
    else LookupFrom(key, i + 1)
  }

  /** No two dictionary names are equal ignoring case. */
  lemma NamesDistinct(i: nat, j: nat)
    requires i < j < |ButtonMap|
    ensures ToUpper(ButtonMap[i].0) != ToUpper(ButtonMap[j].0)
  {
    var a, b := ButtonMap[i].0, ButtonMap[j].0;
    if |a| == |b| {
      assert ToUpper(a)[0] == UpperChar(a[0]) && ToUpper(b)[0] == UpperChar(b[0]);
    }
  }

  /** A key that names an entry, in any case, finds exactly that entry's button. */
  lemma LookupFindsEntry(key: string, j: nat)
    requires j < |ButtonMap| && ToUpper(ButtonMap[j].0) == ToUpper(key)
    ensures LookupButton(key) == Some(ButtonMap[j].1)
  {
    LookupFromFindsEntry(key, 0, j);
  }

  /** The scan from entry i passes every entry before j and stops at j. */
  lemma {:induction false} LookupFromFindsEntry(key: string, i: nat, j: nat)
    requires i <= j < |ButtonMap| && ToUpper(ButtonMap[j].0) == ToUpper(key)
    ensures LookupFrom(key, i) == Some(ButtonMap[j].1)
    decreases j - i
  {
    if i < j {
      NamesDistinct(i, j);
      LookupFromFindsEntry(key, i + 1, j);
    }
  }

  /**
   * What a normalised key drives and the value it sets on a press: the left
   * stick for the four directions, the triggers for LT and RT, a button for the
   * names in the dictionary. A release always sets 0.
   */
  function Binding(key: string): (r: Option<(Control, int)>)
    ensures key == [] ==> r.None?
    ensures r.Some? && r.value.0.AxisControl? ==>
      && (r.value.0.axis == LeftThumbX || r.value.0.axis == LeftThumbY)
      && (r.value.1 == 32767 || r.value.1 == -32768)
    ensures r.Some? && r.value.0.SliderControl? ==> r.value.1 == 255
    ensures r.Some? && r.value.0.ButtonControl? ==> r.value.1 == 1 && r.value.0.button in MappedButtons()
  {
    if key == "UP" then Some((AxisControl(LeftThumbY), 32767))
    else if key == "DOWN" then Some((AxisControl(LeftThumbY), -32768))
    else if key == "LEFT" then Some((AxisControl(LeftThumbX), -32768))
    else if key == "RIGHT" then Some((AxisControl(LeftThumbX), 32767))
    else if key == "LT" then Some((SliderControl(LeftTrigger), 255))
    else if key == "RT" then Some((SliderControl(RightTrigger), 255))
    else
      match LookupButton(key)
      case Some(b) => Some((ButtonControl(b), 1))
      case None => None
  }

  /** The only buttons a key can drive are the dictionary's. */
  lemma BindingMapped(key: string)
    ensures Binding(key).Some? && Binding(key).value.0.ButtonControl? ==> Binding(key).value.0.button in MappedButtons()
  {
  }

  /**
   * The effect of SendInput(key, isDown) on a connected pad: at most one
   * control changes; the bound control is set to its press value or to rest.
   */
  function KeyEffect(p: Pad, key: string, isDown: bool): (q: Pad)
    ensures IsNullOrWhiteSpace(key) || Binding(Normalize(key)).None? ==> q == p
    ensures !IsNullOrWhiteSpace(key) && Binding(Normalize(key)).Some? ==>
      var (c, v) := Binding(Normalize(key)).value;
      && Value(q, c) == (if isDown then v else 0)
      && forall other: Control | other != c :: Value(q, other) == Value(p, other)
  {
    if IsNullOrWhiteSpace(key) then p
    else
      match Binding(Normalize(key))
      case None => p
      case Some((c, v)) => SetControl(p, c, if isDown then v else 0)
  }

  /** The pad with both thumb sticks centred, both triggers released and every dictionary button up. */
  function Neutralized(p: Pad): (q: Pad)
    ensures forall a: Axis :: Value(q, AxisControl(a)) == 0
    ensures forall s: Slider :: Value(q, SliderControl(s)) == 0
    ensures forall b: Button :: b in q.pressed <==> b in p.pressed && b !in MappedButtons()
  {
    Pad(0, 0, 0, 0, 0, 0, p.pressed - MappedButtons())
  }

  // ---------------------------------------------------------------------------
  // The service object
  // ---------------------------------------------------------------------------

  class ControllerService {
    /** The connected controller's state; None before Initialize and after Dispose. */
    var controller: Option<Pad>

    constructor ()
      ensures controller == None
    {
      controller := None;
    }

    /** Connects a fresh controller; when the driver is missing the call fails and nothing changes. */
    method Initialize(driverInstalled: bool) returns (ok: bool)
      modifies this
      ensures ok == driverInstalled
      ensures ok ==> controller == Some(RestingPad)
      ensures !ok ==> controller == old(controller)
    {
      if !driverInstalled {
        return false;
      }
      controller := Some(RestingPad);
      return true;
    }

    method SetValue(c: Control, v: int)
      requires controller.Some?
      modifies this
      ensures controller == Some(SetControl(old(controller).value, c, v))
    {
      controller := Some(SetControl(controller.value, c, v));
    }

    /** Presses or releases the control a key names; nothing happens without a controller or for a blank key. */
    method SendInput(key: string, isDown: bool)
      modifies this
      ensures old(controller).None? ==> controller == None
      ensures old(controller).Some? ==> controller == Some(KeyEffect(old(controller).value, key, isDown))
    {
      if controller.None? || IsNullOrWhiteSpace(key) {
        return;
      }
      var binding := Binding(Normalize(key));
      if binding.Some? {
        var (c, v) := binding.value;
        SetValue(c, if isDown then v else 0);
      }
    }

    /** Sets the left thumb stick; nothing happens without a controller. */
    method SetLeftStick(x: int, y: int)
      modifies this
      ensures old(controller).None? ==> controller == None
      ensures old(controller).Some? ==>
        controller == Some(old(controller).value.(leftThumbX := x, leftThumbY := y))
    {
      if controller.None? {
        return;
      }
      SetValue(AxisControl(LeftThumbX), x);
      SetValue(AxisControl(LeftThumbY), y);
    }

    /** Centres the sticks, releases the triggers and releases every dictionary button. */
    method ResetAllInputs()
      modifies this
      ensures old(controller).None? ==> controller == None
      ensures old(controller).Some? ==> controller == Some(Neutralized(old(controller).value))
    {
      if controller.None? {
        return;
      }
      SetValue(AxisControl(LeftThumbX), 0);
      SetValue(AxisControl(LeftThumbY), 0);
      SetValue(AxisControl(RightThumbX), 0);
      SetValue(AxisControl(RightThumbY), 0);
      SetValue(SliderControl(LeftTrigger), 0);
      SetValue(SliderControl(RightTrigger), 0);
      ReleaseMappedButtons();
    }

    /** The loop over the dictionary's buttons, releasing each. */
    method ReleaseMappedButtons()
      requires controller.Some?
      modifies this
      ensures controller == Some(old(controller).value.(pressed := old(controller).value.pressed - MappedButtons()))
    {
      ghost var before := controller.value;
      for i := 0 to |ButtonMap|
        invariant controller.Some? && controller.value.(pressed := {}) == before.(pressed := {})
        invariant controller.value.pressed == before.pressed - set j | 0 <= j < i :: ButtonMap[j].1
      {
        SetValue(ButtonControl(ButtonMap[i].1), 0);
      }
    }

    /** Releases every input, then drops the controller. */
    method Dispose()
      modifies this
      ensures controller == None
    {
      ResetAllInputs();
      controller := None;
    }
  }

  // ---------------------------------------------------------------------------
  // Properties
  // ---------------------------------------------------------------------------

  /** A blank key names nothing, so the early return for blank keys agrees with the lookup. */
  lemma BlankKeyUnbound(key: string)
    requires IsNullOrWhiteSpace(key)
    ensures Normalize(key) == [] && Binding(Normalize(key)).None?
  {
    TrimStartOfWhiteSpace(key, []);
    assert key + [] == key;
    EmptyKeyUnbound();
  }

  /** The empty name is neither a direction, a trigger nor a dictionary button. */
  lemma EmptyKeyUnbound()
    ensures Binding([]).None?
  {
    forall i | 0 <= i < |ButtonMap|
      ensures ToUpper(ButtonMap[i].0) != ToUpper([])
    {
      assert |ButtonMap[i].0| > 0;
    }
  }

  /** White space around a key never changes what it does: " up " acts as "up". */
  lemma PaddingIgnored(w1: string, key: string, w2: string)
    requires IsNullOrWhiteSpace(w1) && IsNullOrWhiteSpace(w2)
    ensures Normalize(w1 + key + w2) == Normalize(key)
  {
    TrimPadding(w1, key, w2);
  }

  /** Keys that differ only in the case of their letters have the same normal form. */
  lemma CaseIgnored(a: string, b: string)
    requires ToUpper(a) == ToUpper(b)
    ensures Normalize(a) == Normalize(b)
  {
    TrimUpper(a);
    TrimUpper(b);
  }

  /** Padding and case together: a padded key acts as the key in any case, so " up " and "UP" act alike. */
  lemma PaddedKeysAlike(w1: string, key: string, w2: string, other: string)
    requires IsNullOrWhiteSpace(w1) && IsNullOrWhiteSpace(w2)
    requires ToUpper(key) == ToUpper(other)
    ensures Normalize(w1 + key + w2) == Normalize(other)
    ensures forall p: Pad, isDown: bool :: KeyEffect(p, w1 + key + w2, isDown) == KeyEffect(p, other, isDown)
  {
    PaddingIgnored(w1, key, w2);
    CaseIgnored(key, other);
    SameFormSameEffect(w1 + key + w2, other);
  }

  /** SendInput looks at a key only through its normal form. */
  lemma SameFormSameEffect(a: string, b: string)
    requires Normalize(a) == Normalize(b)
    ensures forall p: Pad, isDown: bool :: KeyEffect(p, a, isDown) == KeyEffect(p, b, isDown)
  {
    assert IsNullOrWhiteSpace(a) <==> IsNullOrWhiteSpace(b);
  }

  /** Normalising an already normalised key changes nothing. */
  lemma NormalizeIdempotent(key: string)
    ensures Normalize(Normalize(key)) == Normalize(key)
  {
    TrimUpper(Trim(key));
    TrimIdempotent(key);
    ToUpperIdempotent(Trim(key));
  }

  /** Pressing a bound key and then releasing it leaves the bound control at rest and every other control as it was. */
  lemma PressThenRelease(p: Pad, key: string, c: Control)
    requires Binding(Normalize(key)).Some? && !IsNullOrWhiteSpace(key)
    ensures var q := KeyEffect(KeyEffect(p, key, true), key, false);
      && Value(q, Binding(Normalize(key)).value.0) == 0
      && (c != Binding(Normalize(key)).value.0 ==> Value(q, c) == Value(p, c))
  {
  }

  /** After ResetAllInputs every axis and trigger rests and every dictionary button is up; a second reset changes nothing. */
  lemma NeutralizedRests(p: Pad)
    ensures forall b | b in MappedButtons() :: Value(Neutralized(p), ButtonControl(b)) == 0
    ensures Neutralized(Neutralized(p)) == Neutralized(p)
    ensures p.pressed <= MappedButtons() ==> AtRest(Neutralized(p))
  {
  }
}
