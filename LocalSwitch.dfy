/** One output channel of the AstroUSB hub (class LocalSwitch): a value kept
    between Minimum and Maximum and snapped to the lattice
    Minimum + k * StepSize. */
module SwitchDriver {
  import opened DotNetMath
  import opened Profiles
  import opened Wrappers

  // ---------------------------------------------------------------------
  // Definition validity (the static IsValid)
  // ---------------------------------------------------------------------

  /** Why a switch definition is rejected, one reason per check. */
  datatype Reason =
    | NoName              // "no switch device name is defined"
    | MaxNotAboveMin      // "the Maximum (..) not greater than Minimum (..)"
    | StepNotPositive     // "the Step size must be greater than zero"
    | FewerThanTwoStates  // "the Step size gives less than two states"
    | StatesNotInteger    // "the number of states is not an integer."
    | ValueOutOfRange     // "the Value (..) is not between Minimum (..) and Maximum (..)"

  /** IsValid's boolean and its out reason: Valid stands for true with an
      empty reason, Invalid(r) for false with reason r. */
  datatype Validity = Valid | Invalid(reason: Reason)

  /** The position of each check in the order the validator applies them. */
  function Rank(r: Reason): nat
  {
    match r
    case NoName => 0
    case MaxNotAboveMin => 1
    case StepNotPositive => 2
    case FewerThanTwoStates => 3
    case StatesNotInteger => 4
    case ValueOutOfRange => 5
  }

  /** Whether check r, taken on its own, rejects the definition. The two
      checks that divide by the step size only apply to a positive one; a
      step that is not positive is rejected by an earlier check anyway. */
  predicate Fails(r: Reason, name: string, max: real, min: real, step: real, value: real)
  {
    match r
    case NoName => name == []
    case MaxNotAboveMin => min >= max
    case StepNotPositive => step <= 0.0
    case FewerThanTwoStates => step > 0.0 && (max - min) / step < 1.0
    case StatesNotInteger => step > 0.0 && Abs(IEEERemainderByOne((max - min) / step)) > step / 10.0
    case ValueOutOfRange => value < min || value > max
  }

  /** The number of states (Maximum - Minimum) / StepSize is a whole number. */
  predicate ExactStateCount(max: real, min: real, step: real)
    requires step != 0.0
  {
    IsIntegral((max - min) / step)
  }

  // ---------------------------------------------------------------------
  // Snapping to the step lattice (the tail of SetValue)
  // ---------------------------------------------------------------------

  /** Where x sits on the lattice of Minimum + n * StepSize: how many steps
      (possibly fractional) it lies above Minimum. Distances in this unit are
      distances in values divided by the step. */
  function Steps(x: real, min: real, step: real): real
    requires step != 0.0
  {
    (x - min) / step
  }

  /** StepSize * Math.Round((request - Minimum) / StepSize) + Minimum. */
  function Snap(request: real, min: real, step: real): real
    requires step != 0.0
  {
    step * RoundHalfEven(Steps(request, min, step)) as real + min
  }

  /** x is Minimum plus a whole number of steps. */
  predicate OnLattice(x: real, min: real, step: real)
    requires step != 0.0
  {
    IsIntegral(Steps(x, min, step))
  }

  /** The snapped value lies RoundHalfEven(q) steps above Minimum, where q is
      the request's own position in steps. */
  lemma SnapSteps(request: real, min: real, step: real)
    requires step != 0.0
    ensures Steps(Snap(request, min, step), min, step) == RoundHalfEven(Steps(request, min, step)) as real
  {
    var n := RoundHalfEven(Steps(request, min, step));
    assert Snap(request, min, step) - min == step * n as real;
  }

  /** Snapping always lands on the lattice. */
  lemma SnapOnLattice(request: real, min: real, step: real)
    requires step != 0.0
    ensures OnLattice(Snap(request, min, step), min, step)
  {
    SnapSteps(request, min, step);
  }

  /** The snapped value is no further from the request than half a step. */
  lemma SnapWithinHalfStep(request: real, min: real, step: real)
    requires step != 0.0
    ensures Abs(Steps(request, min, step) - Steps(Snap(request, min, step), min, step)) <= 0.5
  {
    SnapSteps(request, min, step);
  }

  /** The same bound in values: the snapped value differs from the request
      by at most half of |StepSize|. */
  lemma SnapWithinHalfStepValue(request: real, min: real, step: real)
    requires step != 0.0
    ensures Abs(request - Snap(request, min, step)) <= Abs(step) / 2.0
  {
    var q := Steps(request, min, step);
    var d := q - RoundHalfEven(q) as real;
    assert request - min == step * q;
    assert request - Snap(request, min, step) == step * d;
    if step > 0.0 && d >= 0.0 {
      assert step * d <= step * 0.5;
    } else if step > 0.0 {
      assert -(step * d) <= step * 0.5;
    } else if d >= 0.0 {
      assert -(step * d) <= -step * 0.5;
    } else {
      assert step * d <= -step * 0.5;
    }
  }

  /** No lattice point is closer to the request than the snapped value. */
  lemma SnapNearest(request: real, min: real, step: real, x: real)
    requires step != 0.0 && OnLattice(x, min, step)
    ensures Abs(Steps(request, min, step) - Steps(Snap(request, min, step), min, step))
         <= Abs(Steps(request, min, step) - Steps(x, min, step))
  {
    SnapSteps(request, min, step);
    RoundHalfEvenNearest(Steps(request, min, step), Steps(x, min, step).Floor);
  }

  /** With a positive step and a whole number of states, snapping a request
      in [Minimum, Maximum] stays in [Minimum, Maximum]. */
  lemma SnapInRange(request: real, min: real, max: real, step: real)
    requires step > 0.0 && ExactStateCount(max, min, step)
    requires min <= request <= max
    ensures min <= Snap(request, min, step) <= max
  {
    var q := (request - min) / step;
    var states := ((max - min) / step).Floor;
    assert max - min == step * states as real;
    assert 0.0 <= q <= states as real by {
      assert request - min <= max - min;
      assert q * step == request - min;
    }
    RoundHalfEvenWithin(q, 0, states);
    var n := RoundHalfEven(q);
    assert 0.0 <= step * n as real <= step * states as real;
  }

  /** Banker's rounding at a half step: 5 on [0, .., step 2] is 2.5 steps,
      which rounds to 2, so the value becomes 4; 0.6 with step 1 becomes 1. */
  lemma SnapExamples()
    ensures Snap(5.0, 0.0, 2.0) == 4.0
    ensures Snap(0.6, 0.0, 1.0) == 1.0
  {
    assert (5.0 / 2.0).Floor == 2;
    assert (0.6 / 1.0).Floor == 0;
  }

  /** A value already on the lattice snaps to itself. */
  lemma SnapIdempotent(x: real, min: real, step: real)
    requires step != 0.0 && OnLattice(x, min, step)
    ensures Snap(x, min, step) == x
  {
    var q := (x - min) / step;
    RoundHalfEvenOfInteger(q.Floor);
    assert x == step * q + min;
  }

  // ---------------------------------------------------------------------
  // The switch
  // ---------------------------------------------------------------------

  /** What SetValue reports: normal return, or one of its two exceptions. */
  datatype SetOutcome =
    | Done          // returned normally (value applied, or the wait was cancelled)
    | NotWritable   // ASCOM.MethodNotImplementedException
    | OutOfRange    // ASCOM.InvalidValueException

  /** The nine keys Save writes, in the order it writes them. */
  const SaveKeys: seq<string> :=
    ["Name", "Description", "Minimum", "Maximum", "StepSize", "CanWrite", "Value", "CanAsync", "Duration"]

  /** The profile subkey of switch number id. */
  function SubKey(id: int): string
  {
    "Switch " + IntToString(id)
  }

  /** The subkey is "Switch " followed by the id's decimal text, from which
      the id reads back. */
  lemma SubKeyText(id: int)
    ensures |SubKey(id)| > 7 && SubKey(id)[..7] == "Switch "
    ensures IsIntText(SubKey(id)[7..]) && ParseInt(SubKey(id)[7..]) == id
  {
    assert SubKey(id)[7..] == IntToString(id);
    IntToStringRoundTrip(id);
  }

  /** Switches with different ids are saved under different subkeys. */
  lemma SubKeyInjective(a: int, b: int)
    ensures SubKey(a) == SubKey(b) ==> a == b
  {
    SubKeyText(a);
    SubKeyText(b);
  }

  /** bool.ToString(): "True" or "False". */
  function BoolText(b: bool): (s: string)
    ensures s == "True" <==> b
  {
    if b then "True" else "False"
  }

  class LocalSwitch {
    var minimum: real
    var maximum: real
    var stepSize: real
    var name: string
    var internalId: string
    var canWrite: bool
    var value: real
    var description: string
    var canSetName: bool
    var canAsync: bool
    var duration: real

    /** A binary switch: range [0, 1], step 1, value 0, writable. */
    constructor Binary(name: string, internalId: string)
      ensures this.name == name && this.internalId == internalId
      ensures maximum == 1.0 && minimum == 0.0 && stepSize == 1.0 && value == 0.0
      ensures canWrite && description == name && canSetName
      ensures !canAsync && duration == 0.0
      ensures name != [] ==> IsValid() == Valid && ExactDefinition()
    {
      this.name := name;
      this.internalId := internalId;
      maximum := 1.0;
      minimum := 0.0;
      stepSize := 1.0;
      canWrite := true;
      value := 0.0;
      description := name;
      canSetName := true;
      canAsync := false;
      duration := 0.0;
      new;
      if name != [] {
        BinaryDefinitionValid(name);
      }
    }

    /** A writable switch with the given range, step and value. */
    constructor Writable(name: string, internalId: string, max: real, min: real, step: real, value: real)
      ensures this.name == name && this.internalId == internalId
      ensures maximum == max && minimum == min && stepSize == step && this.value == value
      ensures canWrite && description == name && canSetName
      ensures !canAsync && duration == 0.0
    {
      this.name := name;
      this.internalId := internalId;
      maximum := max;
      minimum := min;
      stepSize := step;
      canWrite := true;
      this.value := value;
      description := name;
      canSetName := true;
      canAsync := false;
      duration := 0.0;
    }

    /** The full constructor. The description starts as the name, and the
        name is always editable. */
    constructor (name: string, internalId: string, max: real, min: real, step: real, value: real, canWrite: bool)
      ensures this.name == name && this.internalId == internalId
      ensures maximum == max && minimum == min && stepSize == step && this.value == value
      ensures this.canWrite == canWrite && description == name && canSetName
      ensures !canAsync && duration == 0.0
    {
      this.name := name;
      this.internalId := internalId;
      maximum := max;
      minimum := min;
      stepSize := step;
      this.canWrite := canWrite;
      this.value := value;
      description := name;
      canSetName := true;
      canAsync := false;
      duration := 0.0;
    }

    /** The instance IsValid: the static check applied to this switch's own
        name, range, step and value. */
    function IsValid(): (v: Validity)
      reads this
      ensures v == IsValidDefinition(name, maximum, minimum, stepSize, value)
      ensures v == Valid ==> name != [] && minimum < maximum && stepSize > 0.0 && minimum <= value <= maximum
    {
      IsValidDefinition(name, maximum, minimum, stepSize, value)
    }

    /** Valid, and with an exactly whole number of states. */
    predicate ExactDefinition()
      reads this
    {
      IsValid() == Valid && ExactStateCount(maximum, minimum, stepSize)
    }

    /** SetValue(value, message). cancelledAtEnd is whether cancellation had
        been requested when the wait for Duration ended; it is only consulted
        when Duration > 0. */
    method SetValue(request: real, cancelledAtEnd: bool) returns (r: SetOutcome)
      requires stepSize == 0.0 ==>
        !canWrite || request < minimum || request > maximum || (duration > 0.0 && cancelledAtEnd)
      modifies this`value
      ensures r == NotWritable <==> !canWrite
      ensures r == OutOfRange <==> canWrite && (request < minimum || request > maximum)
      ensures r != Done || (duration > 0.0 && cancelledAtEnd) ==> value == old(value)
      ensures r == Done && !(duration > 0.0 && cancelledAtEnd) ==> value == Snap(request, minimum, stepSize)
      ensures r == Done && request == old(value) && stepSize != 0.0 && OnLattice(request, minimum, stepSize)
        ==> value == old(value)
      ensures old(ExactDefinition()) ==> ExactDefinition()
      ensures old(ExactDefinition()) && r == Done && !(duration > 0.0 && cancelledAtEnd) ==>
        OnLattice(value, minimum, stepSize)
        && Abs(Steps(request, minimum, stepSize) - Steps(value, minimum, stepSize)) <= 0.5
    {
      if !canWrite {
        return NotWritable;
      }
      if request < minimum || request > maximum {
        return OutOfRange;
      }
      if duration > 0.0 && cancelledAtEnd {
        return Done;
      }
      value := Snap(request, minimum, stepSize);
      if OnLattice(request, minimum, stepSize) {
        SnapIdempotent(request, minimum, stepSize);
      }
      if old(ExactDefinition()) {
        SnapInRange(request, minimum, maximum, stepSize);
        SnapOnLattice(request, minimum, stepSize);
        SnapWithinHalfStep(request, minimum, stepSize);
        assert IsValid() == Valid by {
          ValidIffValueInRange(name, maximum, minimum, stepSize, value);
        }
      }
      return Done;
    }

    /** The writes Save makes, in order: the nine fields under subkey
        "Switch <id>". */
    function SaveEntries(driverId: string, id: int): (es: seq<Entry>)
      reads this
      ensures |es| == |SaveKeys|
      ensures forall i :: 0 <= i < |es| ==>
        es[i].driverId == driverId && es[i].subKey == SubKey(id) && es[i].name == SaveKeys[i]
    {
      var k := SubKey(id);
      [ Entry(driverId, "Name", k, Text(name)),
        Entry(driverId, "Description", k, Text(description)),
        Entry(driverId, "Minimum", k, Number(minimum)),
        Entry(driverId, "Maximum", k, Number(maximum)),
        Entry(driverId, "StepSize", k, Number(stepSize)),
        Entry(driverId, "CanWrite", k, Text(BoolText(canWrite))),
        Entry(driverId, "Value", k, Number(value)),
        Entry(driverId, "CanAsync", k, Text(BoolText(canAsync))),
        Entry(driverId, "Duration", k, Number(duration)) ]
    }

    /** Save(profile, driverId, id). */
    method Save(profile: Profile, driverId: string, id: int)
      modifies profile
      ensures profile.written == old(profile.written) + SaveEntries(driverId, id)
    {
      ghost var before, saved := profile.written, SaveEntries(driverId, id);
      var subKey := SubKey(id);
      var n, d, lo, hi, st, w, v, a, t := name, description, minimum, maximum, stepSize, canWrite, value, canAsync, duration;
      profile.WriteValue(driverId, "Name", subKey, Text(n));
      profile.WriteValue(driverId, "Description", subKey, Text(d));
      profile.WriteValue(driverId, "Minimum", subKey, Number(lo));
      profile.WriteValue(driverId, "Maximum", subKey, Number(hi));
      profile.WriteValue(driverId, "StepSize", subKey, Number(st));
      profile.WriteValue(driverId, "CanWrite", subKey, Text(BoolText(w)));
      profile.WriteValue(driverId, "Value", subKey, Number(v));
      profile.WriteValue(driverId, "CanAsync", subKey, Text(BoolText(a)));
      profile.WriteValue(driverId, "Duration", subKey, Number(t));
      assert profile.written == before + saved;
    }

    /** After Save, each of the nine keys reads back the entry written for
        it, whatever the profile held before. */
    lemma SaveReadsBack(log: seq<Entry>, driverId: string, id: int)
      ensures forall i :: 0 <= i < |SaveKeys| ==>
        Lookup(log + SaveEntries(driverId, id), driverId, SubKey(id), SaveKeys[i])
          == Some(SaveEntries(driverId, id)[i].setting)
    {
      var es := SaveEntries(driverId, id);
      SaveKeysDistinct();
      forall i | 0 <= i < |SaveKeys|
        ensures Lookup(log + es, driverId, SubKey(id), SaveKeys[i]) == Some(es[i].setting)
      {
        LookupAppendedAt(log, es, i);
      }
    }

    /** In particular the saved fields read back as the switch's own values. */
    lemma SaveReadsBackFields(log: seq<Entry>, driverId: string, id: int)
      ensures var after, k := log + SaveEntries(driverId, id), SubKey(id);
        Lookup(after, driverId, k, "Name") == Some(Text(name)) &&
        Lookup(after, driverId, k, "Description") == Some(Text(description)) &&
        Lookup(after, driverId, k, "Minimum") == Some(Number(minimum)) &&
        Lookup(after, driverId, k, "Maximum") == Some(Number(maximum)) &&
        Lookup(after, driverId, k, "StepSize") == Some(Number(stepSize)) &&
        Lookup(after, driverId, k, "CanWrite") == Some(Text(BoolText(canWrite))) &&
        Lookup(after, driverId, k, "Value") == Some(Number(value)) &&
        Lookup(after, driverId, k, "CanAsync") == Some(Text(BoolText(canAsync))) &&
        Lookup(after, driverId, k, "Duration") == Some(Number(duration))
    {
      SaveReadsBack(log, driverId, id);
      var es := SaveEntries(driverId, id);
      assert SaveKeys[0] == "Name" && es[0].setting == Text(name);
      assert SaveKeys[1] == "Description" && es[1].setting == Text(description);
      assert SaveKeys[2] == "Minimum" && es[2].setting == Number(minimum);
      assert SaveKeys[3] == "Maximum" && es[3].setting == Number(maximum);
      assert SaveKeys[4] == "StepSize" && es[4].setting == Number(stepSize);
      assert SaveKeys[5] == "CanWrite" && es[5].setting == Text(BoolText(canWrite));
      assert SaveKeys[6] == "Value" && es[6].setting == Number(value);
      assert SaveKeys[7] == "CanAsync" && es[7].setting == Text(BoolText(canAsync));
      assert SaveKeys[8] == "Duration" && es[8].setting == Number(duration);
    }
  }

  /** No key is written twice by Save. */
  lemma SaveKeysDistinct()
    ensures forall i, j :: 0 <= i < j < |SaveKeys| ==> SaveKeys[i] != SaveKeys[j]
  {
  }

  // What a caller can conclude from the contracts alone.

  /** A binary switch rounds 0.6 up to 1. */
  method BinarySwitchScenario()
  {
    var binary := new LocalSwitch.Binary("Port A", "0");
    var r := binary.SetValue(0.6, false);
    assert (0.6 / 1.0).Floor == 0;
    assert r == Done && binary.value == 1.0;
  }

  /** A read-only switch refuses every write and keeps its value. */
  method ReadOnlySwitchScenario()
  {
    var readOnly := new LocalSwitch("Port B", "1", 10.0, 0.0, 2.0, 4.0, false);
    var r := readOnly.SetValue(50.0, false);
    assert r == NotWritable && readOnly.value == 4.0;
  }

  /** A ranged switch: banker's rounding of 5 on a step of 2 gives 4; 11 is
      out of range; a cancelled wait keeps the old value; 8 is applied. */
  method RangedSwitchScenario()
  {
    var ranged := new LocalSwitch.Writable("Port C", "2", 10.0, 0.0, 2.0, 0.0);
    var r := ranged.SetValue(5.0, false);
    assert (5.0 / 2.0).Floor == 2;
    assert r == Done && ranged.value == 4.0;
    r := ranged.SetValue(11.0, false);
    assert r == OutOfRange && ranged.value == 4.0;

    ranged.duration := 2.0;
    r := ranged.SetValue(8.0, true);
    assert r == Done && ranged.value == 4.0;
    r := ranged.SetValue(8.0, false);
    assert (8.0 / 2.0).Floor == 4;
    assert r == Done && ranged.value == 8.0;
  }

  /** Static IsValid(name, max, min, step, value): the checks are tried in
      the order of Rank and the first that fails is the reason; the
      definition is valid exactly when none fails. */
  function IsValidDefinition(name: string, max: real, min: real, step: real, value: real): (v: Validity)
    ensures v == Valid ==> name != [] && min < max && step > 0.0 && min <= value <= max
  {
    if name == [] then Invalid(NoName)
    else if min >= max then Invalid(MaxNotAboveMin)
    else if step <= 0.0 then Invalid(StepNotPositive)
    else if (max - min) / step < 1.0 then Invalid(FewerThanTwoStates)
    else if Abs(IEEERemainderByOne((max - min) / step)) > step / 10.0 then Invalid(StatesNotInteger)
    else if value < min || value > max then Invalid(ValueOutOfRange)
    else Valid
  }

  /** IsValidDefinition is the first failing check in the order of Rank:
      its reason fails, every earlier check passes, and it is Valid exactly
      when no check fails. */
  lemma FirstFailureWins(name: string, max: real, min: real, step: real, value: real)
    ensures var v := IsValidDefinition(name, max, min, step, value);
      (v == Valid <==> forall r: Reason :: !Fails(r, name, max, min, step, value)) &&
      (v.Invalid? ==> Fails(v.reason, name, max, min, step, value)) &&
      (v.Invalid? ==> forall r: Reason :: Rank(r) < Rank(v.reason) ==> !Fails(r, name, max, min, step, value))
  {
    var v := IsValidDefinition(name, max, min, step, value);
    if v.Invalid? {
      assert Fails(v.reason, name, max, min, step, value);
    }
    forall r: Reason | v == Valid || Rank(r) < Rank(v.reason)
      ensures !Fails(r, name, max, min, step, value)
    {
      match r
      case NoName =>
      case MaxNotAboveMin =>
      case StepNotPositive =>
      case FewerThanTwoStates =>
      case StatesNotInteger =>
      case ValueOutOfRange =>
    }
  }

  /** For a named definition with a positive step and a whole number of
      states, at least one, validity depends on the value alone: valid
      exactly when it lies in [min, max]. */
  lemma ValidIffValueInRange(name: string, max: real, min: real, step: real, value: real)
    requires name != [] && min < max && step > 0.0
    requires ExactStateCount(max, min, step)
    ensures IsValidDefinition(name, max, min, step, value) == Valid <==> min <= value <= max
    ensures IsValidDefinition(name, max, min, step, value) != Valid
      ==> IsValidDefinition(name, max, min, step, value) == Invalid(ValueOutOfRange)
  {
    var states := (max - min) / step;
    RemainderByOneZeroIffIntegral(states);
  }

  /** "Port A" with range [0, 10] and step 3 has 10/3 states, which is not a
      whole number. */
  lemma NonIntegralStatesRejected()
    ensures IsValidDefinition("Port A", 10.0, 0.0, 3.0, 5.0) == Invalid(StatesNotInteger)
  {
    var states := (10.0 - 0.0) / 3.0;
    assert states.Floor == 3;
    assert RoundHalfEven(states) == 3;
    assert IEEERemainderByOne(states) == 1.0 / 3.0;
  }

  /** The tolerance step / 10 is compared with a remainder that never exceeds
      one half, so for a step of 5 or more the whole-number check passes
      whatever the range. */
  lemma LargeStepPassesStateCountCheck(name: string, max: real, min: real, step: real, value: real)
    requires step >= 5.0
    ensures !Fails(StatesNotInteger, name, max, min, step, value)
  {
  }

  /** Because of that, a definition with 2.6 states of size 10 passes the
      validator, yet snapping its own Maximum, 26, gives 30. */
  lemma ToleratedDefinitionSnapsAboveMaximum()
    ensures IsValidDefinition("Port A", 26.0, 0.0, 10.0, 0.0) == Valid
    ensures Snap(26.0, 0.0, 10.0) == 30.0
  {
    var states := (26.0 - 0.0) / 10.0;
    assert states.Floor == 2;
    assert RoundHalfEven(states) == 3;
  }

  /** The tolerance matters for small steps too: range [0, 1.95] with step 1
      has 1.95 states, within a tenth of a step of 2, so it passes the
      validator, and snapping its Maximum gives 2. */
  lemma SmallStepToleratedDefinitionSnapsAboveMaximum()
    ensures IsValidDefinition("Port A", 1.95, 0.0, 1.0, 0.0) == Valid
    ensures Snap(1.95, 0.0, 1.0) == 2.0
  {
    var states := (1.95 - 0.0) / 1.0;
    assert states.Floor == 1;
    assert RoundHalfEven(states) == 2;
  }

  /** The binary-switch definition, [0, 1] with step 1 and value 0, is valid
      for any non-empty name. */
  lemma BinaryDefinitionValid(name: string)
    requires name != []
    ensures IsValidDefinition(name, 1.0, 0.0, 1.0, 0.0) == Valid
    ensures ExactStateCount(1.0, 0.0, 1.0)
  {
    ValidIffValueInRange(name, 1.0, 0.0, 1.0, 0.0);
  }
}
