# LocalSwitch: a verified model of one AstroUSB switch channel

The AstroUSB ASCOM switch driver represents each output of the hub (a USB
port that can be switched or driven to a level) as a `LocalSwitch`. A switch
has a range `[Minimum, Maximum]`, a `StepSize`, a current `Value`, and flags
saying whether it can be written (`CanWrite`), whether its name can be edited
(`CanSetName`) and whether it works asynchronously (`CanAsync`, with a
`Duration` for a timed change).

This project models that class in Dafny and proves what it promises:

- The validator `IsValid` runs six checks in a fixed order and reports the
  first that fails: missing name, maximum not above minimum, step not
  positive, fewer than two states, number of states not a whole number
  (within a tolerance of a tenth of the step), value outside the range.
- `SetValue` rejects a read-only switch first and an out-of-range request
  second, and reports each error. Otherwise it waits out `Duration`, which a
  cancellation can end early, and then snaps the request to the closest point
  `Minimum + k * StepSize`. A cancelled wait returns normally and leaves the
  value alone.
- The constructors' defaults are modelled, and so is `Save`, which makes
  nine `WriteValue` calls to the ASCOM profile, each passing the string
  `"Switch <id>"` in the position its variable name calls the subkey.

Numbers are modelled as exact `real`s. `Math.Round` is modelled as
round-half-to-even (`DotNetMath.RoundHalfEven`), its default mode, and
`Math.IEEERemainder(x, 1.0)`, the only divisor the driver uses, as
`x - Math.Round(x)`. Distances along the step lattice are measured in steps:
`Steps(x) = (x - Minimum) / StepSize`, so "within half a step" reads
`|Steps(request) - Steps(value)| <= 1/2`; in values the same bound reads
`|request - value| <= |StepSize| / 2`. The wait in
`SetValue` becomes one boolean, `cancelledAtEnd`: whether cancellation had
been requested when the wait ended. The profile store is an external sink;
the model records the writes it receives, and `Profiles.Lookup` gives the
last value written under a key.

Files:

- `DotNetMath.dfy`: `Abs`, `RoundHalfEven`, `IEEERemainderByOne` and their properties.
- `Wrappers.dfy`: `Option`.
- `Profiles.dfy`: the profile sink (`Profile.WriteValue`), `Lookup`, and the
  decimal rendering of the switch id with its parse-back.
- `LocalSwitch.dfy`: the validator, the snapping function and its lemmas, the
  `LocalSwitch` class (constructors, `IsValid`, `SetValue`, `Save`), and a
  few client methods that run through the main scenarios using the contracts
  alone.

### What the proofs show about the tolerance

The integrality check compares `|IEEERemainder(states, 1)|`, a number that is
never above one half, with `StepSize / 10`. So for a step of 5 or more the
check can never fail (`SwitchDriver.LargeStepPassesStateCountCheck`). A
definition with range `[0, 26]` and step 10 (2.6 states) therefore passes
validation, yet snapping its own maximum gives 30
(`SwitchDriver.ToleratedDefinitionSnapsAboveMaximum`). Smaller steps are
affected too: range `[0, 1.95]` with step 1 (1.95 states, within a tenth of a
step of 2) passes, and snapping 1.95 gives 2
(`SwitchDriver.SmallStepToleratedDefinitionSnapsAboveMaximum`). The range and lattice
guarantees of `SetValue` are proved for definitions whose number of states is
exactly a whole number (`LocalSwitch.ExactDefinition`), which is what the
"closest switch step value" comment assumes.

### What `SetValue` does not do

`SetValue` does not reject a second timed set while one is running. It does
not touch `StateChangeComplete` or `AsyncException`, and it calls no hardware
hook. The model does none of these either. The validator's reason texts are
modelled as one tag per check.

## Model

| member | source | states |
|---|---|---|
| DotNetMath.Abs | AstroUSB-ASCOM/SwitchDriver/LocalSwitch.cs:223 | `Math.Abs`: the result is non-negative and equals `x` or `-x`. |
| DotNetMath.RoundHalfEven | AstroUSB-ASCOM/SwitchDriver/LocalSwitch.cs:141 | `Math.Round`: the result is within one half of `x`, and at an exact half it is even. |
| DotNetMath.RoundHalfEvenUnique | AstroUSB-ASCOM/SwitchDriver/LocalSwitch.cs:141 | Any integer within one half of `x` that is even at a tie is `RoundHalfEven(x)`, so the contract above determines `Math.Round`. |
| DotNetMath.RoundHalfEvenNearest | AstroUSB-ASCOM/SwitchDriver/LocalSwitch.cs:140-141 | No integer is closer to `x` than `RoundHalfEven(x)`. |
| DotNetMath.RoundHalfEvenOfInteger | AstroUSB-ASCOM/SwitchDriver/LocalSwitch.cs:141 | A whole number rounds to itself. |
| DotNetMath.RoundHalfEvenWithin | AstroUSB-ASCOM/SwitchDriver/LocalSwitch.cs:141 | Rounding a number between two integers stays between them. |
| DotNetMath.IEEERemainderByOne | AstroUSB-ASCOM/SwitchDriver/LocalSwitch.cs:223 | `Math.IEEERemainder(x, 1.0)`: at most 1/2 in magnitude, and `x` minus it is a whole number. |
| DotNetMath.RemainderByOneZeroIffIntegral | AstroUSB-ASCOM/SwitchDriver/LocalSwitch.cs:223 | The remainder by 1 is zero exactly when the number is whole. |
| Profiles.Profile.WriteValue | AstroUSB-ASCOM/SwitchDriver/LocalSwitch.cs:155-163 | `IProfile.WriteValue` records one write (driver id, key, subkey, value) at the end of the profile's log. |
| Profiles.Lookup | AstroUSB-ASCOM/SwitchDriver/LocalSwitch.cs:155-163 | A definition with no contract of its own: reading a key gives the value of the most recent write to it. Its properties are `LookupSpec`, `LookupLastWrite` and `LookupAppendedAt`. |
| Profiles.LookupSpec | AstroUSB-ASCOM/SwitchDriver/LocalSwitch.cs:155-163 | Reading a key from the profile finds nothing exactly when no write targeted it, and otherwise a value some write under that key stored. |
| Profiles.LookupAppendedAt | AstroUSB-ASCOM/SwitchDriver/LocalSwitch.cs:155-163 | After a batch of writes, a key written in the batch and not rewritten later in it reads back the batch's value for it. |
| Profiles.LookupLastWrite | AstroUSB-ASCOM/SwitchDriver/LocalSwitch.cs:155-163 | The last write to a key is what reading it gives, whatever writes to other keys follow. |
| Profiles.IntToString | AstroUSB-ASCOM/SwitchDriver/LocalSwitch.cs:154 | `id.ToString()` is a well-formed decimal integer text that starts with `-` exactly when `id` is negative. |
| Profiles.IntToStringRoundTrip | AstroUSB-ASCOM/SwitchDriver/LocalSwitch.cs:154 | `id.ToString()` reads back as `id`. |
| Profiles.IntToStringInjective | AstroUSB-ASCOM/SwitchDriver/LocalSwitch.cs:154 | Different ids print differently. |
| SwitchDriver.SubKey | AstroUSB-ASCOM/SwitchDriver/LocalSwitch.cs:154 | A definition with no contract of its own: `"Switch " + id.ToString()`. Its properties are `SubKeyText` and `SubKeyInjective`. |
| SwitchDriver.SubKeyText | AstroUSB-ASCOM/SwitchDriver/LocalSwitch.cs:154 | The subkey is `"Switch "` followed by decimal text that reads back as the id. |
| SwitchDriver.SubKeyInjective | AstroUSB-ASCOM/SwitchDriver/LocalSwitch.cs:154 | Switches with different ids are saved under different `"Switch <id>"` subkeys. |
| SwitchDriver.BoolText | AstroUSB-ASCOM/SwitchDriver/LocalSwitch.cs:160 | `bool.ToString()` is `"True"` exactly for true. |
| SwitchDriver.SaveKeysDistinct | AstroUSB-ASCOM/SwitchDriver/LocalSwitch.cs:155-163 | The nine keys `Save` writes are pairwise different. |
| SwitchDriver.LocalSwitch.Binary | AstroUSB-ASCOM/SwitchDriver/LocalSwitch.cs:63-65 | Binary switch: max 1, min 0, step 1, value 0, writable, description = name, name editable; valid with an exact state count when the name is non-empty. |
| SwitchDriver.LocalSwitch.Writable | AstroUSB-ASCOM/SwitchDriver/LocalSwitch.cs:76-78 | The given range, step and value, writable, description = name, name editable. |
| SwitchDriver.LocalSwitch.constructor | AstroUSB-ASCOM/SwitchDriver/LocalSwitch.cs:90-101 | Every argument is stored, `Description` is the name and `CanSetName` is true. |
| SwitchDriver.LocalSwitch.IsValid | AstroUSB-ASCOM/SwitchDriver/LocalSwitch.cs:173-176 | The static check applied to the switch's own name, maximum, minimum, step and value; when valid, the name is non-empty, min < max, step > 0 and value in range. |
| SwitchDriver.LocalSwitch.SetValue | AstroUSB-ASCOM/SwitchDriver/LocalSwitch.cs:112-144 | Not writable gives `NotWritable`, whatever the request. A writable switch with a request outside the range gives `OutOfRange`. Both errors leave `Value` unchanged. A cancelled timed wait returns normally with `Value` unchanged. Otherwise `Value` becomes `Snap(request)`. Only `Value` may change. A request already on the lattice and equal to `Value` leaves it unchanged. An exact valid definition stays valid, and the new value is on the lattice within half a step of the request. |
| SwitchDriver.LocalSwitch.SaveEntries | AstroUSB-ASCOM/SwitchDriver/LocalSwitch.cs:152-164 | Nine writes, all with the given driver id and subkey `"Switch " + id`, whose keys are Name, Description, Minimum, Maximum, StepSize, CanWrite, Value, CanAsync, Duration in that order. |
| SwitchDriver.LocalSwitch.Save | AstroUSB-ASCOM/SwitchDriver/LocalSwitch.cs:152-164 | The profile receives exactly the writes of `SaveEntries`, appended in order after what it held. |
| SwitchDriver.LocalSwitch.SaveReadsBack | AstroUSB-ASCOM/SwitchDriver/LocalSwitch.cs:152-164 | After `Save`, looking up any of the nine keys under the switch's subkey gives the entry written for it, whatever the profile held before. |
| SwitchDriver.LocalSwitch.SaveReadsBackFields | AstroUSB-ASCOM/SwitchDriver/LocalSwitch.cs:155-163 | After `Save`, all nine keys read back as the switch's own fields: Name and Description as text, Minimum, Maximum, StepSize, Value and Duration as numbers, CanWrite and CanAsync as `bool.ToString()`. |
| SwitchDriver.Snap | AstroUSB-ASCOM/SwitchDriver/LocalSwitch.cs:141-143 | A definition with no contract of its own: `StepSize * Math.Round((request - Minimum) / StepSize) + Minimum`. Its properties are the `Snap*` lemmas below. |
| SwitchDriver.SnapSteps | AstroUSB-ASCOM/SwitchDriver/LocalSwitch.cs:140-143 | The snapped value lies `Math.Round(q)` steps above `Minimum`, `q` being the request's position in steps. |
| SwitchDriver.SnapOnLattice | AstroUSB-ASCOM/SwitchDriver/LocalSwitch.cs:140-143 | A snapped value is `Minimum` plus a whole number of steps. |
| SwitchDriver.SnapWithinHalfStep | AstroUSB-ASCOM/SwitchDriver/LocalSwitch.cs:140-143 | A snapped value is within half a step of the request, measured in steps. |
| SwitchDriver.SnapWithinHalfStepValue | AstroUSB-ASCOM/SwitchDriver/LocalSwitch.cs:140-143 | A snapped value differs from the request by at most half of the step's magnitude. |
| SwitchDriver.SnapNearest | AstroUSB-ASCOM/SwitchDriver/LocalSwitch.cs:140-143 | No point of the lattice is closer to the request, in steps, than the snapped value. |
| SwitchDriver.SnapInRange | AstroUSB-ASCOM/SwitchDriver/LocalSwitch.cs:140-143 | With a positive step and a whole number of states, a request in `[Minimum, Maximum]` snaps into `[Minimum, Maximum]`. |
| SwitchDriver.SnapIdempotent | AstroUSB-ASCOM/SwitchDriver/LocalSwitch.cs:141-143 | A value already on the lattice snaps to itself. |
| SwitchDriver.SnapExamples | AstroUSB-ASCOM/SwitchDriver/LocalSwitch.cs:141-143 | With step 2, a request of 5 (2.5 steps) becomes 4 by banker's rounding; with step 1, 0.6 becomes 1. |
| SwitchDriver.IsValidDefinition | AstroUSB-ASCOM/SwitchDriver/LocalSwitch.cs:201-235 | The static validator; a valid definition has a non-empty name, min < max, step > 0 and the value in range. |
| SwitchDriver.FirstFailureWins | AstroUSB-ASCOM/SwitchDriver/LocalSwitch.cs:201-235 | The verdict is the first failing check in the order name, range, step sign, at least one state, whole number of states, value in range. Its reason fails and every earlier check passes. It is `Valid` exactly when no check fails. |
| SwitchDriver.ValidIffValueInRange | AstroUSB-ASCOM/SwitchDriver/LocalSwitch.cs:218-235 | For a named definition with min < max, step > 0 and a whole number of states, it is valid exactly when the value is in `[min, max]`, and otherwise the reason is the value check. |
| SwitchDriver.NonIntegralStatesRejected | AstroUSB-ASCOM/SwitchDriver/LocalSwitch.cs:223-227 | `("Port A", max 10, min 0, step 3, value 5)` is rejected because 10/3 states is not a whole number. |
| SwitchDriver.LargeStepPassesStateCountCheck | AstroUSB-ASCOM/SwitchDriver/LocalSwitch.cs:223 | For a step of 5 or more, the whole-number check never fails. |
| SwitchDriver.ToleratedDefinitionSnapsAboveMaximum | AstroUSB-ASCOM/SwitchDriver/LocalSwitch.cs:223 | Range `[0, 26]` with step 10 passes validation, but snapping 26 gives 30. |
| SwitchDriver.SmallStepToleratedDefinitionSnapsAboveMaximum | AstroUSB-ASCOM/SwitchDriver/LocalSwitch.cs:223 | Range `[0, 1.95]` with step 1 passes validation, but snapping 1.95 gives 2. |
| SwitchDriver.BinaryDefinitionValid | AstroUSB-ASCOM/SwitchDriver/LocalSwitch.cs:63-64 | The binary defaults form a valid definition with an exact state count for any non-empty name. |

## Left out

- SwitchDriver.LocalSwitch.SetValue: requires a non-zero `StepSize` on the path that reaches the snap. The source divides by the step there, and with a zero step it would store NaN, which exact reals cannot represent.
- SwitchDriver.LocalSwitch.SetValue: the `message` parameter is unused by the source and is not modelled. Exception message texts are not modelled either; the two exceptions become the outcomes `NotWritable` and `OutOfRange`.
- SwitchDriver.LocalSwitch.SetValue: the wait is not modelled as time. The `Thread.Sleep(100)` polling, the `Stopwatch` and the `CancellationToken` become the single input `cancelledAtEnd`, so the model does not capture the polling cadence or the moment cancellation arrives.
- The `Task`, `CancellationTokenSource`, `CancellationToken`, `StateChangeComplete` and `AsyncException` properties (lines 29-41) are not modelled, because `SetValue` never reads or writes them apart from the token.
- The private parameterless constructor (lines 49-55) is not modelled. It is private and nothing shown calls it.
- The full constructor's `regularFetch` parameter is not modelled, because the source ignores it.
- IEEE-754 behaviour (rounding error, NaN, infinities) is not modelled; numbers are exact reals.
- A null name is not modelled. `string.IsNullOrEmpty` rejects null and empty names alike, and the model has only the empty string.
- SwitchDriver.SnapNearest: compares distances in steps, `(x - Minimum) / StepSize`, not in value units; for a positive step the two differ by the factor `StepSize`.
- Profiles.Profile.WriteValue: the argument order (driver id, name, subkey, value) is taken from the variable names at the call sites, lines 155-163, because the `IProfile` declaration is not part of this model. If the interface takes the value third and the subkey fourth (the order ASCOM documents), each call stores `"Switch <id>"` as the value under a subkey named by the field; the model's keys and values would then swap roles, but the nine writes and their order are the same.
- SwitchDriver.IsValidDefinition: the reason is one of six tags, not the source's text. Two of the texts interpolate doubles (lines 210 and 230).
- SwitchDriver.LocalSwitch.Save: numbers are written through `ToString(CultureInfo.InvariantCulture)`, and the model keeps each formatted string abstract as the real it renders. The profile store itself is external.
- `SetupDialogForm.cs` and `SetupDialogForm.designer.cs` are not part of this model. They are the configuration dialog: COM port listing, logging, a browser link, and copying channel names to and from text boxes.
