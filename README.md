# License plates: normalisation, French validation and the plate value type

This project models the core of a small Java library for vehicle license
plates.

The **French license plate handler** turns a raw plate value into its
normalised rendering and checks it against the two French formats:

- the current format since 2009, `AB-123-CD`;
- the 1950 to 2009 format, for example `2928 TW 74` or `11 GY 2A`.

`normalize` collapses every run of whitespace to one `-`, then every run of
`-` to one `-`, and upper-cases the result. If the result has the former
format, its hyphens become spaces. `validate` normalises and then accepts
either format.

The **license plate value type** binds a raw value to a country. The source of
that class is not part of this model: its contract is the one its unit test
asserts.

- A two-step builder (`forValue`, then `withCountry`) rejects a null or blank
  value and a null country with an IllegalArgumentException.
- `toString` is the country handler's normalisation of the raw value.
- `isValid` asks the handler once and remembers the verdict.
- `equals` compares normalised renderings.

The Dafny modules follow that structure:

- `Wrappers` (wrappers.dfy): `Option`, standing for a Java `null`, and
  `Result`, standing for a thrown exception.
- `JavaText` (java_text.dfy): Java's `\s` class, the ASCII letter and digit
  classes, and `toUpperCase`.
- `FrenchLicensePlateHandler` (french_license_plate_handler.dfy): pure
  functions and lemmas. `ReplaceRuns` is `replaceAll("\\s+", "-")` and
  `replaceAll("\\-+", "-")`. `HyphensToSpaces` is `replaceAll("\\-", " ")`.
  `Hyphenated` is the value line 51 computes. Then come `Normalize`,
  `Validate`, `IsCurrentFormat` and `IsFormerFormat`.
- `LicensePlates` (license_plate.dfy): the handler strategy as a variant,
  either `French` or `Custom(normalize, validate)` for any other handler. Also
  the country, the builder and the class `LicensePlate`. Its field
  `cachedValid: Option<bool>` holds the remembered verdict. Its ghost counter
  `validateCalls` counts the handler's validate invocations.

Both formats are matched against the whole string, as Java's `String.matches`
does. The former format `[0-9]{2,4}[\s\-][A-Z]{1,3}[\s\-][A-Z0-9]{2,3}` is
written as "there is a digit-group length `d` in 2..4 and a letter-group
length `l` in 1..3 that split the string this way". Neither group can contain
a separator, so this is the regular expression's unique parse.

A current-format plate written without hyphens (`AB001AB`, or
`ab001ab`, which is the same once upper-cased) is rejected, because the
pattern at line 98 requires the hyphens (`ExampleWithoutHyphensRejected`,
`NormalizeIgnoresCase`).

## Model

| member | source | states |
|---|---|---|
| `JavaText.ToUpperProperties` | src/main/java/net/contargo/types/FrenchLicensePlateHandler.java:51 | upper-casing keeps the length and leaves no lower-case letter; it is idempotent and the identity on a value without lower-case letters; every position holds whitespace, or a `-`, exactly when it did before |
| `FrenchLicensePlateHandler.ReplaceRuns` | src/main/java/net/contargo/types/FrenchLicensePlateHandler.java:51 | each maximal run becomes one `-`: the result is never longer, and its first and last characters become `-` exactly when they were in the class |
| `FrenchLicensePlateHandler.ReplaceRunsChars` | src/main/java/net/contargo/types/FrenchLicensePlateHandler.java:51 | every character of the result is a `-` or a character of the input outside the collapsed class |
| `FrenchLicensePlateHandler.ReplaceRunsRemovesWhitespace` | src/main/java/net/contargo/types/FrenchLicensePlateHandler.java:51 | after `replaceAll("\\s+", "-")` no whitespace is left |
| `FrenchLicensePlateHandler.ReplaceRunsNoDoubleHyphen` | src/main/java/net/contargo/types/FrenchLicensePlateHandler.java:51 | after `replaceAll("\\-+", "-")` no `-` follows another `-` |
| `FrenchLicensePlateHandler.ReplaceRunsKeepsNoWhitespace` | src/main/java/net/contargo/types/FrenchLicensePlateHandler.java:51 | the second `replaceAll` brings back no whitespace that the first removed |
| `FrenchLicensePlateHandler.HyphenatedIsClean` | src/main/java/net/contargo/types/FrenchLicensePlateHandler.java:51 | the value line 51 produces has no whitespace, no `--` and no lower-case letter |
| `FrenchLicensePlateHandler.ReplaceRunsIdentity` | src/main/java/net/contargo/types/FrenchLicensePlateHandler.java:51 | a `replaceAll` finding no run longer than one `-` leaves the string unchanged |
| `FrenchLicensePlateHandler.ReplaceRunsOfClean` | src/main/java/net/contargo/types/FrenchLicensePlateHandler.java:51 | both collapsing steps leave a value with no whitespace and no `--` unchanged |
| `FrenchLicensePlateHandler.ReplaceRunsOfSpaced` | src/main/java/net/contargo/types/FrenchLicensePlateHandler.java:51-54 | collapsing whitespace runs in the space rendering of such a value gives the value back |
| `FrenchLicensePlateHandler.HyphenatedOfClean` | src/main/java/net/contargo/types/FrenchLicensePlateHandler.java:51 | line 51 is the identity on its own outputs |
| `FrenchLicensePlateHandler.HyphenatedOfSpaced` | src/main/java/net/contargo/types/FrenchLicensePlateHandler.java:51-54 | line 51 undoes line 54: it maps the space rendering back to the hyphenated value |
| `FrenchLicensePlateHandler.SpacedFormer` | src/main/java/net/contargo/types/FrenchLicensePlateHandler.java:53-55 | turning hyphens into spaces keeps the former format and leaves no hyphen |
| `FrenchLicensePlateHandler.Normalize` | src/main/java/net/contargo/types/FrenchLicensePlateHandler.java:48-60 | normalize is total and never lengthens its input; the output has no `--` and no lower-case letter; in the former-format branch it has no hyphen and keeps the former format; otherwise it has no whitespace |
| `FrenchLicensePlateHandler.HyphenatedOfNormalize` | src/main/java/net/contargo/types/FrenchLicensePlateHandler.java:49-55 | applying line 51 to the normalised value gives the same result as applying it to the raw value |
| `FrenchLicensePlateHandler.NormalizeIdempotent` | src/main/java/net/contargo/types/FrenchLicensePlateHandler.java:49-60 | `normalize(normalize(v)) == normalize(v)` for every `v` |
| `FrenchLicensePlateHandler.ValidateOnHyphenated` | src/main/java/net/contargo/types/FrenchLicensePlateHandler.java:88-93 | validate is true exactly when the line 51 value has the current or the former format; the space rendering never changes the verdict |
| `FrenchLicensePlateHandler.ValidateOfNormalize` | src/main/java/net/contargo/types/FrenchLicensePlateHandler.java:88-93 | `validate(normalize(v)) == validate(v)` for every `v` |
| `FrenchLicensePlateHandler.FormerEnds` | src/main/java/net/contargo/types/FrenchLicensePlateHandler.java:102-105 | a former-format value has at least seven characters, starts with a digit and ends with a letter or digit |
| `FrenchLicensePlateHandler.FormatsDisjoint` | src/main/java/net/contargo/types/FrenchLicensePlateHandler.java:96-105 | no string has both formats |
| `FrenchLicensePlateHandler.SpacedSplitOfClean` | src/main/java/net/contargo/types/FrenchLicensePlateHandler.java:53-55 | the space rendering of a whitespace-free former-format value has single spaces exactly at the two separator positions and nowhere else |
| `FrenchLicensePlateHandler.NormalizeFormerSeparators` | src/main/java/net/contargo/types/FrenchLicensePlateHandler.java:51-55 | in the former-format branch the output has no hyphen, and its whitespace is exactly two single spaces separating the three groups |
| `FrenchLicensePlateHandler.NormalizeHyphenBranch` | src/main/java/net/contargo/types/FrenchLicensePlateHandler.java:51-55 | otherwise the output is the line 51 value and has no whitespace |
| `FrenchLicensePlateHandler.AcceptedShapes` | src/main/java/net/contargo/types/FrenchLicensePlateHandler.java:88-105 | an accepted value renders either as `XX-999-XX`, nine characters long and not of the former format, or in the former format without hyphens, seven to twelve characters long |
| `FrenchLicensePlateHandler.LeadingSeparatorRejected` | src/main/java/net/contargo/types/FrenchLicensePlateHandler.java:51 | normalize does not trim: a leading whitespace or `-` renders as a leading `-`, and the value is rejected |
| `FrenchLicensePlateHandler.TrailingSeparatorRejected` | src/main/java/net/contargo/types/FrenchLicensePlateHandler.java:51 | the same for a trailing whitespace or `-` |
| `FrenchLicensePlateHandler.SkeletonOfReplaceRuns` | src/main/java/net/contargo/types/FrenchLicensePlateHandler.java:51 | collapsing runs changes only separators |
| `FrenchLicensePlateHandler.SkeletonOfToUpper` | src/main/java/net/contargo/types/FrenchLicensePlateHandler.java:51 | deleting separators commutes with upper-casing |
| `FrenchLicensePlateHandler.SkeletonOfSpaced` | src/main/java/net/contargo/types/FrenchLicensePlateHandler.java:54 | turning hyphens into spaces changes only separators |
| `FrenchLicensePlateHandler.NormalizeKeepsSkeleton` | src/main/java/net/contargo/types/FrenchLicensePlateHandler.java:51-54 | nothing but separators and case changes: deleting whitespace and `-` from `normalize(v)` gives the upper-cased `v` with whitespace and `-` deleted, in the same order |
| `FrenchLicensePlateHandler.ReplaceRunsOfUpper` | src/main/java/net/contargo/types/FrenchLicensePlateHandler.java:51 | collapsing runs commutes with upper-casing |
| `FrenchLicensePlateHandler.NormalizeIgnoresCase` | src/main/java/net/contargo/types/FrenchLicensePlateHandler.java:49-93 | line 51, normalize and validate give the same answers for a value and its upper-cased form |
| `FrenchLicensePlateHandler.CurrentFixpoint` | src/main/java/net/contargo/types/FrenchLicensePlateHandler.java:96-99 | a clean current-format value is accepted and renders as itself |
| `FrenchLicensePlateHandler.FormerFixpoint` | src/main/java/net/contargo/types/FrenchLicensePlateHandler.java:102-105 | the space rendering of a clean (hyphen-separated, upper-case) former-format value is accepted and renders as itself |
| `FrenchLicensePlateHandler.ExampleAA001AB` | src/main/java/net/contargo/types/FrenchLicensePlateHandler.java:13 | `AA-001-AB` is valid and normalises to itself |
| `FrenchLicensePlateHandler.ExampleAB123BC` | src/main/java/net/contargo/types/FrenchLicensePlateHandler.java:14 | `AB-123-BC` is valid and normalises to itself |
| `FrenchLicensePlateHandler.Example2928TW74` | src/main/java/net/contargo/types/FrenchLicensePlateHandler.java:23 | `2928 TW 74` is valid and normalises to itself |
| `FrenchLicensePlateHandler.Example324EBS91` | src/main/java/net/contargo/types/FrenchLicensePlateHandler.java:24 | `324 EBS 91` is valid and normalises to itself |
| `FrenchLicensePlateHandler.Example56ABM13` | src/main/java/net/contargo/types/FrenchLicensePlateHandler.java:25 | `56 ABM 13` is valid and normalises to itself |
| `FrenchLicensePlateHandler.Example11GY2A` | src/main/java/net/contargo/types/FrenchLicensePlateHandler.java:26 | `11 GY 2A` is valid and normalises to itself |
| `FrenchLicensePlateHandler.Example654ANY971` | src/main/java/net/contargo/types/FrenchLicensePlateHandler.java:27 | `654 ANY 971` is valid and normalises to itself |
| `FrenchLicensePlateHandler.ExampleWithoutHyphensRejected` | src/main/java/net/contargo/types/FrenchLicensePlateHandler.java:98 | `AB001AB` normalises to itself and is rejected: the current format needs its hyphens |
| `FrenchLicensePlateHandler.ExampleFourDigitsRejected` | src/main/java/net/contargo/types/FrenchLicensePlateHandler.java:96-105 | `AA-0001-AB` normalises to itself and matches neither format |
| `JavaText.UpperCharClasses` | src/main/java/net/contargo/types/FrenchLicensePlateHandler.java:51 | upper-casing a character changes only lower-case ASCII letters |
| `JavaText.ToUpperIdempotent` | src/main/java/net/contargo/types/FrenchLicensePlateHandler.java:51 | upper-casing twice is upper-casing once |
| `JavaText.ToUpperCons` | src/main/java/net/contargo/types/FrenchLicensePlateHandler.java:51 | upper-casing works character by character: it maps the first character and the rest independently |
| `LicensePlates.ForValue` | src/test/java/net/contargo/types/truck/LicensePlateTest.java:28-39 | `forValue` fails exactly for a null value (NullValue) or a blank one (BlankValue); otherwise it keeps the raw value unchanged |
| `LicensePlates.WithCountry` | src/test/java/net/contargo/types/truck/LicensePlateTest.java:42-56 | `withCountry` fails exactly for a null country (NullCountry); otherwise it gives a new plate. The plate keeps the raw value, `getCountry` returns the given country, and no verdict is computed yet |
| `LicensePlates.LicensePlate.constructor` | src/test/java/net/contargo/types/truck/LicensePlateTest.java:49-56 | a built plate holds its raw value and country, has no remembered verdict, and its handler's validate has not run |
| `LicensePlates.LicensePlate.ToString` | src/test/java/net/contargo/types/truck/LicensePlateTest.java:63-95 | `toString` is the handler's normalisation of the raw value, valid or not (its body), and reads no mutable state. For a French plate the rendering is already normalised and no longer than the raw value |
| `LicensePlates.LicensePlate.IsValid` | src/test/java/net/contargo/types/truck/LicensePlateTest.java:101-134 | `isValid` returns the handler's verdict on the normalised value and remembers it. After any number of calls, validate has run exactly once |
| `LicensePlates.IsValidThreeTimes` | src/test/java/net/contargo/types/truck/LicensePlateTest.java:118-134 | three calls give the same verdict, and the handler's validate has run once |
| `LicensePlates.EqualsIsEquivalence` | src/test/java/net/contargo/types/truck/LicensePlateTest.java:139-175 | equals is reflexive, symmetric and transitive |
| `LicensePlates.EqualsNullOrForeign` | src/test/java/net/contargo/types/truck/LicensePlateTest.java:178-194 | equals is false for null and for an object of another class |
| `LicensePlates.FrenchEquals` | src/test/java/net/contargo/types/truck/LicensePlateTest.java:139-175 | two French plates are equal exactly when their raw values agree after runs of separators are collapsed to one `-` and letters are upper-cased |
| `LicensePlates.FrenchVerdict` | src/main/java/net/contargo/types/FrenchLicensePlateHandler.java:88-93 | a French plate's verdict is the French validate of its raw value: validating the normalised value changes nothing |
| `LicensePlates.FrenchEqualsIgnoresCase` | src/test/java/net/contargo/types/truck/LicensePlateTest.java:152-162 | a French plate equals the plate of its upper-cased value |
| `LicensePlates.HyphenatedOfHyphens` | src/test/java/net/contargo/types/truck/LicensePlateTest.java:142 | `KA-AB-123` collapses to `KA-AB-123` |
| `LicensePlates.HyphenatedOfSpaceRendering` | src/test/java/net/contargo/types/truck/LicensePlateTest.java:143-170 | the test's space-separated values `KA AB 123` and `B XY 456` collapse to `KA-AB-123` and `B-XY-456` |
| `LicensePlates.UpperOfLowerCase` | src/test/java/net/contargo/types/truck/LicensePlateTest.java:156 | `ka ab 123` upper-cases to `KA AB 123` |
| `LicensePlates.HyphenatedOfUpperCased` | src/test/java/net/contargo/types/truck/LicensePlateTest.java:156 | a value that upper-cases to `KA AB 123` collapses to `KA-AB-123` |
| `LicensePlates.FrenchEqualityExamples` | src/test/java/net/contargo/types/truck/LicensePlateTest.java:139-175 | with the French handler, `KA-AB-123` equals `KA AB 123` and `ka ab 123`, and `KA AB 123` does not equal `B XY 456` |

## Left out

- Logging: the slf4j logger and its debug call (FrenchLicensePlateHandler.java:37, 57) are output only and change no result.
- `toUpperCase` is modelled for ASCII letters only; other characters are left unchanged. Locale-specific and full Unicode case mappings can change a string's length and are not modelled. Java strings are UTF-16 code units; the model uses Unicode scalar values.
- No general regular expression engine is modelled. The five patterns are written as explicit predicates, and `\s` is Java's default class `[ \t\n\x0B\f\r]`.
- LicensePlate.java is not part of this model. Its contract is taken from its unit test. Its blank check is not shown, so a value is taken as blank when every character is in `\s` (this covers `""` and `" "`).
- `hashCode` is not modelled: neither its source nor a test of it is part of this model.
- LicensePlateHandler.java declares `validate(LicensePlate)` and `format(LicensePlate)`. The French handler and the plate's test use String-based `normalize` and `validate`, and the model follows those.
- Country is known only by its code and handler. Country lookup, `LicensePlateCountry.NETHERLANDS` and `DefaultLicensePlateHandler` are not part of this model. Any handler other than the French one is a `Custom` pair of pure functions, which also stands for the test's mocks.
- Mockito's call verification becomes the ghost counter `validateCalls`. The check that `normalize` was called with the raw value (LicensePlateTest.java:94) is `ToString`'s body: it is a pure function of the raw value, so it is not counted.
- Equality compares only the two renderings and leaves the country out, so a French plate equals a plate of another country with the same rendering. The unit tests only compare plates of one country, so they do not decide this.
- Concurrent calls of `isValid` on a shared plate are not modelled; the source has no concurrency.
- Java exceptions are `Failure` results carrying the cause: `NullValue`, `BlankValue` or `NullCountry`. All three are IllegalArgumentException in the source.
