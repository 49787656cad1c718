# Grade calculator domain model

A Dafny model of the domain layer of a grade calculator. A teacher registers weighted evaluations for a student, records two academic policies, and asks for the student's final grade or a breakdown of it. The model also covers the thin store-update rules of the application layer above the domain.

Modelled:

- **Value objects.** `Grade` is a finite number in [0, 20] and can be rounded to hundredths. `WeightPercentage` is a finite number in [0, 100] with a decimal-factor view. `StudentId` is trimmed, and its trimmed length must lie in [3, 50]. Each factory either returns a value or fails with a structured `InvalidValue` error. The checks run in the source's order: finiteness before range, and emptiness before length.
- **Policies.** `AttendancePolicy` and `ExtraPointsPolicy` are immutable boolean wrappers that cannot fail.
- **Evaluation.** An evaluation is a grade paired with a weight. The grade is validated before the weight. Its contribution is grade × weight / 100.
- **Student aggregate.** A student holds an append-only sequence of at most ten evaluations and two replaceable flags. `calculateFinalGrade` refuses an empty student first. It then refuses weights whose sum is more than 0.01 from 100, and otherwise returns the weighted sum. `getCalculationDetail` reports 0/0 for an empty student but still fails when the weights do not balance.
- **Store and use cases.** The in-memory repository is a `map<string, Student>`. Each use case is a pure function. A use case that may write returns the store as it stands after the call together with its result; the two that only read take the store and return their result alone. Lookup uses the raw identifier, while `save` files the student under the trimmed identifier. When a use case fails, nothing is saved.

All numbers are Dafny `real`, so sums and products are exact. A numeric input is `Finite(r)` or `NonFinite`, and the single `NonFinite` tag stands for NaN and both infinities. Errors are one `DomainError` datatype returned through `Result`. The use-case layer adds `StudentNotFound`. Strings are sequences of Unicode scalar values. Whitespace is the ECMAScript set that `String.prototype.trim` strips.

The properties proved include:

- each factory's exact success condition and error order;
- rounding to within 0.005 of the value, with the result staying in [0, 20];
- trimming is idempotent and drops only whitespace;
- the contribution lies in [0, grade];
- the left-to-right sum of contributions equals Σ gᵢ·wᵢ / 100, and it does not depend on the order of the evaluations: any reordering of the same evaluations gives the same sum;
- a successful final grade lies in [0, 20 · 100.01 / 100]. The tolerance can push the grade slightly above 20, and one lemma shows 20.002 being reached;
- store well-formedness, meaning every student is valid and filed under its own identifier, is preserved by every use case;
- the consequences of the raw-versus-trimmed key mismatch.

The examples of the source's tests are proved as lemmas: 15.2, 20, the refusal of 40 + 40, and the eleventh evaluation. So are the boundaries of the inclusive tolerance comparison in `src/domain/entities/Student.ts:88`: 99.99, 100.01 and 99.995 are accepted and 100.02 is refused.

## Model

| member | source | states |
|---|---|---|
| DomainConstants.GradeRoundingMultiplier | src/domain/value-objects/Grade.ts:49 | the rounding multiplier, 10 raised to the 2 decimal places, is 100 |
| Text.Trim | src/domain/value-objects/StudentId.ts:25 | the trimmed string has no leading or trailing whitespace; it is an infix of the input with only whitespace dropped on either side; it is empty exactly when the input is all whitespace |
| Text.TrimOfTrimmed | src/domain/value-objects/StudentId.ts:25 | a string with no surrounding whitespace is left unchanged by trimming |
| Text.TrimIdempotent | src/domain/value-objects/StudentId.ts:25 | trimming twice equals trimming once |
| Grades.Create | src/domain/value-objects/Grade.ts:23-36 | succeeds iff the input is finite and in [0, 20], both bounds included; stores the value unrounded; a non-finite input fails with MustBeFinite before any range check; a finite out-of-range input fails with MustBeBetween(0, 20) |
| Grades.Grade.GetRoundedValue | src/domain/value-objects/Grade.ts:48-51 | the result lies in (v − 0.005, v + 0.005]; it is a whole number of hundredths; it stays in [0, 20] for a valid grade |
| Grades.Grade.Equals | src/domain/value-objects/Grade.ts:56-58 | two grades compare equal exactly when they are the same value |
| Grades.CreateOfValue | src/domain/value-objects/Grade.ts:35-43 | creating a grade from a valid grade's own value gives that grade back |
| Grades.RoundedValueIsStable | src/domain/value-objects/Grade.ts:48-51 | rounding is idempotent: a rounded value rounds to itself |
| Grades.RoundingExamples | src/__tests__/domain/value-objects/Grade.test.ts:56-69 | 15.12345 rounds to 15.12, 15.126 to 15.13 and 15 to 15; a tie such as 15.125 rounds up; 0 and 20 are accepted; −1 and 21 are refused |
| WeightPercentages.Create | src/domain/value-objects/WeightPercentage.ts:21-34 | succeeds iff the input is finite and in [0, 100]; stores the value unchanged; a non-finite input fails with MustBeFinite before the range check; an out-of-range input fails with MustBeBetween(0, 100) |
| WeightPercentages.WeightPercentage.ToDecimalFactor | src/domain/value-objects/WeightPercentage.ts:46-48 | the factor times 100 gives back the percentage; the factor lies in [0, 1] for a valid weight |
| WeightPercentages.WeightPercentage.Equals | src/domain/value-objects/WeightPercentage.ts:53-55 | two weights compare equal exactly when they are the same value |
| WeightPercentages.CreateOfValue | src/domain/value-objects/WeightPercentage.ts:33-41 | creating a weight from a valid weight's own value gives that weight back |
| WeightPercentages.DecimalFactorExamples | src/__tests__/domain/value-objects/WeightPercentage.test.ts:55-73 | the factors of 100, 50, 25 and 0 are 1, 0.5, 0.25 and 0; 33.33 is stored unchanged |
| StudentIds.Create | src/domain/value-objects/StudentId.ts:20-32 | succeeds iff the trimmed length is in [3, 50] and then stores the trimmed string; an empty or all-whitespace input fails with CannotBeEmpty; any other input of bad length fails with LengthMustBeBetween(3, 50) |
| StudentIds.StudentId.Equals | src/domain/value-objects/StudentId.ts:44-46 | two identifiers compare equal exactly when they are the same value |
| StudentIds.StudentId.ToString | src/domain/value-objects/StudentId.ts:48-50 | the string form is the stored value |
| StudentIds.CreateIdempotent | src/domain/value-objects/StudentId.ts:25-31 | creating an identifier from a created identifier's value gives the same result |
| StudentIds.ValidIdIsFixedByTrim | src/domain/value-objects/StudentId.ts:25-31 | a created identifier is its own trim |
| StudentIds.CreateTrimsExample | src/__tests__/domain/value-objects/StudentId.test.ts:22-25 | "  U202012345  " is stored as "U202012345" |
| StudentIds.CreateRefusalExamples | src/__tests__/domain/value-objects/StudentId.test.ts:29-42 | "" and "   " are refused as empty; "AB" is refused for its length |
| AttendancePolicies.Create | src/domain/policies/AttendancePolicy.ts:16-18 | never fails; both accessors return the flag it was given |
| AttendancePolicies.AccessorsAgree | src/domain/policies/AttendancePolicy.ts:23-32 | `meetsMinimumRequirement` and `getValue` always agree, and a policy is determined by its flag |
| ExtraPointsPolicies.Create | src/domain/policies/ExtraPointsPolicy.ts:17-19 | never fails; both accessors return the flag it was given |
| ExtraPointsPolicies.AccessorsAgree | src/domain/policies/ExtraPointsPolicy.ts:24-33 | `allowsExtraPoints` and `getValue` always agree, and a policy is determined by its flag |
| Evaluations.Create | src/domain/entities/Evaluation.ts:21-32 | succeeds iff both the grade and the weight factories succeed; the accessors then return the two inputs; a grade error wins over a weight error and reaches the caller unchanged, as does a weight error; every failure is an InvalidValue |
| Evaluations.Normalize | src/domain/entities/Evaluation.ts:26-31 | the catch clause rethrows an InvalidValue unchanged and turns any other error into an InvalidValue |
| Evaluations.Evaluation.CalculateWeightedContribution | src/domain/entities/Evaluation.ts:52-54 | the contribution times 100 equals grade × weight; for a valid evaluation it lies between 0 and the grade, which is at most 20 |
| Evaluations.CreateSucceedsIffInRange | src/domain/entities/Evaluation.ts:21-25 | creation succeeds exactly on a finite grade in [0, 20] and a finite weight in [0, 100] |
| Evaluations.ContributionExamples | src/__tests__/domain/entities/Evaluation.test.ts:40-69 | (15, 40) gives 6, (20, 100) gives 20, (15, 0) gives 0, (16, 25) gives 4 and (17.5, 30) gives 5.25; (−5, −10) fails with the Grade error |
| Students.TotalWeight | src/domain/entities/Student.ts:83-86 | for valid evaluations the weight sum lies between 0 and 100 times their number |
| Students.BaseGradeBounded | src/domain/entities/Student.ts:96-101 | for valid evaluations the sum of contributions is non-negative and at most 20 × (weight sum) / 100 |
| Students.BaseGradeIsWeightedAverage | src/domain/entities/Student.ts:96-101 | the left-to-right sum of contributions times 100 equals the reference total Σ gᵢ·wᵢ, in which the products are summed and divided by 100 only once |
| Students.BaseGradeConcat | src/domain/entities/Student.ts:96-101 | the base grade of a concatenation is the sum of the parts' base grades, and swapping the two blocks leaves it unchanged |
| Students.BaseGradePermutation | src/domain/entities/Student.ts:96-101 | two sequences holding the same evaluations (equal multisets) in any order have the same base grade, so registration order never changes the sum |
| Students.Student.AddEvaluation | src/domain/entities/Student.ts:56-63 | with 10 evaluations already present it fails with MaxEvaluationsExceeded(10) before any validation; otherwise it succeeds iff the evaluation is valid, and a validation error is passed through; success appends exactly one evaluation holding the inputs and leaves the earlier evaluations, the identifier and both flags unchanged; it preserves the aggregate invariant (at most 10 valid evaluations) |
| Students.Student.UpdateAttendancePolicy | src/domain/entities/Student.ts:68-70 | sets the attendance flag and changes nothing else; preserves the invariant |
| Students.Student.UpdateExtraPointsPolicy | src/domain/entities/Student.ts:75-77 | sets the extra-points flag and changes nothing else; preserves the invariant |
| Students.Student.ValidateWeightSum | src/domain/entities/Student.ts:82-91 | passes iff the weight sum lies in [99.99, 100.01], both ends included; otherwise fails with InvalidWeightSum(sum, 100) |
| Students.Student.CalculateBaseGrade | src/domain/entities/Student.ts:96-101 | the base grade times 100 is Σ gᵢ·wᵢ; it is non-negative and at most 20 × (weight sum) / 100 |
| Students.Student.CalculateFinalGrade | src/domain/entities/Student.ts:112-124 | fails with NoEvaluations iff there are no evaluations; fails with InvalidWeightSum(sum, 100) when the weights are unbalanced; otherwise returns Σ gᵢ·wᵢ / 100, which for a valid aggregate lies in [0, 20 · 100.01 / 100] |
| Students.Student.GetCalculationDetail | src/domain/entities/Student.ts:129-151 | fails iff there are evaluations whose weights do not balance, and then with InvalidWeightSum; an empty aggregate gives base and final grade 0; otherwise the final grade is CalculateFinalGrade's value and equals the base grade; canReceiveExtraPoints is attendance ∧ extra points; row i is numbered i+1 and carries evaluation i's grade, weight and contribution |
| Students.Create | src/domain/entities/Student.ts:40-50 | fails iff the identifier is invalid, passing its error through; otherwise the student is valid, has the trimmed identifier, has no evaluations, and has the two flags as given |
| StudentScenarios.WeightedAverageExample | src/__tests__/domain/entities/Student.test.ts:11-18 | (16, 60%) and (14, 40%) give exactly 15.2 whatever the policy flags are |
| StudentScenarios.PerfectScoreExample | src/__tests__/domain/entities/Student.test.ts:30-37 | (20, 50%) twice gives exactly 20 |
| StudentScenarios.UnbalancedExample | src/__tests__/domain/entities/Student.test.ts:90-96 | weights of 40% and 40% are refused with an InvalidWeightSum error. The test checks only the kind of error; the payload (80, 100) is the sum and the expected total that `src/domain/entities/Student.ts:89` passes |
| StudentScenarios.ToleranceBoundaries | src/domain/entities/Student.ts:88 | weight sums of 99.99, 100.01 and 99.995 are accepted; 100.02 is refused |
| StudentScenarios.FinalGradeMayExceedMaxGrade | src/domain/entities/Student.ts:88 | a valid aggregate with weights 50 and 50.01 and both grades 20 has final grade 20.002 |
| StudentScenarios.EmptyStudentExample | src/domain/entities/Student.ts:112-151 | with no evaluations the final grade fails with NoEvaluations, but the detail succeeds with final grade 0 |
| StudentScenarios.CalculationDetailExample | src/__tests__/integration/GradeCalculator.integration.test.ts:194-223 | the detail of (16, 60%), (14, 40%) has row 1 = (1, 16, 60, 9.6), base and final grade 15.2, and eligibility true; with attendance off, eligibility is false |
| StudentScenarios.FinalGradeDependsOnEvaluationsOnly | src/domain/entities/Student.ts:112-124 | two aggregates with equal evaluation sequences have equal final-grade results, whatever their identifiers and flags |
| StudentScenarios.EleventhEvaluationRefused | src/__tests__/domain/entities/Student.test.ts:127-135 | a full aggregate refuses any further evaluation with MaxEvaluationsExceeded(10) |
| InMemoryStudentRepository.FindById | src/infrastructure/repositories/InMemoryStudentRepository.ts:19-22 | returns the student stored under exactly this key, or None when the key is absent |
| InMemoryStudentRepository.Save | src/infrastructure/repositories/InMemoryStudentRepository.ts:27-30 | afterwards a lookup by the student's identifier value returns it; the key set gains that key; every other entry is unchanged; well-formedness is preserved |
| InMemoryStudentRepository.Delete | src/infrastructure/repositories/InMemoryStudentRepository.ts:35-37 | removes the key and keeps the other entries; an absent key leaves the store unchanged |
| InMemoryStudentRepository.Clear | src/infrastructure/repositories/InMemoryStudentRepository.ts:49-51 | the cleared store holds nothing and has count 0 |
| InMemoryStudentRepository.CountAfterUpdates | src/infrastructure/repositories/InMemoryStudentRepository.ts:56-58 | the count grows by one on saving under a new key, shrinks by one on deleting a present key, and otherwise stays the same |
| InMemoryStudentRepository.FindAll | src/infrastructure/repositories/InMemoryStudentRepository.ts:42-44 | returns one entry per key: the ghost `keys` lists every stored key exactly once, and `all[i]` is the student stored under `keys[i]` |
| RegisterEvaluationUseCase.Execute | src/application/use-cases/RegisterEvaluationUseCase.ts:34-55 | for a stored id, it succeeds iff that student's AddEvaluation does, appending to that student and keeping its flags; for an absent id, it succeeds iff the id and the evaluation are valid, creating a student with both flags off and exactly one evaluation under the trimmed id; a failure saves nothing; totalEvaluations is the stored count; only the saved key changes; well-formedness is preserved |
| RegisterEvaluationUseCase.EleventhRegistrationRefused | src/__tests__/integration/GradeCalculator.integration.test.ts:46-54 | registering for a student that already holds 10 evaluations fails with MaxEvaluationsExceeded(10) and saves nothing |
| RegisterEvaluationUseCase.PaddedIdIsNeverFound | src/application/use-cases/RegisterEvaluationUseCase.ts:38-47 | in a well-formed store, an identifier with surrounding whitespace never finds a student |
| RegisterEvaluationUseCase.PaddedIdReplacesStoredStudent | src/application/use-cases/RegisterEvaluationUseCase.ts:38-47 | registering a valid evaluation under a padded form of a stored identifier succeeds, and replaces that student with a fresh one that has one evaluation and both flags off |
| UpdateAttendanceUseCase.Execute | src/application/use-cases/UpdateAttendanceUseCase.ts:33-58 | a stored student gets only its attendance flag replaced; an absent id creates (id, flag, false) when the id is valid and fails with the id's error otherwise, saving nothing; the response flag equals the stored flag; well-formedness is preserved |
| UpdateAttendanceUseCase.SetThenClear | src/__tests__/integration/GradeCalculator.integration.test.ts:95-101 | setting attendance to true and then false leaves it false |
| UpdateExtraPointsPolicyUseCase.Execute | src/application/use-cases/UpdateExtraPointsPolicyUseCase.ts:33-60 | a stored student gets only its extra-points flag replaced; an absent id creates (id, false, flag) when the id is valid and fails with the id's error otherwise, saving nothing; the response flag equals the stored flag; well-formedness is preserved |
| CalculateFinalGradeUseCase.Execute | src/application/use-cases/CalculateFinalGradeUseCase.ts:34-60 | an absent id fails with StudentNotFound(id); otherwise it returns the student's CalculateFinalGrade outcome, passing errors through; over a well-formed store the grade lies in [0, 20 · 100.01 / 100] |
| GetCalculationDetailUseCase.Execute | src/application/use-cases/GetCalculationDetailUseCase.ts:31-51 | an absent id fails with StudentNotFound(id); otherwise it returns the student's detail; its only possible failure is InvalidWeightSum for a non-empty student |
| UseCaseScenarios.AttendanceOnlyStudentHasNoFinalGrade | src/__tests__/integration/GradeCalculator.integration.test.ts:161-167 | a student created only by recording attendance fails final-grade calculation with NoEvaluations |
| UseCaseScenarios.RegisterTwiceThenCalculate | src/__tests__/integration/GradeCalculator.integration.test.ts:132-138 | registering (16, 60) and then (14, 40) for a new id gives 2 evaluations and a final grade of 15.2 |
| UseCaseScenarios.UnbalancedStudentHasNoDetail | src/application/use-cases/GetCalculationDetailUseCase.ts:44 | a stored non-empty student whose final grade fails also fails the detail, with InvalidWeightSum |
| UseCaseScenarios.PolicyUpdatesKeepFinalGrade | src/__tests__/integration/GradeCalculator.integration.test.ts:140-157 | updating either flag of a stored student does not change the final-grade result |

The constants of `src/domain/constants/DomainConstants.ts` appear as Dafny constants with the same values. The four exceptions of `src/domain/exceptions/DomainExceptions.ts` are the four variants of `DomainError`, each with the same payload. The plain accessors (`getValue`, `getGrade`, `getWeightPercentage`, `getStudentId`, `getEvaluations`, the policy getters) are field reads with no separate contract. So is the repository's `count` (`InMemoryStudentRepository.Count`, `src/infrastructure/repositories/InMemoryStudentRepository.ts:56-58`), which is the size of the map. Its behaviour under `save` and `delete` is stated by `InMemoryStudentRepository.CountAfterUpdates`.

## Left out

- IEEE-754 behaviour: every number is an exact `real`, so rounding error in sums and products is not modelled.
- NaN and the two infinities are one `NonFinite` tag.
- String rendering is not modelled. This covers `toString` and `toFixed` on grades, the `%` suffix on weights, the policies' and evaluations' `toString`, and the exception message texts. Errors carry their structured payload instead.
- String length counts Unicode scalar values, not UTF-16 code units, so identifiers with characters outside the Basic Multilingual Plane are measured differently.
- The `!value` test for `null` or `undefined` identifiers: inputs are always strings here, and the empty string takes that branch.
- The `success` and `message` fields of the use-case responses are constants and are omitted.
- The `Date.now` timing and `calculationTimeMs` in the final-grade use case.
- `MAX_CONCURRENT_USERS` and `MAX_CALCULATION_TIME_MS`: no code enforces them.
- Async and Promise plumbing, and concurrency.
- The facade `src/infrastructure/facades/GradeCalculator.ts` only delegates and is not part of this model. The re-exports in `src/index.ts` and the repository interface `src/application/ports/StudentRepository.ts` are not part of it either.
- In-place mutation: the source mutates the stored student object and then saves it. The model returns an updated value and saves that. The two agree because every failure happens before any mutation.
- Evaluations.Normalize: its non-InvalidValue branch cannot be reached, because the grade and weight factories only fail with InvalidValue.
- InMemoryStudentRepository.FindAll: the source returns students in insertion order. The model visits keys in an unspecified order, so its contract states one entry per key but nothing about the order.
- Students.Student.GetEvaluations returns the sequence value itself. Sequences are immutable values, so the defensive copy of the source is automatic, and there is nothing to state about aliasing.
- Grade rounding follows `Math.round`, which rounds ties toward +∞. On non-negative values this is the same as rounding half away from zero, and a grade is never negative.
