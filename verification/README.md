# Admin seeding: required-field synthesis and create-or-update

This project models the core of `seedAdmin.js`, the script that provisions the
single administrative user of the store. The script runs in three steps.

1. **Schema walk.** It visits every path of the user schema except a fixed
   set of system paths. A path counts as required when its `options.required`
   is truthy or one of its validators has type `"required"`.
2. **Default synthesis.** Some required paths have no value in the base admin
   record (`undefined` or `""`). For each of them it invents a placeholder by
   an ordered name heuristic. It writes the placeholder into the record and
   into the `autoFilled` report.
3. **Reconciliation.** It looks the admin e-mail up. With no match it inserts
   the completed record whole. Otherwise it overwrites only the managed
   fields of the stored record: `password`, `role`, every auto-filled field,
   then `firstname`, `lastname` and `mobile`. Every other field keeps its
   value.

Everything is pure functions over immutable values.

- A field value is a `Value`: `Undefined`, `Null`, a string, a number, a
  boolean, or `Inherited`. `Inherited` stands for what a plain object inherits
  from `Object.prototype`.
- `Get` reads an own field: a key the record does not hold gives `Undefined`.
  `Read` is the JavaScript property read `record[key]`: for a key the record
  does not hold it gives `Inherited` when the name is one `Object.prototype`
  carries (`valueOf`, `toString`, `constructor`, ...), and `Undefined`
  otherwise. Only the emptiness test at seedAdmin.js:60 can reach an absent
  inherited name, so only that test uses `Read`.
- A record is a `map<string, Value>`.
- A schema is a sequence of `FieldDescriptor(name, optRequired, validatorTypes)`.
- The store is a sequence of records in store order. `findOne` returns the
  first record whose `email` field matches. A sequence is used instead of a
  map keyed by e-mail, so "at most one admin record" is a property to prove,
  not a fact the type gives for free.

Files, one module each:

| file | module | what it holds |
|---|---|---|
| `wrappers.dfy` | `Wrappers` | `Option` |
| `values.dfy` | `Values` | values, records, the own-field read `Get`, the property read `Read`, the emptiness tests |
| `text.dfy` | `Text` | ASCII `ToLower` and `Contains` (`includes`) |
| `schema.dfy` | `Schema` | path descriptors, `SkipPaths`, `IsRequired` |
| `defaults.dfy` | `Defaults` | `DefaultFor` and the same heuristic as an ordered rule list |
| `synthesis.dfy` | `Synthesis` | the synthesis loop and its guarantees |
| `reconciler.dfy` | `Reconciler` | `FindOne`, `UpdateExisting`, `Reconcile` and their guarantees |
| `seed_admin.dfy` | `SeedAdmin` | the fixed base record, one whole run (`Seed`), end-to-end guarantees |
| `scenarios.dfy` | `Scenarios` | scenarios of one seeding run, stated for all matching schemas |

Two things the script's own wording suggests that its code does not do:

- The comment at seedAdmin.js:93 says the update copies the identity fields
  "if present". Lines 94-96 copy `firstname`, `lastname` and `mobile` without
  checking. `UpdateExisting` does the same and copies
  `Get(data, k)`, which can be `Undefined`. With the script's own base record
  all three are always present.
- The fill test at seedAdmin.js:58-61 never replaces a value the base record
  gives. That protection covers only the base record. On the update branch,
  line 92 writes every auto-filled placeholder over the stored record, even
  where the stored value of that field is non-empty. `UpdateExisting` models that overwrite.
  `ResetExistingUser` keeps `notes` only because the schema does not require
  it.

## Model

| member | source | states |
|---|---|---|
| `Text.ToLower` | seedAdmin.js:64-68 | lower-casing keeps the length and maps each character on its own, `A`-`Z` to `a`-`z`; ASCII only, see "Left out" |
| `Text.Contains` | seedAdmin.js:64-68 | `includes` holds exactly when some position of the string starts an occurrence of the keyword |
| `Text.NotContainsMissingChar` | seedAdmin.js:64-68 | a keyword with a character absent from the name is not included in it |
| `Values.ScriptMissing` | seedAdmin.js:60 | the script's emptiness test on `adminData[pathName]` (`Read`, through `Object.prototype`): it holds exactly when the own value is missing and the name is not an inherited one the record lacks |
| `Values.PresentValues` | seedAdmin.js:60 | with strict `===`, only `undefined` and `""` count as missing; `null`, `0` and `false` are present; an absent own key is missing |
| `Schema.HasRequiredValidator` | seedAdmin.js:55-56 | `validators.some(v => v.type === "required")` holds exactly when some entry has type `required` |
| `Schema.IsRequired` | seedAdmin.js:52-56 | a path is required iff its static flag is set or some validator is a `required` validator; with neither, it is optional |
| `Defaults.DefaultFor` | seedAdmin.js:62-72 | the placeholder is always a string, one of the admin e-mail, `Admin`, ten zeros, the hash or `auto_` + name; it is never `undefined` or `""` when the e-mail and hash are non-empty |
| `Defaults.Rules` | seedAdmin.js:63-72 | the heuristic as five ordered rules; every rule before the last yields one of the four fixed placeholders, and the last always matches and yields `auto_` + name |
| `Defaults.FirstMatch` | seedAdmin.js:63-72 | evaluating an ordered rule list yields a value iff some rule matches, and then it is the value of the first matching rule |
| `Defaults.DefaultForIsFirstMatch` | seedAdmin.js:63-72 | the heuristic equals first-match evaluation of the rules e-mail, name, mobile/phone, exact `password`, fallback, in that order |
| `Defaults.DefaultForFallback` | seedAdmin.js:72 | a name with no keyword that is not exactly `password` gets `auto_` + name |
| `Defaults.DefaultForCompanyEmail` | seedAdmin.js:64 | `companyEmail` gets the admin e-mail, because the test is on the lower-cased name |
| `Defaults.DefaultForPhoneSecondary` | seedAdmin.js:66-70 | `phoneSecondary` gets `0000000000` |
| `Defaults.DefaultForDepartment` | seedAdmin.js:72 | `department` gets `auto_department` |
| `Defaults.DefaultForPassword` | seedAdmin.js:71 | the path `password` gets the hash |
| `Defaults.DefaultForCapitalPassword` | seedAdmin.js:71-72 | the `password` test is case-sensitive: `Password` gets `auto_Password` |
| `Defaults.DefaultForEmailBeforeName` | seedAdmin.js:64-65 | rule order decides: `emailName` contains `name` yet gets the e-mail |
| `Synthesis.Visit` | seedAdmin.js:48-76 | one iteration: a system path changes nothing; otherwise the path is added to the report exactly when it is required and the record does not hold a non-empty value; only that key changes, in both record and report, to its heuristic default |
| `Synthesis.ScriptFills` | seedAdmin.js:48-61 | the fill decision as written agrees with `Visit`'s except for an absent path with an inherited name, which the script does not fill |
| `Synthesis.Synthesize` | seedAdmin.js:37-77 | a path is auto-filled exactly when some non-system schema path of that name is required and the base value is `undefined` or `""`; it holds its heuristic default; the completed record is the base overridden by the auto-filled fields alone |
| `Synthesis.OverrideUpdate` | seedAdmin.js:74-75 | writing one key into both the record and the report keeps "record = base overridden by report" |
| `Synthesis.SkippedPathsUntouched` | seedAdmin.js:38-48 | a system path is never auto-filled and keeps its base value |
| `Synthesis.ExplicitValueKept` | seedAdmin.js:58-61 | a base value other than `undefined` and `""` (including `null`) is never replaced nor reported |
| `Synthesis.AutoFilledAgreesWithData` | seedAdmin.js:74-75 | every reported key is a required non-system schema path, and its value in the record equals the reported one |
| `Synthesis.RequiredPathsFilled` | seedAdmin.js:47-77 | with a non-empty e-mail and hash, every required non-system path ends as a key the record holds, with a defined, non-empty value |
| `Synthesis.NothingToFill` | seedAdmin.js:37-61 | when the base already supplies every required path, nothing is reported and the record is unchanged |
| `Synthesis.SynthesizeIdempotent` | seedAdmin.js:47-77 | running the loop on its own output fills nothing more |
| `Synthesis.SameReport` | seedAdmin.js:58-75 | two runs whose base records miss the same keys, with placeholders that agree on them, report the same auto-filled fields |
| `Reconciler.FindOne` | seedAdmin.js:80 | the lookup finds nothing iff no record has the e-mail, and otherwise the first record that has it |
| `Reconciler.UpdateExisting` | seedAdmin.js:89-96 | the update adds only managed keys, keeps every unmanaged field, writes the names and mobile from the candidate and the auto-filled fields; it writes the hash and the admin role unless those were auto-filled |
| `Reconciler.Reconcile` | seedAdmin.js:80-97 | it creates iff no record has the e-mail; creating appends the candidate whole; updating rewrites the first matching record (no earlier record has the e-mail) with the update, and leaves every other record alone |
| `Reconciler.UpdateExistingIdempotent` | seedAdmin.js:89-97 | applying the update twice equals applying it once |
| `Reconciler.UpdateSettledUnchanged` | seedAdmin.js:83-96 | updating a settled candidate with itself changes nothing |
| `Reconciler.UpdateKeepsEmail` | seedAdmin.js:80-92 | the update keeps the e-mail the record was found by |
| `Reconciler.UpdateWritesCandidate` | seedAdmin.js:90-96 | for a settled candidate the updated record carries its password, the admin role and its identity fields |
| `Reconciler.ReconcileThenFind` | seedAdmin.js:80-97 | a lookup after reconciling finds the record just written, at the same position when it was an update |
| `Reconciler.FindAfterReplace` | seedAdmin.js:80-97 | replacing the first record with the e-mail by another record with that e-mail keeps it the first |
| `Reconciler.CountZero` | seedAdmin.js:80-82 | the number of records with the e-mail is zero iff none has it |
| `Reconciler.CountReplace` | seedAdmin.js:88-97 | replacing a record by one that matches the e-mail exactly when it did keeps the count |
| `Reconciler.ReconcileKeepsEmailUnique` | seedAdmin.js:80-97 | reconciling never adds a second record for the e-mail; a store with at most one such record ends with exactly one |
| `Reconciler.ReconcileIdempotent` | seedAdmin.js:80-97 | a second reconcile with the same inputs takes the update branch and leaves the store unchanged |
| `Reconciler.RepeatAfterCreate` | seedAdmin.js:80-83 | after the create branch, a second reconcile updates the appended record and changes nothing |
| `Reconciler.RepeatAfterUpdate` | seedAdmin.js:80-97 | after the update branch, a second reconcile updates the same record and changes nothing |
| `Reconciler.UpdateWithNewHash` | seedAdmin.js:89-96 | updating with another hash, and identity fields that agree, gives the same record except for `password`, which holds the new hash |
| `SeedAdmin.Seed` | seedAdmin.js:21-97 | a run creates iff no record has the admin e-mail, and reports only required non-system schema paths |
| `SeedAdmin.MissingBaseField` | seedAdmin.js:27-34 | the only base field that can be `""` is the password, and only when the hash is empty |
| `SeedAdmin.BaseFieldsKept` | seedAdmin.js:27-34 | `firstname`, `lastname`, `email`, `mobile`, `password`, `role` keep their base values through synthesis; with a non-empty hash none of them is auto-filled |
| `SeedAdmin.CandidateSettled` | seedAdmin.js:27-34 | the completed record has the admin e-mail and already holds everything the update would write |
| `SeedAdmin.CreatedRecordIsAdmin` | seedAdmin.js:82-83 | the inserted record has the hash, role `admin`, the base names, mobile and e-mail |
| `SeedAdmin.CreatedRecordSatisfiesSchema` | seedAdmin.js:82-83 | with a non-empty hash the inserted record has a non-empty value for every required non-system path |
| `SeedAdmin.UpdatedRecordIsAdmin` | seedAdmin.js:88-96 | the updated record has the hash, role `admin`, the base names, mobile and e-mail, whatever it held before |
| `SeedAdmin.UpdatedAutoFilledPath` | seedAdmin.js:88-96 | a required path the base record lacks (so an auto-filled one) is non-empty in the updated record: the placeholder, or the base value for an identity field |
| `SeedAdmin.UpdatedSuppliedPath` | seedAdmin.js:88-96 | a required path the base record supplied is non-empty in the updated record: it is managed, or it is the e-mail the record was found by |
| `SeedAdmin.UpdatedRecordSatisfiesSchema` | seedAdmin.js:88-96 | with a non-empty hash the updated record has a non-empty value for every required non-system path |
| `SeedAdmin.SeedAdminRecord` | seedAdmin.js:80-97 | after a run the lookup finds an admin record with its privileged fields set and, with a non-empty hash, every required path filled |
| `SeedAdmin.SeedUpdateIsNonDestructive` | seedAdmin.js:88-97 | on the update branch every other record and every unmanaged field of the admin record keep their values |
| `SeedAdmin.SeedCreateAppends` | seedAdmin.js:82-83 | on the create branch the completed record is appended and nothing else changes |
| `SeedAdmin.SeedIdempotent` | seedAdmin.js:21-97 | a second run with the same hash takes the update branch and leaves the store as the first run left it |
| `SeedAdmin.AutoFilledIgnoresHash` | seedAdmin.js:22-75 | with any two non-empty hashes, synthesis reports the same auto-filled fields |
| `SeedAdmin.SeedRerunNewHash` | seedAdmin.js:21-97 | a rerun with a different (freshly salted) non-empty hash takes the update branch and changes exactly the admin record's `password`, to the new hash |
| `SeedAdmin.SeedKeepsAdminUnique` | seedAdmin.js:80-97 | from a store with at most one admin record, a run leaves exactly one |
| `SeedAdmin.InheritedPathLeftUnfilled` | seedAdmin.js:58-75 | for a required path `valueOf`, absent from the base record, the script's test declines to fill it while the corrected loop auto-fills it |
| `Scenarios.CreateWithNothingToFill` | seedAdmin.js:47-84 | with an empty store and only base fields required, the run creates and auto-fills nothing |
| `Scenarios.DepartmentAutoFilled` | seedAdmin.js:47-77 | with `department` the only required path outside the base record, synthesis reports exactly `department: "auto_department"` |
| `Scenarios.CreateFillsDepartment` | seedAdmin.js:47-84 | adding a required `department` makes the run create and auto-fill exactly `department: "auto_department"` |
| `Scenarios.ResetExistingUser` | seedAdmin.js:88-97 | an existing user with role `user` becomes the admin with the hash as password and keeps an unrequired `notes` field |

## Left out

- The database connection, the environment variables and `dotenv` loading (seedAdmin.js:2-19, 109). They are I/O and configuration.
- bcrypt hashing (seedAdmin.js:22-24). It is a foreign call. Its result is the `hash` parameter, an arbitrary string; properties that need it non-empty say so. bcrypt draws a fresh salt on every call, so a real rerun gets a different hash and rewrites `password`: `SeedIdempotent` is stated for equal hashes, and `SeedRerunNewHash` states what a rerun with another hash does.
- The admin e-mail is the script's constant `admin@example.com` in `SeedAdmin`. The heuristic, the synthesis loop and the reconciler take it as a parameter.
- Mongoose internals. The model keeps only the path name, the truthiness of `options.required` (or `false` when `options` is absent) and the `type` of each validator. A `validators` value that is not an array reads as an empty list. Schema-level validation and casting in `create`/`save` are not modelled.
- Persistence failures and atomicity of `save` (seedAdmin.js:97, 106-107). A store error is not modelled, so the caught error that still exits with status 0 (seedAdmin.js:106-111) has no counterpart.
- Console output and process exit codes (seedAdmin.js:11-12, 84-87, 98-104, 110-119). The `autoFilled` report is returned by `Seed` instead of being printed.
- Races between concurrent runs and any store-side uniqueness index. They are concurrency outside the script.
- Whether `"auto_" + name` is a valid value for a non-string required path. The script does not address it, and the model does not invent a policy.
- Values.Get: reads own fields only, so it never yields an inherited member. The model uses it for the stored document's `email` (the `findOne` filter) and for `adminData.firstname`, `lastname` and `mobile` (seedAdmin.js:94-96), which are own fields. The read that can reach `Object.prototype` is the one at seedAdmin.js:60. It is `Values.Read`, which yields `Inherited` for `constructor`, `hasOwnProperty`, `isPrototypeOf`, `propertyIsEnumerable`, `toLocaleString`, `toString`, `valueOf`, `__proto__` and the four legacy accessor helpers. The synthesis loop uses the own-property test `Missing`; the difference is the finding below.
- Text.ToLower: lower-cases only ASCII `A`-`Z`, while `toLowerCase` follows full Unicode case mapping. A name whose non-ASCII characters lower-case into `email`, `name`, `mobile` or `phone` is not modelled.
- Heuristic determinism and "same inputs, same outputs" need no lemma: every member is a function of its arguments.

## Findings

| source | as written | input that shows it | evidently intended | confidence | as-written member | corrected member |
|---|---|---|---|---|---|---|
| seedAdmin.js:60 | the emptiness test reads `adminData[pathName]`, which for a name the object does not hold falls through to `Object.prototype` | a required schema path named `valueOf` (or `toString`, `constructor`, ...): the read yields the inherited function, so the path is taken as provided and left unfilled, and `create` fails validation | fill every required path the base record does not itself provide, as the comment at line 51 says | low; not executed; such path names are unusual in a Mongoose schema | `Values.ScriptMissing`, `Synthesis.ScriptFills`, `SeedAdmin.InheritedPathLeftUnfilled` | `Values.Missing`, used by `Synthesis.Visit` and proved in `Synthesis.Synthesize` and `Synthesis.RequiredPathsFilled` |
