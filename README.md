# Form controllers of the community-group web application, in Dafny

This project models the two form controllers of the application, each as a small state machine over a closed record type.

- **Group creation** (`src/components/GroupModal/AddGroup.tsx`):
  - a nine-field record checked against a fixed schema;
  - field edits that clear their own error;
  - the county selector that follows the chosen state;
  - the banner upload's result handling, photo deletion, and the reset when the modal opens or closes;
  - the submit handler, which either closes the modal or installs one error per failing field;
  - the rule that turns the photo error into display text.
- **Profile editing** (`src/app/profile/components/ProfileForm.tsx`):
  - the profile schema;
  - the default values built from the signed-in user, with interests sorted by name;
  - the `interests` field array: add a slot, remove a slot, pick an interest for a slot;
  - the duplicate-interest remover that runs on submit.

The modules are:
- `Wrappers` (`option.dfy`): `Option`, standing for `null` and `undefined`.
- `GroupSchema` (`group_schema.dfy`): the pure part of the group form.
  - the record `GroupInput`;
  - the schema as `FieldCheck`, `CheckFields` and `Validate`;
  - field updates `Apply`;
  - the error map `ErrorMapOf`, built by the loop `BuildErrorMap`;
  - `PhotoErrorText`, the display rule;
  - `UploadPath`.
- `GroupModal` (`group_modal.dfy`): the class `CreateGroupModal`.
  - Its fields are the component's React state: `input`, `validationErrors`, `loading`, `countyIsDisabled`, `availableCounties`, `isOpen`.
  - Each handler or effect is a method.
- `Sorting` (`sorting.dfy`): an insertion sort by a string key under an abstract collation order.
- `InterestDedup` (`interest_dedup.dfy`):
  - the loop `CollectRepeats`;
  - the field array's removal `Without`;
  - what is left after removal, `Deduplicated`, with its properties.
- `ProfileSchema` (`profile_schema.dfy`): the profile schema, the sorted interest options, and the default values.
- `Profile` (`profile_form.dfy`): the class `ProfileForm`. It holds the form values and the field array, plus the log of payloads sent to the update request.

Collaborators are parameters:
- the county table `getCounties` (a constructor argument);
- the blob-store base URL (a constructor argument);
- the text of `Math.random()` (an argument of `HandleSingleChange`);
- the storage upload's outcome (the event `UploadResolved`);
- the schema library's email check `isEmail`;
- the `localeCompare` order `le`.

Behaviour the code has, which the model keeps:
- **Uploads are not ordered.** Nothing tracks which upload started last, and each result is applied when it arrives.
  - A failure writes only the photo's error and keeps the photo (`UploadResolved`).
  - So the last success to resolve decides the photo, and the last result to resolve decides the photo's error. A success followed by a failure leaves the first upload's URL carrying the "special characters" error.
  - The uploader is hidden while `loading` is set (AddGroup.tsx:333-371). Two uploads can overlap only if the modal is closed and reopened during an upload, because the open/close reset clears `loading`.
- **The deduplicator makes no exception for empty values.**
  - The loop itself treats a second `""` like any other repeat (`LaterEmptySlotIsRemoved`).
  - In the model, the schema rejects every `""` interest before the loop runs, so a submit that reaches the loop holds no empty value.
  - In the program, the loop reads the field array's own copy of the entries (see "## Left out"). A slot that was appended and then picked is still `""` in that copy, so the loop can remove it on submit even though it holds a real interest.
- **The county selector follows only the state's value.** It is enabled for every non-empty state other than `"National"`, even when `getCounties` returns no counties. The county value is always cleared, even if it would still be valid.
- **Deduplication runs after validation.**
  - The schema runs before `onSubmit`, so duplicates are deduplicated only once the values have passed it.
  - The payload sent to the update request is the `data` that was validated. It is not the deduplicated field array.
  - Nothing deduplicates on add or pick.
- **A successful group submit only closes the modal.** The POST request is commented out. Closing runs the open/close reset, which empties the error map.
- **A pending upload does not block submit.** A submit during an upload validates whatever photo value is current.
- **A cleared password blocks submit.** After typing and clearing, the password is `""`, not `undefined`, and the 8-character minimum rejects it (`ClearedPasswordBlocksSubmit`).

## Model

| member | source | states |
|---|---|---|
| GroupSchema.CheckFields | src/components/GroupModal/AddGroup.tsx:58-90 | parsing the keys in order collects, for each key, only the issue the schema's check on that field reports, with that check's message |
| GroupSchema.CheckFieldsComplete | src/components/GroupModal/AddGroup.tsx:58-90 | every parsed key whose check fails has an issue among those collected, so failures on the other fields never hide it |
| GroupSchema.CheckFieldsDistinct | src/components/GroupModal/AddGroup.tsx:58-90 | each field gets at most one issue |
| GroupSchema.ChecksPassIff | src/components/GroupModal/AddGroup.tsx:58-90 | all nine checks pass iff: the photo is a non-empty string; the name has 1..100 characters; description, state and branch are non-empty; there is at least one tag; the password is absent or has at least 8 characters |
| GroupSchema.Validate | src/components/GroupModal/AddGroup.tsx:58-90 | no issues iff the seven conditions hold (both directions); a field has an issue iff its check fails, carrying that check's message; `online` and `county` never fail; paths are distinct |
| GroupSchema.BuildErrorMap | src/components/GroupModal/AddGroup.tsx:305-310 | the `forEach` over the issues builds exactly the fold in which each issue writes its message under its path |
| GroupSchema.ErrorMapOfContents | src/components/GroupModal/AddGroup.tsx:306-309 | the error map's keys are exactly the issues' paths; when the paths are distinct, each key holds its own issue's message |
| GroupSchema.SubmitErrorsMatchSchema | src/components/GroupModal/AddGroup.tsx:285-315 | a failed submit's error map has a key for exactly the fields the schema rejects, each holding that field's message |
| GroupSchema.DefaultChecks | src/components/GroupModal/AddGroup.tsx:172-182 | in `defaultFormValues`, exactly photo, name, description, state, branch and tags fail their checks |
| GroupSchema.DefaultsFail | src/components/GroupModal/AddGroup.tsx:172-182 | submitting the untouched form gives errors on exactly those six fields, with the schema's six messages; there is none on online, county or password |
| GroupSchema.DeletedPhotoShowsRequired | src/components/GroupModal/AddGroup.tsx:373-378 | after the photo is set to null, the schema rejects it with a message containing "null", and the form shows "Display image is required" |
| GroupSchema.ClearedPasswordBlocksSubmit | src/components/GroupModal/AddGroup.tsx:84-89 | a password that is the empty string fails the 8-character minimum and blocks the submit |
| GroupSchema.UploadPath | src/components/GroupModal/AddGroup.tsx:242 | the target path starts with "group-banners/", continues with the random part, and ends with "-" + the file name |
| GroupSchema.UploadPathsDiffer | src/components/GroupModal/AddGroup.tsx:241-242 | two uploads of the same file name whose random parts differ, whatever their lengths, get different target paths |
| GroupSchema.ApplyIsLocal | src/components/GroupModal/AddGroup.tsx:274-277 | an update gives its own field the new value and leaves the other eight fields unchanged |
| GroupModal.CreateGroupModal.constructor | src/components/GroupModal/AddGroup.tsx:199-236 | on mount: the record is `defaultFormValues`, the error map is empty, the modal is closed, nothing is loading, and the county selector is disabled with no options, in agreement with the empty state |
| GroupModal.CreateGroupModal.HandleInputChange | src/components/GroupModal/AddGroup.tsx:273-283 | field f takes value v and f's error becomes null; every other field and every other error is unchanged |
| GroupModal.CreateGroupModal.SyncCounties | src/components/GroupModal/AddGroup.tsx:216-226 | the county becomes "" and its error null; for "" or "National" the selector is disabled with no options, otherwise it is enabled with `getCounties(state)` |
| GroupModal.CreateGroupModal.Edit | src/components/GroupModal/AddGroup.tsx:216-226 | an edit that changes the state's value also clears the county and recomputes the selector; any other edit touches only its field and that field's error; either way the selector stays in agreement with the state (`CountyInSync`), which a raw state write alone would break |
| GroupModal.CreateGroupModal.ResetOnToggle | src/components/GroupModal/AddGroup.tsx:233-236 | the error map becomes empty and loading becomes false |
| GroupModal.CreateGroupModal.SetOpen | src/components/GroupModal/AddGroup.tsx:233-236 | opening or closing the modal empties the error map and stops loading; the record is left as it was |
| GroupModal.CreateGroupModal.HandleSingleChange | src/components/GroupModal/AddGroup.tsx:238-242 | with a file, loading starts and the upload target is `UploadPath(random, file.name)`; without a file nothing changes |
| GroupModal.CreateGroupModal.UploadResolved | src/components/GroupModal/AddGroup.tsx:244-265 | either way loading ends false; on failure the photo is kept and its error is the "special characters" message; on success the photo is `blobUrl + "/" + fullPath` and its error is null |
| GroupModal.CreateGroupModal.HandleSingleDelete | src/components/GroupModal/AddGroup.tsx:268-271 | the photo becomes null, its error is cleared, and the schema will now reject the photo as null |
| GroupModal.CreateGroupModal.HandleSubmit | src/components/GroupModal/AddGroup.tsx:285-315 | a valid record closes the modal (and the close resets errors and loading); an invalid one replaces the error map wholesale with one entry per failing field; the record never changes |
| Sorting.SortBy | src/app/profile/components/ProfileForm.tsx:129 | the sort returns a permutation of its input |
| Sorting.InsertSorted | src/app/profile/components/ProfileForm.tsx:129 | inserting into a key-sorted list keeps it sorted, under any total preorder |
| Sorting.SortBySorted | src/app/profile/components/ProfileForm.tsx:120 | the sort's result is ordered by key under the collation order and is a permutation of its input |
| InterestDedup.CollectRepeats | src/app/profile/components/ProfileForm.tsx:146-158 | the collected indices are strictly increasing, in range and never 0; index i is collected iff some j < i has the same value (an empty value included) |
| InterestDedup.WithoutIsStable | src/app/profile/components/ProfileForm.tsx:159 | removing the collected indices is stable: the k-th survivor is the entry at the k-th position not removed |
| InterestDedup.DeduplicatedIsFirstOccurrences | src/app/profile/components/ProfileForm.tsx:146-160 | after removal the set of values equals the original set, and no two survivors share a value |
| InterestDedup.DeduplicatedKeepsOrder | src/app/profile/components/ProfileForm.tsx:146-160 | the survivors are exactly the entries whose value is new at their position, in their original relative order |
| InterestDedup.DeduplicatedIsIdempotent | src/app/profile/components/ProfileForm.tsx:146-160 | run again on its own output, the loop collects nothing, and removal leaves that output unchanged |
| InterestDedup.LaterEmptySlotIsRemoved | src/app/profile/components/ProfileForm.tsx:152 | of two unfilled slots, the later one is collected |
| InterestDedup.HikingExample | src/app/profile/components/ProfileForm.tsx:146-160 | for Hiking, Hiking, Yoga, only index 1 is collected, leaving Hiking and Yoga in order |
| ProfileSchema.InterestIssues | src/app/profile/components/ProfileForm.tsx:65-78 | each interest issue points at an entry whose value is empty, with "Please select an interest"; every such entry has its issue |
| ProfileSchema.ValidateProfile | src/app/profile/components/ProfileForm.tsx:48-79 | passes iff: the name has 2..40 characters; the email passes the email check; a branch is given; every interest entry, if the list is present, has a non-empty value (both directions) |
| ProfileSchema.AppendedSlotFails | src/app/profile/components/ProfileForm.tsx:71-75 | a freshly added `{id: 0, value: ""}` slot fails with "Please select an interest" at its index |
| ProfileSchema.AvailableInterestsSorted | src/app/profile/components/ProfileForm.tsx:114-120 | the picker's options are the interests as `{id, value: name, label: name}`, each once per occurrence, sorted by label |
| ProfileSchema.DefaultInterestsSorted | src/app/profile/components/ProfileForm.tsx:123-134 | the default interest list is the user's interests sorted by name, each turned into `{id, value: name}`, with nothing lost or added |
| Profile.ProfileForm.constructor | src/app/profile/components/ProfileForm.tsx:135-144 | the form starts from `defaultValues`, and no update has been sent |
| Profile.ProfileForm.EditName | src/app/profile/components/ProfileForm.tsx:177 | the name input sets the name |
| Profile.ProfileForm.EditBranch | src/app/profile/components/ProfileForm.tsx:210 | the branch selector sets the branch |
| Profile.ProfileForm.AddInterest | src/app/profile/components/ProfileForm.tsx:330 | "Add Interest" appends `{id: 0, value: ""}` at the end and changes nothing else (no deduplication) |
| Profile.ProfileForm.RemoveInterest | src/app/profile/components/ProfileForm.tsx:271-273 | removing at `index` deletes only that entry; the others keep their order |
| Profile.ProfileForm.SelectInterest | src/app/profile/components/ProfileForm.tsx:293-301 | selecting an interest for entry `index` sets that entry's value and id and changes nothing else |
| Profile.ProfileForm.RemoveDuplicatedInterests | src/app/profile/components/ProfileForm.tsx:146-160 | the field array becomes its deduplicated form, with exactly the repeats removed |
| Profile.ProfileForm.OnSubmit | src/app/profile/components/ProfileForm.tsx:162-165 | the field array is deduplicated, then the update is triggered with `data` exactly as it was passed |
| Profile.ProfileForm.Submit | src/app/profile/components/ProfileForm.tsx:169 | only values the schema accepts reach `onSubmit`, and the payload is those values before deduplication; rejected values change nothing |

## Left out

- Rendering and styling: all markup and the select style table. The one exception is the photo error's display rule.
- The error texts the markup shows for the other fields are not modelled.
- The `isInvalid` flag keyed on `displayImage`, a key no handler ever writes, is not modelled.
- The storage upload itself: its outcome is the argument of `UploadResolved`.
- Persistence:
  - The group POST is commented out in the source.
  - The profile PUT request is recorded only as the payload appended to `updates`.
  - The PUT's success and error toasts, and the `isMutating` flag, are not modelled.
  - SWR fetching and caching are not modelled.
- The interest list fetched for the group form's tags and its loading flag, which only feed the tag options and disable buttons, are not modelled.
- The schema library's internals:
  - Its email regular expression is the parameter `isEmail`.
  - The record types are closed, so its type errors can arise only where the source can write `null`, the photo.
  - The catch branch for non-schema errors of the group submit cannot be reached and is not modelled.
- The form library's internals:
  - The library's live validation (`mode: "onChange"`) is not modelled.
  - Its error state and generated field keys are not modelled.
  - The field array and the form's values are treated as one list. In the form library, the field array is rebuilt only by its own operations (append, remove), while the picker writes through `setValue`. So in the program the duplicate check may compare the values as they stood at the last append or remove, not the picked ones; the model compares the current values.
  - `remove(indexes)` is taken to be a stable removal of exactly those positions.
- `localeCompare`: an abstract total preorder `le`. The sort is stable, but its stability is not proved.
- The reference-data helpers `getStates`, `getBranchesOfService` and `getInterest` only fill option lists for rendering. `getCounties` is a constructor parameter.
- `Math.random()`: its text is the `random` argument. Its randomness and number formatting are not modelled.
- Debug output (`console.log`, `console.error`) and `URL.revokeObjectURL` are not modelled.
- The `showPassword` toggle is not modelled.
- The state, county and branch selectors are clearable. Clearing one passes `null`, and the handler's `value.value` throws before it calls `handleInputChange`, so a clear changes no state. The model has no event for it, and the crash is not modelled.
- Text lengths count characters, not UTF-16 code units as JavaScript does.
- The composition-only pages are not part of this model: `src/app/sign-up/page.tsx`, `src/app/layout.tsx`, `src/app/page.tsx`, `src/components/Intro/index.tsx` and `src/app/groups/[groupId]/page.tsx`.
- Profile.ProfileForm.RemoveInterest: requires an index of an existing entry, the only kind the form passes. The library's handling of other indices is not modelled.
- Profile.ProfileForm.SelectInterest: requires an index of an existing entry, the only kind the form passes. The library's handling of other indices is not modelled.
