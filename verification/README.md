# Raycast extension cores, modelled in Dafny

This project models the decision logic of seven pieces of a collection of
Raycast extensions, written in TypeScript, and proves properties of them:

- **Storage migrations** (agent-client-protocol). The runner reads the stored
  schema version, where an absent version counts as `0.0.0`. It picks the
  pending steps of an ascending registry and snapshots the store under a
  `backup_<from>_<stamp>` key. It then applies the steps in order and records
  the target version. It runs against a key-value store, and host failures
  are passed in as data (`migrations.dfy`).
- **Reverse shell generator**, covering:
  - `{IP}`/`{PORT}` substitution over the command table
  - the IP and port validators
  - the submit handler
  - the port increment action
  - the OS filter and the OS tag colours
  - grouping by subcategory

  (`reverse_shell.dfy`)
- **Gradient presets**: the fifteen built-in presets and the list
  `usePresets` builds, where each saved gradient gets a name nobody before it
  uses (`presets.dfy`, with the collision search in `fresh.dfy`).
- **Tower bookmark import**: `extractBookmarksFixed`, which flattens the
  imported bookmark tree into records named by their folder path
  (`bookmarks.dfy`).
- **Password generator translations**: the English and Chinese tables, the
  fallback lookup `t`, its `{name}` substitution, and `getLanguage`
  (`translations.dfy`).
- **Password generator view**: reading numeric arguments (`parseNumber`),
  plus the strength colour, label and check icon (`strength.dfy`).
- **Anytype create-object data**:
  - for each of the four selections, the load-once / write-through machine
    that links a selection to its local-storage value
  - the restricted `types` filter
  - the combined object list
  - the overall loading flag

  (`create_object.dfy`)

These helpers are shared:

- `base.dfy`: the option type.
- `strings.dfy`:
  - decimal printing
  - JavaScript `String.prototype.replace` with a string pattern (first
    occurrence only) and its `/g` form
  - `split`/`join`
- `jsparse.dfy`: JavaScript `parseInt`. It trims leading white space, reads
  a sign and an optional `0x` prefix, then the longest digit prefix. `None`
  plays the role of `NaN`.
- `seqs.dfy`: order-keeping filtering.
- `semver.dfy`: `major.minor.patch` versions, their order and their text
  form.

JavaScript numbers appear as mathematical integers, or as reals for the
strength and entropy scores. Text is a sequence of characters. React state
and effects are modelled as explicit transitions.

## Model

| member | source | states |
|---|---|---|
| Migrations.CurrentVersion | extensions/agent-client-protocol/tests/unit/utils/migrations.test.ts:24-43 | the stored version is the parsed version record; a missing or non-text record reads as 0.0.0 |
| Migrations.CurrentVersionAfterWrite | extensions/agent-client-protocol/tests/unit/utils/migrations.test.ts:48-49 | after the version's text form is written, the store reads back as exactly that version |
| Migrations.Pending | extensions/agent-client-protocol/tests/unit/utils/migrations.test.ts:44-46 | a registry step is pending exactly when its version is above the current version and at most the target |
| Migrations.PendingAscending | extensions/agent-client-protocol/tests/unit/utils/migrations.test.ts:79 | the pending steps stay in ascending version order, so they run oldest first |
| Migrations.NothingPendingDownward | extensions/agent-client-protocol/tests/unit/utils/migrations.test.ts:97-106 | no step is pending unless the target is strictly above the current version |
| Migrations.AddSequenceNumbers | extensions/agent-client-protocol/tests/unit/utils/migrations.test.ts:89-90 | step 1.1.0 gives message i the sequence number i, and nothing else about the conversation changes |
| Migrations.RenameMovesValue | extensions/agent-client-protocol/tests/unit/utils/migrations.test.ts:92-94 | step 1.2.0 removes `agentConnectionId` and carries its value to `agentConfigId`; messages and session id are kept |
| Migrations.ApplyStep | extensions/agent-client-protocol/tests/unit/utils/migrations.test.ts:85-94 | a data step fails exactly when the conversation record cannot be read; only the conversation record is ever rewritten |
| Migrations.ApplyAll | extensions/agent-client-protocol/tests/unit/utils/migrations.test.ts:75-94 | the applied versions are a prefix of the pending ones, in order; an error happens exactly when the batch stopped early; no key other than the conversations is touched |
| Migrations.WithoutBackups | extensions/agent-client-protocol/tests/unit/utils/migrations.test.ts:81-83 | the snapshot holds every non-backup entry of the store unchanged, and nothing else |
| Migrations.BackupKey | extensions/agent-client-protocol/tests/unit/utils/migrations.test.ts:81-83 | the backup key starts `backup_<from>_<stamp>` and is not yet in the store |
| Migrations.BackupKeyReserved | extensions/agent-client-protocol/tests/unit/utils/migrations.test.ts:81-94 | the backup key is never the version or conversation key, so later writes cannot overwrite it |
| Migrations.Execute | extensions/agent-client-protocol/tests/unit/utils/migrations.test.ts:75-94 | success iff no error; on success every pending version is applied and the target is recorded; a failed backup write changes nothing; earlier backups are kept; no key other than the version record, the conversations record and the new backup changes |
| Migrations.RunMigrations | extensions/agent-client-protocol/tests/unit/utils/migrations.test.ts:39-107 | reports the versions it came from and went to; it is a no-op when nothing is pending; applied versions are a prefix of the pending ones; success with steps records the target; old backups are kept, and no key other than the version record, the conversations record and the backup key changes |
| Migrations.ApplyAllReadable | extensions/agent-client-protocol/tests/unit/utils/migrations.test.ts:85-94 | on a readable store every step succeeds, and the conversations go through each step in turn |
| Migrations.FirstRunFromZero | extensions/agent-client-protocol/tests/unit/utils/migrations.test.ts:39-43 | a store without a version record reports "0.0.0" as its starting point and the target as its end |
| Migrations.FirstRunAppliesSteps | extensions/agent-client-protocol/tests/unit/utils/migrations.test.ts:39-49 | the first run against 1.2.0 succeeds, applies both 1.1.0 and 1.2.0, and leaves "1.2.0" in the version record |
| Migrations.ReadsOneZero | extensions/agent-client-protocol/tests/unit/utils/migrations.test.ts:55 | a version record holding "1.0.0" reads as version 1.0.0 |
| Migrations.UpgradePath | extensions/agent-client-protocol/tests/unit/utils/migrations.test.ts:75-83 | from 1.0.0 the run is the migrating path over the steps 1.1.0 and 1.2.0, with a backup key that is new and in the backup namespace |
| Migrations.BackupKeyNamesVersion | extensions/agent-client-protocol/tests/unit/utils/migrations.test.ts:81-83 | the backup key of a 1.0.0 store contains "backup_1.0.0_" |
| Migrations.UpgradeAppliesPending | extensions/agent-client-protocol/tests/unit/utils/migrations.test.ts:75-79 | upgrading from 1.0.0 succeeds, reports "1.0.0", and applies exactly ["1.1.0", "1.2.0"] |
| Migrations.UpgradeLeavesBackup | extensions/agent-client-protocol/tests/unit/utils/migrations.test.ts:81-83 | after that upgrade some key containing "backup_1.0.0_" is in the store |
| Migrations.UpgradeMigratesConversations | extensions/agent-client-protocol/tests/unit/utils/migrations.test.ts:85-94 | after that upgrade the stored conversations are the old ones numbered and then renamed |
| Migrations.SuiteConversationMigrated | extensions/agent-client-protocol/tests/unit/utils/migrations.test.ts:56-62 | the suite's record comes out with the first message numbered 0 and the agent id under `agentConfigId` only |
| Migrations.MatchingVersionIsNoOp | extensions/agent-client-protocol/tests/unit/utils/migrations.test.ts:97-107 | when the stored version is the target, the run succeeds with no step applied and no write at all |
| Migrations.Idempotent | extensions/agent-client-protocol/tests/unit/utils/migrations.test.ts:97-107 | immediately after a successful run, a second run is a no-op |
| ReverseShell.Instantiate | extensions/reverse-shell-generator/src/generate-reverse-shell.tsx:479-485 | filling a template changes only its command and listener, and a listener exists afterwards iff it existed before |
| ReverseShell.GenerateAllCommands | extensions/reverse-shell-generator/src/generate-reverse-shell.tsx:479-485 | one filled template per table entry, in table order, with every other field kept |
| ReverseShell.GenerateWithTokensIsIdentity | extensions/reverse-shell-generator/src/generate-reverse-shell.tsx:479-485 | filling with the placeholders themselves gives the table back unchanged |
| ReverseShell.FillWithoutTokens | extensions/reverse-shell-generator/src/generate-reverse-shell.tsx:481-483 | a text containing neither placeholder is left unchanged |
| ReverseShell.FillLeavesNoToken | extensions/reverse-shell-generator/src/generate-reverse-shell.tsx:481-483 | with brace-free values that are not pieces of the placeholder words, no `{IP}` or `{PORT}` survives the substitution |
| ReverseShell.GenerateLeavesNoToken | extensions/reverse-shell-generator/src/generate-reverse-shell.tsx:479-485 | the same holds for every command and listener of the generated list |
| ReverseShell.BraceFreeIsNotEnough | extensions/reverse-shell-generator/src/generate-reverse-shell.tsx:481-483 | brace-freedom alone does not suffice: ip "I" turns "{{IP}P}" into a text that still holds `{IP}` |
| ReverseShell.IsValidIPIff | extensions/reverse-shell-generator/src/generate-reverse-shell.tsx:488-493 | the validator accepts exactly four dot-separated groups of 1-3 digits, each worth at most 255, with leading zeros allowed |
| ReverseShell.PatternIsSplit | extensions/reverse-shell-generator/src/generate-reverse-shell.tsx:489-490 | the address pattern holds exactly when the text splits at dots into digit groups of the right number |
| ReverseShell.PatternChars | extensions/reverse-shell-generator/src/generate-reverse-shell.tsx:489-490 | text matching the pattern is non-empty and made of digits and dots only |
| ReverseShell.ValidPortOfNumber | extensions/reverse-shell-generator/src/generate-reverse-shell.tsx:496-499 | a printed integer is a valid port exactly when it lies in 1..65535 |
| ReverseShell.PortIgnoresTrailingText | extensions/reverse-shell-generator/src/generate-reverse-shell.tsx:496-499 | the port check reads only the leading digits, so text after them does not affect the verdict |
| ReverseShell.TrailingTextExample | extensions/reverse-shell-generator/src/generate-reverse-shell.tsx:496-499 | "80abc" is accepted as a port |
| ReverseShell.IncrementPort | extensions/reverse-shell-generator/src/generate-reverse-shell.tsx:816-821 | a readable port below 65535 becomes its successor; an unreadable port or one at or above 65535 is kept |
| ReverseShell.IncrementNeverExceedsMax | extensions/reverse-shell-generator/src/generate-reverse-shell.tsx:816-821 | the action never produces a port above 65535 that was not there already |
| ReverseShell.IncrementKeepsValid | extensions/reverse-shell-generator/src/generate-reverse-shell.tsx:816-821 | a valid port below the maximum is still valid after the increment |
| ReverseShell.HandleSubmit | extensions/reverse-shell-generator/src/generate-reverse-shell.tsx:792-814 | the form is saved and shown iff both fields are valid, and then both errors are cleared; a bad IP sets only the IP error; a good IP with a bad port sets only the port error, leaving the IP error as it was |
| ReverseShell.IpCheckedFirst | extensions/reverse-shell-generator/src/generate-reverse-shell.tsx:794-798 | with both fields invalid, only the IP error is raised and the port error is left as it was |
| ReverseShell.SubmittedValuesFillEverything | extensions/reverse-shell-generator/src/generate-reverse-shell.tsx:792-814 | values that pass the submit check, with a port of plain digits, leave no placeholder in any generated command |
| ReverseShell.DollarPortPasses | extensions/reverse-shell-generator/src/generate-reverse-shell.tsx:496-499 | a port of in-range digits followed by `$` passes the port check, so the check does not keep `$` out of the port |
| ReverseShell.DollarPortExample | extensions/reverse-shell-generator/src/generate-reverse-shell.tsx:496-499 | "80$&" is accepted as a port although it holds a `$` |
| ReverseShell.PatternFillsEverything | extensions/reverse-shell-generator/src/generate-reverse-shell.tsx:479-493 | an address matching the pattern and an all-digit port contain no `$` and leave no placeholder in any generated command |
| ReverseShell.FilterByOs | extensions/reverse-shell-generator/src/generate-reverse-shell.tsx:577-582 | "all" keeps the list; any other choice keeps exactly the commands listing that OS |
| ReverseShell.FilterByOsCount | extensions/reverse-shell-generator/src/generate-reverse-shell.tsx:577-582 | each command is kept as often as it occurs when it runs on the chosen OS, and never otherwise |
| ReverseShell.FilterByOsConcat | extensions/reverse-shell-generator/src/generate-reverse-shell.tsx:577-582 | filtering a concatenation filters each part, so the input order is kept |
| ReverseShell.OsTagColor | extensions/reverse-shell-generator/src/generate-reverse-shell.tsx:526-537 | only linux, windows and mac get a colour other than the default |
| ReverseShell.OsTagColorsDistinct | extensions/reverse-shell-generator/src/generate-reverse-shell.tsx:526-537 | the three known systems get three different colours |
| ReverseShell.AddToGroup | extensions/reverse-shell-generator/src/generate-reverse-shell.tsx:517-520 | one step appends the command to its group, or opens the group at the end when it is new |
| ReverseShell.AddToGroupKeys | extensions/reverse-shell-generator/src/generate-reverse-shell.tsx:517-520 | the step keeps the group keys distinct and adds the command's subcategory to them |
| ReverseShell.GroupBySubcategory | extensions/reverse-shell-generator/src/generate-reverse-shell.tsx:512-523 | keys are distinct and are exactly the subcategories present; the groups hold all the commands between them |
| ReverseShell.GroupsAreFilters | extensions/reverse-shell-generator/src/generate-reverse-shell.tsx:512-523 | each group is exactly the commands of its subcategory, in input order |
| Presets.DefaultNamesDistinct | extensions/gradient-generator/src/lib/presets.ts:10-86 | the fifteen built-in preset names are pairwise different |
| Presets.DerivedNameCases | extensions/gradient-generator/src/lib/presets.ts:94 | for every saved gradient: a non-empty label is the name; otherwise a linear gradient is "linear (A°)" with A reading back as its angle, 90 when absent, and any other gradient is named by its bare type |
| Presets.DerivedLinearNames | extensions/gradient-generator/src/lib/presets.ts:94 | an unlabelled linear gradient without an angle is named "linear (90°)"; an explicit angle 0 is kept (`??`, not `\|\|`) |
| Presets.ChooseName | extensions/gradient-generator/src/lib/presets.ts:96-130 | the chosen name is not among the names already listed |
| Presets.FreeName | extensions/gradient-generator/src/lib/presets.ts:97-103 | the loop ends with the wanted name if free, else with the candidate whose counter is the smallest free one |
| Presets.UniqueName | extensions/gradient-generator/src/lib/presets.ts:96-130 | the three loops together choose the reference name: a built-in name gets "(User)" then " k", any other name " (k)" |
| Presets.PushSaved | extensions/gradient-generator/src/lib/presets.ts:132-136 | pushing the next saved gradient keeps the earlier entries and the pairwise distinct names |
| Presets.MergePresets | extensions/gradient-generator/src/lib/presets.ts:88-140 | the built-ins come first, then one entry per saved gradient in order with its stops and the user description, named against every entry before it; all names are distinct |
| Presets.SunsetBecomesUserCopy | extensions/gradient-generator/src/lib/presets.ts:114-122 | a saved "Sunset" next to the built-in one is listed as "Sunset (User)" |
| Fresh.FirstFree | extensions/gradient-generator/src/lib/presets.ts:97-103 | the search returns a free name, namely the first free one among the start and its numbered candidates |
| Fresh.Pigeonhole | extensions/gradient-generator/src/lib/presets.ts:100-103 | if the start and its first m candidates are all taken, more than m names are taken, so the loop ends |
| Fresh.FirstFreeUnique | extensions/gradient-generator/src/lib/presets.ts:97-103 | the first-free rule determines a single name |
| Bookmarks.Construct | extensions/tower/src/repro_standalone.ts:27-50 | every field passed is kept as given; each field left out takes its own default: "" for folder, name and id, 0 for the date, 1 for the type, and no children |
| Bookmarks.ConstructDefaults | extensions/tower/src/repro_standalone.ts:35-42 | with no argument at all every field takes its default: empty texts, date 0, type 1, no children |
| Bookmarks.ConstructRebuilds | extensions/tower/src/repro_standalone.ts:27-50 | passing every field of a bookmark to the constructor rebuilds that bookmark |
| Bookmarks.PathName | extensions/tower/src/repro_standalone.ts:90 | without parents the path name is the bare name; under non-empty parents it is "parents / " followed by the name |
| Bookmarks.ExtractCount | extensions/tower/src/repro_standalone.ts:80-106 | one bookmark per node, folders included, whatever the node's `valid` flag or type |
| Bookmarks.ExtractConcat | extensions/tower/src/repro_standalone.ts:80-106 | siblings are handled in input order: flattening a concatenation concatenates the results |
| Bookmarks.ExtractFlat | extensions/tower/src/repro_standalone.ts:80-106 | every flattened bookmark has no children |
| Bookmarks.ExtractUnderParents | extensions/tower/src/repro_standalone.ts:80-106 | under non-empty parents every produced name starts with "parents / " |
| Bookmarks.NodeEntryLast | extensions/tower/src/repro_standalone.ts:90-100 | a node's own bookmark comes last, immediately after exactly its descendants' bookmarks, and carries its path name, URL, date, id and type |
| Bookmarks.SampleFlattens | extensions/tower/src/repro_standalone.ts:109-195 | the sample tree gives five bookmarks, deepest first within each folder, named by their folder paths |
| Translations.TableOf | extensions/memorable-generate-password/src/translations.ts:118 | only "en" and "zh" have a table |
| Translations.Lookup | extensions/memorable-generate-password/src/translations.ts:118 | the lookup fails exactly for a language without a table; a result other than the key's name is the language's own entry or the English entry |
| Translations.LookupKnownKey | extensions/memorable-generate-password/src/translations.ts:6-118 | in a well-formed catalog a known key reads its own language's non-empty text |
| Translations.LookupUnknownKey | extensions/memorable-generate-password/src/translations.ts:118 | a key that neither table defines comes back as its own property name |
| Translations.LookupOwnText | extensions/memorable-generate-password/src/translations.ts:118 | a non-empty entry in the language's own table is the result |
| Translations.LookupEmptyFallsBack | extensions/memorable-generate-password/src/translations.ts:118 | an empty or missing own entry gives way to a non-empty English text |
| Translations.LookupBothEmpty | extensions/memorable-generate-password/src/translations.ts:118 | when the own and the English entries are both empty or missing, the key's name is the result |
| Translations.LookupFallsBackToEnglish | extensions/memorable-generate-password/src/translations.ts:118 | a key missing from the Chinese table reads the English text |
| Translations.SubstituteOne | extensions/memorable-generate-password/src/translations.ts:119-123 | a variable replaces only the first `{name}`; a text without that placeholder is unchanged |
| Translations.SubstituteAtStart | extensions/memorable-generate-password/src/translations.ts:119-123 | a text starting with the placeholder gets the value in front |
| Translations.T | extensions/memorable-generate-password/src/translations.ts:113-125 | fails exactly for a language without a table; without variables it is the plain lookup |
| Translations.GetLanguage | extensions/memorable-generate-password/src/translations.ts:106-111 | "auto" yields "zh" exactly when the environment is Chinese and "en" otherwise; any other preference is kept |
| Translations.PreferenceHasTable | extensions/memorable-generate-password/src/translations.ts:106-111 | each of "auto", "en" and "zh" selects a language that has a table |
| Translations.MessagesWellFormed | extensions/memorable-generate-password/src/translations.ts:6-103 | both tables define the same keys and no empty text |
| Translations.ItemsCountEnglish | extensions/memorable-generate-password/src/translations.ts:9 | `t("itemsCount", "en", {count: n})` is n printed in decimal followed by " items" |
| Translations.LookupEnglishText | extensions/memorable-generate-password/src/translations.ts:6-54 | in English every key reads its own English text, which is never empty |
| Translations.LookupChineseText | extensions/memorable-generate-password/src/translations.ts:55-103 | in Chinese every key reads its own Chinese text, which is never empty |
| Strength.ParseNumber | extensions/memorable-generate-password/src/index.tsx:42-45 | a readable argument gives its number; an absent or unreadable one falls back to the preference |
| Strength.ArgumentWins | extensions/memorable-generate-password/src/index.tsx:42-45 | a printed integer argument is read back exactly, whatever the preference |
| Strength.PreferenceWhenAbsent | extensions/memorable-generate-password/src/index.tsx:43 | without an argument the printed preference is read back |
| Strength.PreferenceWhenEmpty | extensions/memorable-generate-password/src/index.tsx:43-44 | an empty argument is kept by `??`, is not a number, and so the preference is used |
| Strength.TrailingTextIgnored | extensions/memorable-generate-password/src/index.tsx:43 | a printed number followed by text that does not start with a digit reads as that number ("5 words" reads as 5), whatever the preference |
| Strength.StrengthColor | extensions/memorable-generate-password/src/index.tsx:89-90 | green iff the strength is at least 4, red iff it is below 3 |
| Strength.ColorMonotone | extensions/memorable-generate-password/src/index.tsx:89-90 | a higher strength never gets a worse colour |
| Strength.CheckMarkIffNotRed | extensions/memorable-generate-password/src/index.tsx:157 | the check icon shows exactly when the colour is not red |
| Strength.EntropyBand | extensions/memorable-generate-password/src/index.tsx:92-97 | the band boundaries are 60, 40 and 25 bits |
| Strength.BandMonotone | extensions/memorable-generate-password/src/index.tsx:92-97 | more entropy never gets a weaker band |
| Strength.BandKey | extensions/memorable-generate-password/src/index.tsx:93-96 | every band is labelled by one of the four strength keys |
| Strength.BandNames | extensions/memorable-generate-password/src/translations.ts:33-36 | the English table names the four bands "Very Strong", "Strong", "Moderate" and "Weak", and the Chinese table gives their Chinese names |
| Strength.StrengthLabel | extensions/memorable-generate-password/src/index.tsx:92-97 | a label exists exactly in the two languages with a table |
| Strength.LabelEnglish | extensions/memorable-generate-password/src/index.tsx:92-97 | in English the label is the band's English name |
| Strength.LabelChinese | extensions/memorable-generate-password/src/index.tsx:92-97 | in Chinese the label is the band's Chinese name |
| Strength.LabelsTellBandsApart | extensions/memorable-generate-password/src/index.tsx:92-97 | different bands get different labels in both languages |
| CreateObject.LoadEffect | extensions/anytype/src/hooks/useCreateObjectData.ts:15-22 | the field counts as loaded once storage is ready; the selection changes only to adopt a truthy stored value when there is no initial value and no selection |
| CreateObject.MountInv | extensions/anytype/src/hooks/useCreateObjectData.ts:10-28 | the first render satisfies the field invariant |
| CreateObject.StepInv | extensions/anytype/src/hooks/useCreateObjectData.ts:10-28 | every event keeps the invariant: loaded iff storage is ready, no write before loading, and afterwards storage holds the selection, which was the last value written |
| CreateObject.RunInv | extensions/anytype/src/hooks/useCreateObjectData.ts:10-28 | the invariant holds after any sequence of events |
| CreateObject.LoadedStaysLoaded | extensions/anytype/src/hooks/useCreateObjectData.ts:13-20 | once loaded, a field stays loaded, and earlier writes stay recorded |
| CreateObject.NoWriteWhileLoading | extensions/anytype/src/hooks/useCreateObjectData.ts:24-28 | selecting before storage is ready writes nothing |
| CreateObject.WriteThrough | extensions/anytype/src/hooks/useCreateObjectData.ts:24-28 | after loading, a new selection is written once the effects have run; re-selecting the same value writes nothing |
| CreateObject.AdoptsStoredValue | extensions/anytype/src/hooks/useCreateObjectData.ts:15-22 | with no initial value or selection, a truthy stored value is adopted and written back |
| CreateObject.InitialValueKept | extensions/anytype/src/hooks/useCreateObjectData.ts:17 | a non-empty initial value is never replaced by a stored one |
| CreateObject.StoredTypeAdopted | extensions/anytype/src/hooks/useCreateObjectData.test.tsx:45-60 | a stored "stored-type-id" becomes the selection when no initial value is given |
| CreateObject.InitialTypeWins | extensions/anytype/src/hooks/useCreateObjectData.test.tsx:62-80 | an initial "initial-type-id" survives a stored "stored-type-id" |
| CreateObject.NewTypeWritten | extensions/anytype/src/hooks/useCreateObjectData.test.tsx:82-101 | selecting "new-type-id" over empty storage writes it through |
| CreateObject.StorageKeysDistinct | extensions/anytype/src/hooks/useCreateObjectData.ts:10-98 | the four selections use four different storage keys |
| CreateObject.FormStep | extensions/anytype/src/hooks/useCreateObjectData.ts:10-98 | an event on one selection runs that selection's machine and leaves the other three unchanged |
| CreateObject.FormStepInv | extensions/anytype/src/hooks/useCreateObjectData.ts:10-98 | every selection keeps its invariant after any event on any selection |
| CreateObject.Types | extensions/anytype/src/hooks/useCreateObjectData.ts:110-131 | nothing before the fetch answers; afterwards a type is offered iff it was fetched and is not one of the nine restricted ones |
| CreateObject.TypesOfConcat | extensions/anytype/src/hooks/useCreateObjectData.ts:128-131 | the filter keeps the fetched order |
| CreateObject.TypesKeepAllowed | extensions/anytype/src/hooks/useCreateObjectData.ts:128-131 | a fetch with no restricted type comes through unchanged |
| CreateObject.TypesCount | extensions/anytype/src/hooks/useCreateObjectData.ts:128-131 | a restricted type is dropped with all its copies; any other keeps all of them |
| CreateObject.CombinedObjects | extensions/anytype/src/hooks/useCreateObjectData.ts:145-151 | the search results come first, unchanged, then the matching members in order |
| CreateObject.CombinedContents | extensions/anytype/src/hooks/useCreateObjectData.ts:145-151 | an entry is offered exactly when it is a search result or a matching member |
| CreateObject.IsLoadingData | extensions/anytype/src/hooks/useCreateObjectData.ts:161-171 | the form is idle exactly when none of the six fetches and none of the four storage reads is loading |
| CreateObject.IdleMeansLoaded | extensions/anytype/src/hooks/useCreateObjectData.ts:161-171 | once the effects have run, when nothing is loading every selection has loaded and storage holds it |

## Left out

- The migration runner's own source file is not part of this model, and neither is the storage-keys file. The runner is modelled from its test suite and from the behaviour described for it. The version key and conversation key are stand-in constants; the runner depends only on their being distinct and outside the `backup_` namespace.
- Migrations: JSON encoding, `Date` values and the asynchronous host store. The stored conversations appear in decoded form; a record the steps cannot decode is a `Text` value. Host write failures are passed in as data (`IoFaults`). Rollback from a backup is not modelled.
- Migrations.RunMigrations: recording the target after a successful run is stated only when at least one step ran. When nothing is pending and the stored version is below the target, the run is a no-op and the version record is not rewritten.
- ReverseShell: the template table (over forty shell commands) is a parameter rather than transcribed. `urlEncode` and `base64Encode`, the `loadConfig`/`saveConfig` preference I/O, the sort dropdown (`localeCompare`) and all rendering are left out.
- ReverseShell.Fill: `String.prototype.replace` interprets `$` patterns in the replacement text, and the model requires IP and port texts free of `$`. An address that passes the submit check always is. A port need not be: the check reads only its leading digits, so a valid port followed by `$` (such as "80$&") passes (ReverseShell.DollarPortPasses) and lies outside what `Fill` and `GenerateAllCommands` accept; the source would put the matched placeholder back into the command.
- ReverseShell.GroupBySubcategory: JavaScript lists integer-like object keys before the others. The model uses insertion order for every key.
- Strength: `Math.round` of the entropy, the password generation itself and the word lists are left out. Strength and entropy are reals, so `NaN` is not modelled.
- Strength.ParseNumber and the port checks: JavaScript numbers above 2^53 lose precision, and the model's integers do not.
- Translations.Lookup: a language name that is neither "en", "zh" nor a property every object inherits makes the source throw a `TypeError`; the model returns `None` instead. For inherited names such as "constructor" or "__proto__" the source finds no entry and falls back to the English text; the model returns `None` for these too. Keys are the datatype `Key`, one constructor per property of the English table, as `keyof typeof translations.en` restricts them; the tables are functions from keys to optional texts.
- Translations.Substitute: the variables are a sequence in the object's key order. Values are strings or integers, and, as for the shell templates, they must not contain `$`.
- Bookmarks: the earlier buggy `extractBookmarks`, the git branch reader and the console checks are left out. A node whose `children` is undefined is modelled as having no children.
- Presets.DerivedName: the angle is an integer, so a fractional angle, which the source prints as for example "22.5", is not modelled.
- Presets: the third collision loop (taken when the name is not built-in) always starts from a name the first loop already found free, so it never iterates. The model keeps the first loop's result there. The `isLoading` flag and the local-storage read are left out.
- CreateObject: the remote fetches (spaces, types, templates, lists, search, members) and the failure toast are left out. Their loading flags and results are inputs. The bundled type keys are a parameter, because their values live in a module this model does not include. `memberMatchesSearch` is a parameter too.
- CreateObject: storage is assumed to finish loading at most once, and a later readiness event is ignored. React's bail-out on setting a state to its current value is modelled as "no write when the selection is unchanged"; this also relies on the storage setter keeping its identity between renders, since it is a dependency of the persist effect (useCreateObjectData.ts:24-28).
- CreateObject: one `Step` folds an event's state update and the effects it triggers into a single transition, so the model has no state for the render in between, where `isLoadingData` is already false but `hasLoaded` is not yet set. The lemmas about `Step` describe the state once the effects have run.
