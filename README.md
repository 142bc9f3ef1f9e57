# deputui — a verified model of its upgrade logic and review screens

deputui finds the minor-version upgrades of a pnpm project's npm dependencies and lets the
user review them in a terminal UI. This Dafny project models the parts of it that decide
things:

- **Version policy** (`SemverPolicy`): the strict `major.minor.patch` parser with its fixed
  error order, its display form, the derived order and the two eligibility predicates
  `is_minor_update_of` and `is_at_most`.
- **Release identity** (`ReleaseIdentity`): a release is a package name and a version string.
  Releases order by package name, then by the version *string*. The display form is
  `package@semver`.
- **Candidate filtering** (`NpmRegistry`, `LegacyNpmRegistry`): the version keys of the npm
  registry document, in `BTreeMap` order. The filter keeps the keys that parse, are a minor
  update of the installed version and are at most the latest version.
- **Fan-in and sort** (`ReleaseResolver`, `OutdatList`): one registry lookup per outdated
  package, then `try_join_all`, which fails if any package failed and otherwise flattens the
  lists in package-name order. `OutdatList` then sorts the result in place with an insertion
  sort on an array.
- **Generational task runner** (`AsyncTask`): a class holding a counter and a status. Starting
  an operation hands out a new ticket. A finishing operation writes its result only if its
  ticket is still the current one. The source checks the ticket under the counter's lock and
  writes under the status's lock, so a start can fall between the two. The model therefore has
  two completions. `Complete` checks and writes in one critical section, and there only the
  last-started operation's result can become visible. `SplitStep` checks and writes as two
  steps, as written. A stale result can then become visible, but only if its check passed
  before the later start (see "## Findings").
- **Selection lists and review screens** (`Selection`, `LegacySelection`, `ReviewApp`,
  `LegacyApp`, `CounterApp`): classes whose methods update their fields in place. Each
  `HandleKey` is proved against a pure `Step` function, and the screen's invariants and
  per-key behaviour are proved about `Step`.
- **GitHub lookup** (`GitHub`, `ReleaseNotes`): validating a repository URL, the tag fallback
  `version` then `v` + `version`, the request URL, and the decision chain of
  `fetch_release_notes`.

`Results` and `Strings` hold the shared vocabulary: `Option`, `Result`, and Rust's string
order, `split` and `join`. `Keys` is the part of crossterm's `KeyEvent` the handlers read.

Where the source files disagree with each other, the model follows the code that runs:

- The shown `Release` has no repository URL, but `release_ext.rs` reads one. The model gives
  `Release` a third field, `repositoryUrl`. The fetched package carries it and
  `fetch_releases` copies it. `cmp` ignores it, so `Compare` is `Equal` exactly when package and
  version string agree, which is weaker than `==`.
- `src/npm_registry.rs` uses a `Release` and a `semver` module that are not part of this model.
  The workspace `Release` and `Semver` stand in for them.
- `u32::from_str` accepts a leading `+`, so `"+1.3.0"` parses. Leading zeros parse too.

## Model

| member | source | states |
|---|---|---|
| Results.Option.GetOr | crates/outdatui/src/release_ext.rs:22 | `unwrap_or`: the value when present, the default otherwise |
| Strings.Compare | crates/common/src/release.rs:15-16 | `String::cmp` answers `Equal` exactly when the strings are equal |
| Strings.CompareReverse | crates/common/src/release.rs:13-20 | swapping the arguments reverses the answer |
| Strings.CompareTransitive | crates/common/src/release.rs:13-20 | the string order is transitive, and strict when either step is strict |
| Strings.CompareTotal | crates/common/src/release.rs:13-20 | any two strings are ordered one way or the other |
| Strings.AdjacentAscending | crates/common/src/npm_registry.rs:9 | keys ascending between neighbours are ascending throughout, as `BTreeMap` keys are |
| Strings.Split | crates/common/src/semver.rs:38 | `split` yields at least one part, and no part contains the separator |
| Strings.SplitJoin | crates/common/src/semver.rs:38 | splitting a join of separator-free parts gives the parts back |
| Strings.SplitJoinInverse | crates/common/src/semver.rs:38 | joining the parts of a split gives the string back |
| SemverPolicy.FormatNat | crates/common/src/semver.rs:61-65 | the decimal display of a number denotes it and has no leading zero |
| SemverPolicy.FormatDigitsValue | crates/common/src/semver.rs:61-65 | a canonical digit string is reproduced by displaying its value |
| SemverPolicy.ParseU32 | crates/common/src/semver.rs:43-51 | a component that parses contains neither `-` nor `.` |
| SemverPolicy.Parse | crates/common/src/semver.rs:32-58 | `Prerelease` exactly when the input has a `-`; `InvalidFormat` exactly when it has no `-` and does not split into three parts; `Ok` only for three parts |
| SemverPolicy.FormatIsJoin | crates/common/src/semver.rs:61-65 | the display is the three components joined by `.` |
| SemverPolicy.ParseDotted | crates/common/src/semver.rs:43-57 | three dot-free, dash-free parts are parsed major, then minor, then patch, and the first part that fails names the error |
| SemverPolicy.ParsePart | crates/common/src/semver.rs:43-51 | a displayed part reads back as the number it displays |
| SemverPolicy.ParseFormat | crates/common/src/semver.rs:53-65 | every version parses back from its display |
| SemverPolicy.ParseIsFormatted | crates/common/src/semver.rs:32-65 | re-displaying a parsed version parses to the same result |
| SemverPolicy.FormatIsCanonical | crates/common/src/semver.rs:61-65 | every display has three parts, each canonical decimal digits (no sign, no leading zero) |
| SemverPolicy.FormatParse | crates/common/src/semver.rs:32-65 | a parsed string is reproduced by the display exactly when its components are canonical |
| SemverPolicy.CompareEqual | crates/common/src/semver.rs:3-8 | the derived order answers `Equal` exactly for equal versions |
| SemverPolicy.LessOrEqualTotalOrder | crates/common/src/semver.rs:72-74 | `<=` (and so `is_at_most`) is reflexive, antisymmetric, transitive and total |
| SemverPolicy.MinorUpdateIsNewer | crates/common/src/semver.rs:68-70 | a minor update is strictly newer than the version it updates |
| SemverPolicy.OrderExamples | crates/common/src/semver.rs:111-186 | the order of the source's comparison tests |
| SemverPolicy.MinorUpdateExamples | crates/common/src/semver.rs:68-70 | (1,3,0) updates (1,2,5); (1,2,6), (1,3,1) and (2,0,0) do not |
| SemverPolicy.ParseExamples | crates/common/src/semver.rs:188-247 | the results of the source's parser tests |
| SemverPolicy.ParsesValid | crates/common/src/semver.rs:188-196 | `"1.2.3"` parses to (1,2,3) |
| SemverPolicy.TooFewParts | crates/common/src/semver.rs:205-210 | `"1.2"` is `InvalidFormat` |
| SemverPolicy.TooManyParts | crates/common/src/semver.rs:212-217 | `"1.2.3.4"` is `InvalidFormat` |
| SemverPolicy.BadMajor | crates/common/src/semver.rs:219-227 | `"abc.2.3"` is `InvalidNumber("major")` |
| SemverPolicy.BadMinor | crates/common/src/semver.rs:229-237 | `"1.def.3"` is `InvalidNumber("minor")` |
| SemverPolicy.BadPatch | crates/common/src/semver.rs:239-247 | `"1.2.ghi"` is `InvalidNumber("patch")` |
| SemverPolicy.PrereleaseBeforeFormat | crates/common/src/semver.rs:34-41 | `"1.2-3"` splits into two parts but is `Prerelease`, since the `-` check comes first |
| SemverPolicy.BuildMetadataIsInvalidPatch | crates/common/src/semver.rs:49-51 | `"1.2.3+b"` is `InvalidNumber("patch")` |
| SemverPolicy.LeadingZerosAccepted | crates/common/src/semver.rs:43-65 | `"01.3.0"` parses to (1,3,0), which displays as `"1.3.0"` |
| SemverPolicy.PlusSignAccepted | crates/common/src/semver.rs:43-51 | `"+1.3.0"` parses to (1,3,0) |
| SemverPolicy.U32Limit | crates/common/src/semver.rs:43-45 | a component parses up to 4294967295 and fails at 4294967296 |
| SemverPolicy.MajorOverflow | crates/common/src/semver.rs:43-45 | `"4294967296.0.0"` is `InvalidNumber("major")` |
| SemverPolicy.ParseSingleDigits | crates/common/src/semver.rs:53-65 | single-digit versions display as `a.b.c` and parse back |
| ReleaseIdentity.SplitToString | crates/common/src/release.rs:7-11 | `package@semver` is read back at its last `@` when the version holds no `@` |
| ReleaseIdentity.PartialCompare | crates/common/src/release.rs:22-26 | `partial_cmp` is always defined, and `Equal` exactly for the same package and version string |
| ReleaseIdentity.CompareEqual | crates/common/src/release.rs:13-20 | `cmp` is `Equal` exactly when package and version string are equal |
| ReleaseIdentity.CompareReverse | crates/common/src/release.rs:13-20 | swapping the releases reverses the answer |
| ReleaseIdentity.LessOrEqualTotal | crates/common/src/release.rs:13-20 | the order is total, and antisymmetric on package and version |
| ReleaseIdentity.LessOrEqualTransitive | crates/common/src/release.rs:13-20 | the order is transitive |
| ReleaseIdentity.TextualVersionOrder | crates/common/src/release.rs:16 | versions compare as text: `1.10.0` before `1.9.0` |
| NpmRegistry.Candidates | crates/common/src/npm_registry.rs:31-44 | no more releases than keys |
| NpmRegistry.CandidatesSound | crates/common/src/npm_registry.rs:31-44 | each release has the package's name and URL and a version that parses to an eligible one |
| NpmRegistry.CandidatesAppend | crates/common/src/npm_registry.rs:27-44 | the output follows key order: candidates of a concatenation are concatenated |
| NpmRegistry.CandidatesOfKey | crates/common/src/npm_registry.rs:32-45 | one key yields one release with the re-displayed version if it parses and is eligible, else none |
| NpmRegistry.CandidatesComplete | crates/common/src/npm_registry.rs:36-43 | every key that parses and passes both filters yields its release |
| NpmRegistry.FetchReleases | crates/common/src/npm_registry.rs:31-47 | never fails, and returns the candidates of the package's keys |
| NpmRegistry.ResolverScenario | crates/common/src/npm_registry.rs:31-47 | installed 1.2.0, latest 1.4.0: of keys 1.2.1, 1.3.0, 1.4.0, 1.5.0, 2.0.0 (as displayed) exactly 1.3.0 and 1.4.0 remain, in order |
| NpmRegistry.LeadingZeroKeysCollide | crates/common/src/npm_registry.rs:32-45 | keys `01.3.0` and `1.3.0` both yield release `1.3.0` |
| LegacyNpmRegistry.FetchReleases | src/npm_registry.rs:31-51 | always `Ok`, holding exactly the candidates of the package's keys in key order (the same list as the workspace filter); every release is the package's and eligible; every eligible key's release is present |
| ReleaseResolver.ResolvePackage | crates/pnpm/src/lib.rs:12-18 | one package succeeds exactly when lookup and both version parses succeed; the first failure is reported; success yields the filter's candidates |
| ReleaseResolver.Outcomes | crates/pnpm/src/lib.rs:10-19 | one outcome per report entry, in entry order |
| ReleaseResolver.TryJoinAll | crates/pnpm/src/lib.rs:21-22 | `Ok` exactly when every outcome is `Ok`, with the values in order; otherwise the error of one failing outcome |
| ReleaseResolver.FlattenAppend | crates/pnpm/src/lib.rs:23-25 | flattening keeps the groups in order |
| ReleaseResolver.FlattenLength | crates/pnpm/src/lib.rs:23-25 | the flattened length is the sum of the group lengths |
| ReleaseResolver.FlattenMembership | crates/pnpm/src/lib.rs:23-25 | an item is in the flattened list exactly when it is in some group |
| ReleaseResolver.FetchAllReleases | crates/pnpm/src/lib.rs:9-28 | fails exactly when some package fails, with that package's error; on success it is the flattening of every package's list, in entry order |
| ReleaseResolver.EmptyReport | crates/pnpm/src/lib.rs:9-28 | an empty report gives `Ok` of an empty list |
| ReleaseResolver.BadVersionFailsAll | crates/pnpm/src/lib.rs:14-15 | a bad installed or latest version of any package fails the whole call |
| ReleaseResolver.LookupFailureFailsAll | crates/pnpm/src/lib.rs:13 | a failed registry lookup of any package fails the whole call |
| ReleaseResolver.JoinedMembership | crates/pnpm/src/lib.rs:21-25 | after a successful join, an item is in the flattened values exactly when one of the outcomes holds it |
| ReleaseResolver.FetchAllCount | crates/pnpm/src/lib.rs:21-27 | on success every package resolved, and the length is the sum of the package list lengths |
| ReleaseResolver.FetchAllContents | crates/pnpm/src/lib.rs:21-27 | on success a release is present exactly when some package's list holds it |
| OutdatList.AdjacentSortedIsSorted | crates/outdat-list/src/main.rs:16 | neighbours in order means the whole sequence is in order |
| OutdatList.SwapDown | crates/outdat-list/src/main.rs:16 | one insertion step keeps the partially sorted shape |
| OutdatList.InsertionStart | crates/outdat-list/src/main.rs:16 | an ordered prefix followed by one new release is the start of an insertion pass |
| OutdatList.InsertionDone | crates/outdat-list/src/main.rs:16 | an insertion pass that has stopped leaves the prefix through the new release ordered |
| OutdatList.InsertAt | crates/outdat-list/src/main.rs:16 | one insertion pass extends the ordered prefix by one release and keeps the array's contents |
| OutdatList.SortReleases | crates/outdat-list/src/main.rs:16 | after `sort` the array is ordered by `Release` order and is a permutation of what it held |
| OutdatList.SortedCopy | crates/outdat-list/src/main.rs:14-16 | the collected releases come back ordered and as a permutation of the input |
| OutdatList.ListReleases | crates/outdat-list/src/main.rs:11-22 | a failed fetch propagates unchanged before anything is sorted; otherwise the releases come back sorted and as a permutation of the fetched ones |
| AsyncTask.CompleteAllKeepsCounter | crates/review/src/async_task.rs:48-51 | completions never change the counter |
| AsyncTask.CompleteAllAppend | crates/review/src/async_task.rs:44-71 | completions apply one after another |
| AsyncTask.StaleCompletionsIgnored | crates/review/src/async_task.rs:48-56 | completions with tickets other than the current one leave the state as it was |
| AsyncTask.OnlyCurrentVisible | crates/review/src/async_task.rs:44-66 | in any completion order the status is the earlier one or the outcome of a current-ticket operation |
| AsyncTask.CurrentCompletionWins | crates/review/src/async_task.rs:58-66 | with distinct tickets, the current operation's outcome is final whatever the order |
| AsyncTask.LaterStartWins | crates/review/src/async_task.rs:149-251 | with atomic completions, A started then B: B's outcome is final in both completion orders, and A alone leaves `Loading` |
| AsyncTask.SplitRunAppend | crates/review/src/async_task.rs:44-71 | under the two locks, events apply one after another |
| AsyncTask.StaleOutcomeOverwrites | crates/review/src/async_task.rs:48-66 | under the two locks: A checks, B starts, checks and writes, then A writes; the counter is B's ticket, yet the status is A's outcome |
| AsyncTask.OnlyCurrentOrPendingPublish | crates/review/src/async_task.rs:48-66 | under the two locks and between starts, the counter stays put and the status is the earlier one or the outcome of a write whose ticket is current or whose check had already passed |
| AsyncTask.StartWithoutPendingCheckWins | crates/review/src/async_task.rs:25-66 | under the two locks, a start with no check pending is followed only by `Loading` or the new ticket's outcome |
| AsyncTask.ClosedWindowsAreAtomic | crates/review/src/async_task.rs:44-71 | when no event falls between a check and its write, the two-lock runner ends in the same state as the atomic one, with no check pending |
| AsyncTask.AsyncTaskRunner.IsCurrent | crates/review/src/async_task.rs:48-51 | the check is true exactly when the ticket is the counter's value, and the runner takes the `Check` step of the two-lock model |
| AsyncTask.AsyncTaskRunner.Publish | crates/review/src/async_task.rs:58-70 | for a ticket whose check passed, the write replaces the status with the outcome whatever the counter is, keeps the counter, notifies, and is the `Publish` step of the two-lock model |
| AsyncTask.StaleOverwrite | crates/review/src/async_task.rs:25-71 | the runner's own steps in the stale order leave the status at the first operation's outcome while a later ticket is current |
| AsyncTask.AsyncTaskRunner.constructor | crates/review/src/async_task.rs:17-23 | a new runner is `Idle` with counter 0 |
| AsyncTask.AsyncTaskRunner.StartOperation | crates/review/src/async_task.rs:25-36 | counter up by one, status `Loading`, subscribers notified, and the ticket is larger than every earlier ticket; in the two-lock model this is the `Start` step |
| AsyncTask.AsyncTaskRunner.Complete | crates/review/src/async_task.rs:44-71 | with the check and the write in one critical section, the outcome is applied, and subscribers notified, exactly when the ticket is current; the counter never changes |
| AsyncTask.AsyncTaskRunner.Status | crates/review/src/async_task.rs:75-77 | returns the current status |
| AsyncTask.RapidSuccession | crates/review/src/async_task.rs:149-208 | two operations in rapid succession, each completing atomically: the second's outcome is final in either completion order |
| AsyncTask.InitialStatus | crates/review/src/async_task.rs:104-109 | a new runner reports `Idle` |
| Selection.CursorStaysInRange | crates/review/src/multi_select.rs:54-62 | `previous` and `next` keep the cursor in a non-empty list; `next` stays put only on the last option |
| Selection.ToggleOnlyAt | crates/review/src/multi_select.rs:64-66 | `toggle` flips one flag, keeps labels and values, and toggling twice restores the list |
| Selection.SelectedValuesAppend | crates/review/src/multi_select.rs:68-74 | the selected values of a concatenation are concatenated |
| Selection.SelectedValuesMembership | crates/review/src/multi_select.rs:68-74 | a value is reported exactly when an option carrying it is selected |
| Selection.ListOrderNotToggleOrder | crates/review/src/multi_select.rs:68-74 | two selected values come out in list order, whichever was toggled first |
| Selection.NoneSelected | crates/review/src/multi_select.rs:87-95 | options fresh from `SelectOption::new` select nothing |
| Selection.MultiSelect.constructor | crates/review/src/multi_select.rs:50-52 | the options as given, cursor 0 |
| Selection.MultiSelect.Previous | crates/review/src/multi_select.rs:54-56 | cursor one up saturating at 0; options unchanged |
| Selection.MultiSelect.Next | crates/review/src/multi_select.rs:58-62 | cursor one down clamped to the last option; options unchanged |
| Selection.MultiSelect.Toggle | crates/review/src/multi_select.rs:64-66 | flips the flag under the cursor; cursor unchanged |
| Selection.MultiSelect.FocusedValue | crates/review/src/multi_select.rs:76-78 | the value under the cursor |
| LegacySelection.NextNeverWraps | src/multi_select.rs:35-39 | with the cursor on an option, the wrapping add never wraps and `next` clamps at the last option |
| LegacySelection.SelectedLabelsMembership | src/multi_select.rs:45-51 | a label is reported exactly when an option carrying it is selected |
| LegacySelection.SelectedLabelsBound | src/multi_select.rs:45-51 | at most one label per option; all selected gives every label in list order |
| LegacySelection.Unselected | src/multi_select.rs:17-29 | one unselected option per given string |
| LegacySelection.NothingSelectedInitially | src/multi_select.rs:17-29 | a new list has nothing selected |
| LegacySelection.MultiSelect.constructor | src/multi_select.rs:17-29 | unselected options, cursor 0, `active` as given |
| LegacySelection.MultiSelect.Previous | src/multi_select.rs:31-33 | cursor one up saturating at 0 |
| LegacySelection.MultiSelect.Next | src/multi_select.rs:35-39 | cursor `min(len - 1, cursor.wrapping_add(1))` |
| LegacySelection.MultiSelect.Toggle | src/multi_select.rs:41-43 | flips only the option under the cursor |
| ReviewApp.InitialState | crates/outdatui/src/app.rs:39-71 | a new screen: release pane, scroll 0, width 40, no exit, nothing selected, labels `package@semver`, one notes request for the first release |
| ReviewApp.StepKeepsConsistent | crates/outdatui/src/app.rs:83-113 | every key keeps the cursor on a release and the last notes request for the focused release |
| ReviewApp.NonPressIgnored | crates/outdatui/src/app.rs:74-76 | key releases and repeats change nothing |
| ReviewApp.CtrlCAborts | crates/outdatui/src/app.rs:78-81 | Ctrl+C aborts from either pane and changes nothing else |
| ReviewApp.CtrlUpperCIsNotAbort | crates/outdatui/src/app.rs:78-81 | Ctrl+Shift+C is not an abort |
| ReviewApp.CursorKeysRequestNotes | crates/outdatui/src/app.rs:86-93 | `j`/`k` in the release pane move the cursor and request the notes of the focused release, even when the cursor does not move |
| ReviewApp.EnterOnlyInReleases | crates/outdatui/src/app.rs:97-106 | Enter asks to print only in the release pane |
| ReviewApp.ScrollOnlyInNotesPane | crates/outdatui/src/app.rs:101-121 | scroll changes only by `j`/`k` in the notes pane, by 5, saturating |
| ReviewApp.WidthOnlyInReleases | crates/outdatui/src/app.rs:94-95 | width changes only by `+`/`-` in the release pane, by 1, saturating |
| ReviewApp.PaneSwitchOnly | crates/outdatui/src/app.rs:83-107 | `l`/`h` switch the pane and nothing else |
| ReviewApp.SelectionOnlyBySpace | crates/outdatui/src/app.rs:96 | only space in the release pane changes the selection |
| ReviewApp.App.constructor | crates/outdatui/src/app.rs:39-71 | the initial screen state, which is consistent |
| ReviewApp.App.ShowReleaseNotesOfFocusedRelease | crates/outdatui/src/app.rs:110-113 | logs a notes request for the focused release; nothing else changes |
| ReviewApp.App.ScrollUp | crates/outdatui/src/app.rs:115-117 | the scroll offset drops by 5, saturating at 0 |
| ReviewApp.App.ScrollDown | crates/outdatui/src/app.rs:119-121 | the scroll offset grows by 5, saturating at 65535 |
| ReviewApp.App.FocusPane | crates/outdatui/src/app.rs:123-125 | sets the focused pane only |
| ReviewApp.App.ShrinkLeftColumn | crates/outdatui/src/app.rs:131-133 | width down by 1 saturating at 0 |
| ReviewApp.App.ExpandLeftColumn | crates/outdatui/src/app.rs:135-137 | width up by 1 saturating at 65535 |
| ReviewApp.App.HandleKey | crates/outdatui/src/app.rs:73-108 | the screen moves as `Step` says and stays consistent |
| ReviewApp.App.GetSelectedReleases | crates/outdatui/src/app.rs:127-129 | the selected releases in list order |
| LegacyApp.StepKeepsInvariant | src/app.rs:57-102 | every key keeps `active` equal to "release pane focused" and the cursor in range |
| LegacyApp.NonPressIgnored | src/app.rs:58 | key releases and repeats change nothing |
| LegacyApp.ExitFromEitherPane | src/app.rs:65-79 | Enter gives `Some(true)` and Ctrl+C `Some(false)` from either pane |
| LegacyApp.CursorOrScrollNeverBoth | src/app.rs:60-81 | `j`/`k` move the cursor in the release pane and scroll in the notes pane, never both |
| LegacyApp.ScrollDownWraps | src/app.rs:90-92 | scrolling down from 65533 wraps to 2 |
| LegacyApp.SelectedReleasesSplit | src/app.rs:104-106 | the space-joined selection splits back into the selected labels when no label has a space |
| LegacyApp.App.constructor | src/app.rs:31-55 | release pane focused and highlighted, scroll 0, nothing selected, no exit |
| LegacyApp.App.ScrollUp | src/app.rs:86-88 | the scroll offset drops by 5, saturating at 0 |
| LegacyApp.App.ScrollDown | src/app.rs:90-92 | the scroll offset grows by 5 modulo 2^16 |
| LegacyApp.App.FocusReleases | src/app.rs:94-97 | release pane focused and the list highlighted |
| LegacyApp.App.FocusReleaseNotes | src/app.rs:99-102 | notes pane focused and the list dimmed |
| LegacyApp.App.HandleKey | src/app.rs:57-84 | the screen moves as `Step` says and keeps its invariant |
| LegacyApp.App.GetSelectedReleases | src/app.rs:104-106 | the selected labels joined by single spaces |
| CounterApp.App.constructor | src/main.rs:21-31 | not running, counter 0 |
| CounterApp.App.Quit | src/main.rs:77-79 | clears `running` only |
| CounterApp.App.DecrementCounter | src/main.rs:81-83 | counter down by 1 saturating at 0 |
| CounterApp.App.IncrementCounter | src/main.rs:85-87 | counter up by 1 saturating at 255 |
| CounterApp.App.HandleKeyEvent | src/main.rs:64-75 | quit keys stop, Left and Right move the counter, any other key changes nothing |
| CounterApp.ControlShiftCDoesNotQuit | src/main.rs:65-67 | `c` quits only with exactly Control; `C` with Control quits; `q` quits with any modifiers |
| CounterApp.RightLeftQuit | src/main.rs:150-162 | Right, Left, `q` give counter 1, then 0, then not running |
| CounterApp.CounterSaturates | src/main.rs:164-179 | Left at 0 stays 0; Right at 255 stays 255 |
| GitHub.TrimEndMatches | crates/review/src/github.rs:38-39 | the result no longer ends with `.git`, and the input is the result followed by copies of `.git` |
| GitHub.FromGitHubUrl | crates/review/src/github.rs:17-45 | accepted exactly for host `github.com`, two or more segments, a non-empty owner and a repo non-empty after trimming; the first failing check names the error |
| GitHub.ReleaseUrlDeterminesTag | crates/review/src/github.rs:48-51 | different tags of one repository give different request URLs |
| GitHub.FirstRelease | crates/review/src/github.rs:75-86 | found exactly when some tag's request succeeds, and then it is the first such; otherwise "No release found" |
| GitHub.FetchReleaseByVersion | crates/review/src/github.rs:75-86 | the loop over the tags returns what `FirstRelease` specifies for `version`, then `v` + `version` |
| GitHub.TagFallback | crates/review/src/github.rs:76-85 | the plain tag wins, the `v` tag is used only when the plain one fails, and the lookup fails only when both fail |
| GitHub.ValidUrlExample | crates/review/src/github.rs:118-123 | `https://github.com/rust-lang/rust.git` gives owner `rust-lang`, repo `rust` |
| GitHub.RepeatedSuffixStripped | crates/review/src/github.rs:38-39 | `tool.git.git` trims to `tool` and `.git` to the empty string |
| GitHub.InvalidUrlExamples | crates/review/src/github.rs:126-144 | other hosts, a bare host, an owner alone, an empty owner, a `.git`-only repo and an unparseable URL are rejected with their errors |
| GitHub.ExtraSegmentsIgnored | crates/review/src/github.rs:24-44 | segments after the repository are ignored |
| ReleaseNotes.FetchReleaseNotes | crates/outdatui/src/release_ext.rs:11-29 | unparseable URL and non-GitHub host fail with their messages; it panics exactly when a GitHub URL fails validation |
| ReleaseNotes.PanicReachable | crates/outdatui/src/release_ext.rs:20-27 | `github.com` with the single segment `owner` reaches the panic |
| ReleaseNotes.FetchReleaseNotesChecked | crates/outdatui/src/release_ext.rs:11-29 | never panics; succeeds exactly when the URL names a repository and a release is found; agrees with the source whenever the source returns |
| ReleaseNotes.NotesOfValidRepository | crates/outdatui/src/release_ext.rs:21-24 | a body is returned verbatim, a missing body as "Empty release notes", and a failed lookup as "Failed to fetch release notes: No release found" |
| ReleaseNotes.CheckedAgreesOnValidRepositories | crates/outdatui/src/release_ext.rs:11-29 | on any URL that is not GitHub or that names a repository, both versions give the same result |

## Left out

- Network and HTTP: `NpmPackage::fetch` is an oracle from package name to outcome. The request part of `fetch_release` is an oracle from request URL to outcome. Headers, the `DEPUTUI_GITHUB_TOKEN` token, status codes and body reading are not modelled.
- `Url::parse` is not modelled. Its outcome (host and path segments, or failure) is a parameter.
- JSON deserialisation (`NpmVersion`, `GitHubRelease`, `GitHubAuthor`, the pnpm report) is not modelled. Only the fields the logic reads are kept.
- Event loops, terminal handling, stdin and stdout, and all rendering are not modelled (`run`, `handle_crossterm_events`, widgets, key hints, `AppShell`). Printing the sorted JSON is left out too.
- Threads and channels are not modelled. The spawned future of the task runner is either one `Complete` call or an `IsCurrent` check followed by a `Publish` write. An interleaving is an order of those calls, or of `SplitStep` events, so a start may fall between a check and its write. The `try_send` notification is a returned flag. Dropped notifications are not modelled.
- AsyncTask.AsyncTaskRunner.Complete: models the intended completion, with the check and the write in one critical section. The source's two separate locks are modelled by `SplitStep` and `IsCurrent`/`Publish`, where a stale write is possible (see "## Findings").
- src/async_task.rs, src/tests.rs and crates/outdatui/src/async_task.rs are not part of this model: their behaviour rests on channel closing and timers. The outdatui notes task is represented by the ghost log `notesRequests`.
- crates/outdatui/src/release_notes.rs and src/jobs.rs are not part of this model. The first relies on a lookup signature that matches no shown implementation. The second is timer-driven mock content and file I/O.
- The outdatui `github` module is not part of this model; crates/review/src/github.rs stands in for it.
- AsyncTask.AsyncTaskRunner.StartOperation: the `u64` counter is unbounded, because overflow takes 2^64 starts.
- ReleaseResolver.TryJoinAll: which failing package's error is reported depends on completion order. The contract says only that it is the error of some failing package.
- OutdatList.SortReleases: the model sorts by insertion and does not promise the stability of Rust's `sort`. Only releases that compare `Equal` could be told apart, and those differ at most in their repository URL.
- Selection: the outdatui crate's own `multi_select` module, used by its review screen, is not part of this model. `Selection.MultiSelect`, from crates/review/src/multi_select.rs, stands in for it in `ReviewApp`.
- Selection.MultiSelect.Toggle: requires a non-empty list, because the source indexes `options[cursor]`, which panics on an empty one.
- Selection.MultiSelect.FocusedValue: requires a non-empty list, because the source indexes `options[cursor]`, which panics on an empty one.
- LegacySelection.MultiSelect.Next: requires a non-empty list, because the source's `len - 1` underflows on an empty one.
- LegacySelection.MultiSelect.Toggle: requires a non-empty list, because the source indexes `options[cursor]`, which panics on an empty one.
- Selection.MultiSelect.Next: requires a non-empty list, because the source's `len - 1` underflows on an empty one. `saturating_add` cannot saturate while the cursor is on an option, so it is a plain `+ 1`.
- LegacyApp.App.HandleKey: requires a non-empty list for `j` and space in the release pane, where the source underflows or indexes out of bounds.
- ReviewApp.App.constructor: requires at least one release, since the source indexes the focused release at once.
- CLI plumbing (`args.rs` files and the `main` files of pnpm, all-in-one and review) and the fixed placeholder text of src/app.rs are not part of this model.

## Findings

| source | as written | input that shows it | evidently intended | confidence | as-written member | corrected member |
|---|---|---|---|---|---|---|
| crates/review/src/async_task.rs:48-66 | the spawned task checks its ticket under the counter's lock, releases it, and writes the status under the status's lock; a start between the two does not stop the write | start A (ticket 1); A's check passes; start B (ticket 2); B checks and writes; A writes: the status is A's outcome while B's ticket is current | a superseded operation never overwrites the status, so the check and the write form one critical section | not executed; needs a start between a finished operation's check and its write | AsyncTask.StaleOutcomeOverwrites | AsyncTask.AsyncTaskRunner.Complete |
| crates/outdatui/src/release_ext.rs:20-27 | a repository URL that passes `is_github_url` but fails `from_github_url` reaches `panic!`, although the comment calls that branch unreachable | `https://github.com/owner`: host `github.com`, path segments `["owner"]` | report an error for a GitHub URL that does not name a repository | not executed; assumes the outdatui `github` module matches crates/review/src/github.rs:29-42 | ReleaseNotes.PanicReachable | ReleaseNotes.FetchReleaseNotesChecked |
