# Media Provider Manager: app list, templates screen, divider decoration, usage records, navigation helpers

This project models five pieces of the Android app and proves properties of them in Dafny:

- **The app list loader.** `fetchRuleCount` counts how many rule templates name each package. `load` stamps those counts onto one record per installed package and reports progress as it goes. `update` re-stamps the counts on an existing list.
- **The per-app templates screen.** It lists the templates that apply to the shown package, sorted by name with the locale's collator. It hides the "create template" footer once a template carries the app's label as its name. When the template editor returns, it computes the position to scroll to.
- **The list divider decoration.** It decides which children get a divider below them, where the divider is drawn, and the offset that makes room for it.
- **The media-store insert usage record.** This covers its superclass view as singleton lists, and `convert`, which reads records out of a database cursor.
- **Two navigation helpers.** One is an exit listener that runs its action once, on the first change away from the destination it was created on, and then deregisters itself. The other is a guard that returns the controller only while it shows an expected destination.

Modules:

| Module | Contents |
|---|---|
| `Wrappers` | Shared `Option` and `Result` types. |
| `AppListLoader` | The app list loader. |
| `AppFragment` | The templates screen. |
| `RecyclerViewUtils` | The divider decoration. |
| `UsageRecord` | `MediaProviderInsertRecord`. |
| `Navigation` | The navigation helpers. |

Where the code changes state in place, the model uses classes with `modifies` clauses: the decoration's setters, `getItemOffsets` filling a `Rect`, the cursor's position, the fragment's fields, and the controller's listener list. Loops stay loops, and each looping method is proved against a specification function. Pure transformations are functions.

The documentation comment of `DividerViewHolder` (RecyclerViewUtils.kt:111-116) says a divider between two items is drawn only when *both* allow it. The code (RecyclerViewUtils.kt:77-91) draws one when the upper item allows a divider below *or* the lower item allows one above. The model follows the code. `DocumentedRuleImpliesCode` and `CodeDrawsWhereDocumentationDoesNot` state how the two rules relate.

## Model

| member | source | states |
|---|---|---|
| AppListLoader.CountsOfOccurrences | app/src/main/java/me/gm/cleaner/plugin/module/appmanagement/AppListLoader.kt:51-57 | The map built by bumping `getOrDefault(name, 0) + 1` once per name has a key exactly for the names seen. Each key's value is that name's number of occurrences. |
| AppListLoader.RuleCounts | app/src/main/java/me/gm/cleaner/plugin/module/appmanagement/AppListLoader.kt:50-58 | The rule-count map has an entry exactly for the packages that some non-null `applyToApp` names. The entry (and `getOrDefault(p, 0)` for every p) is how many times p is named across all templates. |
| AppListLoader.CountPackages | app/src/main/java/me/gm/cleaner/plugin/module/appmanagement/AppListLoader.kt:53-55 | The inner `forEach` over one template's packages. It turns the count map of the names seen so far into the count map of those names followed by this template's packages. |
| AppListLoader.FetchRuleCount | app/src/main/java/me/gm/cleaner/plugin/module/appmanagement/AppListLoader.kt:50-58 | The loop over templates that skips null `applyToApp` returns exactly the rule-count map above. |
| AppListLoader.RuleCountsPositive | app/src/main/java/me/gm/cleaner/plugin/module/appmanagement/AppListLoader.kt:54 | Every value in the map is at least 1. Packages that no template names have no entry. |
| AppListLoader.SumValuesCountsOf | app/src/main/java/me/gm/cleaner/plugin/module/appmanagement/AppListLoader.kt:54 | Each step adds exactly one to the total, so the counts of n names add up to n. |
| AppListLoader.RuleCountsSum | app/src/main/java/me/gm/cleaner/plugin/module/appmanagement/AppListLoader.kt:50-58 | The rule counts add up to the total length of all non-null `applyToApp` collections. |
| AppListLoader.RuleCountScenario | app/src/main/java/me/gm/cleaner/plugin/module/appmanagement/AppListLoader.kt:50-58 | Templates naming [a.b], [a.b, c.d] and null give {a.b: 2, c.d: 1}. An unnamed package counts 0. |
| AppListLoader.Load | app/src/main/java/me/gm/cleaner/plugin/module/appmanagement/AppListLoader.kt:33-48 | Returns one record per installed package, in the platform's order. Each record is the package's `newInstance` metadata with `ruleCount` equal to the number of templates naming the package (0 when none). The listener hears `100 * k / size` after the k-th package. |
| AppListLoader.ProgressReportBounds | app/src/main/java/me/gm/cleaner/plugin/module/appmanagement/AppListLoader.kt:43 | Each progress report lies in [0, 100] and is no larger than any later one. |
| AppListLoader.ProgressReportsShape | app/src/main/java/me/gm/cleaner/plugin/module/appmanagement/AppListLoader.kt:39-43 | There is one report per package. Reports are non-decreasing, stay in [0, 100], and the last one is exactly 100. |
| AppListLoader.ProgressScenario | app/src/main/java/me/gm/cleaner/plugin/module/appmanagement/AppListLoader.kt:43 | Over four packages the listener hears 25, 50, 75, 100. |
| AppListLoader.Update | app/src/main/java/me/gm/cleaner/plugin/module/appmanagement/AppListLoader.kt:60-70 | Returns copies of the old records, same length and order, identical except for `ruleCount`. Every copy carries its package's current rule count. |
| AppListLoader.UpdateStampedUnchanged | app/src/main/java/me/gm/cleaner/plugin/module/appmanagement/AppListLoader.kt:65-69 | A list whose counts already match the templates comes back unchanged. |
| AppListLoader.UpdateIdempotent | app/src/main/java/me/gm/cleaner/plugin/module/appmanagement/AppListLoader.kt:60-70 | Updating twice against the same templates equals updating once. |
| AppFragment.FilterByPackage | app/src/main/java/me/gm/cleaner/plugin/module/appmanagement/AppFragment.kt:116 | The filter keeps each template whose `applyToApp` contains the package, as many times as it occurs. It drops every other template. |
| AppFragment.InsertByName | app/src/main/java/me/gm/cleaner/plugin/module/appmanagement/AppFragment.kt:117 | Inserting into a collator-sorted list adds exactly that template and keeps the list sorted. |
| AppFragment.SortByName | app/src/main/java/me/gm/cleaner/plugin/module/appmanagement/AppFragment.kt:117 | `sortedWith` by the collator on names yields a permutation of its input in collator order. |
| AppFragment.PrepareCurrentList | app/src/main/java/me/gm/cleaner/plugin/module/appmanagement/AppFragment.kt:112-119 | The current list holds exactly the templates that name the package, each with its multiplicity, sorted by name with the collator. |
| AppFragment.FooterShown | app/src/main/java/me/gm/cleaner/plugin/module/appmanagement/AppFragment.kt:88-92 | The footer stays if and only if no listed template has the app's label as its name. |
| AppFragment.IndexOfFirstNamed | app/src/main/java/me/gm/cleaner/plugin/module/appmanagement/AppFragment.kt:98 | `indexOfFirst` returns -1 exactly when no template has the (possibly null) name. Otherwise it returns a matching index with no match before it. |
| AppFragment.ScrollPosition | app/src/main/java/me/gm/cleaner/plugin/module/appmanagement/AppFragment.kt:98-104 | A listed name scrolls to one past its first index, so 1..size, because the header takes position 0. An unlisted name scrolls to the adapters' item count minus the footer's. |
| AppFragment.AppFragment.constructor | app/src/main/java/me/gm/cleaner/plugin/module/appmanagement/AppFragment.kt:47-50 | The fragment starts with no remembered template name. |
| AppFragment.AppFragment.OnTemplatesChanged | app/src/main/java/me/gm/cleaner/plugin/module/appmanagement/AppFragment.kt:85-93 | The observer submits the current list. The footer adapter ends up attached if and only if no listed template carries the app's label. |
| AppFragment.AppFragment.OnCreateTemplateResult | app/src/main/java/me/gm/cleaner/plugin/module/appmanagement/AppFragment.kt:96-108 | The result listener scrolls to the scroll position of the returned name. It keeps that name when it is listed and resets it to `NULL_TEMPLATE_NAME` otherwise. |
| RecyclerViewUtils.ShouldDrawDividerBelow | app/src/main/java/me/gm/cleaner/plugin/ktx/RecyclerViewUtils.kt:77-91 | A child gets a divider when its holder allows one below. Otherwise the next child's "allowed above" decides, or, for the last child, `allowDividerAfterLastItem`. |
| RecyclerViewUtils.DocumentedRuleImpliesCode | app/src/main/java/me/gm/cleaner/plugin/ktx/RecyclerViewUtils.kt:109-126 | Wherever the documented rule (both neighbours allow) asks for a divider, the code draws one. |
| RecyclerViewUtils.CodeDrawsWhereDocumentationDoesNot | app/src/main/java/me/gm/cleaner/plugin/ktx/RecyclerViewUtils.kt:79-90 | An item allowing a divider below, followed by a plain item, gets a divider that the documented rule forbids. |
| RecyclerViewUtils.NoFlagsNoDividers | app/src/main/java/me/gm/cleaner/plugin/ktx/RecyclerViewUtils.kt:117-125 | With holders as constructed (both flags false) or of other types, and no divider after the last item, nothing is drawn. |
| RecyclerViewUtils.DividersDrawnBelowSelected | app/src/main/java/me/gm/cleaner/plugin/ktx/RecyclerViewUtils.kt:58-66 | At most one divider per child. A divider is drawn with given bounds exactly when some selected child has its bottom there. Each divider is `dividerHeight` tall and spans the width. |
| RecyclerViewUtils.DividerDecoration.constructor | app/src/main/java/me/gm/cleaner/plugin/ktx/RecyclerViewUtils.kt:49-52 | A new decoration has no divider, height 0, and allows a divider after the last item. |
| RecyclerViewUtils.DividerDecoration.OnDrawOver | app/src/main/java/me/gm/cleaner/plugin/ktx/RecyclerViewUtils.kt:54-67 | Draws nothing before `setDivider`. Otherwise it draws, in child order, the dividers below the selected children. |
| RecyclerViewUtils.DividerDecoration.GetItemOffsets | app/src/main/java/me/gm/cleaner/plugin/ktx/RecyclerViewUtils.kt:69-75 | `outRect.bottom` becomes `dividerHeight` exactly when the child gets a divider. Otherwise the rect, and its other sides in every case, are untouched. |
| RecyclerViewUtils.DividerDecoration.SetDivider | app/src/main/java/me/gm/cleaner/plugin/ktx/RecyclerViewUtils.kt:93-97 | Sets the drawable and takes its intrinsic height. The last-item setting is kept. |
| RecyclerViewUtils.DividerDecoration.SetDividerHeight | app/src/main/java/me/gm/cleaner/plugin/ktx/RecyclerViewUtils.kt:99-102 | Sets the height only. |
| RecyclerViewUtils.DividerDecoration.SetAllowDividerAfterLastItem | app/src/main/java/me/gm/cleaner/plugin/ktx/RecyclerViewUtils.kt:104-106 | Sets the last-item setting only. |
| RecyclerViewUtils.ConfiguredDecoration | app/src/main/java/me/gm/cleaner/plugin/module/appmanagement/AppFragment.kt:80-83 | The templates list's decoration has the divider and its height, and no divider after the last item. |
| UsageRecord.AsMediaProviderRecord | app/src/main/java/me/gm/cleaner/plugin/dao/usagerecord/MediaProviderInsertRecord.kt:30-32 | The superclass sees the time and package, and singleton lists of the data, MIME type and verdict. |
| UsageRecord.ColumnIndex | app/src/main/java/me/gm/cleaner/plugin/dao/usagerecord/MediaProviderInsertRecord.kt:34 | A column name's index is the first position holding that name, and is absent exactly when no column has it. |
| UsageRecord.ColumnIndexOrThrow | app/src/main/java/me/gm/cleaner/plugin/dao/usagerecord/MediaProviderInsertRecord.kt:34-39 | `getColumnIndexOrThrow` fails, naming the column, exactly when the column does not exist. Otherwise it returns the column's index. |
| UsageRecord.LookupAll | app/src/main/java/me/gm/cleaner/plugin/dao/usagerecord/MediaProviderInsertRecord.kt:34-39 | Looking names up in turn succeeds exactly when all exist, giving each one's index. Otherwise it fails with the first missing name. |
| UsageRecord.ResolveColumns | app/src/main/java/me/gm/cleaner/plugin/dao/usagerecord/MediaProviderInsertRecord.kt:34-39 | The six lookups succeed exactly when the cursor has all six columns. Each index then points at its column. Otherwise the exception names the first missing one in lookup order. |
| UsageRecord.DecodeRow | app/src/main/java/me/gm/cleaner/plugin/dao/usagerecord/MediaProviderInsertRecord.kt:43-50 | A row's record copies the time (long), package, match (int), data and MIME type from their columns. `intercepted` is true exactly when that column's long is non-zero. |
| UsageRecord.DecodeRows | app/src/main/java/me/gm/cleaner/plugin/dao/usagerecord/MediaProviderInsertRecord.kt:41-52 | There is one record per row, in row order, each the decoding of its row. |
| UsageRecord.Cursor.constructor | app/src/main/java/me/gm/cleaner/plugin/dao/usagerecord/MediaProviderInsertRecord.kt:33 | A fresh cursor stands before its first row. |
| UsageRecord.Cursor.Consumed | app/src/main/java/me/gm/cleaner/plugin/dao/usagerecord/MediaProviderInsertRecord.kt:42 | The number of rows at or before the cursor never exceeds the row count. |
| UsageRecord.Cursor.MoveToNext | app/src/main/java/me/gm/cleaner/plugin/dao/usagerecord/MediaProviderInsertRecord.kt:42 | `moveToNext` succeeds exactly when another row follows and advances by one. Otherwise it ends up after the last row. |
| UsageRecord.Convert | app/src/main/java/me/gm/cleaner/plugin/dao/usagerecord/MediaProviderInsertRecord.kt:33-53 | A missing column throws that column's exception before any row is read. Otherwise `convert` returns the decoding of every remaining row, in order, and leaves the cursor after the last row. |
| Navigation.RemoveFirst | app/src/main/java/me/gm/cleaner/plugin/ktx/Navigation.kt:37 | Removing a listener takes out one occurrence if present and otherwise changes nothing. |
| Navigation.NavController.AddOnDestinationChangedListener | app/src/main/java/me/gm/cleaner/plugin/ktx/Navigation.kt:25 | Registration appends the listener. |
| Navigation.NavController.RemoveOnDestinationChangedListener | app/src/main/java/me/gm/cleaner/plugin/ktx/Navigation.kt:37 | Deregistration removes the listener's first occurrence. |
| Navigation.NavController.CheckCurrentDestination | app/src/main/java/me/gm/cleaner/plugin/ktx/Navigation.kt:43-44 | Returns the controller itself if and only if its current destination exists and has the expected id. Otherwise it returns null. |
| Navigation.NavController.AddOnExitListener | app/src/main/java/me/gm/cleaner/plugin/ktx/Navigation.kt:24-25 | Registers exactly one new listener, bound to the current destination, which has not run. |
| Navigation.OneShotDestinationChangedListener.constructor | app/src/main/java/me/gm/cleaner/plugin/ktx/Navigation.kt:27-31 | The listener remembers the controller's destination at creation. |
| Navigation.OneShotDestinationChangedListener.OnDestinationChanged | app/src/main/java/me/gm/cleaner/plugin/ktx/Navigation.kt:33-40 | A change to the remembered destination does nothing. Any other change first deregisters the listener, then runs the action once with that destination and arguments. The listener stays registered at most once and runs at most once. |
| Navigation.ExitListenerRunsOnce | app/src/main/java/me/gm/cleaner/plugin/ktx/Navigation.kt:24-40 | Staying put, then leaving, runs the exit action exactly once, with the new destination. By then no listener remains registered. |

## Left out

- Coroutines (`withContext`, the dispatcher, `ensureActive` cancellation) and the `AtomicInteger`. The loader is modelled as a sequential loop with a plain counter.
- Load: does not model 32-bit overflow of `100 * count`. It would take more than 21 million installed packages.
- Load: `PreferencesPackageInfo.newInstance` and its package-manager lookups are not part of this model. A record is modelled as the package's name, label and permissions, with a rule count.
- The template preferences file, its parsing into `Templates`, `readSp` and `getInstalledPackages` are inputs. The template list and the installed packages are parameters.
- SortByName: the collator's locale rules are not modelled. It is any total preorder on names, and the proofs give permutation and order but not stability of `sortedWith`.
- OnTemplatesChanged: `ConcatAdapter.addAdapter` and `removeAdapter` are modelled as setting a flag, so adding an already-attached footer leaves it attached once.
- OnCreateTemplateResult: the shared-element transition, `postponeEnterTransition` and the actual scroll are left out. The method returns the position.
- OnCreateTemplateResult: the value of `NULL_TEMPLATE_NAME` is given as a constructor parameter, because `CreateTemplateFragment` is not part of this model.
- `list.invalidateItemDecorations()`, the divider's tint, the canvas drawing and the view layout are left out. Children are given with their holder, truncated `y` and height. Drawing is modelled as the sequence of bounds set.
- The other functions of RecyclerViewUtils.kt (`submitListKeepPosition`, the grid layout manager, the scroll helpers) are not part of this model.
- Convert: SQLite's column type conversions are not modelled. Each cell carries what `getLong`, `getInt` and `getString` read from it. Null strings are not modelled. Column names match exactly; SQLite's case-insensitive lookup is not modelled.
- The Room DAO and the other usage-record types are not part of this model.
- OnDestinationChanged: the action is an arbitrary callback, so the model records each run, with the listeners registered at that moment, instead of running it.
- The controller's own notification loop, and its immediate callback on registration, are not modelled. `ExitListenerRunsOnce` plays the notifications a controller would deliver.
