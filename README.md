# APatch-Plus module list, modelled in Dafny

This project models how the APatch-Plus manager app keeps and shows its list of
installed APatch modules: the `APModuleViewModel` that loads the list from the root
enumerator's JSON output, finds each module's banner, checks for updates, sizes module
directories and publishes the list sorted by id, together with the rules of the module
screen (`APM.kt`) that filter that list, reload it on entry, resolve banner images,
enable or hide an item's buttons, react to the enable switch and run the install flow.

Modules:

- `Wrappers` (`wrappers.dfy`): `Option`.
- `Sequences` (`sequences.dfy`): subsequences, for the order-preserving filters.
- `Strings` (`strings.dfy`): the Kotlin standard-library string operations the code relies
  on: `trim`, `startsWith`, `toLongOrNull` and `contains(…, ignoreCase = true)`.
- `ModuleTypes` (`module_info.dfy`): `ModuleInfo`, one record of the enumerator's JSON
  array with optional fields, and the filesystem as the root shell sees it (existing,
  directory and readable paths, and the lines of readable files).
- `VersionSanitizer`, `UpdateCheck`, `BannerLookup`, `ModuleSize`, `ModuleList`: the parts of
  the view model. `ModuleList.ModuleListModel` is a class whose fields are the view model's
  `modules`, `isRefreshing` and `isNeedRefresh`; its methods are proved against the state
  functions `FetchResult` and `AfterRead`.
- `ModuleScreen` (`module_screen.dfy`): the screen's filter, entry refresh, banner image
  resolution, button rules, and the classes `ScreenState` and `ModuleItemState` for the
  state the screen keeps.

Facts about the code that the model follows:

- `fetchModuleList` reads `id`, `enabled`, `update` and `remove` with
  `getString`/`getBoolean`, which throw when the key is missing, so a record must carry all four.
- `author` and `version` are read with `optString(…, "Unknown")` and default to `"Unknown"`.
- `getModuleBanner` reads `module.prop` from `/data/adb/modules/<id>` before
  `/data/adb/ap/modules/<id>`. A `readText` failure escapes to the outer `catch` and gives
  `""`; it does not fall back to the banner-file search.
- The screen probes a relative banner in the opposite order, APatch's directory first.
  `ModuleScreen.OppositeDirectoryOrders` exhibits the difference.

## Model

| member | source | states |
|---|---|---|
| VersionSanitizer.SanitizeVersion | app/src/main/java/me/kdufse/apatch/plus/ui/viewmodel/APModuleViewModel.kt:214-216 | output has the input's length; each character is kept when it is in `[A-Za-z0-9._-]` and becomes `_` otherwise; the output is all safe characters |
| VersionSanitizer.SanitizeSafeIsIdentity | app/src/main/java/me/kdufse/apatch/plus/ui/viewmodel/APModuleViewModel.kt:214-216 | a string made only of safe characters comes back unchanged |
| VersionSanitizer.SanitizeIdempotent | app/src/main/java/me/kdufse/apatch/plus/ui/viewmodel/APModuleViewModel.kt:214-216 | sanitizing twice equals sanitizing once |
| VersionSanitizer.SanitizeFixedPoints | app/src/main/java/me/kdufse/apatch/plus/ui/viewmodel/APModuleViewModel.kt:214-216 | a string is left unchanged exactly when it is already safe |
| UpdateCheck.ResponseText | app/src/main/java/me/kdufse/apatch/plus/ui/viewmodel/APModuleViewModel.kt:224-239 | a successful response with a body yields that body; a non-empty text comes only from such a response; failures give "" |
| UpdateCheck.CheckUpdate | app/src/main/java/me/kdufse/apatch/plus/ui/viewmodel/APModuleViewModel.kt:218-259 | empty triple when `updateJson` is empty, `remove`, `update` or `!enabled`, whatever the manifest; empty on an empty or failed body and on a body that is not a JSON object; non-empty exactly when the remote versionCode (default 0) is greater than the installed one and zipUrl (default "") is non-empty, and then it is exactly (zipUrl, sanitized version, changelog); the version is always safe |
| UpdateCheck.GateIgnoresManifest | app/src/main/java/me/kdufse/apatch/plus/ui/viewmodel/APModuleViewModel.kt:219-222 | with a gating flag set (`MayCheck` false: empty `updateJson`, `remove`, `update` or `!enabled`), any two responses and parsers give the same empty triple |
| UpdateCheck.EqualVersionCodeOffersNothing | app/src/main/java/me/kdufse/apatch/plus/ui/viewmodel/APModuleViewModel.kt:254-256 | a manifest whose versionCode equals the installed one offers no update |
| BannerLookup.FirstBannerValueSpec | app/src/main/java/me/kdufse/apatch/plus/ui/viewmodel/APModuleViewModel.kt:161-170 | the value found is the trimmed value of the first `banner=` line with a non-blank value; "" exactly when no line is such an entry |
| BannerLookup.ScanPropFilesSpec | app/src/main/java/me/kdufse/apatch/plus/ui/viewmodel/APModuleViewModel.kt:150-172 | the prop files are tried in order; a file that is absent, unreadable or without a usable entry is passed over; the first usable value wins; a read failure ends the scan |
| BannerLookup.FirstBannerFileInSpec | app/src/main/java/me/kdufse/apatch/plus/ui/viewmodel/APModuleViewModel.kt:197-204 | in one directory, the first of `banner.jpg`, `banner.png`, `banner.webp`, `banner.jpeg` that exists and is readable is returned as a bare file name |
| BannerLookup.FirstBannerFileSpec | app/src/main/java/me/kdufse/apatch/plus/ui/viewmodel/APModuleViewModel.kt:189-211 | only directories that exist and are directories are searched, in order; the first match wins; "" when nothing matches |
| BannerLookup.DetectBannerFile | app/src/main/java/me/kdufse/apatch/plus/ui/viewmodel/APModuleViewModel.kt:183-212 | the nested loops with early return compute the banner-file fallback |
| BannerLookup.GetModuleBanner | app/src/main/java/me/kdufse/apatch/plus/ui/viewmodel/APModuleViewModel.kt:147-180 | the loops over prop files and lines with early return compute the module's banner: the prop value, else "" after a read failure, else the banner-file fallback |
| BannerLookup.ModulesRootPropFirst | app/src/main/java/me/kdufse/apatch/plus/ui/viewmodel/APModuleViewModel.kt:150-153 | a usable entry in `/data/adb/modules/<id>/module.prop` decides, whatever the ap directory holds |
| BannerLookup.ModuleBannerOrigin | app/src/main/java/me/kdufse/apatch/plus/ui/viewmodel/APModuleViewModel.kt:147-180 | a banner is "" or a non-blank prop value or one of the four conventional file names |
| BannerLookup.NoPropFileFallsBack | app/src/main/java/me/kdufse/apatch/plus/ui/viewmodel/APModuleViewModel.kt:174-175 | with no prop file opened, the banner is the banner-file fallback |
| BannerLookup.ReadFailureGivesEmpty | app/src/main/java/me/kdufse/apatch/plus/ui/viewmodel/APModuleViewModel.kt:176-179 | when the Magisk-compatible prop file exists and is readable but its read throws, the banner is "" |
| BannerLookup.PngInModulesRoot | app/src/main/java/me/kdufse/apatch/plus/ui/viewmodel/APModuleViewModel.kt:183-212 | a worked case: only `banner.png` in the Magisk-compatible directory gives `banner.png` |
| ModuleSize.FirstField | app/src/main/java/me/kdufse/apatch/plus/ui/viewmodel/APModuleViewModel.kt:267 | the first field is the prefix of the line before its first tab |
| ModuleSize.DuBytes | app/src/main/java/me/kdufse/apatch/plus/ui/viewmodel/APModuleViewModel.kt:261-272 | 0 when the job failed, threw or printed nothing; otherwise the first tab-separated field of the first line read as a Long, 0 when it is not one |
| ModuleSize.DuBytesReadsPrintedSize | app/src/main/java/me/kdufse/apatch/plus/ui/viewmodel/APModuleViewModel.kt:266-268 | for the output `<n>\t<path>` of `du -sb` the byte count read back is n |
| ModuleSize.FormatFileSize | app/src/main/java/me/kdufse/apatch/plus/ui/viewmodel/APModuleViewModel.kt:278-287 | "0 KB" exactly when bytes <= 0; otherwise the unit k satisfies 1024^k <= bytes < 1024^(k+1), clamped at TB |
| ModuleSize.RightUnitIsUnique | app/src/main/java/me/kdufse/apatch/plus/ui/viewmodel/APModuleViewModel.kt:281-282 | the unit chosen is the only one that is right for the count |
| ModuleSize.UnitExamples | app/src/main/java/me/kdufse/apatch/plus/ui/viewmodel/APModuleViewModel.kt:278-286 | 1536 bytes are shown in KB, 1073741824 in GB, 0 as "0 KB" |
| ModuleSize.ModuleSizeText | app/src/main/java/me/kdufse/apatch/plus/ui/viewmodel/APModuleViewModel.kt:261-275 | the size text is "0 KB" exactly when `du` reported no positive count; otherwise it shows that count in the one right unit |
| ModuleList.ParseModule | app/src/main/java/me/kdufse/apatch/plus/ui/viewmodel/APModuleViewModel.kt:101-122 | an element maps to a module exactly when it is an object with id, enabled, update and remove; optional fields take "", "Unknown", 0 and false as defaults; the banner is the banner lookup's result for the id |
| ModuleList.ParseModules | app/src/main/java/me/kdufse/apatch/plus/ui/viewmodel/APModuleViewModel.kt:98-123 | the array maps exactly when every element does, to one module per element in order |
| ModuleList.LoadModules | app/src/main/java/me/kdufse/apatch/plus/ui/viewmodel/APModuleViewModel.kt:94-123 | the load succeeds exactly when the output is a JSON array whose every element maps, and then gives one module per element in order |
| ModuleList.InsertById | app/src/main/java/me/kdufse/apatch/plus/ui/viewmodel/APModuleViewModel.kt:58-60 | inserting adds exactly the one module |
| ModuleList.InsertSorted | app/src/main/java/me/kdufse/apatch/plus/ui/viewmodel/APModuleViewModel.kt:58-60 | inserting into a list sorted by id keeps it sorted |
| ModuleList.SortById | app/src/main/java/me/kdufse/apatch/plus/ui/viewmodel/APModuleViewModel.kt:58-63 | the published list is a permutation of `modules` sorted by id under the collator's total preorder |
| ModuleList.EnabledIds | app/src/main/java/me/kdufse/apatch/plus/ui/viewmodel/APModuleViewModel.kt:75-79 | the ids toggled off are exactly those of the enabled modules, as a subsequence of the list's ids (list order) |
| ModuleList.FetchResult | app/src/main/java/me/kdufse/apatch/plus/ui/viewmodel/APModuleViewModel.kt:84-144 | a failed load keeps `modules` and `isNeedRefresh` and clears `isRefreshing`; a successful one replaces `modules` wholesale, clears `isNeedRefresh`, and leaves `isRefreshing` set only when the list object changed (empty over empty is the same object) |
| ModuleList.FetchIdempotent | app/src/main/java/me/kdufse/apatch/plus/ui/viewmodel/APModuleViewModel.kt:84-144 | loading the same output twice gives the same list, `isNeedRefresh` and pending publication as loading it once; `isRefreshing` may differ |
| ModuleList.AfterRead | app/src/main/java/me/kdufse/apatch/plus/ui/viewmodel/APModuleViewModel.kt:58-63 | reading `moduleList` changes nothing but clearing `isRefreshing` when the list was replaced since the last read |
| ModuleList.ModuleListModel.constructor | app/src/main/java/me/kdufse/apatch/plus/ui/viewmodel/APModuleViewModel.kt:29 | the list starts empty with both flags clear |
| ModuleList.ModuleListModel.MarkNeedRefresh | app/src/main/java/me/kdufse/apatch/plus/ui/viewmodel/APModuleViewModel.kt:68-70 | sets `isNeedRefresh` and changes nothing else |
| ModuleList.ModuleListModel.FetchModuleList | app/src/main/java/me/kdufse/apatch/plus/ui/viewmodel/APModuleViewModel.kt:84-144 | the new state is `FetchResult` of the old one |
| ModuleList.ModuleListModel.ReadModuleList | app/src/main/java/me/kdufse/apatch/plus/ui/viewmodel/APModuleViewModel.kt:58-63 | returns `modules` sorted by id; the new state is `AfterRead` of the old one |
| ModuleList.ModuleListModel.DisableAllModules | app/src/main/java/me/kdufse/apatch/plus/ui/viewmodel/APModuleViewModel.kt:72-82 | toggles off exactly the enabled modules, in list order, then the state is `FetchResult` of the old one |
| ModuleList.LoadKeepsCount | app/src/main/java/me/kdufse/apatch/plus/ui/viewmodel/APModuleViewModel.kt:99-123 | a well-formed array loads one module per element |
| ModuleList.MissingRequiredKeyFailsLoad | app/src/main/java/me/kdufse/apatch/plus/ui/viewmodel/APModuleViewModel.kt:103 | one record without `id` fails the whole load |
| ModuleList.PublishedEmptyIff | app/src/main/java/me/kdufse/apatch/plus/ui/viewmodel/APModuleViewModel.kt:58-63 | the published list is empty exactly when `modules` is |
| Strings.Trim | app/src/main/java/me/kdufse/apatch/plus/ui/viewmodel/APModuleViewModel.kt:164 | the result is a slice of the input with only whitespace before and after it, "" exactly for an all-whitespace string, and otherwise starts and ends with a non-whitespace character |
| Strings.ParseLong | app/src/main/java/me/kdufse/apatch/plus/ui/viewmodel/APModuleViewModel.kt:268 | `toLongOrNull` gives a value only for decimal digits after an optional `+` or `-`, and then their signed value; every such string whose value is in the Long range gives that value |
| Strings.ParseLongDecimal | app/src/main/java/me/kdufse/apatch/plus/ui/viewmodel/APModuleViewModel.kt:268 | `toLongOrNull` reads back the decimal rendering of every count in the Long range |
| Strings.ContainsIgnoreCase | app/src/main/java/me/kdufse/apatch/plus/ui/screen/APM.kt:224-226 | true exactly when the query occurs at some position, character by character ignoring case |
| Strings.ContainsIgnoresQueryCase | app/src/main/java/me/kdufse/apatch/plus/ui/screen/APM.kt:224-226 | upper-casing the query does not change the answer |
| ModuleScreen.FilterMatching | app/src/main/java/me/kdufse/apatch/plus/ui/screen/APM.kt:223-228 | keeps exactly the modules whose name, description or author contains the query ignoring case, each as often as in the list, in list order (a subsequence) |
| ModuleScreen.FilterModules | app/src/main/java/me/kdufse/apatch/plus/ui/screen/APM.kt:218-229 | an empty query shows the whole list; any other query shows the matching sublist |
| ModuleScreen.FilterEmptyQuery | app/src/main/java/me/kdufse/apatch/plus/ui/screen/APM.kt:219-222 | the empty-query shortcut agrees with the filter: every module contains "" |
| ModuleScreen.FilterIgnoresQueryCase | app/src/main/java/me/kdufse/apatch/plus/ui/screen/APM.kt:223-228 | the filtered list does not depend on the case of the query's letters |
| Sequences.SkipHeadKeepsSubsequence | app/src/main/java/me/kdufse/apatch/plus/ui/screen/APM.kt:223-228 | skipping a non-matching module keeps the result a subsequence of the list |
| ModuleScreen.EnterScreen | app/src/main/java/me/kdufse/apatch/plus/ui/screen/APM.kt:188-192 | reads the list, and fetches exactly when (`ShouldFetch`) it was empty or `isNeedRefresh` was set; the new state is the fetch of the read state, or the read state |
| ModuleScreen.MarkedStateFetches | app/src/main/java/me/kdufse/apatch/plus/ui/screen/APM.kt:188-192 | after `markNeedRefresh` the next visit fetches |
| ModuleScreen.LoadedStateSkipsFetch | app/src/main/java/me/kdufse/apatch/plus/ui/screen/APM.kt:188-192 | after a load that produced modules the next visit does not fetch |
| ModuleScreen.ResolvedBanner | app/src/main/java/me/kdufse/apatch/plus/ui/screen/APM.kt:782-818 | nothing when banners are off or the module names none; the banner unchanged when it is a web URL; else a file URI of the first of the ap and the magisk path that exists and is readable, nothing when neither is |
| ModuleScreen.FileUri | app/src/main/java/me/kdufse/apatch/plus/ui/screen/APM.kt:807 | a local banner is shown through the URI `file://` followed by its path |
| ModuleScreen.ResolveBannerData | app/src/main/java/me/kdufse/apatch/plus/ui/screen/APM.kt:797-816 | the loop over the probe paths with early return computes `ResolvedBanner` |
| ModuleScreen.ApDirectoryWins | app/src/main/java/me/kdufse/apatch/plus/ui/screen/APM.kt:797-804 | a readable banner in the ap directory is chosen whatever the magisk directory holds |
| ModuleScreen.OppositeDirectoryOrders | app/src/main/java/me/kdufse/apatch/plus/ui/screen/APM.kt:797-804 | a module whose banner was loaded from the Magisk-compatible root's `module.prop` has that banner's image loaded from the ap root when both roots hold it |
| ModuleScreen.ItemActionsOf | app/src/main/java/me/kdufse/apatch/plus/ui/screen/APM.kt:908-1080 | each control of an item, one per branch: the switch (line 908) is enabled exactly when no update is staged; the update button (line 982) shows exactly when the update URL is non-empty; the WebUI button (line 1012) exactly when the module has a WebUI; the action button (line 1044) exactly when it has an action script; the remove button (line 1080) is enabled exactly when no removal is staged |
| ModuleScreen.UpdateShownOnlyWhenActionable | app/src/main/java/me/kdufse/apatch/plus/ui/screen/APM.kt:982 | with the URL from `checkUpdate`, the update button shows only on an enabled module whose switch and remove button are usable and only for a newer versionCode |
| ModuleScreen.DownloadFileName | app/src/main/java/me/kdufse/apatch/plus/ui/screen/APM.kt:617 | the package is saved as the module name, "-", the version and ".zip" |
| ModuleScreen.DownloadSuffixIsSafe | app/src/main/java/me/kdufse/apatch/plus/ui/screen/APM.kt:617 | everything after the module's name in the download name is safe characters |
| ModuleScreen.InstallButtonHidden | app/src/main/java/me/kdufse/apatch/plus/ui/screen/APM.kt:211-214 | the install button is hidden exactly when Magisk is present (safe mode is the constant false) |
| ModuleScreen.ScreenState.constructor | app/src/main/java/me/kdufse/apatch/plus/ui/screen/APM.kt:194 | the query starts empty and no package is pending |
| ModuleScreen.ScreenState.SetSearchQuery | app/src/main/java/me/kdufse/apatch/plus/ui/screen/APM.kt:233 | the search bar sets the query |
| ModuleScreen.ScreenState.VisibleModules | app/src/main/java/me/kdufse/apatch/plus/ui/screen/APM.kt:217-229 | the shown list is the sorted module list filtered by the query |
| ModuleScreen.ScreenState.OnZipSelected | app/src/main/java/me/kdufse/apatch/plus/ui/screen/APM.kt:238-272 | nothing happens without an OK result and a URI; with confirmation on the URI waits for the dialog; otherwise the install screen opens and a reload is asked for |
| ModuleScreen.ScreenState.OnInstallConfirmed | app/src/main/java/me/kdufse/apatch/plus/ui/screen/APM.kt:196-202 | a pending package is installed and a reload asked for; the pending URI is cleared either way |
| ModuleScreen.ScreenState.OnInstallDismissed | app/src/main/java/me/kdufse/apatch/plus/ui/screen/APM.kt:203-205 | the pending URI is cleared |
| ModuleScreen.ModuleItemState.constructor | app/src/main/java/me/kdufse/apatch/plus/ui/screen/APM.kt:568 | an item's switch starts at the module's enabled flag |
| ModuleScreen.ModuleItemState.OnCheckChanged | app/src/main/java/me/kdufse/apatch/plus/ui/screen/APM.kt:586-609 | asks to set the opposite of the remembered position; on success the switch takes the requested position, the list is fetched and a reboot suggested; on failure nothing changes and the note says "failed to disable" when the switch was on, "failed to enable" otherwise |

## Left out

- Network: the OkHttp request of `checkUpdate` is an input (`HttpResponse`), and the changelog download and the package download are not modelled.
- org.json: the JSON text is given already parsed, as records with optional fields; a value org.json would coerce (a number string for `versionCode`, JSON `null`) is taken as already converted. The manifest parser of `checkUpdate` is a function parameter.
- Root shell and `SuFile`: `listModules`, `toggleModule`, `uninstallModule` and the `du` job are inputs; the filesystem is a set of paths plus file lines. An exception from `exists`, `canRead` or `isDirectory` is not modelled; only a failing `readText` is.
- `Collator`: the locale collation is a comparator parameter assumed to be a total preorder. The sort is an insertion sort; `sortedWith` is stable, and the model does not state stability.
- `Patterns.WEB_URL`: a predicate parameter `isWebUrl`.
- ModuleScreen.FileUri: `Uri.fromFile(file).toString()` is modelled as `file://` followed by the path as built. `Uri.fromFile` encodes the path as `Uri.encode(path, "/")` does, escaping every character other than letters, digits, `_-!.~'()*` and `/` (spaces, `#`, `%`, `+` and all non-ASCII characters), so `my banner.png` is shown as `my%20banner.png` in the app and stays `my banner.png` in the model. `java.io.File`'s path normalisation (repeated `/` collapsed, a trailing `/` dropped) is not modelled either: a banner such as `/x.png` gives `…/<id>//x.png` in the model where the app shows `…/<id>/x.png`.
- ModuleSize.FormatFileSize: the number rendering (`DecimalFormat("#,##0.#")`, `log10`, `pow`) is floating point and not modelled; the unit is the exact integer floor of log base 1024. The floating-point quotient may round differently near exact powers of 1024.
- Strings.ContainsIgnoreCase: case is folded for ASCII letters only; Kotlin also folds other Unicode letters.
- Strings.ParseLong: only ASCII digits are accepted; Kotlin's `toLongOrNull` also accepts other Unicode decimal digits.
- Strings and lengths count Unicode scalar values, not UTF-16 code units.
- Coroutines: each launched block runs to completion before the next; the race between concurrent `fetchModuleList` calls (last write wins) is not modelled.
- `modules` lives in the view model's companion object and is shared by all instances; the model holds it in one object.
- Logging, `SystemClock` timing, snackbars, dialogs, the reboot action, navigation targets, the WebUI launcher's refetch, the action button, `SharedPreferences` listeners and all Compose rendering.
- `MainActivity` and `BottomBar` are not part of this model.
