/**
 * The module screen's own rules: the search filter over the published list, the
 * refresh on entering the screen, where an item's banner image is loaded from, which
 * of an item's buttons are enabled or shown, the toggle callback, and the install
 * flow behind the floating button. Compose rendering is outside the model; the
 * state the screen keeps (`searchQuery`, `pendingInstallUri`, each item's
 * `isChecked`) is held in classes.
 */
module ModuleScreen {
  import opened Wrappers
  import opened Strings
  import opened ModuleTypes
  import opened VersionSanitizer
  import opened UpdateCheck
  import opened ModuleList
  import opened BannerLookup
  import opened Sequences

  // ---------------------------------------------------------------------------
  // Search

  /** A module matches a query when its name, description or author contains it, ignoring case. */
  predicate MatchesQuery(m: ModuleInfo, q: string) {
    ContainsIgnoreCase(m.name, q) || ContainsIgnoreCase(m.description, q) || ContainsIgnoreCase(m.author, q)
  }

  /** `list.filter { matches }`: the matching modules, each as often as in `list`, in their order. */
  function FilterMatching(list: seq<ModuleInfo>, q: string): (r: seq<ModuleInfo>)
    ensures |r| <= |list|
    ensures forall k :: 0 <= k < |r| ==> MatchesQuery(r[k], q)
    ensures forall m :: multiset(r)[m] == if MatchesQuery(m, q) then multiset(list)[m] else 0
    ensures IsSubsequence(r, list)
  {
    if list == [] then []
    else
      var rest := FilterMatching(list[1..], q);
      assert list == [list[0]] + list[1..];
      if MatchesQuery(list[0], q) then
        assert ([list[0]] + rest)[1..] == rest;
        [list[0]] + rest
      else
        SkipHeadKeepsSubsequence(rest, list);
        rest
  }

  /** `filteredModuleList`: the whole list for an empty query, else the matching modules. */
  function FilterModules(list: seq<ModuleInfo>, q: string): (r: seq<ModuleInfo>)
    ensures q == "" ==> r == list
    ensures q != "" ==> r == FilterMatching(list, q)
  {
    if q == "" then list else FilterMatching(list, q)
  }

  /** Every module contains the empty query, so the filter alone would also keep the whole list. */
  lemma {:induction false} FilterEmptyQuery(list: seq<ModuleInfo>)
    ensures FilterMatching(list, "") == list
  {
    if list != [] {
      assert RegionMatches(list[0].name, 0, "");
      FilterEmptyQuery(list[1..]);
    }
  }

  /** The filter does not depend on the case of the query's ASCII letters. */
  lemma FilterIgnoresQueryCase(list: seq<ModuleInfo>, q: string)
    ensures FilterModules(list, q) == FilterModules(list, UpperAsciiString(q)) || q == ""
    ensures q != "" ==> FilterMatching(list, q) == FilterMatching(list, UpperAsciiString(q))
  {
    if q != "" {
      FilterMatchingIgnoresCase(list, q);
      assert |UpperAsciiString(q)| == |q|;
    }
  }

  lemma {:induction false} FilterMatchingIgnoresCase(list: seq<ModuleInfo>, q: string)
    ensures FilterMatching(list, q) == FilterMatching(list, UpperAsciiString(q))
  {
    if list != [] {
      var m := list[0];
      ContainsIgnoresQueryCase(m.name, q);
      ContainsIgnoresQueryCase(m.description, q);
      ContainsIgnoresQueryCase(m.author, q);
      FilterMatchingIgnoresCase(list[1..], q);
    }
  }

  // ---------------------------------------------------------------------------
  // Entering the screen

  /** The screen reloads on entry when the published list is empty or a reload was asked for. */
  predicate ShouldFetch(s: ListState) {
    s.modules == [] || s.isNeedRefresh
  }

  /**
   * The `LaunchedEffect` run when the screen is entered: reads `moduleList` and, when it is
   * empty or `isNeedRefresh` is set, fetches the list again.
   */
  method EnterScreen(vm: ModuleListModel, listing: Option<seq<JsonElement>>, fs: FileSystem,
                     leq: (string, string) -> bool) returns (fetched: bool)
    requires TotalPreorder(leq)
    modifies vm`modules, vm`isRefreshing, vm`isNeedRefresh, vm`listStale
    ensures fetched == ShouldFetch(old(vm.State()))
    ensures vm.State() ==
      if fetched then FetchResult(AfterRead(old(vm.State())), listing, fs) else AfterRead(old(vm.State()))
  {
    var list := vm.ReadModuleList(leq);
    PublishedEmptyIff(vm.modules, leq);
    fetched := list == [] || vm.isNeedRefresh;
    if fetched {
      vm.FetchModuleList(listing, fs);
    }
  }

  /** Asking for a reload always makes the next visit fetch. */
  lemma MarkedStateFetches(s: ListState)
    ensures ShouldFetch(s.(isNeedRefresh := true))
  {
  }

  /** After a load that produced modules, the next visit does not fetch again until a reload is asked for. */
  lemma LoadedStateSkipsFetch(s: ListState, listing: Option<seq<JsonElement>>, fs: FileSystem)
    requires LoadModules(listing, fs).Some? && LoadModules(listing, fs).value != []
    ensures !ShouldFetch(AfterRead(FetchResult(AfterRead(s), listing, fs)))
  {
  }

  // ---------------------------------------------------------------------------
  // Banner image of an item

  /** The image an item shows: a web address as written, or a local file as a `file://` URI. */
  function FileUri(path: string): (u: string)
    ensures |u| == |path| + 7 && u[..7] == "file://" && u[7..] == path
  {
    "file://" + path
  }

  /** The two places a relative banner is probed, APatch's own directory first. */
  function ProbePaths(m: ModuleInfo): (paths: seq<string>)
    ensures |paths| == 2
  {
    [ApModulesRoot + m.id + "/" + m.banner, ModulesRoot + m.id + "/" + m.banner]
  }

  predicate Loadable(fs: FileSystem, path: string) {
    fs.Exists(path) && fs.CanRead(path)
  }

  /**
   * `bannerData`, given `isWebUrl`, the web-address recogniser: nothing when banners are off
   * or the module names none; the banner itself when it is a web address; else the first
   * probed path that exists and can be read, as a file URI; nothing when neither can.
   */
  function ResolvedBanner(useBanner: bool, m: ModuleInfo, isWebUrl: string -> bool, fs: FileSystem): (r: Option<string>)
    ensures !useBanner || m.banner == "" ==> r == None
    ensures useBanner && m.banner != "" && isWebUrl(m.banner) ==> r == Some(m.banner)
    ensures useBanner && m.banner != "" && !isWebUrl(m.banner) ==>
      (r.Some? <==> exists k :: 0 <= k < 2 && Loadable(fs, ProbePaths(m)[k]))
    ensures useBanner && m.banner != "" && !isWebUrl(m.banner) && r.Some? ==>
      exists k :: 0 <= k < 2 && Loadable(fs, ProbePaths(m)[k]) && r.value == FileUri(ProbePaths(m)[k])
        && forall j :: 0 <= j < k ==> !Loadable(fs, ProbePaths(m)[j])
  {
    if !useBanner || m.banner == "" then None
    else if isWebUrl(m.banner) then Some(m.banner)
    else
      var paths := ProbePaths(m);
      if Loadable(fs, paths[0]) then Some(FileUri(paths[0]))
      else if Loadable(fs, paths[1]) then Some(FileUri(paths[1]))
      else None
  }

  /** The loop `bannerData` runs: the probed paths in order, returning at the first loadable one. */
  method ResolveBannerData(useBanner: bool, m: ModuleInfo, isWebUrl: string -> bool, fs: FileSystem)
    returns (r: Option<string>)
    ensures r == ResolvedBanner(useBanner, m, isWebUrl, fs)
  {
    if !useBanner || m.banner == "" {
      return None;
    }
    if isWebUrl(m.banner) {
      return Some(m.banner);
    }
    var paths := ProbePaths(m);
    var i := 0;
    while i < |paths|
      invariant 0 <= i <= |paths|
      invariant forall j :: 0 <= j < i ==> !Loadable(fs, paths[j])
    {
      if Loadable(fs, paths[i]) {
        return Some(FileUri(paths[i]));
      }
      i := i + 1;
    }
    return None;
  }

  /** A banner present in both module roots is loaded from APatch's own directory. */
  lemma ApDirectoryWins(useBanner: bool, m: ModuleInfo, isWebUrl: string -> bool, fs: FileSystem)
    requires useBanner && m.banner != "" && !isWebUrl(m.banner)
    requires Loadable(fs, ApModulesRoot + m.id + "/" + m.banner)
    ensures ResolvedBanner(useBanner, m, isWebUrl, fs) == Some(FileUri(ApModulesRoot + m.id + "/" + m.banner))
  {
  }

  /**
   * A filesystem where the Magisk-compatible `module.prop` of module `id` names `banner`
   * and an image of that name is readable in both module roots.
   */
  function BannerInBothRoots(id: string, banner: string): FileSystem {
    var modulesProp := ModulesRoot + id + "/module.prop";
    var apImage := ApModulesRoot + id + "/" + banner;
    var modulesImage := ModulesRoot + id + "/" + banner;
    FileSystem({modulesProp, apImage, modulesImage}, {}, {modulesProp, apImage, modulesImage},
               map[modulesProp := ["banner=" + banner]])
  }

  /** A `module.prop` of the one line `banner=<banner>` yields `banner` when it is trimmed and not blank. */
  lemma SingleBannerLine(banner: string)
    requires banner != "" && Trim(banner) == banner
    ensures FirstBannerValue(["banner=" + banner]) == banner
  {
    var line := "banner=" + banner;
    assert StartsWith(line, BannerKey) && line[|BannerKey|..] == banner;
  }

  /**
   * The screen and the view model search the two roots in opposite orders: a module whose
   * banner the view model read from the Magisk-compatible root's `module.prop` has that
   * banner loaded from APatch's own directory when both roots hold the image.
   */
  lemma OppositeDirectoryOrders(obj: JsonModule, banner: string, isWebUrl: string -> bool)
    requires HasRequiredKeys(obj)
    requires banner != "" && Trim(banner) == banner && !isWebUrl(banner)
    ensures var fs := BannerInBothRoots(obj.id.value, banner);
      var m := ParseModule(ObjectElement(obj), fs);
      && m.Some? && m.value.banner == banner
      && ResolvedBanner(true, m.value, isWebUrl, fs) == Some(FileUri(ApModulesRoot + obj.id.value + "/" + banner))
  {
    var id := obj.id.value;
    var fs := BannerInBothRoots(id, banner);
    assert ModuleBanner(fs, id) == banner by {
      SingleBannerLine(banner);
      ModulesRootPropFirst(fs, id);
    }
    var m := ParseModule(ObjectElement(obj), fs);
    assert m.Some? && m.value.id == id && m.value.banner == banner;
    assert Loadable(fs, ApModulesRoot + id + "/" + banner);
    ApDirectoryWins(true, m.value, isWebUrl, fs);
  }

  // ---------------------------------------------------------------------------
  // Buttons of an item

  /** Which controls of an item are enabled or shown. */
  datatype ItemActions = ItemActions(
    switchEnabled: bool,
    removeEnabled: bool,
    updateShown: bool,
    webUiShown: bool,
    actionShown: bool
  )

  /** The controls of `ModuleItem` for module `m` and the update URL `checkUpdate` found for it. */
  function ItemActionsOf(m: ModuleInfo, updateUrl: string): (a: ItemActions)
    // a staged update locks the switch; a staged removal locks the remove button
    ensures a.switchEnabled <==> !m.update
    ensures a.removeEnabled <==> !m.remove
    ensures a.updateShown <==> updateUrl != ""
    ensures a.webUiShown <==> m.hasWebUi
    ensures a.actionShown <==> m.hasActionScript
  {
    ItemActions(!m.update, !m.remove, updateUrl != "", m.hasWebUi, m.hasActionScript)
  }

  /**
   * With the URL `checkUpdate` returns, the update button appears only on an enabled module
   * whose switch and remove button are both usable, and only for a strictly newer versionCode.
   */
  lemma UpdateShownOnlyWhenActionable(m: ModuleInfo, response: HttpResponse, parseObject: string -> Option<Manifest>)
    ensures var a := ItemActionsOf(m, CheckUpdate(m, response, parseObject).zipUrl);
      a.updateShown ==>
        && a.switchEnabled && a.removeEnabled && m.enabled
        && parseObject(ResponseText(response)).Some?
        && parseObject(ResponseText(response)).value.versionCode.GetOr(0) > m.versionCode
  {
  }

  /** The name the update package is downloaded under: `<name>-<version>.zip`. */
  function DownloadFileName(name: string, version: string): (f: string)
    ensures |f| == |name| + |version| + 5
    ensures f[..|name|] == name && f[|name|] == '-' && f[|name| + 1..|name| + 1 + |version|] == version
    ensures f[|f| - 4..] == ".zip"
  {
    name + "-" + version + ".zip"
  }

  /** Whatever the manifest said, the part of the download name after the module's name is made of safe characters. */
  lemma DownloadSuffixIsSafe(m: ModuleInfo, response: HttpResponse, parseObject: string -> Option<Manifest>)
    ensures var c := CheckUpdate(m, response, parseObject);
      IsSafe(DownloadFileName(m.name, c.version)[|m.name|..])
  {
    var c := CheckUpdate(m, response, parseObject);
    SafeVersionSuffix(m.name, c.version);
  }

  /** A safe version gives a download name whose part after the module's name is safe. */
  lemma SafeVersionSuffix(name: string, version: string)
    requires IsSafe(version)
    ensures IsSafe(DownloadFileName(name, version)[|name|..])
  {
    var suffix := DownloadFileName(name, version)[|name|..];
    assert suffix == "-" + version + ".zip";
    forall k | 0 <= k < |suffix| ensures IsSafeChar(suffix[k]) {
      if 1 <= k < 1 + |version| {
        assert suffix[k] == version[k - 1];
      }
    }
  }

  // ---------------------------------------------------------------------------
  // The install button

  /** Safe mode is not queried: the screen uses a constant `false` in its place. */
  const IsSafeMode: bool := false

  /** The floating install button is hidden in safe mode or when Magisk is installed. */
  function InstallButtonHidden(hasMagisk: bool): (hidden: bool)
    ensures hidden <==> hasMagisk
  {
    IsSafeMode || hasMagisk
  }

  /** What the module screen itself remembers. */
  class ScreenState {
    var searchQuery: string
    /** The picked package awaiting the user's confirmation. */
    var pendingInstallUri: Option<string>

    constructor ()
      ensures searchQuery == "" && pendingInstallUri == None
    {
      searchQuery := "";
      pendingInstallUri := None;
    }

    /** The search bar's callback. */
    method SetSearchQuery(q: string)
      modifies this`searchQuery
      ensures searchQuery == q
    {
      searchQuery := q;
    }

    /** The list the screen shows: `moduleList` filtered by the current query. */
    method VisibleModules(vm: ModuleListModel, leq: (string, string) -> bool) returns (shown: seq<ModuleInfo>)
      requires TotalPreorder(leq)
      modifies vm`isRefreshing, vm`listStale
      ensures shown == FilterModules(SortById(vm.modules, leq), searchQuery)
      ensures vm.State() == AfterRead(old(vm.State()))
    {
      var list := vm.ReadModuleList(leq);
      shown := FilterModules(list, searchQuery);
    }

    /**
     * The result of the package picker: nothing happens unless it returned OK with a URI.
     * With confirmation on, the URI waits for the dialog; with it off, the install screen
     * opens at once (`navigateTo`) and a reload is asked for.
     */
    method OnZipSelected(resultOk: bool, uri: Option<string>, confirmEnabled: bool, vm: ModuleListModel)
      returns (navigateTo: Option<string>, askConfirm: bool)
      modifies this`pendingInstallUri, vm`isNeedRefresh
      ensures !resultOk || uri.None? ==>
        navigateTo == None && !askConfirm && pendingInstallUri == old(pendingInstallUri)
        && vm.isNeedRefresh == old(vm.isNeedRefresh)
      ensures resultOk && uri.Some? && confirmEnabled ==>
        navigateTo == None && askConfirm && pendingInstallUri == uri && vm.isNeedRefresh == old(vm.isNeedRefresh)
      ensures resultOk && uri.Some? && !confirmEnabled ==>
        navigateTo == uri && !askConfirm && pendingInstallUri == old(pendingInstallUri) && vm.isNeedRefresh
    {
      navigateTo := None;
      askConfirm := false;
      if !resultOk || uri.None? {
        return;
      }
      if confirmEnabled {
        pendingInstallUri := uri;
        askConfirm := true;
      } else {
        navigateTo := uri;
        vm.MarkNeedRefresh();
      }
    }

    /** The dialog's confirm button: installs the pending package, if any, and forgets it. */
    method OnInstallConfirmed(vm: ModuleListModel) returns (navigateTo: Option<string>)
      modifies this`pendingInstallUri, vm`isNeedRefresh
      ensures navigateTo == old(pendingInstallUri) && pendingInstallUri == None
      ensures vm.isNeedRefresh == (old(vm.isNeedRefresh) || navigateTo.Some?)
    {
      navigateTo := pendingInstallUri;
      if pendingInstallUri.Some? {
        vm.MarkNeedRefresh();
      }
      pendingInstallUri := None;
    }

    /** The dialog's dismiss button: forgets the pending package. */
    method OnInstallDismissed()
      modifies this`pendingInstallUri
      ensures pendingInstallUri == None
    {
      pendingInstallUri := None;
    }
  }

  // ---------------------------------------------------------------------------
  // The enable switch of an item

  /** The snackbar shown after the switch was flipped. */
  datatype ToggleNote = RebootToApply | FailedToDisable(name: string) | FailedToEnable(name: string)

  /** One item of the list: its module and the switch position it remembers. */
  class ModuleItemState {
    const item: ModuleInfo
    var isChecked: bool

    constructor (m: ModuleInfo)
      ensures item == m && isChecked == m.enabled
    {
      item := m;
      isChecked := m.enabled;
    }

    /**
     * `onCheckChanged(requested)`: asks the shell to set the module to the opposite of the
     * remembered position (`enable`); `toggleSucceeded` is what the shell answered. On
     * success the switch takes the requested position, the list is fetched again and a
     * reboot is suggested; on failure nothing changes and the note names what failed,
     * judged by the remembered position.
     */
    method OnCheckChanged(requested: bool, toggleSucceeded: bool, vm: ModuleListModel,
                          listing: Option<seq<JsonElement>>, fs: FileSystem)
      returns (enable: bool, note: ToggleNote)
      modifies this`isChecked, vm`modules, vm`isRefreshing, vm`isNeedRefresh, vm`listStale
      ensures enable == !old(isChecked)
      ensures toggleSucceeded ==>
        isChecked == requested && note == RebootToApply && vm.State() == FetchResult(old(vm.State()), listing, fs)
      ensures !toggleSucceeded ==>
        isChecked == old(isChecked) && vm.State() == old(vm.State())
        && note == (if isChecked then FailedToDisable(item.name) else FailedToEnable(item.name))
    {
      enable := !isChecked;
      if toggleSucceeded {
        isChecked := requested;
        vm.FetchModuleList(listing, fs);
        note := RebootToApply;
      } else {
        note := if isChecked then FailedToDisable(item.name) else FailedToEnable(item.name);
      }
    }
  }
}
