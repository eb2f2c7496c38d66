/**
 * The module-list state of `APModuleViewModel`: the loaded `modules`, the
 * `isRefreshing` and `isNeedRefresh` flags, and the published `moduleList`, which
 * is `modules` sorted by id. The enumerator's output and the collator are inputs.
 */
module ModuleList {
  import opened Wrappers
  import opened ModuleTypes
  import BannerLookup
  import opened Sequences

  // ---------------------------------------------------------------------------
  // Loading: from the enumerator's JSON array to ModuleInfo records

  /** The keys read with `getString`/`getBoolean`, whose absence throws. */
  predicate HasRequiredKeys(obj: JsonModule) {
    obj.id.Some? && obj.enabled.Some? && obj.update.Some? && obj.remove.Some?
  }

  predicate WellFormed(e: JsonElement) {
    e.ObjectElement? && HasRequiredKeys(e.obj)
  }

  /** One element of the array as `fetchModuleList` maps it; `None` where the mapping throws. */
  function ParseModule(e: JsonElement, fs: FileSystem): (r: Option<ModuleInfo>)
    ensures r.Some? <==> WellFormed(e)
    ensures r.Some? ==>
      var o := e.obj;
      && r.value.id == o.id.value
      && r.value.enabled == o.enabled.value && r.value.update == o.update.value && r.value.remove == o.remove.value
      && r.value.name == o.name.GetOr("") && r.value.description == o.description.GetOr("")
      && r.value.author == o.author.GetOr("Unknown") && r.value.version == o.version.GetOr("Unknown")
      && r.value.versionCode == o.versionCode.GetOr(0)
      && r.value.updateJson == o.updateJson.GetOr("")
      && r.value.hasWebUi == o.web.GetOr(false) && r.value.hasActionScript == o.action.GetOr(false)
      && r.value.banner == BannerLookup.ModuleBanner(fs, o.id.value)
  {
    match e
    case OtherElement => None
    case ObjectElement(o) =>
      if !HasRequiredKeys(o) then None
      else
        var id := o.id.value;
        Some(ModuleInfo(
          id,
          o.name.GetOr(""),
          o.author.GetOr("Unknown"),
          o.version.GetOr("Unknown"),
          o.versionCode.GetOr(0),
          o.description.GetOr(""),
          o.enabled.value,
          o.update.value,
          o.remove.value,
          o.updateJson.GetOr(""),
          o.web.GetOr(false),
          o.action.GetOr(false),
          BannerLookup.ModuleBanner(fs, id)))
  }

  /** The whole array: every element mapped in order, or `None` as soon as one mapping throws. */
  function ParseModules(elements: seq<JsonElement>, fs: FileSystem): (r: Option<seq<ModuleInfo>>)
    ensures r.Some? <==> forall k :: 0 <= k < |elements| ==> WellFormed(elements[k])
    ensures r.Some? ==> (|r.value| == |elements|
      && forall k :: 0 <= k < |elements| ==> Some(r.value[k]) == ParseModule(elements[k], fs))
  {
    if elements == [] then Some([])
    else
      match ParseModule(elements[0], fs)
      case None => None
      case Some(m) =>
        var rest := ParseModules(elements[1..], fs);
        assert forall k :: 1 <= k < |elements| ==> elements[k] == elements[1..][k - 1];
        if rest.None? then None else Some([m] + rest.value)
  }

  /** `JSONArray(listModules())`: `None` when the output is not a JSON array (or the shell threw). */
  function LoadModules(listing: Option<seq<JsonElement>>, fs: FileSystem): (r: Option<seq<ModuleInfo>>)
    ensures r.Some? <==> listing.Some? && forall k :: 0 <= k < |listing.value| ==> WellFormed(listing.value[k])
    ensures r.Some? ==> (|r.value| == |listing.value|
      && forall k :: 0 <= k < |r.value| ==> Some(r.value[k]) == ParseModule(listing.value[k], fs))
  {
    if listing.None? then None else ParseModules(listing.value, fs)
  }

  // ---------------------------------------------------------------------------
  // Publishing: modules sorted by id under the locale's collator

  /** The collator's order on ids, as a "comes no later than" relation: total and transitive. */
  ghost predicate TotalPreorder(leq: (string, string) -> bool) {
    && (forall a, b :: leq(a, b) || leq(b, a))
    && (forall a, b, c :: leq(a, b) && leq(b, c) ==> leq(a, c))
  }

  predicate SortedById(ms: seq<ModuleInfo>, leq: (string, string) -> bool) {
    forall i, j :: 0 <= i < j < |ms| ==> leq(ms[i].id, ms[j].id)
  }

  /** Inserts `m` before the first module it does not come after. */
  function InsertById(m: ModuleInfo, ms: seq<ModuleInfo>, leq: (string, string) -> bool): (r: seq<ModuleInfo>)
    ensures multiset(r) == multiset(ms) + multiset{m}
  {
    if ms == [] then [m]
    else if leq(m.id, ms[0].id) then [m] + ms
    else
      assert ms == [ms[0]] + ms[1..];
      [ms[0]] + InsertById(m, ms[1..], leq)
  }

  /** A module that comes no later than every module of a sorted list may lead it. */
  lemma PrependSorted(x: ModuleInfo, ms: seq<ModuleInfo>, leq: (string, string) -> bool)
    requires SortedById(ms, leq)
    requires forall k :: 0 <= k < |ms| ==> leq(x.id, ms[k].id)
    ensures SortedById([x] + ms, leq)
  {
    var r := [x] + ms;
    forall i, j | 0 <= i < j < |r| ensures leq(r[i].id, r[j].id) {
      assert r[j] == ms[j - 1];
      if i > 0 {
        assert r[i] == ms[i - 1];
      }
    }
  }

  /** Inserting into a sorted list keeps it sorted. */
  lemma {:induction false} InsertSorted(m: ModuleInfo, ms: seq<ModuleInfo>, leq: (string, string) -> bool)
    requires TotalPreorder(leq)
    requires SortedById(ms, leq)
    ensures SortedById(InsertById(m, ms, leq), leq)
  {
    if ms == [] {
    } else if leq(m.id, ms[0].id) {
      forall k | 0 <= k < |ms| ensures leq(m.id, ms[k].id) {
        if k > 0 {
          assert leq(ms[0].id, ms[k].id);
        }
      }
      PrependSorted(m, ms, leq);
    } else {
      var rest := ms[1..];
      assert SortedById(rest, leq) by {
        forall i, j | 0 <= i < j < |rest| ensures leq(rest[i].id, rest[j].id) {
          assert rest[i] == ms[i + 1] && rest[j] == ms[j + 1];
        }
      }
      InsertSorted(m, rest, leq);
      var tail := InsertById(m, rest, leq);
      assert leq(ms[0].id, m.id);
      forall k | 0 <= k < |tail| ensures leq(ms[0].id, tail[k].id) {
        var x := tail[k];
        assert x in multiset(tail);
        if x != m {
          assert x in multiset(rest);
          var k' :| 0 <= k' < |rest| && rest[k'] == x;
          assert ms[k' + 1] == x;
        }
      }
      PrependSorted(ms[0], tail, leq);
    }
  }

  /** `modules.sortedWith(compareBy(collator, ModuleInfo::id))`, as an insertion sort. */
  function SortById(ms: seq<ModuleInfo>, leq: (string, string) -> bool): (r: seq<ModuleInfo>)
    requires TotalPreorder(leq)
    ensures multiset(r) == multiset(ms)
    ensures |r| == |ms|
    ensures SortedById(r, leq)
  {
    if ms == [] then []
    else
      assert ms == [ms[0]] + ms[1..];
      var sortedRest := SortById(ms[1..], leq);
      InsertSorted(ms[0], sortedRest, leq);
      var r := InsertById(ms[0], sortedRest, leq);
      assert |r| == |multiset(r)|;
      r
  }

  /** The ids of `ms`, in list order. */
  function Ids(ms: seq<ModuleInfo>): (ids: seq<string>)
    ensures |ids| == |ms| && forall k :: 0 <= k < |ms| ==> ids[k] == ms[k].id
  {
    seq(|ms|, k requires 0 <= k < |ms| => ms[k].id)
  }

  /** Ids of the enabled modules, in list order: the modules `disableAllModules` switches off. */
  function EnabledIds(ms: seq<ModuleInfo>): (ids: seq<string>)
    ensures |ids| <= |ms|
    ensures (set id | id in ids) == (set m | m in ms && m.enabled :: m.id)
    ensures IsSubsequence(ids, Ids(ms))
  {
    if ms == [] then []
    else
      assert ms == [ms[0]] + ms[1..];
      assert (set m | m in ms && m.enabled :: m.id)
        == (if ms[0].enabled then {ms[0].id} else {}) + (set m | m in ms[1..] && m.enabled :: m.id);
      var rest := EnabledIds(ms[1..]);
      assert Ids(ms)[1..] == Ids(ms[1..]);
      if ms[0].enabled then
        assert ([ms[0].id] + rest)[1..] == rest;
        [ms[0].id] + rest
      else
        SkipHeadKeepsSubsequence(rest, Ids(ms));
        rest
  }

  // ---------------------------------------------------------------------------
  // The view model's state

  /** A snapshot of the view model's fields. */
  datatype ListState = ListState(modules: seq<ModuleInfo>, isRefreshing: bool, isNeedRefresh: bool, listStale: bool)

  /**
   * The state `fetchModuleList` leaves behind. A load that fails anywhere keeps the old list
   * and `isNeedRefresh` and clears `isRefreshing`; a load that succeeds replaces the list
   * wholesale and clears `isNeedRefresh`, and `isRefreshing` stays set only while a new list
   * awaits publishing: an empty list loaded over an empty list is the same `emptyList()`
   * object and publishes nothing.
   */
  function FetchResult(s: ListState, listing: Option<seq<JsonElement>>, fs: FileSystem): (t: ListState)
    ensures LoadModules(listing, fs).None? ==>
      t.modules == s.modules && t.isNeedRefresh == s.isNeedRefresh && !t.isRefreshing && t.listStale == s.listStale
    ensures LoadModules(listing, fs).Some? ==>
      && t.modules == LoadModules(listing, fs).value && !t.isNeedRefresh
      && t.isRefreshing == !(s.modules == [] && t.modules == [])
      && t.listStale == (s.listStale || t.isRefreshing)
  {
    match LoadModules(listing, fs)
    case None => s.(isRefreshing := false)
    case Some(loaded) =>
      var replaced := !(s.modules == [] && loaded == []);
      ListState(loaded, replaced, false, s.listStale || replaced)
  }

  /**
   * Loading the same output twice leaves the same list, `isNeedRefresh` and pending
   * publication as loading it once; `isRefreshing` may differ (a second empty load over an
   * empty list is the same object and clears it).
   */
  lemma FetchIdempotent(s: ListState, listing: Option<seq<JsonElement>>, fs: FileSystem)
    ensures var once := FetchResult(s, listing, fs);
      var twice := FetchResult(once, listing, fs);
      twice.modules == once.modules && twice.isNeedRefresh == once.isNeedRefresh && twice.listStale == once.listStale
  {
  }

  /**
   * The state after `moduleList` is read: deriving a list that was replaced since the last
   * read clears `isRefreshing`; nothing else changes.
   */
  function AfterRead(s: ListState): (t: ListState)
    ensures t.modules == s.modules && t.isNeedRefresh == s.isNeedRefresh && !t.listStale
    ensures t.isRefreshing <==> s.isRefreshing && !s.listStale
  {
    s.(isRefreshing := s.isRefreshing && !s.listStale, listStale := false)
  }

  class ModuleListModel {
    /** The loaded modules, in the enumerator's order (the companion object's `modules`). */
    var modules: seq<ModuleInfo>
    var isRefreshing: bool
    var isNeedRefresh: bool
    /**
     * Whether `modules` was replaced since `moduleList` was last derived; deriving it again
     * is what clears `isRefreshing` after a load that changed the list.
     */
    var listStale: bool

    function State(): ListState
      reads this
    {
      ListState(modules, isRefreshing, isNeedRefresh, listStale)
    }

    constructor ()
      ensures State() == ListState([], false, false, true)
    {
      modules := [];
      isRefreshing := false;
      isNeedRefresh := false;
      listStale := true;
    }

    /** `markNeedRefresh`: asks the screen to reload on its next visit. */
    method MarkNeedRefresh()
      modifies this`isNeedRefresh
      ensures State() == old(State()).(isNeedRefresh := true)
    {
      isNeedRefresh := true;
    }

    /**
     * `fetchModuleList`, given what the enumerator printed (`None` when it is not a JSON array)
     * and the filesystem the banner lookup sees.
     */
    method FetchModuleList(listing: Option<seq<JsonElement>>, fs: FileSystem)
      modifies this`modules, this`isRefreshing, this`isNeedRefresh, this`listStale
      ensures State() == FetchResult(old(State()), listing, fs)
    {
      isRefreshing := true;
      var oldModules := modules;
      var replaced := false;
      match LoadModules(listing, fs)
      case None =>
        isRefreshing := false;
      case Some(loaded) =>
        replaced := !(oldModules == [] && loaded == []);
        modules := loaded;
        isNeedRefresh := false;
        if replaced {
          listStale := true;
        }
      if !replaced {
        isRefreshing := false;
      }
    }

    /**
     * Reading `moduleList`: the modules sorted by id under `leq`. When the list was replaced
     * since it was last derived, deriving it again clears `isRefreshing`.
     */
    method ReadModuleList(leq: (string, string) -> bool) returns (list: seq<ModuleInfo>)
      requires TotalPreorder(leq)
      modifies this`isRefreshing, this`listStale
      ensures list == SortById(modules, leq)
      ensures State() == AfterRead(old(State()))
    {
      list := SortById(modules, leq);
      if listStale {
        isRefreshing := false;
        listStale := false;
      }
    }

    /**
     * `disableAllModules`: switches off every enabled module, in list order, then reloads.
     * `toggled` lists the ids handed to `toggleModule(id, false)`; `listing` is what the
     * enumerator prints afterwards.
     */
    method DisableAllModules(listing: Option<seq<JsonElement>>, fs: FileSystem) returns (toggled: seq<string>)
      modifies this`modules, this`isRefreshing, this`isNeedRefresh, this`listStale
      ensures toggled == EnabledIds(old(modules))
      ensures State() == FetchResult(old(State()), listing, fs)
    {
      isRefreshing := true;
      toggled := [];
      var i := 0;
      while i < |modules|
        invariant 0 <= i <= |modules|
        invariant EnabledIds(modules) == toggled + EnabledIds(modules[i..])
      {
        assert modules[i..][1..] == modules[i + 1..];
        if modules[i].enabled {
          toggled := toggled + [modules[i].id];
        }
        i := i + 1;
      }
      FetchModuleList(listing, fs);
    }
  }

  /** Loading never changes how many modules the array held: one module per element. */
  lemma LoadKeepsCount(elements: seq<JsonElement>, fs: FileSystem)
    requires forall k :: 0 <= k < |elements| ==> WellFormed(elements[k])
    ensures LoadModules(Some(elements), fs).Some? && |LoadModules(Some(elements), fs).value| == |elements|
  {
  }

  /** One element missing `id` (or `enabled`, `update`, `remove`) makes the whole load fail. */
  lemma MissingRequiredKeyFailsLoad(elements: seq<JsonElement>, fs: FileSystem, k: nat)
    requires k < |elements| && elements[k].ObjectElement? && elements[k].obj.id.None?
    ensures LoadModules(Some(elements), fs).None?
  {
  }

  /** The published list is empty exactly when `modules` is. */
  lemma PublishedEmptyIff(ms: seq<ModuleInfo>, leq: (string, string) -> bool)
    requires TotalPreorder(leq)
    ensures SortById(ms, leq) == [] <==> ms == []
  {
  }
}
