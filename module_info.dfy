/**
 * The values the module list works on: an installed module as the view model
 * publishes it, one record of the enumerator's JSON output, and the part of the
 * privileged filesystem the banner lookups probe.
 */
module ModuleTypes {
  import opened Wrappers

  /** Kotlin `Int`. */
  type Int32 = x: int | -0x8000_0000 <= x < 0x8000_0000

  /** One installed module, as `APModuleViewModel.ModuleInfo` holds it. */
  datatype ModuleInfo = ModuleInfo(
    id: string,
    name: string,
    author: string,
    version: string,
    versionCode: Int32,
    description: string,
    enabled: bool,
    update: bool,   // an update is staged and applies on reboot
    remove: bool,   // removal is staged and applies on reboot
    updateJson: string,
    hasWebUi: bool,
    hasActionScript: bool,
    banner: string
  )

  /**
   * One object of the enumerator's JSON array. `None` is a key that is absent (or,
   * for a required key, whose value org.json cannot convert to the wanted type);
   * `Some` holds the value after org.json's conversion.
   */
  datatype JsonModule = JsonModule(
    id: Option<string>,
    name: Option<string>,
    author: Option<string>,
    version: Option<string>,
    versionCode: Option<Int32>,
    description: Option<string>,
    enabled: Option<bool>,
    update: Option<bool>,
    remove: Option<bool>,
    updateJson: Option<string>,
    web: Option<bool>,
    action: Option<bool>
  )

  /** An element of the enumerator's JSON array: an object, or any other JSON value. */
  datatype JsonElement = ObjectElement(obj: JsonModule) | OtherElement

  /**
   * What the root shell lets the app see of the filesystem: the paths that exist,
   * the ones that are directories, the ones it may read, and the text of the
   * readable files already split into lines. A readable path missing from `lines`
   * is a file whose read fails with an exception.
   */
  datatype FileSystem = FileSystem(
    existing: set<string>,
    directories: set<string>,
    readable: set<string>,
    lines: map<string, seq<string>>
  ) {
    predicate Exists(path: string) { path in existing }
    predicate IsDirectory(path: string) { path in directories }
    predicate CanRead(path: string) { path in readable }
  }

  /** The Magisk-compatible module root. */
  const ModulesRoot: string := "/data/adb/modules/"
  /** APatch's own module root. */
  const ApModulesRoot: string := "/data/adb/ap/modules/"
}
