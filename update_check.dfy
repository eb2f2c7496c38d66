/**
 * `checkUpdate`: decides, from an installed module and the manifest its
 * `updateJson` URL returned, whether a newer package can be downloaded.
 * The HTTP request and org.json are outside the model: the response is an input
 * and the JSON-object parser a function parameter.
 */
module UpdateCheck {
  import opened Wrappers
  import opened ModuleTypes
  import opened VersionSanitizer

  /** The outcome of the HTTP request; `Failed` stands for any exception it threw. */
  datatype HttpResponse = Failed | Response(successful: bool, body: Option<string>)

  /** The fields `checkUpdate` reads from the manifest object, each present or absent. */
  datatype Manifest = Manifest(
    version: Option<string>,
    versionCode: Option<Int32>,
    zipUrl: Option<string>,
    changelog: Option<string>
  )

  /** The `Triple(zipUrl, version, changelog)` the item shows; all empty means no update. */
  datatype UpdateCandidate = UpdateCandidate(zipUrl: string, version: string, changelog: string)

  const NoUpdate: UpdateCandidate := UpdateCandidate("", "", "")

  /** The body text after `runCatching { … }.getOrDefault("")`: empty on any failure. */
  function ResponseText(response: HttpResponse): (text: string)
    ensures text != "" ==> response.Response? && response.successful && response.body == Some(text)
    ensures response.Response? && response.successful && response.body.Some? ==> text == response.body.value
  {
    match response
    case Failed => ""
    case Response(ok, body) => if ok then body.GetOr("") else ""
  }

  /** The four module flags that stop a check before any request is made. */
  predicate MayCheck(m: ModuleInfo) {
    m.updateJson != "" && !m.remove && !m.update && m.enabled
  }

  /**
   * `checkUpdate(m)`, given the response the request to `m.updateJson` would get and
   * `parseObject`, the JSON-object parser (`None` where `JSONObject(text)` throws).
   */
  function CheckUpdate(m: ModuleInfo, response: HttpResponse, parseObject: string -> Option<Manifest>): (c: UpdateCandidate)
    // a module that is removed, updating, disabled or without a manifest URL is never offered an update
    ensures !MayCheck(m) ==> c == NoUpdate
    // an empty or failed download, or a body that is no JSON object, offers nothing
    ensures ResponseText(response) == "" ==> c == NoUpdate
    ensures ResponseText(response) != "" && parseObject(ResponseText(response)).None? ==> c == NoUpdate
    // an update is offered exactly when the remote versionCode is newer and zipUrl is set
    ensures c != NoUpdate <==>
      MayCheck(m) && ResponseText(response) != "" && parseObject(ResponseText(response)).Some?
      && parseObject(ResponseText(response)).value.versionCode.GetOr(0) > m.versionCode
      && parseObject(ResponseText(response)).value.zipUrl.GetOr("") != ""
    // and then it carries the manifest's values, the version sanitized
    ensures c != NoUpdate ==>
      var man := parseObject(ResponseText(response)).value;
      c == UpdateCandidate(man.zipUrl.GetOr(""), SanitizeVersion(man.version.GetOr("")), man.changelog.GetOr(""))
    ensures c.zipUrl != "" <==> c != NoUpdate
    ensures IsSafe(c.version)
  {
    if !MayCheck(m) then NoUpdate
    else
      var text := ResponseText(response);
      if text == "" then NoUpdate
      else match parseObject(text)
        case None => NoUpdate
        case Some(man) =>
          var version := SanitizeVersion(man.version.GetOr(""));
          var versionCode := man.versionCode.GetOr(0);
          var zipUrl := man.zipUrl.GetOr("");
          var changelog := man.changelog.GetOr("");
          if versionCode <= m.versionCode || zipUrl == "" then NoUpdate
          else UpdateCandidate(zipUrl, version, changelog)
  }

  /** The flags decide before the network: with any of them set, no response and no parser matters. */
  lemma GateIgnoresManifest(m: ModuleInfo, r1: HttpResponse, r2: HttpResponse,
                            p1: string -> Option<Manifest>, p2: string -> Option<Manifest>)
    requires !MayCheck(m)
    ensures CheckUpdate(m, r1, p1) == CheckUpdate(m, r2, p2) == NoUpdate
  {
  }

  /** A newer versionCode alone is not enough, and an equal one never is: 3 against 3 offers nothing. */
  lemma EqualVersionCodeOffersNothing(m: ModuleInfo, response: HttpResponse, parseObject: string -> Option<Manifest>)
    requires ResponseText(response) != ""
    requires parseObject(ResponseText(response)).Some?
    requires parseObject(ResponseText(response)).value.versionCode == Some(m.versionCode)
    ensures CheckUpdate(m, response, parseObject) == NoUpdate
  {
  }
}
