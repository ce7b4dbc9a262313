/**
 * licenseRemoval: read the SKU ids assigned to one user and remove all of them with a single
 * `assignLicense` POST. The GET and the POST go to oracles from request to response.
 */
module LicenseRemoval {
  import opened Wrappers
  import opened Graph
  import opened GoConfig

  const BaseUrl := "https://graph.microsoft.com/v1.0"

  datatype LicenseDetails = LicenseDetails(skuId: string)

  datatype AssignedLicensesResponse = AssignedLicensesResponse(value: seq<LicenseDetails>)

  /** The POST body: licenses to add (always none) and to remove. */
  datatype RemoveLicensesRequest = RemoveLicensesRequest(addLicenses: seq<string>, removeLicenses: seq<string>)

  /** The HTTP requests the program issues. */
  datatype HttpRequest = Get(url: string) | Post(url: string, body: RemoveLicensesRequest)

  datatype RemovalError =
    | GetFailed                       // "failed to get assigned licenses"
    | DecodeFailed                    // "failed to decode response"
    | PostFailed                      // "failed to send request"
    | UnexpectedStatus(code: int)     // "unexpected status code: %d"

  function AssignedLicensesUrl(upn: string): string {
    BaseUrl + "/users/" + upn + "/assignedLicenses"
  }

  function AssignLicenseUrl(upn: string): string {
    BaseUrl + "/users/" + upn + "/assignLicense"
  }

  /**
   * `GetAssignedLicenses`: the `skuId` of every decoded entry, in order. The status code is not
   * looked at: only a failed send or an undecodable body is an error.
   */
  method GetAssignedLicenses(resp: Response<AssignedLicensesResponse>) returns (r: Result<seq<string>, RemovalError>)
    ensures resp.SendFailed? ==> r == Err(GetFailed)
    ensures resp.Received? && resp.decoded.None? ==> r == Err(DecodeFailed)
    ensures r.Ok? <==> resp.Received? && resp.decoded.Some?
    ensures r.Ok? ==>
      var value := resp.decoded.value.value;
      |r.value| == |value| && forall i | 0 <= i < |value| :: r.value[i] == value[i].skuId
  {
    if resp.SendFailed? {
      return Err(GetFailed);
    }
    if resp.decoded.None? {
      return Err(DecodeFailed);
    }
    var licensesResponse := resp.decoded.value;
    var skuIds: seq<string> := [];
    for i := 0 to |licensesResponse.value|
      invariant |skuIds| == i
      invariant forall k | 0 <= k < i :: skuIds[k] == licensesResponse.value[k].skuId
    {
      skuIds := skuIds + [licensesResponse.value[i].skuId];
    }
    r := Ok(skuIds);
  }

  /** The request `RemoveLicenses` sends. */
  function RemoveLicensesCall(upn: string, skuIds: seq<string>): (req: HttpRequest)
    ensures req.Post? && req.url == AssignLicenseUrl(upn)
    ensures req.body.addLicenses == [] && req.body.removeLicenses == skuIds
  {
    Post(AssignLicenseUrl(upn), RemoveLicensesRequest([], skuIds))
  }

  /** `RemoveLicenses`: succeeds on status exactly 200; any other status, 2xx included, is an error. */
  function RemoveLicenses(resp: Response<()>): (r: Result<(), RemovalError>)
    ensures r.Ok? <==> resp.Received? && resp.status == 200
    ensures resp.Received? && resp.status != 200 ==> r == Err(UnexpectedStatus(resp.status))
    ensures resp.SendFailed? ==> r == Err(PostFailed)
  {
    match resp
    case SendFailed => Err(PostFailed)
    case Received(status, _, _) => if status != 200 then Err(UnexpectedStatus(status)) else Ok(())
  }

  /** The 201, 202 and 204 replies a Graph write may give are all rejected. */
  lemma OtherSuccessCodesAreErrors(status: int)
    requires IsSuccess(status) && status != 200
    ensures RemoveLicenses(Received(status, None, None)).Err?
  {
  }

  /** How `main` ends: `log.Fatal` at one of its stages, or a printed success line. */
  datatype Outcome =
    | Usage                               // no user principal name given
    | ConfigFailed(message: string)
    | GettingFailed(error: RemovalError)
    | NoLicensesToRemove                  // "No licenses found to remove."
    | RemovingFailed(error: RemovalError)
    | Removed                             // "Licenses successfully removed."

  /** Exit status of the process: `log.Fatal` exits with 1. */
  function ExitCode(o: Outcome): (code: int)
    ensures code == 0 <==> o == NoLicensesToRemove || o == Removed
    ensures code == 0 || code == 1
  {
    if o == NoLicensesToRemove || o == Removed then 0 else 1
  }

  /**
   * `main`: parse the argument, load the configuration, read the assigned licenses and, unless
   * there are none, remove them all. `requests` lists the HTTP requests made, in order.
   */
  method Run(args: seq<string>, dotenvError: Option<string>, env: map<string, string>,
             get: string -> Response<AssignedLicensesResponse>, post: HttpRequest -> Response<()>)
    returns (outcome: Outcome, requests: seq<HttpRequest>)
    ensures |args| == 0 ==> outcome == Usage && requests == []
    ensures |args| > 0 && LoadConfig(dotenvError, env).Err? ==>
      outcome == ConfigFailed(LoadConfig(dotenvError, env).error) && requests == []
    ensures |args| > 0 && LoadConfig(dotenvError, env).Ok? ==>
      0 < |requests| && requests[0] == Get(AssignedLicensesUrl(args[0]))
    ensures (exists k | 0 <= k < |requests| :: requests[k].Post?) <==>
      && |args| > 0 && LoadConfig(dotenvError, env).Ok?
      && get(AssignedLicensesUrl(args[0])).Received? && get(AssignedLicensesUrl(args[0])).decoded.Some?
      && |get(AssignedLicensesUrl(args[0])).decoded.value.value| > 0
    ensures forall k | 0 <= k < |requests| && requests[k].Post? ::
      requests[k] == RemoveLicensesCall(args[0], SkuIdsOf(get(AssignedLicensesUrl(args[0])).decoded.value))
    ensures outcome == Removed <==> |requests| == 2 && post(requests[1]).Received? && post(requests[1]).status == 200
    ensures |args| > 0 && LoadConfig(dotenvError, env).Ok? ==>
      var got := get(AssignedLicensesUrl(args[0]));
      && (got.SendFailed? ==> outcome == GettingFailed(GetFailed) && |requests| == 1)
      && (got.Received? && got.decoded.None? ==> outcome == GettingFailed(DecodeFailed) && |requests| == 1)
      && (got.Received? && got.decoded.Some? && |got.decoded.value.value| == 0 ==>
            outcome == NoLicensesToRemove && |requests| == 1)
      && (got.Received? && got.decoded.Some? && |got.decoded.value.value| > 0 ==>
            && |requests| == 2
            && var removed := RemoveLicenses(post(requests[1]));
               outcome == if removed.Ok? then Removed else RemovingFailed(removed.error))
    ensures ExitCode(outcome) == 0 <==>
      && |args| > 0 && LoadConfig(dotenvError, env).Ok?
      && var got := get(AssignedLicensesUrl(args[0]));
         && got.Received? && got.decoded.Some?
         && (|got.decoded.value.value| == 0
             || (var answer := post(RemoveLicensesCall(args[0], SkuIdsOf(got.decoded.value)));
                 answer.Received? && answer.status == 200))
  {
    requests := [];
    if |args| < 1 {
      return Usage, [];
    }
    var upn := args[0];
    var config := LoadConfig(dotenvError, env);
    if config.Err? {
      return ConfigFailed(config.error), [];
    }
    var url := AssignedLicensesUrl(upn);
    requests := requests + [Get(url)];
    var skuIds := GetAssignedLicenses(get(url));
    if skuIds.Err? {
      return GettingFailed(skuIds.error), requests;
    }
    if |skuIds.value| == 0 {
      return NoLicensesToRemove, requests;
    }
    assert skuIds.value == SkuIdsOf(get(url).decoded.value);
    var call := RemoveLicensesCall(upn, skuIds.value);
    requests := requests + [call];
    assert requests[1].Post?;
    var removed := RemoveLicenses(post(call));
    if removed.Err? {
      return RemovingFailed(removed.error), requests;
    }
    outcome := Removed;
  }

  /** The decoded ids, in entry order. */
  function SkuIdsOf(resp: AssignedLicensesResponse): (ids: seq<string>)
    ensures |ids| == |resp.value| && forall i | 0 <= i < |ids| :: ids[i] == resp.value[i].skuId
  {
    seq(|resp.value|, i requires 0 <= i < |resp.value| => resp.value[i].skuId)
  }
}
