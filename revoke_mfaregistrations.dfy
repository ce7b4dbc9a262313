/**
 * revoke_mfaregistrations: list a user's authentication methods and delete every software-OATH
 * method, stopping at the first failed delete. The methods listing is one response; the deletes
 * go to an oracle from URL to response.
 */
module RevokeMfaRegistrations {
  import opened Wrappers
  import opened Json
  import opened Graph

  const SoftwareOathType := "#microsoft.graph.softwareOathAuthenticationMethod"

  function MethodsUrl(user: string): string {
    UsersPrefix + user + "/authentication/methods"
  }

  function SoftwareOathMethodUrl(user: string, methodId: string): string {
    UsersPrefix + user + "/authentication/softwareOathMethods/" + methodId
  }

  /** The (type, id) pair extracted from one listed method. */
  datatype MethodRef = MethodRef(methodType: string, id: string)

  datatype MfaError =
    | SendError                                                       // `send().await?`
    | DecodeError                                                     // `json().await?`
    | TextUnreadable                                                  // `text().await?`
    | ValueNotArray                                                   // `as_array().unwrap()` panics
    | ListFailed(user: string, status: int, text: string)             // listing returned a non-2xx status
    | DeleteFailed(methodId: string, user: string, status: int, text: string)  // a delete returned a non-2xx status

  // ---------------------------------------------------------------------------
  // Listing

  /** The pair of one entry, when both its `@odata.type` and its `id` are strings. */
  function MethodEntry(m: Json): (r: Option<MethodRef>)
    ensures r.Some? <==> Field(m, "@odata.type").JString? && Field(m, "id").JString?
    ensures r.Some? ==> r.value == MethodRef(Field(m, "@odata.type").s, Field(m, "id").s)
  {
    var t, id := AsStr(Field(m, "@odata.type")), AsStr(Field(m, "id"));
    if t.Some? && id.Some? then Some(MethodRef(t.value, id.value)) else None
  }

  /** The `filter_map` over the `value` array. */
  function ExtractMethods(items: seq<Json>): (r: seq<MethodRef>)
    ensures |r| <= |items|
  {
    if |items| == 0 then []
    else
      var rest := ExtractMethods(items[1..]);
      if MethodEntry(items[0]).Some? then [MethodEntry(items[0]).value] + rest else rest
  }

  /** Extraction distributes over concatenation: order is kept and entries are not mixed. */
  lemma {:induction false} ExtractMethodsAppend(a: seq<Json>, b: seq<Json>)
    ensures ExtractMethods(a + b) == ExtractMethods(a) + ExtractMethods(b)
  {
    if |a| > 0 {
      assert (a + b)[0] == a[0];
      assert (a + b)[1..] == a[1..] + b;
      ExtractMethodsAppend(a[1..], b);
    } else {
      assert a + b == b;
    }
  }

  /** A pair is extracted iff some entry carries exactly that type and id as strings. */
  lemma {:induction false} ExtractMethodsMembership(items: seq<Json>, p: MethodRef)
    ensures p in ExtractMethods(items) <==> exists i | 0 <= i < |items| :: MethodEntry(items[i]) == Some(p)
  {
    if |items| > 0 {
      var tail := items[1..];
      ExtractMethodsMembership(tail, p);
      if exists i | 0 <= i < |tail| :: MethodEntry(tail[i]) == Some(p) {
        var i :| 0 <= i < |tail| && MethodEntry(tail[i]) == Some(p);
        assert items[i + 1] == tail[i];
      }
      if exists i | 0 <= i < |items| :: MethodEntry(items[i]) == Some(p) {
        var i :| 0 <= i < |items| && MethodEntry(items[i]) == Some(p);
        if i > 0 { assert tail[i - 1] == items[i]; }
      }
    }
  }

  /** `get_authentication_methods(user)`: a GET of the user's methods, answered by `get`. */
  function GetAuthenticationMethods(user: string, get: string -> Response<Json>): (r: Result<seq<MethodRef>, MfaError>)
    ensures var resp := get(MethodsUrl(user));
      r.Ok? <==>
        && resp.Received? && IsSuccess(resp.status) && resp.decoded.Some?
        && AsArray(Field(resp.decoded.value, "value")).Some?
    ensures var resp := get(MethodsUrl(user));
      r.Ok? ==> r.value == ExtractMethods(Field(resp.decoded.value, "value").items)
    ensures var resp := get(MethodsUrl(user));
      resp.Received? && !IsSuccess(resp.status) ==>
        r == (if resp.text.Some? then Err(ListFailed(user, resp.status, resp.text.value)) else Err(MfaError.TextUnreadable))
    ensures var resp := get(MethodsUrl(user));
      r == Err(ValueNotArray) <==>
        resp.Received? && IsSuccess(resp.status) && resp.decoded.Some? && !Field(resp.decoded.value, "value").JArray?
  {
    match get(MethodsUrl(user))
    case SendFailed => Err(MfaError.SendError)
    case Received(status, text, decoded) =>
      if IsSuccess(status) then
        if decoded.None? then Err(MfaError.DecodeError)
        else
          match AsArray(Field(decoded.value, "value"))
          case None => Err(ValueNotArray)
          case Some(items) => Ok(ExtractMethods(items))
      else if text.None? then Err(MfaError.TextUnreadable)
      else Err(ListFailed(user, status, text.value))
  }

  // ---------------------------------------------------------------------------
  // Deleting

  /** The outcome of the DELETE for one software-OATH method. */
  function DeleteResult(user: string, methodId: string, deletes: string -> Response<()>): (r: Result<(), MfaError>)
    ensures r.Err? ==> r.error.SendError? || r.error.TextUnreadable? || r.error.DeleteFailed?
    ensures r.Ok? <==>
      var resp := deletes(SoftwareOathMethodUrl(user, methodId));
      resp.Received? && IsSuccess(resp.status)
    ensures
      var resp := deletes(SoftwareOathMethodUrl(user, methodId));
      resp.Received? && !IsSuccess(resp.status) && resp.text.Some? ==>
        r == Err(DeleteFailed(methodId, user, resp.status, resp.text.value))
  {
    match deletes(SoftwareOathMethodUrl(user, methodId))
    case SendFailed => Err(MfaError.SendError)
    case Received(status, text, _) =>
      if IsSuccess(status) then Ok(())
      else if text.None? then Err(MfaError.TextUnreadable)
      else Err(DeleteFailed(methodId, user, status, text.value))
  }

  /**
   * `delete_authentication_method`: the result, and the URL of the DELETE request, if one is
   * made. Only the software-OATH type is deleted; every other type succeeds with no request.
   */
  function DeleteAuthenticationMethod(user: string, methodType: string, methodId: string, deletes: string -> Response<()>)
    : (out: (Result<(), MfaError>, Option<string>))
    ensures methodType != SoftwareOathType ==> out == (Ok(()), None)
    ensures methodType == SoftwareOathType ==>
      out.1 == Some(SoftwareOathMethodUrl(user, methodId)) && out.0 == DeleteResult(user, methodId, deletes)
  {
    if methodType == SoftwareOathType then
      (DeleteResult(user, methodId, deletes), Some(SoftwareOathMethodUrl(user, methodId)))
    else
      (Ok(()), None)
  }

  /** The ids of the software-OATH methods, in listed order. */
  function OathIds(methods: seq<MethodRef>): (ids: seq<string>)
    ensures |ids| <= |methods|
  {
    if |methods| == 0 then []
    else (if methods[0].methodType == SoftwareOathType then [methods[0].id] else []) + OathIds(methods[1..])
  }

  /** An id is deleted iff a listed method of the software-OATH type carries it. */
  lemma {:induction false} OathIdsMembership(methods: seq<MethodRef>, id: string)
    ensures id in OathIds(methods) <==> MethodRef(SoftwareOathType, id) in methods
  {
    if |methods| > 0 {
      OathIdsMembership(methods[1..], id);
      assert methods == [methods[0]] + methods[1..];
    }
  }

  /**
   * Reference definition of the deletes: DELETE each id in order and stop at the first failure.
   * Yields the result and the URLs requested.
   */
  function DeleteEach(user: string, ids: seq<string>, deletes: string -> Response<()>)
    : (out: (Result<(), MfaError>, seq<string>))
    ensures out.0.Err? ==> out.0.error.SendError? || out.0.error.TextUnreadable? || out.0.error.DeleteFailed?
    ensures |out.1| <= |ids|
  {
    if |ids| == 0 then (Ok(()), [])
    else
      var res := DeleteResult(user, ids[0], deletes);
      if res.Err? then (res, [SoftwareOathMethodUrl(user, ids[0])])
      else
        var rest := DeleteEach(user, ids[1..], deletes);
        (rest.0, [SoftwareOathMethodUrl(user, ids[0])] + rest.1)
  }

  /** The k-th DELETE request made is for the k-th id. */
  lemma {:induction false} DeleteEachRequestsInOrder(user: string, ids: seq<string>, deletes: string -> Response<()>)
    ensures var d := DeleteEach(user, ids, deletes).1;
      forall k | 0 <= k < |d| :: d[k] == SoftwareOathMethodUrl(user, ids[k])
  {
    if |ids| > 0 && DeleteResult(user, ids[0], deletes).Ok? {
      DeleteEachRequestsInOrder(user, ids[1..], deletes);
      var d', d := DeleteEach(user, ids[1..], deletes).1, DeleteEach(user, ids, deletes).1;
      assert d == [SoftwareOathMethodUrl(user, ids[0])] + d';
      forall k | 0 <= k < |d| ensures d[k] == SoftwareOathMethodUrl(user, ids[k]) {
        if k > 0 { assert d[k] == d'[k - 1] && ids[k] == ids[1..][k - 1]; }
      }
    }
  }

  /** Every DELETE but the last succeeded, and a failed walk fails with the last DELETE's error. */
  lemma {:induction false} DeleteEachStopsAtFirstFailure(user: string, ids: seq<string>, deletes: string -> Response<()>)
    ensures var (r, d) := DeleteEach(user, ids, deletes);
      && (forall k | 0 <= k < |d| && k + 1 < |d| :: DeleteResult(user, ids[k], deletes).Ok?)
      && (r.Err? ==> 0 < |d| && r == DeleteResult(user, ids[|d| - 1], deletes))
  {
    if |ids| > 0 && DeleteResult(user, ids[0], deletes).Ok? {
      DeleteEachStopsAtFirstFailure(user, ids[1..], deletes);
      var (r', d') := DeleteEach(user, ids[1..], deletes);
      var d := DeleteEach(user, ids, deletes).1;
      assert d == [SoftwareOathMethodUrl(user, ids[0])] + d';
      forall k | 0 <= k < |d| && k + 1 < |d| ensures DeleteResult(user, ids[k], deletes).Ok? {
        if k > 0 { assert ids[k] == ids[1..][k - 1]; }
      }
      if r'.Err? {
        assert ids[|d| - 1] == ids[1..][|d'| - 1];
      }
    }
  }

  /** The walk succeeds iff every id was requested and every DELETE succeeded. */
  lemma {:induction false} DeleteEachSucceedsIffEveryDeleteSucceeds(user: string, ids: seq<string>, deletes: string -> Response<()>)
    ensures var (r, d) := DeleteEach(user, ids, deletes);
      r.Ok? <==> |d| == |ids| && forall k | 0 <= k < |ids| :: DeleteResult(user, ids[k], deletes).Ok?
  {
    if |ids| > 0 {
      DeleteEachSucceedsIffEveryDeleteSucceeds(user, ids[1..], deletes);
      if DeleteResult(user, ids[0], deletes).Ok? {
        var (r', d') := DeleteEach(user, ids[1..], deletes);
        var d := DeleteEach(user, ids, deletes).1;
        assert d == [SoftwareOathMethodUrl(user, ids[0])] + d';
        if r'.Ok? {
          forall k | 0 <= k < |ids| ensures DeleteResult(user, ids[k], deletes).Ok? {
            if k > 0 { assert ids[k] == ids[1..][k - 1]; }
          }
        }
        if |d| == |ids| && forall k | 0 <= k < |ids| :: DeleteResult(user, ids[k], deletes).Ok? {
          forall k | 0 <= k < |ids| - 1 ensures DeleteResult(user, ids[1..][k], deletes).Ok? {
            assert ids[1..][k] == ids[k + 1];
          }
        }
      }
    }
  }

  /** The reference walk over the listed methods: the deletes of their software-OATH ids. */
  function Reregister(user: string, methods: seq<MethodRef>, deletes: string -> Response<()>)
    : (Result<(), MfaError>, seq<string>)
  {
    DeleteEach(user, OathIds(methods), deletes)
  }

  /**
   * `require_mfa_reregistration`: list the methods, then delete the software-OATH ones in
   * order; the first failed delete ends the loop. `deleted` is the DELETE requests made.
   */
  method RequireMfaReregistration(user: string, get: string -> Response<Json>, deletes: string -> Response<()>)
    returns (r: Result<(), MfaError>, deleted: seq<string>)
    ensures GetAuthenticationMethods(user, get).Err? ==>
      r == Err(GetAuthenticationMethods(user, get).error) && deleted == []
    ensures GetAuthenticationMethods(user, get).Ok? ==>
      (r, deleted) == Reregister(user, GetAuthenticationMethods(user, get).value, deletes)
  {
    deleted := [];
    var listed := GetAuthenticationMethods(user, get);
    if listed.Err? {
      return Err(listed.error), [];
    }
    var methods := listed.value;
    ghost var all := OathIds(methods);
    assert methods[0..] == methods;
    assert [] + DeleteEach(user, all, deletes).1 == DeleteEach(user, all, deletes).1;
    for i := 0 to |methods|
      invariant DeleteEach(user, all, deletes)
        == (DeleteEach(user, OathIds(methods[i..]), deletes).0, deleted + DeleteEach(user, OathIds(methods[i..]), deletes).1)
    {
      ghost var rest := OathIds(methods[i + 1..]);
      OathIdsFrom(methods, i);
      var m := methods[i];
      if m.methodType == SoftwareOathType {
        var (result, request) := DeleteAuthenticationMethod(user, m.methodType, m.id, deletes);
        ghost var before := deleted;
        deleted := deleted + [request.value];
        OathStep(user, m.id, rest, deletes);
        if result.Err? {
          return Err(result.error), deleted;
        }
        assert before + ([request.value] + DeleteEach(user, rest, deletes).1) == deleted + DeleteEach(user, rest, deletes).1;
      }
    }
    assert methods[|methods|..] == [];
    assert deleted + [] == deleted;
    r := Ok(());
  }

  /** The software-OATH ids from position i on: that method's id, if it is one, then the ids after it. */
  lemma OathIdsFrom(methods: seq<MethodRef>, i: nat)
    requires i < |methods|
    ensures methods[i].methodType == SoftwareOathType ==>
      OathIds(methods[i..]) == [methods[i].id] + OathIds(methods[i + 1..])
    ensures methods[i].methodType != SoftwareOathType ==> OathIds(methods[i..]) == OathIds(methods[i + 1..])
  {
    assert methods[i..][1..] == methods[i + 1..];
  }

  /** One software-OATH id ahead of the rest: its DELETE, then, if it succeeded, the rest's. */
  lemma OathStep(user: string, id: string, rest: seq<string>, deletes: string -> Response<()>)
    ensures var res, url := DeleteResult(user, id, deletes), SoftwareOathMethodUrl(user, id);
      DeleteEach(user, [id] + rest, deletes)
        == if res.Err? then (res, [url]) else (DeleteEach(user, rest, deletes).0, [url] + DeleteEach(user, rest, deletes).1)
  {
    assert ([id] + rest)[1..] == rest;
  }

  // ---------------------------------------------------------------------------
  // main

  /** How the process ends: `main` returns `Ok(())`, or the listing's `unwrap` panicked. */
  datatype Exit = Completed | Panicked

  /**
   * `main` after argument parsing: a token failure or a re-registration error is only logged;
   * the process still completes, unless the listing's `value` was not an array.
   */
  method Run(user: string, token: Result<string, string>, get: string -> Response<Json>, deletes: string -> Response<()>)
    returns (exit: Exit, deleted: seq<string>)
    ensures token.Err? ==> exit == Completed && deleted == []
    ensures exit == Panicked <==> token.Ok? && GetAuthenticationMethods(user, get) == Err(ValueNotArray)
    ensures token.Ok? && GetAuthenticationMethods(user, get).Ok? ==>
      deleted == Reregister(user, GetAuthenticationMethods(user, get).value, deletes).1
    ensures token.Ok? && GetAuthenticationMethods(user, get).Err? ==> deleted == []
  {
    match token {
      case Err(_) =>
        // "Failed to obtain access token" is logged
        exit, deleted := Completed, [];
      case Ok(_) =>
        var r;
        r, deleted := RequireMfaReregistration(user, get, deletes);
        exit := if r == Err(ValueNotArray) then Panicked else Completed;
    }
  }
}
