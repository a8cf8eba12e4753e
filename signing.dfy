/**
 * The public fallback signers tried by `sign_with_public_apis` (app.py lines 19-21, 46-56).
 * An HTTP call and its JSON decoding are one oracle, `fetch(api, url)`.
 */
module Signing {
  import opened Wrappers

  /** `SIGNING_APIS`: the base URLs of the public signers, tried in this order. */
  const SigningApis: seq<string> := ["https://ugxclassplusapi.vercel.app/get/cp?url="]

  /**
   * A decoded JSON reply of a signer: `status` is the truthiness of its "status" field,
   * `url` its "url" field when that is a string.
   */
  datatype Reply = Reply(status: bool, url: Option<string>)

  /**
   * The outcome of one call: `None` when the request or the JSON decoding raised.
   * The percent-encoding of `url` into the API's query string happens inside `fetch`.
   */
  type Fetcher = (string, string) -> Option<Reply>

  /** `data.get("status") and data.get("url")`: a truthy status and a non-empty URL. */
  predicate Accepted(reply: Option<Reply>) {
    reply.Some? && reply.value.status && reply.value.url.Some? && reply.value.url.value != ""
  }

  /**
   * The URL of the first API, in list order, whose reply is accepted; `None` when no
   * reply is.
   */
  function FirstSigned(apis: seq<string>, url: string, fetch: Fetcher): (r: Option<string>)
    ensures r.None? <==> forall i :: 0 <= i < |apis| ==> !Accepted(fetch(apis[i], url))
    ensures r.Some? ==> (exists i :: 0 <= i < |apis| && Accepted(fetch(apis[i], url))
                           && r.value == fetch(apis[i], url).value.url.value
                           && forall j :: 0 <= j < i ==> !Accepted(fetch(apis[j], url)))
  {
    if |apis| == 0 then None
    else if Accepted(fetch(apis[0], url)) then fetch(apis[0], url).value.url
    else
      var r := FirstSigned(apis[1..], url, fetch);
      assert forall i :: 1 <= i < |apis| ==> apis[i] == apis[1..][i - 1];
      r
  }

  /** `sign_with_public_apis(url)`: the loop over the APIs with its early return. */
  method SignWithPublicApis(apis: seq<string>, url: string, fetch: Fetcher) returns (r: Option<string>)
    ensures r == FirstSigned(apis, url, fetch)
    ensures r.Some? ==> r.value != ""
  {
    for i := 0 to |apis|
      invariant forall j :: 0 <= j < i ==> !Accepted(fetch(apis[j], url))
    {
      var data := fetch(apis[i], url);
      if Accepted(data) {
        return data.value.url;
      }
    }
    return None;
  }
}
