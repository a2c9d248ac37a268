/** A JSON request body as the handlers of app/api/auth.py and app/api/edit_user.py read it:
    an object whose values are strings. `None` stands for a request without a JSON object. */
module RequestBody {
  import opened Wrappers

  type Body = map<string, string>

  /** `not request_data`: no body, or an empty object. */
  predicate Missing(body: Option<Body>) {
    body.None? || body.value == map[]
  }

  /** `request_data.get(key)` is truthy: present and non-empty. */
  predicate HasValue(body: Body, key: string) {
    key in body && body[key] != ""
  }

  /** The required-field loop: the first field, in order, whose key is absent. */
  function FirstMissing(fields: seq<string>, body: Body): (r: Option<string>)
    ensures r.None? <==> forall k :: 0 <= k < |fields| ==> fields[k] in body
    ensures r.Some? ==> exists k :: 0 <= k < |fields| && fields[k] == r.value && r.value !in body
                                    && forall m :: 0 <= m < k ==> fields[m] in body
  {
    if fields == [] then None
    else if fields[0] !in body then Some(fields[0])
    else
      var r := FirstMissing(fields[1..], body);
      assert forall k :: 1 <= k < |fields| ==> fields[k] == fields[1..][k - 1];
      if r.Some? then
        var k :| 0 <= k < |fields[1..]| && fields[1..][k] == r.value && r.value !in body
                 && forall m :: 0 <= m < k ==> fields[1..][m] in body;
        assert fields[k + 1] == r.value;
        r
      else r
  }

  /** "Missing <field> parameter". */
  function MissingMessage(field: string): string {
    "Missing " + field + " parameter"
  }
}
