/** The request-logging decisions of logging_middleware.py: which requests are logged, the
    log level of a response, and the redaction of sensitive keys in logged data. Logged data
    is a JSON-like value; a dict keeps its entries in insertion order. */
module LogFilter {
  import opened Wrappers
  import opened Text

  /** A dict key: a string, or any other hashable value (which is never redacted). */
  datatype Key = StrKey(s: string) | OtherKey(n: int)

  datatype Value =
    | Str(s: string)
    | Num(n: int)
    | Boolean(b: bool)
    | Null
    | List(items: seq<Value>)
    | Dict(entries: seq<(Key, Value)>)

  const Redacted: string := "***REDACTED***"

  const SensitiveKeys: seq<string> :=
    ["password", "token", "secret", "key", "auth", "authorization", "credit_card", "ssn", "social_security"]

  /** `any(sensitive in key.lower() for sensitive in sensitive_keys)`, lower-casing ASCII. */
  predicate IsSensitive(key: string) {
    exists k :: 0 <= k < |SensitiveKeys| && Contains(Lower(key), SensitiveKeys[k])
  }

  /** `filter_sensitive_data` as a function: only a dict changes. */
  function Filtered(v: Value): (r: Value)
    ensures !v.Dict? ==> r == v
    ensures v.Dict? ==> r.Dict? && |r.entries| == |v.entries|
    ensures v.Dict? ==> forall i :: 0 <= i < |v.entries| ==> r.entries[i].0 == v.entries[i].0
    ensures v.Dict? ==> forall i :: 0 <= i < |v.entries| && v.entries[i].0.StrKey? && IsSensitive(v.entries[i].0.s) ==>
      r.entries[i].1 == Str(Redacted)
    ensures v.Dict? ==> forall i :: 0 <= i < |v.entries| && !(v.entries[i].0.StrKey? && IsSensitive(v.entries[i].0.s)) ==>
      match v.entries[i].1
      case Dict(_) => r.entries[i].1 == Filtered(v.entries[i].1)
      case List(items) =>
        && r.entries[i].1.List? && |r.entries[i].1.items| == |items|
        && forall j :: 0 <= j < |items| ==> r.entries[i].1.items[j] == if items[j].Dict? then Filtered(items[j]) else items[j]
      case _ => r.entries[i].1 == v.entries[i].1
    decreases v, 0
  {
    match v
    case Dict(entries) =>
      Dict(seq(|entries|, i requires 0 <= i < |entries| => (entries[i].0, FilteredValue(entries[i].0, entries[i].1))))
    case _ => v
  }

  /** The value stored under `key`: redacted for a sensitive string key, otherwise a dict
      is filtered, a list has its dict elements filtered, and anything else is copied. */
  function FilteredValue(key: Key, value: Value): (r: Value)
    ensures key.StrKey? && IsSensitive(key.s) ==> r == Str(Redacted)
    ensures !(key.StrKey? && IsSensitive(key.s)) ==>
      match value
      case Dict(_) => r == Filtered(value)
      case List(items) =>
        && r.List? && |r.items| == |items|
        && forall j :: 0 <= j < |items| ==> r.items[j] == if items[j].Dict? then Filtered(items[j]) else items[j]
      case _ => r == value
    decreases value, 1
  {
    if key.StrKey? && IsSensitive(key.s) then Str(Redacted)
    else match value
      case Dict(_) => Filtered(value)
      case List(items) => List(seq(|items|, j requires 0 <= j < |items| => FilteredItem(items[j])))
      case _ => value
  }

  /** A list element: only dicts are filtered. */
  function FilteredItem(item: Value): Value
    decreases item, 1
  {
    if item.Dict? then Filtered(item) else item
  }

  /** `filter_sensitive_data`: fills a new dict entry by entry, recursing into dict values
      and into the dict elements of list values. */
  method FilterSensitiveData(data: Value) returns (r: Value)
    ensures r == Filtered(data)
    decreases data, 0
  {
    if !data.Dict? {
      return data;
    }
    var entries := data.entries;
    var out: seq<(Key, Value)> := [];
    var i := 0;
    while i < |entries|
      invariant 0 <= i <= |entries|
      invariant |out| == i
      invariant forall m :: 0 <= m < i ==> out[m] == (entries[m].0, FilteredValue(entries[m].0, entries[m].1))
    {
      var key := entries[i].0;
      var filtered := FilterEntry(key, entries[i].1);
      out := out + [(key, filtered)];
      i := i + 1;
    }
    r := Dict(out);
  }

  /** One entry of `filter_sensitive_data`: redact under a sensitive key, otherwise filter a
      dict or a list and copy anything else. */
  method FilterEntry(key: Key, value: Value) returns (filtered: Value)
    ensures filtered == FilteredValue(key, value)
    decreases value, 2
  {
    if key.StrKey? && Any(Lower(key.s)) {
      filtered := Str(Redacted);
    } else if value.Dict? {
      filtered := FilterSensitiveData(value);
    } else if value.List? {
      filtered := FilterList(value);
    } else {
      filtered := value;
    }
  }

  /** The list branch of `filter_sensitive_data`: a new list with each dict element
      filtered and every other element copied. */
  method FilterList(value: Value) returns (r: Value)
    requires value.List?
    ensures r.List? && |r.items| == |value.items|
    ensures forall j :: 0 <= j < |value.items| ==> r.items[j] == FilteredItem(value.items[j])
    ensures r == List(seq(|value.items|, j requires 0 <= j < |value.items| => FilteredItem(value.items[j])))
    decreases value, 1
  {
    var items := value.items;
    var copied: seq<Value> := [];
    var j := 0;
    while j < |items|
      invariant 0 <= j <= |items|
      invariant |copied| == j
      invariant forall m :: 0 <= m < j ==> copied[m] == FilteredItem(items[m])
    {
      var item := items[j];
      if item.Dict? {
        item := FilterSensitiveData(items[j]);
      }
      copied := copied + [item];
      j := j + 1;
    }
    r := List(copied);
  }

  /** The scan over `SensitiveKeys` for a lower-cased key. */
  function Any(lowered: string): (r: bool)
    ensures forall key :: lowered == Lower(key) ==> (r <==> IsSensitive(key))
  {
    AnyFrom(lowered, 0)
  }

  function AnyFrom(lowered: string, k: nat): (r: bool)
    requires k <= |SensitiveKeys|
    ensures r <==> exists m :: k <= m < |SensitiveKeys| && Contains(lowered, SensitiveKeys[m])
    decreases |SensitiveKeys| - k
  {
    if k == |SensitiveKeys| then false
    else Contains(lowered, SensitiveKeys[k]) || AnyFrom(lowered, k + 1)
  }

  /** Filtering twice redacts nothing more than filtering once. */
  lemma {:induction false} FilteredIdempotent(v: Value)
    ensures Filtered(Filtered(v)) == Filtered(v)
    decreases v, 0
  {
    if v.Dict? {
      var once := Filtered(v);
      var twice := Filtered(once);
      forall i | 0 <= i < |v.entries| ensures twice.entries[i] == once.entries[i] {
        FilteredValueIdempotent(v.entries[i].0, v.entries[i].1);
      }
    }
  }

  lemma {:induction false} FilteredValueIdempotent(key: Key, value: Value)
    ensures FilteredValue(key, FilteredValue(key, value)) == FilteredValue(key, value)
    decreases value, 1
  {
    if key.StrKey? && IsSensitive(key.s) {
    } else if value.Dict? {
      FilteredIdempotent(value);
    } else if value.List? {
      var once := FilteredValue(key, value);
      var twice := FilteredValue(key, once);
      assert once.List? && |once.items| == |value.items|;
      assert twice.List? && |twice.items| == |once.items|;
      forall j | 0 <= j < |value.items| ensures twice.items[j] == once.items[j] {
        var item := value.items[j];
        assert once.items[j] == FilteredItem(item);
        assert twice.items[j] == FilteredItem(once.items[j]);
        if item.Dict? {
          FilteredIdempotent(item);
        }
      }
    }
  }

  /** Substring matching reaches beyond the listed names: 'monkey' and 'Author' are
      redacted too. */
  lemma SubstringMatchesOverreach()
    ensures IsSensitive("monkey") && IsSensitive("Author")
  {
    assert OccursAt("key", Lower("monkey"), 3);
    assert SensitiveKeys[3] == "key";
    assert Lower("Author") == "author";
    assert OccursAt("auth", Lower("Author"), 0);
    assert SensitiveKeys[4] == "auth";
  }

  // ----- request selection and level -----

  const SkipPaths: seq<string> := ["/favicon.ico", "/static/", "/health"]

  /** `should_log_request`: not for a path under one of the skipped prefixes, nor for the
      'static' endpoint. */
  function ShouldLogRequest(path: string, endpoint: Option<string>): (r: bool)
    ensures r <==> && !StartsWith(path, "/favicon.ico") && !StartsWith(path, "/static/")
                   && !StartsWith(path, "/health") && endpoint != Some("static")
  {
    assert SkipPaths[0] == "/favicon.ico" && SkipPaths[1] == "/static/" && SkipPaths[2] == "/health";
    if exists k :: 0 <= k < |SkipPaths| && StartsWith(path, SkipPaths[k]) then false
    else if endpoint == Some("static") then false
    else true
  }

  /** Prefix matching also skips paths that merely start like a skipped one. */
  lemma HealthPrefixOverreach()
    ensures !ShouldLogRequest("/healthz", None)
  {
    assert StartsWith("/healthz", "/health");
  }

  datatype LogLevel = Info | Warning | Error

  /** The level of the completion log of a response. */
  function LevelOf(status: int): (l: LogLevel)
    ensures l == Error <==> status >= 500
    ensures l == Warning <==> 400 <= status < 500
    ensures l == Info <==> status < 400
  {
    var level := Info;
    if status >= 400 then (if status < 500 then Warning else Error) else level
  }

  function Severity(l: LogLevel): nat {
    match l
    case Info => 0
    case Warning => 1
    case Error => 2
  }

  /** A higher status never logs at a lower level. */
  lemma LevelMonotone(a: int, b: int)
    requires a <= b
    ensures Severity(LevelOf(a)) <= Severity(LevelOf(b))
  {
  }
}
