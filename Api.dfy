/**
  The request hygiene of api.py: `sanitize`, the `require_auth` decision and
  the order of checks in the `/scan/ip` and `/scan/prefix` endpoints. Flask's
  request object is reduced to the headers and body the code reads; parsing
  of addresses and networks (`ipaddress`) is a given predicate.
*/
module Api {
  import opened Wrappers
  import opened Text

  /** The settings api.py reads from config.py. */
  datatype ApiConfig = ApiConfig(scannerApiKey: string, allowedSource: string)

  /** A Python value, as far as `sanitize` tells values apart. */
  datatype PyValue = PyStr(s: string) | PyNone | PyOther(truthy: bool)

  /** The request body as the endpoints read it. */
  datatype Body =
    | TooLarge                                // over MAX_CONTENT_LENGTH: reading it raises a 413
    | NotJson                                 // unparsable: `get_json(silent=True)` gives None
    | JsonObject(fields: map<string, PyValue>)
    | JsonOther(truthy: bool)                 // an array, string, number, boolean or null

  datatype Request = Request(
    forwardedFor: Option<string>,  // the X-Forwarded-For header
    remoteAddr: Option<string>,
    apiKey: Option<string>,        // the X-API-KEY header
    mimetype: string,
    body: Body)

  datatype Route = IpRoute | PrefixRoute

  /** The work an accepted request hands to the executor. */
  datatype Job = ScanIpJob(ip: string) | ScanPrefixJob(prefix: string)

  /** The HTTP status of the answer and the job queued, if any. */
  datatype Response = Response(status: int, queued: Option<Job>)

  /** `require_auth`'s verdict: let the endpoint run, or answer with a status. */
  datatype Gate = Pass | Reject(status: int)

  const JsonMimetype: string := "application/json"

  /** The characters `sanitize` keeps: `[0-9A-Fa-f.:/-]`. */
  predicate Allowed(c: char) {
    '0' <= c <= '9' || 'A' <= c <= 'F' || 'a' <= c <= 'f' || c == '.' || c == ':' || c == '/' || c == '-'
  }

  /** `re.sub(r"[^0-9A-Fa-f\.:/\-]", "", s)`. */
  function KeepAllowed(s: string): (r: string)
    ensures forall k :: 0 <= k < |r| ==> Allowed(r[k])
    ensures |r| <= |s|
  {
    if s == [] then [] else (if Allowed(s[0]) then [s[0]] else []) + KeepAllowed(s[1..])
  }

  /** `sanitize(val)`: None where `re.sub` raises because `val or ""` is not a string. */
  function Sanitize(val: PyValue): (r: Option<string>)
    ensures val == PyNone || val == PyStr("") ==> r == Some("")
    ensures val.PyStr? ==> r == Some(KeepAllowed(val.s))
    ensures r.None? <==> val.PyOther? && val.truthy
  {
    match val
    case PyStr(s) => Some(KeepAllowed(s))
    case PyNone => Some("")
    case PyOther(truthy) => if truthy then None else Some("")
  }

  /** `a` can be obtained from `b` by deleting characters. */
  predicate IsSubsequence(a: string, b: string)
    decreases |b|
  {
    if a == [] then true
    else if b == [] then false
    else if a[0] == b[0] then IsSubsequence(a[1..], b[1..])
    else IsSubsequence(a, b[1..])
  }

  /** The sanitized text is the input with characters deleted, the kept ones in their order. */
  lemma {:induction false} SanitizedIsSubsequence(s: string)
    ensures IsSubsequence(KeepAllowed(s), s)
    decreases |s|
  {
    if s != [] {
      SanitizedIsSubsequence(s[1..]);
      var r := KeepAllowed(s);
      if Allowed(s[0]) {
        assert r[0] == s[0] && r[1..] == KeepAllowed(s[1..]);
      } else {
        assert r == KeepAllowed(s[1..]);
        assert r != [] ==> Allowed(r[0]);
      }
    }
  }

  /** Every allowed character is kept as often as it occurs; no other character is. */
  lemma {:induction false} SanitizeKeepsEveryAllowed(s: string, c: char)
    ensures multiset(KeepAllowed(s))[c] == if Allowed(c) then multiset(s)[c] else 0
    decreases |s|
  {
    if s != [] {
      SanitizeKeepsEveryAllowed(s[1..], c);
      assert s == [s[0]] + s[1..];
    }
  }

  /** Text made of allowed characters only comes through unchanged. */
  lemma {:induction false} SanitizeKeepsCleanText(s: string)
    requires forall k :: 0 <= k < |s| ==> Allowed(s[k])
    ensures KeepAllowed(s) == s
    decreases |s|
  {
    if s != [] {
      SanitizeKeepsCleanText(s[1..]);
    }
  }

  /** Sanitizing twice is sanitizing once. */
  lemma SanitizeIdempotent(val: PyValue)
    requires Sanitize(val).Some?
    ensures Sanitize(PyStr(Sanitize(val).value)) == Sanitize(val)
  {
    SanitizeKeepsCleanText(Sanitize(val).value);
  }

  /** `h.split(",")[0].strip()`: the first hop of a forwarded-for list. */
  function FirstHop(h: string): (r: string)
    ensures !Contains(r, ",")
    ensures |r| > 0 ==> !IsSpace(r[0]) && !IsSpace(r[|r| - 1])
  {
    var first := BeforeFirst(h, ",");
    if |Strip(first)| > 0 then
      NotContainedInPiece(first, Strip(first), SkipSpace(first, 0), ",");
      Strip(first)
    else Strip(first)
  }

  /** The position of the header's first comma, or its length. */
  function FirstCommaOrEnd(h: string): (e: nat)
    ensures e <= |h|
    ensures e < |h| ==> OccursAt(h, ",", e)
    ensures forall j :: 0 <= j < e ==> !OccursAt(h, ",", j)
  {
    if Contains(h, ",") then Find(h, ",").value else |h|
  }

  /**
    The first hop is the whole first element of the list, trimmed: it stands
    before the first comma, and only whitespace surrounds it there.
  */
  lemma FirstHopIsTrimmedFirstElement(h: string)
    ensures var r := FirstHop(h);
      var e := FirstCommaOrEnd(h);
      (|r| == 0 ==> forall k :: 0 <= k < e ==> IsSpace(h[k])) &&
      (|r| > 0 ==>
        exists p: nat ::
          p + |r| <= e && OccursAt(h, r, p) &&
          (forall k :: 0 <= k < p ==> IsSpace(h[k])) &&
          (forall k :: p + |r| <= k < e ==> IsSpace(h[k])))
  {
    var first := BeforeFirst(h, ",");
    var r := FirstHop(h);
    var e := FirstCommaOrEnd(h);
    assert |first| == e;
    assert forall k :: 0 <= k < e ==> h[k] == first[k];
    if |r| > 0 {
      var p := SkipSpace(first, 0);
      assert first == h[..|first|];
      assert OccursAt(h, first, 0);
      OccursWithin(h, first, 0, r, p);
    }
  }

  /** The caller's address: X-Forwarded-For when sent, else the peer; None where neither exists (`.split` raises). */
  function CallerSource(req: Request): (r: Option<string>)
    ensures req.forwardedFor.Some? ==> r == Some(FirstHop(req.forwardedFor.value))
    ensures req.forwardedFor.None? && req.remoteAddr.Some? ==> r == Some(FirstHop(req.remoteAddr.value))
    ensures r.None? <==> req.forwardedFor.None? && req.remoteAddr.None?
  {
    var raw := if req.forwardedFor.Some? then req.forwardedFor else req.remoteAddr;
    match raw
    case None => None
    case Some(h) => Some(FirstHop(h))
  }

  /** `request.headers.get("X-API-KEY", "")`. */
  function KeyOf(req: Request): string {
    if req.apiKey.Some? then req.apiKey.value else ""
  }

  /** `require_auth`: the source check first, then the key. */
  function Authorize(req: Request, cfg: ApiConfig): (g: Gate)
    ensures g == Reject(500) <==> CallerSource(req).None?
    ensures g == Reject(403) <==>
      CallerSource(req).Some? && cfg.allowedSource != "" && CallerSource(req).value != cfg.allowedSource
    ensures g == Pass <==>
      CallerSource(req).Some? && (cfg.allowedSource == "" || CallerSource(req).value == cfg.allowedSource) &&
      KeyOf(req) == cfg.scannerApiKey
    ensures g.Reject? ==> g.status in {500, 403, 401}
  {
    match CallerSource(req)
    case None => Reject(500)
    case Some(src) =>
      if cfg.allowedSource != "" && src != cfg.allowedSource then Reject(403)
      else if KeyOf(req) != cfg.scannerApiKey then Reject(401)
      else Pass
  }

  function FieldName(route: Route): string {
    if route == IpRoute then "ip" else "prefix"
  }

  /** `(request.get_json(silent=True) or {}).get(name, "")`; None where `.get` raises on a truthy non-object. */
  function BodyField(body: Body, name: string): (r: Option<PyValue>)
    requires !body.TooLarge?
    ensures r.None? <==> body == JsonOther(true)
    ensures body.JsonObject? && name in body.fields ==> r == Some(body.fields[name])
    ensures r.Some? && !(body.JsonObject? && name in body.fields) ==> r == Some(PyStr(""))
  {
    match body
    case NotJson => Some(PyStr(""))
    case JsonObject(fields) => Some(if name in fields then fields[name] else PyStr(""))
    case JsonOther(truthy) => if truthy then None else Some(PyStr(""))
  }

  /**
    `ip_endpoint` and `prefix_endpoint` behind `require_auth`. `isAddress`
    and `isNetwork` stand for `ipaddress.ip_address` and
    `ipaddress.ip_network(..., strict=False)` accepting the text.
  */
  function Endpoint(route: Route, req: Request, cfg: ApiConfig, isAddress: string -> bool, isNetwork: string -> bool)
    : (resp: Response)
    ensures resp.queued.Some? <==> resp.status == 202
  {
    match Authorize(req, cfg)
    case Reject(status) => Response(status, None)
    case Pass =>
      if req.mimetype != JsonMimetype then Response(415, None)
      else if req.body.TooLarge? then Response(413, None)
      else match BodyField(req.body, FieldName(route))
        case None => Response(500, None)
        case Some(val) =>
          match Sanitize(val)
          case None => Response(500, None)
          case Some(target) =>
            if route == IpRoute then
              if isAddress(target) then Response(202, Some(ScanIpJob(target))) else Response(400, None)
            else
              if isNetwork(target) then Response(202, Some(ScanPrefixJob(target))) else Response(400, None)
  }

  /** With an allowed source set, any other caller gets 403, whatever key it sends. */
  lemma ForeignSourceForbidden(route: Route, req: Request, cfg: ApiConfig, isAddress: string -> bool, isNetwork: string -> bool)
    requires cfg.allowedSource != "" && CallerSource(req).Some? && CallerSource(req).value != cfg.allowedSource
    ensures Endpoint(route, req, cfg, isAddress, isNetwork) == Response(403, None)
  {
  }

  /** 401 means the source passed and the key did not match; an empty allowed source never gives 403. */
  lemma KeyCheckedAfterSource(route: Route, req: Request, cfg: ApiConfig, isAddress: string -> bool, isNetwork: string -> bool)
    ensures Endpoint(route, req, cfg, isAddress, isNetwork).status == 401 <==>
      CallerSource(req).Some? &&
      (cfg.allowedSource == "" || CallerSource(req).value == cfg.allowedSource) &&
      KeyOf(req) != cfg.scannerApiKey
    ensures cfg.allowedSource == "" ==> Endpoint(route, req, cfg, isAddress, isNetwork).status != 403
  {
  }

  /** An authorised request that is not JSON gets 415 before its body is looked at. */
  lemma ContentTypeCheckedFirst(route: Route, req: Request, cfg: ApiConfig, isAddress: string -> bool, isNetwork: string -> bool)
    requires Authorize(req, cfg) == Pass && req.mimetype != JsonMimetype
    ensures Endpoint(route, req, cfg, isAddress, isNetwork) == Response(415, None)
  {
  }

  /**
    An authorised JSON request whose sanitized field does not parse gets 400
    and queues nothing; one whose field parses gets 202 and queues a scan of
    exactly the sanitized text.
  */
  lemma ValidationDecidesQueueing(route: Route, req: Request, cfg: ApiConfig, isAddress: string -> bool, isNetwork: string -> bool)
    requires Authorize(req, cfg) == Pass && req.mimetype == JsonMimetype && !req.body.TooLarge?
    requires BodyField(req.body, FieldName(route)).Some? && Sanitize(BodyField(req.body, FieldName(route)).value).Some?
    ensures var target := Sanitize(BodyField(req.body, FieldName(route)).value).value;
      var valid := if route == IpRoute then isAddress(target) else isNetwork(target);
      var resp := Endpoint(route, req, cfg, isAddress, isNetwork);
      (!valid ==> resp == Response(400, None)) &&
      (valid ==> resp.status == 202 &&
                 resp.queued == Some(if route == IpRoute then ScanIpJob(target) else ScanPrefixJob(target)))
  {
  }

  /** Whatever is queued passed validation and holds only the characters `sanitize` keeps. */
  lemma QueuedTargetsAreClean(route: Route, req: Request, cfg: ApiConfig, isAddress: string -> bool, isNetwork: string -> bool)
    ensures var resp := Endpoint(route, req, cfg, isAddress, isNetwork);
      resp.queued.Some? ==>
        match resp.queued.value
        case ScanIpJob(ip) => route == IpRoute && isAddress(ip) && forall k :: 0 <= k < |ip| ==> Allowed(ip[k])
        case ScanPrefixJob(p) => route == PrefixRoute && isNetwork(p) && forall k :: 0 <= k < |p| ==> Allowed(p[k])
  {
  }
}
