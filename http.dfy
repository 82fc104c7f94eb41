/** The HTTP proxy of the agent endpoint (`AgentEndpoint.request` and the
    `_serialize_http_response` decorator around it). The HTTP client is an oracle
    from (method, url, keyword options) to a response or a raised exception. */
module HttpProxy {
  import opened PyText
  import opened Outcomes

  /** The Python values that travel in the options and in a response's attributes.
      `PyObject` stands for any other object (a header mapping, a cookie jar), which
      the proxy only passes along. */
  datatype PyValue =
    | PyNone
    | PyBool(b: bool)
    | PyInt(i: int)
    | PyStr(s: Bytes)
    | PyList(items: seq<PyValue>)
    | PyTuple(items: seq<PyValue>)
    | PyObject(typeName: Bytes, state: Bytes)

  /** The `kwargs` dictionary handed on to `requests.request`. */
  type Kwargs = map<Bytes, PyValue>

  const AuthKey: Bytes := "auth"

  /** What the message bus makes of a `(user, password)` tuple: a list of two. */
  predicate IsCredentialList(v: PyValue) {
    v.PyList? && |v.items| == 2
  }

  /** The `auth` rewrite at the top of `request`: a two-element list under `auth`
      becomes a tuple of the same elements; every other entry stays as it is. */
  function NormaliseAuth(kwargs: Kwargs): (r: Kwargs)
    ensures r.Keys == kwargs.Keys
    ensures forall k :: k in kwargs && k != AuthKey ==> r[k] == kwargs[k]
    ensures AuthKey in kwargs && IsCredentialList(kwargs[AuthKey]) ==>
              r[AuthKey] == PyTuple(kwargs[AuthKey].items)
    ensures AuthKey in kwargs && !IsCredentialList(kwargs[AuthKey]) ==> r[AuthKey] == kwargs[AuthKey]
  {
    if AuthKey in kwargs && IsCredentialList(kwargs[AuthKey]) then
      kwargs[AuthKey := PyTuple(kwargs[AuthKey].items)]
    else
      kwargs
  }

  /** The options change exactly when they carry a two-element credential list. */
  lemma NormaliseAuthChangesOnlyCredentialLists(kwargs: Kwargs)
    ensures NormaliseAuth(kwargs) != kwargs <==> AuthKey in kwargs && IsCredentialList(kwargs[AuthKey])
  {
    if AuthKey in kwargs && IsCredentialList(kwargs[AuthKey]) {
      assert NormaliseAuth(kwargs)[AuthKey] != kwargs[AuthKey];
    }
  }

  /** Normalising twice is normalising once: a restored tuple is left alone. */
  lemma NormaliseAuthIdempotent(kwargs: Kwargs)
    ensures NormaliseAuth(NormaliseAuth(kwargs)) == NormaliseAuth(kwargs)
  {
    var once := NormaliseAuth(kwargs);
    if AuthKey in kwargs && IsCredentialList(kwargs[AuthKey]) {
      assert !IsCredentialList(once[AuthKey]);
    }
  }

  /** The attribute namespace of a `requests` Response whose body has been read. */
  datatype Response = Response(attrs: map<Bytes, PyValue>)

  /** `_resp_attrs`: the attributes the proxy sends back, in the source's order.
      `history`, `elapsed` and `request` are deliberately not among them. */
  const RespAttrs: seq<Bytes> := ["_content", "status_code", "headers", "url", "encoding", "reason", "cookies"]

  /** `getattr(resp, attr, None)`. */
  function GetAttr(resp: Response, attr: Bytes): PyValue {
    if attr in resp.attrs then resp.attrs[attr] else PyNone
  }

  /** The dictionary the decorator pickles: one entry per allow-listed attribute,
      `None` for an attribute the response lacks. */
  function SerializeResponse(resp: Response): (d: map<Bytes, PyValue>)
    ensures d.Keys == set a | a in RespAttrs
    ensures forall a :: a in d && a in resp.attrs ==> d[a] == resp.attrs[a]
    ensures forall a :: a in d && a !in resp.attrs ==> d[a] == PyNone
  {
    map a | a in RespAttrs :: GetAttr(resp, a)
  }

  /** The dictionary never carries the request back-reference, the history or the timing. */
  lemma SerializedKeysExclude(resp: Response)
    ensures "request" !in SerializeResponse(resp) && "history" !in SerializeResponse(resp)
    ensures "elapsed" !in SerializeResponse(resp)
  {
  }

  /** The body bytes come back exactly as the response held them, whatever their values. */
  lemma BodyPreserved(resp: Response)
    requires "_content" in resp.attrs
    ensures "_content" in SerializeResponse(resp)
    ensures SerializeResponse(resp)["_content"] == resp.attrs["_content"]
  {
    assert "_content" in RespAttrs;
  }

  /** Only the allow-listed attributes matter: two responses that agree on them give
      the same dictionary. */
  lemma SerializeSeesOnlyAllowList(r1: Response, r2: Response)
    requires forall a :: a in RespAttrs ==> GetAttr(r1, a) == GetAttr(r2, a)
    ensures SerializeResponse(r1) == SerializeResponse(r2)
  {
  }

  /** Projecting a response already reduced to the dictionary gives that dictionary again. */
  lemma SerializeIdempotent(resp: Response)
    ensures SerializeResponse(Response(SerializeResponse(resp))) == SerializeResponse(resp)
  {
    var d := SerializeResponse(resp);
    forall a | a in RespAttrs ensures GetAttr(Response(d), a) == GetAttr(resp, a) {
      assert a in d;
    }
    SerializeSeesOnlyAllowList(Response(d), resp);
  }

  /** How the HTTP client call ends. `isException` tells whether the raised class
      derives from `Exception` (and is therefore caught by the decorator). */
  datatype CallResult =
    | Responded(resp: Response)
    | Threw(typeName: Bytes, text: Bytes, isException: bool)

  /** The text of the RuntimeError the decorator raises: `type(e).__name__ + ': ' + str(e)`. */
  function WrappedText(typeName: Bytes, text: Bytes): (r: Bytes)
    ensures |r| == |typeName| + 2 + |text|
    ensures r[..|typeName|] == typeName && r[|typeName|..|typeName| + 2] == ": "
    ensures r[|typeName| + 2..] == text
  {
    typeName + ": " + text
  }

  /** `request(ctxt, http_method, url, kwargs)` under `_serialize_http_response`,
      stopping at the dictionary that is pickled. `send` answers for `requests.request`. */
  function Request(httpMethod: Bytes, url: Bytes, kwargs: Kwargs,
                   send: (Bytes, Bytes, Kwargs) -> CallResult): (r: Outcome<map<Bytes, PyValue>>)
    ensures var call := send(httpMethod, url, NormaliseAuth(kwargs));
            (r.Returned? <==> call.Responded?) &&
            (call.Responded? ==> r.value == SerializeResponse(call.resp)) &&
            (call.Threw? && call.isException ==> r.error == RuntimeError(WrappedText(call.typeName, call.text))) &&
            (call.Threw? && !call.isException ==> r.error == Uncaught(call.typeName, call.text))
  {
    match send(httpMethod, url, NormaliseAuth(kwargs))
    case Responded(resp) => Returned(SerializeResponse(resp))
    case Threw(name, text, isException) =>
      if isException then Raised(RuntimeError(WrappedText(name, text))) else Raised(Uncaught(name, text))
  }

  /** A body of the two bytes 0xFF 0x00 reaches the dictionary unchanged. */
  lemma HighByteBodyExample(httpMethod: Bytes, url: Bytes, kwargs: Kwargs)
    ensures var body := PyStr([255 as char, 0 as char]);
            var send := (m: Bytes, u: Bytes, k: Kwargs) => Responded(Response(map["_content" := body]));
            var r := Request(httpMethod, url, kwargs, send);
            r.Returned? && r.value["_content"] == body && r.value["status_code"] == PyNone
  {
    var body := PyStr([255 as char, 0 as char]);
    BodyPreserved(Response(map["_content" := body]));
    assert "status_code" in RespAttrs;
  }
}
