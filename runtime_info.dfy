/**
 * RuntimeInfo (iOS): the runtime's `/xas/` info decoded from a JSON dictionary, each
 * field defaulting to "" or 0 when missing or of the wrong type, and the bridge
 * response built from the outcome of the request.
 */
module RuntimeInfo {
  import opened Wrappers
  import opened Json

  datatype RuntimeInfo = RuntimeInfo(version: string, cacheburst: string, nativeBinaryVersion: int, packagerPort: int)

  /** `dictionary[key] as? Int`: present only for a member holding a number. */
  function IntMember(fields: map<string, Value>, key: string): (r: Option<int>)
    ensures r.Some? <==> key in fields && fields[key].JNumber?
    ensures r.Some? ==> fields[key] == JNumber(r.value)
  {
    if key in fields && fields[key].JNumber? then Some(fields[key].num) else None
  }

  /**
   * `convenience init(_ dictionary:)`. The property `cacheburst` is read from the key
   * "cachebust".
   */
  function FromDictionary(d: map<string, Value>): (r: RuntimeInfo)
    ensures r.version == StringMember(d, "version").GetOr("")
    ensures r.cacheburst == StringMember(d, "cachebust").GetOr("")
    ensures r.nativeBinaryVersion == IntMember(d, "nativeBinaryVersion").GetOr(0)
    ensures r.packagerPort == IntMember(d, "packagerPort").GetOr(0)
  {
    RuntimeInfo(StringMember(d, "version").GetOr(""), StringMember(d, "cachebust").GetOr(""),
                IntMember(d, "nativeBinaryVersion").GetOr(0), IntMember(d, "packagerPort").GetOr(0))
  }

  /** The dictionary a runtime info would be sent as. */
  function ToDictionary(info: RuntimeInfo): (r: map<string, Value>)
    ensures r.Keys == {"version", "cachebust", "nativeBinaryVersion", "packagerPort"}
  {
    map["version" := JString(info.version), "cachebust" := JString(info.cacheburst),
        "nativeBinaryVersion" := JNumber(info.nativeBinaryVersion), "packagerPort" := JNumber(info.packagerPort)]
  }

  /** Decoding reads back every field of a well-formed dictionary. */
  lemma FromToDictionary(info: RuntimeInfo)
    ensures FromDictionary(ToDictionary(info)) == info
  {
    var d := ToDictionary(info);
    assert d["version"] == JString(info.version);
    assert d["cachebust"] == JString(info.cacheburst);
  }

  /** Nothing in the dictionary: the all-default info. */
  lemma EmptyDictionaryDefaults()
    ensures FromDictionary(map[]) == RuntimeInfo("", "", 0, 0)
  {
  }

  /** A field of the wrong type reads as its default rather than failing the decode. */
  lemma WrongTypeDefaults(d: map<string, Value>)
    requires "packagerPort" in d && d["packagerPort"] == JString("8083")
    ensures FromDictionary(d).packagerPort == 0
  {
  }

  /** The outcome of fetching the runtime info. */
  datatype Status = Success(info: RuntimeInfo) | Failed | Inaccessible

  datatype Response = Response(status: string, runtimeInfo: Option<RuntimeInfo>)

  /** `RuntimeInfoResponseStatus.response`: its status name, and the info only on success. */
  function ToResponse(s: Status): (r: Response)
    ensures r.runtimeInfo.Some? <==> s.Success?
    ensures s.Success? ==> r == Response("SUCCESS", Some(s.info))
    ensures s.Failed? ==> r.status == "FAILED"
    ensures s.Inaccessible? ==> r.status == "INACCESSIBLE"
  {
    match s
    case Success(info) => Response("SUCCESS", Some(info))
    case Failed => Response("FAILED", None)
    case Inaccessible => Response("INACCESSIBLE", None)
  }

  /** Reading a response back: its status name, with the info on success. */
  function FromResponse(r: Response): (s: Option<Status>)
    ensures s.Some? && s.value.Success? ==> r.runtimeInfo == Some(s.value.info)
  {
    if r.status == "SUCCESS" && r.runtimeInfo.Some? then Some(Success(r.runtimeInfo.value))
    else if r.status == "FAILED" then Some(Failed)
    else if r.status == "INACCESSIBLE" then Some(Inaccessible)
    else None
  }

  /** The response tells the three outcomes apart, and gives back the info. */
  lemma ResponseRoundTrip(s: Status)
    ensures FromResponse(ToResponse(s)) == Some(s)
  {
  }
}
