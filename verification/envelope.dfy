/** The helpers of src/components/Pages/SystemOverview/systemInfoTypes.ts that
  * take apart what the backend sends: a serialised Rust `Result` and a
  * serialised `SysInfoError`. They work on untyped JavaScript values, so the
  * model gives them a small JSON value type and follows JavaScript's
  * truthiness, `typeof` and `in` rules for it. */
module Envelope {
  import opened Wrappers
  import opened Strings
  import SysInfo

  /** A JavaScript value as it arrives from the backend. */
  datatype JVal =
    | JNull
    | JUndefined
    | JBool(b: bool)
    | JNum(n: real)
    | JStr(s: string)
    | JArr(elems: seq<JVal>)
    | JObj(fields: map<string, JVal>)

  const OkKey: string := "Ok"
  const ErrKey: string := "Err"
  const SystemKey: string := "System"
  const NvmlKey: string := "Nvml"
  const UnknownErrorMessage: string := "Unknown error"

  /** JavaScript truthiness. */
  predicate Truthy(v: JVal)
  {
    match v
    case JNull => false
    case JUndefined => false
    case JBool(b) => b
    case JNum(n) => n != 0.0
    case JStr(s) => |s| > 0
    case JArr(_) => true
    case JObj(_) => true
  }

  /** `typeof v === "object"`, which includes `null` and arrays. */
  predicate IsObjectType(v: JVal)
  {
    v.JNull? || v.JArr? || v.JObj?
  }

  /** A canonical array index: digits with no leading zero. */
  predicate IsIndexKey(k: string, length: nat)
  {
    |k| > 0 && AllDigits(k) && (k[0] != '0' || |k| == 1) && DigitsValue(k) < length
  }

  /** `k in v` for an object or an array (own properties only). */
  predicate HasKey(v: JVal, k: string)
    requires v.JArr? || v.JObj?
  {
    match v
    case JObj(fields) => k in fields
    case JArr(elems) => k == "length" || IsIndexKey(k, |elems|)
  }

  /** An array has none of the keys the helpers look for. */
  lemma ArrayHasNoEnvelopeKeys(elems: seq<JVal>)
    ensures !HasKey(JArr(elems), OkKey) && !HasKey(JArr(elems), ErrKey)
    ensures !HasKey(JArr(elems), SystemKey) && !HasKey(JArr(elems), NvmlKey)
  {
    assert !IsDigit(OkKey[0]) && !IsDigit(ErrKey[0]) && !IsDigit(SystemKey[0]) && !IsDigit(NvmlKey[0]);
  }

  /** `unwrapResult`: the `Ok` payload of an object that has one, else its
    * `Err` payload, else the value itself. */
  function UnwrapResult(v: JVal): (r: JVal)
    ensures v.JObj? && OkKey in v.fields ==> r == v.fields[OkKey]
    ensures v.JObj? && OkKey !in v.fields && ErrKey in v.fields ==> r == v.fields[ErrKey]
    ensures !(v.JObj? && (OkKey in v.fields || ErrKey in v.fields)) ==> r == v
  {
    if Truthy(v) && IsObjectType(v) then
      if v.JArr? then
        ArrayHasNoEnvelopeKeys(v.elems);
        v
      else if OkKey in v.fields then v.fields[OkKey]
      else if ErrKey in v.fields then v.fields[ErrKey]
      else v
    else v
  }

  /** `isError`: a non-null object with a `System` or `Nvml` key. */
  predicate IsError(v: JVal)
  {
    IsObjectType(v) && !v.JNull? && (HasKey(v, SystemKey) || HasKey(v, NvmlKey))
  }

  /** `isSuccess`, the negation of `isError`. */
  predicate IsSuccess(v: JVal)
  {
    !IsError(v)
  }

  /** `isError` holds exactly for plain objects with one of the two keys. */
  lemma IsErrorMeaning(v: JVal)
    ensures IsError(v) <==> v.JObj? && (SystemKey in v.fields || NvmlKey in v.fields)
    ensures IsSuccess(v) <==> !IsError(v)
  {
    if v.JArr? {
      ArrayHasNoEnvelopeKeys(v.elems);
    }
  }

  /** A function call either returns a value or throws a `TypeError`. */
  datatype Completion = Returned(value: JVal) | ThrewTypeError

  /** `getErrorMessage`: the `System` payload first, then the `Nvml` payload,
    * else "Unknown error". The `in` operator throws on a value that is not
    * an object, including `null` and `undefined`. */
  function GetErrorMessage(e: JVal): (r: Completion)
    ensures r.ThrewTypeError? <==> !(e.JObj? || e.JArr?)
    ensures e.JObj? && SystemKey in e.fields ==> r == Returned(e.fields[SystemKey])
    ensures e.JObj? && SystemKey !in e.fields && NvmlKey in e.fields ==> r == Returned(e.fields[NvmlKey])
    ensures (e.JObj? || e.JArr?) && !IsError(e) ==> r == Returned(JStr(UnknownErrorMessage))
  {
    if !(e.JObj? || e.JArr?) then ThrewTypeError
    else if e.JArr? then
      ArrayHasNoEnvelopeKeys(e.elems);
      Returned(JStr(UnknownErrorMessage))
    else if SystemKey in e.fields then Returned(e.fields[SystemKey])
    else if NvmlKey in e.fields then Returned(e.fields[NvmlKey])
    else Returned(JStr(UnknownErrorMessage))
  }

  /** `formatError`, which hands its argument to `getErrorMessage`: it
    * throws for the values that one throws for, and returns one of the two
    * payloads of an error object. */
  function FormatError(e: JVal): (r: Completion)
    ensures r.ThrewTypeError? <==> !(e.JObj? || e.JArr?)
    ensures IsError(e) ==> e.JObj? && r.Returned? && r.value in e.fields.Values
    ensures r == GetErrorMessage(e)
  {
    IsErrorMeaning(e);
    GetErrorMessage(e)
  }

  /** The JSON the backend's serialiser makes of a `SysInfoError`: an object
    * with the variant name as its one key. */
  function SerializeError(e: SysInfoError): (v: JVal)
    ensures v.JObj? && |v.fields| == 1
    ensures e.System? ==> v == JObj(map[SystemKey := JStr(e.message)])
    ensures e.Nvml? ==> v == JObj(map[NvmlKey := JStr(e.message)])
  {
    match e
    case System(m) => JObj(map[SystemKey := JStr(m)])
    case Nvml(m) => JObj(map[NvmlKey := JStr(m)])
  }

  type SysInfoError = SysInfo.SysInfoError

  /** Different errors serialise differently: the variant is told by the key
    * and the message by the value. */
  lemma SerializeErrorInjective(e1: SysInfoError, e2: SysInfoError)
    requires SerializeError(e1) == SerializeError(e2)
    ensures e1 == e2
  {
    var v := SerializeError(e1);
    var k1 := if e1.System? then SystemKey else NvmlKey;
    var k2 := if e2.System? then SystemKey else NvmlKey;
    assert k1 in v.fields && k2 in v.fields;
    assert v.fields[k1] == JStr(e1.message) && v.fields[k2] == JStr(e2.message);
  }

  /** The JSON of a Rust `Result`: `{"Ok": value}` or `{"Err": error}`. */
  function SerializeResult<T>(r: Result<T, SysInfoError>, encode: T -> JVal): (v: JVal)
    ensures v.JObj? && |v.fields| == 1
    ensures r.Success? ==> v.fields == map[OkKey := encode(r.value)]
    ensures r.Failure? ==> v.fields == map[ErrKey := SerializeError(r.error)]
  {
    match r
    case Success(x) => JObj(map[OkKey := encode(x)])
    case Failure(e) => JObj(map[ErrKey := SerializeError(e)])
  }

  /** A serialised backend error, unwrapped, is recognised as an error, and
    * its message is the one the backend wrote. */
  lemma UnwrappedErrorIsError<T>(e: SysInfoError, encode: T -> JVal)
    ensures var u := UnwrapResult(SerializeResult(Failure(e), encode));
            IsError(u) && GetErrorMessage(u) == Returned(JStr(e.message))
  {
    var v := SerializeResult(Failure(e), encode);
    assert OkKey !in v.fields;
    IsErrorMeaning(SerializeError(e));
  }

  /** The text the section error rows show for a backend error is the
    * message the backend put in it. */
  lemma FormatErrorOfBackendError(e: SysInfoError)
    ensures FormatError(SerializeError(e)) == Returned(JStr(e.message))
  {
  }

  /** A serialised success, unwrapped, gives back the encoded value. */
  lemma UnwrappedSuccessIsPayload<T>(x: T, encode: T -> JVal)
    ensures UnwrapResult(SerializeResult(Success(x), encode)) == encode(x)
  {
  }

  /** Unwrapping an `{"Err": e}` whose payload looks like an error yields a
    * value `isError` accepts. */
  lemma UnwrapErrOfErrorShape(e: JVal)
    requires e.JObj? && (SystemKey in e.fields || NvmlKey in e.fields)
    ensures IsError(UnwrapResult(JObj(map[ErrKey := e])))
  {
    var v := JObj(map[ErrKey := e]);
    assert OkKey !in v.fields;
    IsErrorMeaning(e);
  }
}
