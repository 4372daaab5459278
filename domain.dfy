/** Value types shared by every layer of the CEP tracker: the address record
    returned by the upstream lookup, the audit-log entity, Java's nullable
    references and Java's exceptions. */
module Domain {

  /** A nullable Java reference. */
  datatype Option<+T> = None | Some(value: T)

  /** The address record (a Lombok `@Data` bean). Every field is a nullable
      Java reference; `erro` is the upstream "not found" flag. */
  datatype CepResponse = CepResponse(
    cep: Option<string>,
    street: Option<string>,
    complement: Option<string>,
    neighborhood: Option<string>,
    city: Option<string>,
    state: Option<string>,
    ibgeCode: Option<string>,
    giaCode: Option<string>,
    areaCode: Option<string>,
    siafiCode: Option<string>,
    erro: Option<bool>)

  /** The test written twice in the source, in the service before caching and
      in the controller before answering 200: the result is non-null and its
      `erro` flag is null or false. */
  predicate IsFound(r: Option<CepResponse>) {
    r.Some? && r.value.erro != Some(true)
  }

  /** One row of the audit table. `id` is null until the repository assigns it;
      `requestTimestamp` is a clock reading in milliseconds. */
  datatype CepAuditLog = CepAuditLog(
    id: Option<int>,
    cep: string,
    requestTimestamp: int,
    responseData: Option<string>,
    success: bool,
    errorMessage: Option<string>,
    executionTimeMs: int,
    sourceIp: string,
    userAgent: Option<string>)

  /** The exception classes the code distinguishes. `Runtime` stands for every
      other exception (store faults, timeouts, index errors, ...). */
  datatype ExceptionKind = ConstraintViolation | EntityNotFound | CepApi | Runtime

  /** A thrown exception: its class and `getMessage()`, which may be null. */
  datatype Exception = Exception(kind: ExceptionKind, message: Option<string>)

  /** How a Java call completes: it returns a value or throws. */
  datatype Try<+T> = Ok(value: T) | Throw(exc: Exception)

  /** The exception a failing store operation raises: a runtime exception
      carrying the store's message. */
  function StoreFailure(message: string): (e: Exception)
    ensures e.kind == Runtime && e.message == Some(message)
  {
    Exception(Runtime, Some(message))
  }

  /** Java's string concatenation of a nullable string. */
  function NullableText(s: Option<string>): string {
    match s
    case None => "null"
    case Some(t) => t
  }

  /** Java's string concatenation of a nullable Boolean. */
  function NullableBool(b: Option<bool>): string {
    match b
    case None => "null"
    case Some(true) => "true"
    case Some(false) => "false"
  }

  /** The Lombok-generated `toString()` of the address record. */
  function ResponseToString(r: CepResponse): (s: string)
    ensures |s| > 16 && s[..16] == "CepResponse(cep=" && s[|s| - 1] == ')'
  {
    "CepResponse(cep=" + NullableText(r.cep)
    + ", street=" + NullableText(r.street)
    + ", complement=" + NullableText(r.complement)
    + ", neighborhood=" + NullableText(r.neighborhood)
    + ", city=" + NullableText(r.city)
    + ", state=" + NullableText(r.state)
    + ", ibgeCode=" + NullableText(r.ibgeCode)
    + ", giaCode=" + NullableText(r.giaCode)
    + ", areaCode=" + NullableText(r.areaCode)
    + ", siafiCode=" + NullableText(r.siafiCode)
    + ", erro=" + NullableBool(r.erro) + ")"
  }
}

/** The JSON mapper (Jackson's `ObjectMapper`), kept opaque: the model only
    knows that writing may fail and that reading may fail or yield null. */
module Json {
  import opened Domain

  /** Outcome of `readValue`: a value (null for the JSON text `null`) or a
      `JsonProcessingException`. */
  datatype ReadResult = Parsed(value: Option<CepResponse>) | Malformed

  /** `write` is `writeValueAsString` (None: `JsonProcessingException`);
      `read` is `readValue(json, CepResponse.class)`. */
  datatype Codec = Codec(write: CepResponse -> Option<string>, read: string -> ReadResult)

  /** The mapper reads back every record it writes. */
  ghost predicate RoundTrips(codec: Codec) {
    forall r: CepResponse :: codec.write(r).Some? ==> codec.read(codec.write(r).value) == Parsed(Some(r))
  }
}

/** The system clock. `reading(k)` is the value of the k-th reading, so every
    `System.currentTimeMillis()` and `LocalDateTime.now()` in the code is one
    step of this schedule. */
module SystemClock {

  class Clock {
    const reading: nat -> int
    var ticks: nat

    constructor (reading: nat -> int)
      ensures this.reading == reading && ticks == 0
    {
      this.reading := reading;
      ticks := 0;
    }

    /** Takes the next reading. */
    method Now() returns (t: int)
      modifies this
      ensures ticks == old(ticks) + 1
      ensures t == reading(old(ticks))
    {
      t := reading(ticks);
      ticks := ticks + 1;
    }
  }
}
