/** The audit service (`AuditServiceImpl`): builds one audit entry per call
    and hands it to the repository; looks entries up by id. */
module Audit {
  import opened Domain
  import opened AuditRepository
  import opened SystemClock

  /** The seven arguments of one `logCepRequest` call. */
  datatype AuditCall = AuditCall(
    cep: string,
    responseData: Option<string>,
    success: bool,
    errorMessage: Option<string>,
    executionTimeMs: int,
    sourceIp: string,
    userAgent: Option<string>)

  /** The entity built for a call at clock reading `now`, before it has an id. */
  function NewEntry(call: AuditCall, now: int): (e: CepAuditLog) {
    CepAuditLog(None, call.cep, now, call.responseData, call.success, call.errorMessage,
                call.executionTimeMs, call.sourceIp, call.userAgent)
  }

  /** `logCepRequest`: stamp the entry with the current time and save it. */
  function LogCepRequestSpec(faults: nat -> Option<string>, s: RepoState, now: int, call: AuditCall)
    : (res: (Try<()>, RepoState))
  {
    var (saved, s1) := SaveSpec(faults, s, NewEntry(call, now));
    (if saved.Throw? then Throw(saved.exc) else Ok(()), s1)
  }

  /** Each call makes exactly one insert attempt. When it succeeds, exactly one
      entry is appended, carrying the call's arguments verbatim, the time of the
      call and the next id; when it fails, the log is unchanged and the
      database's exception propagates. */
  lemma LogAppendsOne(faults: nat -> Option<string>, s: RepoState, now: int, call: AuditCall)
    ensures var (r, s1) := LogCepRequestSpec(faults, s, now, call);
            s1.attempts == s.attempts + 1
            && (r.Ok? <==> faults(s.attempts).None?)
            && (r.Ok? ==> |s1.log| == |s.log| + 1 && s1.log[..|s.log|] == s.log
                          && s1.log[|s.log|] == CepAuditLog(Some(s.nextId), call.cep, now, call.responseData,
                               call.success, call.errorMessage, call.executionTimeMs, call.sourceIp, call.userAgent))
            && (r.Throw? ==> s1.log == s.log && r.exc == StoreFailure(faults(s.attempts).value))
  {
    var (r, s1) := LogCepRequestSpec(faults, s, now, call);
    if r.Ok? {
      assert s1.log[..|s.log|] == s.log;
    }
  }

  /** Logging keeps the aggregate counts exact: a successful insert adds one to
      the successful or the failed count, according to the call's flag. */
  lemma LogUpdatesCounts(faults: nat -> Option<string>, s: RepoState, now: int, call: AuditCall)
    requires faults(s.attempts).None?
    ensures var s1 := LogCepRequestSpec(faults, s, now, call).1;
            CountSuccessfulRequests(s1.log) == CountSuccessfulRequests(s.log) + (if call.success then 1 else 0)
            && CountFailedRequests(s1.log) == CountFailedRequests(s.log) + (if call.success then 0 else 1)
            && CountSuccessfulRequests(s1.log) + CountFailedRequests(s1.log) == |s1.log|
  {
    var s1 := LogCepRequestSpec(faults, s, now, call).1;
    CountsAfterAppend(s.log, NewEntry(call, now).(id := Some(s.nextId)));
    CountsPartition(s1.log);
  }

  // ---------------------------------------------------------------------
  // Lookup by id
  // ---------------------------------------------------------------------

  /** The character of a decimal digit. */
  function DigitChar(d: nat): (c: char)
    requires d < 10
    ensures '0' <= c <= '9'
  {
    ('0' as int + d) as char
  }

  /** The decimal digits of a natural number, most significant first. */
  function Digits(n: nat): (s: string)
    ensures |s| >= 1
    ensures forall i :: 0 <= i < |s| ==> '0' <= s[i] <= '9'
    decreases n
  {
    if n < 10 then [DigitChar(n)] else Digits(n / 10) + [DigitChar(n % 10)]
  }

  /** The number a string of decimal digits denotes. */
  function DigitsValue(s: string): nat
    requires forall i :: 0 <= i < |s| ==> '0' <= s[i] <= '9'
  {
    if s == [] then 0
    else DigitsValue(s[..|s| - 1]) * 10 + (s[|s| - 1] as int - '0' as int)
  }

  /** Reading the digits back yields the number. */
  lemma {:induction false} DigitsRoundTrip(n: nat)
    ensures DigitsValue(Digits(n)) == n
    decreases n
  {
    if n >= 10 {
      DigitsRoundTrip(n / 10);
      var s := Digits(n);
      assert s[..|s| - 1] == Digits(n / 10);
    }
  }

  /** `Long.toString`: an optional minus sign, then the digits. */
  function LongToString(n: int): (s: string)
    ensures |s| >= 1 && (s[0] == '-' || '0' <= s[0] <= '9')
    ensures forall i :: 1 <= i < |s| ==> '0' <= s[i] <= '9'
  {
    if n < 0 then "-" + Digits(-n) else Digits(n)
  }

  /** Distinct naturals have distinct digit strings. */
  lemma DigitsInjective(a: nat, b: nat)
    requires Digits(a) == Digits(b)
    ensures a == b
  {
    DigitsRoundTrip(a);
    DigitsRoundTrip(b);
  }

  /** The printed form starts with a minus sign exactly for negative numbers. */
  lemma SignShown(n: int)
    ensures LongToString(n)[0] == '-' <==> n < 0
  {
    if n >= 0 {
      assert '0' <= Digits(n)[0] <= '9';
    }
  }

  /** Distinct ids are printed differently. */
  lemma LongToStringInjective(a: int, b: int)
    requires LongToString(a) == LongToString(b)
    ensures a == b
  {
    var sa, sb := LongToString(a), LongToString(b);
    SignShown(a);
    SignShown(b);
    if a < 0 && b < 0 {
      assert sa[1..] == Digits(-a);
      assert sb[1..] == Digits(-b);
      DigitsInjective(-a, -b);
    } else if a >= 0 && b >= 0 {
      DigitsInjective(a, b);
    }
  }

  const NotFoundPrefix: string := "Audit log não encontrado com ID: "

  /** The exception `findById` throws for an id no entry carries. */
  function NotFound(id: int): (e: Exception)
    ensures e.kind == EntityNotFound
  {
    Exception(EntityNotFound, Some(NotFoundPrefix + LongToString(id)))
  }

  /** `AuditServiceImpl.findById`: the stored entry, or `EntityNotFoundException`. */
  function FindByIdOrThrow(log: seq<CepAuditLog>, id: int): (r: Try<CepAuditLog>)
    ensures r.Ok? <==> exists i :: 0 <= i < |log| && log[i].id == Some(id)
    ensures r.Ok? ==> r.value in log && r.value.id == Some(id)
    ensures r.Throw? ==> r.exc == NotFound(id)
  {
    match FindById(log, id)
    case Some(e) => Ok(e)
    case None => Throw(NotFound(id))
  }

  /** The not-found message names the id: two lookups that fail for different
      ids fail with different messages. */
  lemma NotFoundNamesId(log: seq<CepAuditLog>, a: int, b: int)
    requires FindByIdOrThrow(log, a).Throw? && FindByIdOrThrow(log, b).Throw?
    requires FindByIdOrThrow(log, a).exc == FindByIdOrThrow(log, b).exc
    ensures a == b
  {
    var ma := NotFoundPrefix + LongToString(a);
    var mb := NotFoundPrefix + LongToString(b);
    assert ma == mb;
    assert LongToString(a) == ma[|NotFoundPrefix|..];
    LongToStringInjective(a, b);
  }

  /** The audit service bean, with the repository and clock it uses. */
  class AuditServiceImpl {
    const repository: CepAuditLogRepository
    const clock: Clock

    constructor (repository: CepAuditLogRepository, clock: Clock)
      ensures this.repository == repository && this.clock == clock
    {
      this.repository := repository;
      this.clock := clock;
    }

    method LogCepRequest(call: AuditCall) returns (r: Try<()>)
      requires repository.Valid()
      modifies repository, clock
      ensures repository.Valid()
      ensures clock.ticks == old(clock.ticks) + 1
      ensures (r, repository.State())
              == LogCepRequestSpec(repository.faults, old(repository.State()), clock.reading(old(clock.ticks)), call)
    {
      var now := clock.Now();
      var saved := repository.Save(NewEntry(call, now));
      r := if saved.Throw? then Throw(saved.exc) else Ok(());
    }

    /** `findById`: the stored entry with this id, or `EntityNotFoundException`
        naming the id. */
    function FindById(id: int): (r: Try<CepAuditLog>)
      reads repository
      ensures r.Ok? <==> exists i :: 0 <= i < |repository.log| && repository.log[i].id == Some(id)
      ensures r.Ok? ==> r.value in repository.log && r.value.id == Some(id)
      ensures r.Throw? ==> r.exc == NotFound(id)
    {
      FindByIdOrThrow(repository.log, id)
    }
  }
}
