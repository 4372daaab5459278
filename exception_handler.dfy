/** HTTP responses as the controllers build them. */
module Http {
  import opened Domain

  /** The error body (`ErrorResponse`): message, details and a clock reading. */
  datatype ErrorResponse = ErrorResponse(message: string, details: Option<string>, timestamp: int)

  datatype Body = NoBody | CepBody(record: CepResponse) | ErrorBody(error: ErrorResponse)

  datatype Response = Response(status: int, body: Body)

  const Ok200: int := 200
  const BadRequest400: int := 400
  const NotFound404: int := 404
  const InternalServerError500: int := 500
  const ServiceUnavailable503: int := 503
}

/** `GlobalExceptionHandler`: the response for an exception that escapes a
    controller method, chosen by the exception's class. */
module ExceptionHandler {
  import opened Domain
  import opened Http

  const InvalidDataMessage: string := "Dados inválidos"
  const LookupFailedMessage: string := "Erro na consulta do CEP"
  const InternalErrorMessage: string := "Erro interno do servidor"
  const UnexpectedErrorDetails: string := "Ocorreu um erro inesperado"

  /** The handler chosen for `e`, given the clock reading it stamps its
      error object with. The not-found handler builds an error object but
      discards it, answering with an empty body. */
  function Handle(e: Exception, now: int): (r: Response)
    ensures r.status == (match e.kind
                         case ConstraintViolation => BadRequest400
                         case EntityNotFound => NotFound404
                         case CepApi => ServiceUnavailable503
                         case Runtime => InternalServerError500)
    ensures r.body.NoBody? <==> e.kind == EntityNotFound
    ensures e.kind == ConstraintViolation ==> r.body == ErrorBody(ErrorResponse(InvalidDataMessage, e.message, now))
    ensures e.kind == CepApi ==> r.body == ErrorBody(ErrorResponse(LookupFailedMessage, e.message, now))
    ensures e.kind == Runtime
            ==> r.body == ErrorBody(ErrorResponse(InternalErrorMessage, Some(UnexpectedErrorDetails), now))
  {
    match e.kind
    case ConstraintViolation =>
      Response(BadRequest400, ErrorBody(ErrorResponse(InvalidDataMessage, e.message, now)))
    case EntityNotFound =>
      Response(NotFound404, NoBody)
    case CepApi =>
      Response(ServiceUnavailable503, ErrorBody(ErrorResponse(LookupFailedMessage, e.message, now)))
    case Runtime =>
      Response(InternalServerError500, ErrorBody(ErrorResponse(InternalErrorMessage, Some(UnexpectedErrorDetails), now)))
  }

  /** Each exception class gets its own status, and no handler answers 200. */
  lemma StatusDeterminesKind(e1: Exception, e2: Exception, t1: int, t2: int)
    ensures Handle(e1, t1).status == Handle(e2, t2).status <==> e1.kind == e2.kind
    ensures Handle(e1, t1).status != Ok200
  {
  }

  /** The generic handler does not expose the exception: two unexpected
      exceptions handled at the same time get identical responses, whatever
      their messages. The 400 and 503 handlers do echo the message. */
  lemma GenericHidesMessage(e1: Exception, e2: Exception, now: int)
    requires e1.kind == Runtime && e2.kind == Runtime
    ensures Handle(e1, now) == Handle(e2, now)
  {
  }
}
