/** The JSON envelope every handler answers with (`backend/src/utils/response.utils.js`):
    `{success, message, data?, errors?, pagination?}` plus the HTTP status. */
module Responses {
  import opened Common

  /** One entry of an `errors` array: a bare message, or a message tagged
      with the request field it is about. */
  datatype ErrorItem = Plain(text: string) | FieldMessage(field: string, message: string)

  datatype Pagination = Pagination(total: nat, page: int, limit: int, totalPages: int,
                                   hasNext: bool, hasPrev: bool)

  /** The body; an absent key is `None`. */
  datatype Body<D> = Body(success: bool, message: Option<string>, data: Option<D>,
                          errors: Option<seq<ErrorItem>>, hint: Option<string>,
                          stack: Option<string>, pagination: Option<Pagination>)

  datatype Response<D> = Response(status: int, body: Body<D>)

  const DEVELOPMENT_HINT := "Revisa los logs del servidor para más información"

  /** `success(res, data, message, status)`: the `data` key is left out when
      the data is null. */
  function Success<D>(data: Option<D>, message: string, status: int): (r: Response<D>)
    ensures r.status == status && r.body.success
    ensures r.body.message == Some(message)
    ensures r.body.data == data
    ensures r.body.errors.None? && r.body.pagination.None? && r.body.hint.None?
  {
    Response(status, Body(true, Some(message), data, None, None, None, None))
  }

  /** `created(res, data, message)`. */
  function Created<D>(data: Option<D>, message: string): (r: Response<D>)
    ensures r.status == 201 && r.body.success && r.body.data == data
    ensures r.body.message == Some(message)
  {
    Success(data, message, 201)
  }

  /** `error(res, message, status, errors)`: the `errors` key appears only when
      errors are supplied, and the development hint only on a 500. */
  function Error<D>(message: string, status: int, errors: Option<seq<ErrorItem>>,
                    development: bool): (r: Response<D>)
    ensures r.status == status && !r.body.success
    ensures r.body.message == Some(message) && r.body.data.None?
    ensures r.body.errors == errors
    ensures r.body.hint.Some? <==> development && status == 500
  {
    var hint := if development && status == 500 then Some(DEVELOPMENT_HINT) else None;
    Response(status, Body(false, Some(message), None, errors, hint, None, None))
  }

  /** `error(res, message, status)` as the controllers call it, with a status
      other than 500: the body does not depend on the environment. */
  function Fail<D>(message: string, status: int): (r: Response<D>)
    requires status != 500
    ensures forall development: bool :: r == Error(message, status, None, development)
    ensures r.status == status && !r.body.success && r.body.message == Some(message)
  {
    Error(message, status, None, false)
  }

  /** `notFound(res, resource)`. */
  function NotFound<D>(resource: string): (r: Response<D>)
    ensures r.status == 404 && !r.body.success
    ensures r.body.message == Some(resource + " no encontrado")
  {
    Fail(resource + " no encontrado", 404)
  }

  /** `unauthorized(res, message)`. */
  function Unauthorized<D>(message: string): (r: Response<D>)
    ensures r.status == 401 && !r.body.success && r.body.message == Some(message)
  {
    Fail(message, 401)
  }

  /** `forbidden(res, message)`. */
  function Forbidden<D>(message: string): (r: Response<D>)
    ensures r.status == 403 && !r.body.success && r.body.message == Some(message)
  {
    Fail(message, 403)
  }

  const VALIDATION_MESSAGE := "Errores de validación"

  /** `validationError(res, errors)`. */
  function ValidationError<D>(errors: seq<ErrorItem>): (r: Response<D>)
    ensures r.status == 422 && !r.body.success
    ensures r.body.message == Some(VALIDATION_MESSAGE) && r.body.errors == Some(errors)
  {
    Fail(VALIDATION_MESSAGE, 422)
      .(body := Body(false, Some(VALIDATION_MESSAGE), None, Some(errors), None, None, None))
  }

  /** `Math.ceil(a / b)` on integers. */
  function CeilDiv(a: int, b: int): (q: int)
    requires b != 0
    ensures b > 0 ==> (q - 1) * b < a <= q * b
    ensures b < 0 ==> q * b <= a < (q - 1) * b
  {
    if b > 0 then
      var q := (a + b - 1) / b;
      assert q * b <= a + b - 1 < q * b + b;
      assert (q - 1) * b == q * b - b;
      q
    else
      var c := -b;
      var q := (-a + c - 1) / c;
      assert q * c <= -a + c - 1 < q * c + c;
      assert q * b == -(q * c) && (q - 1) * b == -(q * c) + c;
      q
  }

  /** `paginated(res, {data, total, page, limit})`: no message key. */
  function Paginated<D>(data: D, total: nat, page: int, limit: int): (r: Response<D>)
    requires limit != 0
    ensures r.status == 200 && r.body.success && r.body.data == Some(data)
    ensures r.body.message.None? && r.body.pagination.Some?
    ensures r.body.pagination.value.totalPages == CeilDiv(total, limit)
    ensures r.body.pagination.value.hasNext <==> page * limit < total
    ensures r.body.pagination.value.hasPrev <==> page > 1
  {
    var p := Pagination(total, page, limit, CeilDiv(total, limit), page * limit < total, page > 1);
    Response(200, Body(true, None, Some(data), None, None, None, Some(p)))
  }

  /** With a positive page size, "there is a next page" is exactly "this is
      not the last page". */
  lemma PaginatedHasNext<D>(data: D, total: nat, page: int, limit: int)
    requires limit > 0
    ensures Paginated(data, total, page, limit).body.pagination.value.hasNext
            <==> page < CeilDiv(total, limit)
  {
    var t := CeilDiv(total, limit);
    if page < t {
      MulMonotone(page, t - 1, limit);
    } else {
      MulMonotone(t, page, limit);
    }
  }

  lemma MulMonotone(a: int, b: int, c: int)
    requires a <= b && c > 0
    ensures a * c <= b * c
  {
    assert b * c - a * c == (b - a) * c;
  }

  /** The helpers that answer success say so, the error helpers do not. */
  lemma SuccessFlags<D>(data: Option<D>, message: string, errors: seq<ErrorItem>, resource: string, page: int)
    ensures Success(data, message, 200).body.success && Created(data, message).body.success
    ensures !Error<D>(message, 500, None, true).body.success
    ensures !NotFound<D>(resource).body.success && !Unauthorized<D>(message).body.success
    ensures !Forbidden<D>(message).body.success && !ValidationError<D>(errors).body.success
    ensures data.Some? ==> Paginated(data.value, 0, page, 20).body.success
  {
  }
}

/** The `page` / `limit` query clamp of the list handlers
    (`listVehicles`, `listUsers`, `listTrabajos`, `misTrab`). */
module Paging {
  import opened Common

  const DEFAULT_PAGE := 1
  const DEFAULT_LIMIT := 20
  const MAX_LIMIT := 100
  /** `misTrab` pages by a fixed 20. */
  const MIS_TRABAJOS_LIMIT := 20

  /** `Math.max(1, parseInt(page) || 1)`; `None` is NaN. */
  function ClampPage(page: Option<int>): (p: int)
    ensures p >= 1
    ensures TruthyInt(page) && page.value >= 1 ==> p == page.value
    ensures !(TruthyInt(page) && page.value >= 1) ==> p == 1
  {
    var v := if TruthyInt(page) then page.value else DEFAULT_PAGE;
    if v < 1 then 1 else v
  }

  /** `Math.min(parseInt(limit) || 20, 100)` as written: bounded above only. */
  function ClampLimitAsWritten(limit: Option<int>): (l: int)
    ensures l <= MAX_LIMIT && l != 0
    ensures !TruthyInt(limit) ==> l == DEFAULT_LIMIT
    ensures TruthyInt(limit) ==> l == if limit.value < MAX_LIMIT then limit.value else MAX_LIMIT
  {
    var v := if TruthyInt(limit) then limit.value else DEFAULT_LIMIT;
    if v < MAX_LIMIT then v else MAX_LIMIT
  }

  /** A negative `limit` query passes the clamp unchanged, and so does the
      negative offset it yields. */
  lemma NegativeLimitPassesClamp()
    ensures ClampLimitAsWritten(Some(-5)) == -5
    ensures Offset(1, ClampLimitAsWritten(Some(-5))) == 0
    ensures Offset(2, ClampLimitAsWritten(Some(-5))) == -5
  {
  }

  /** The clamp with the evident lower bound: a page size in [1, 100]. */
  function ClampLimit(limit: Option<int>): (l: int)
    ensures 1 <= l <= MAX_LIMIT
    ensures TruthyInt(limit) && 1 <= limit.value <= MAX_LIMIT ==> l == limit.value
    ensures l == ClampLimitAsWritten(limit) || ClampLimitAsWritten(limit) < 1
  {
    var v := ClampLimitAsWritten(limit);
    if v < 1 then 1 else v
  }

  /** `(page - 1) * limit`. */
  function Offset(page: int, limit: int): (o: int)
    ensures page >= 1 && limit >= 1 ==> o >= 0
    ensures page == 1 ==> o == 0
  {
    MulNonNegative(page - 1, limit);
    (page - 1) * limit
  }

  lemma MulNonNegative(a: int, b: int)
    ensures a >= 0 && b >= 0 ==> a * b >= 0
  {
  }

  /** The rows a page shows are exactly the ones before the next page's offset. */
  lemma ConsecutivePages(page: int, limit: int)
    requires page >= 1 && limit >= 1
    ensures Offset(page + 1, limit) == Offset(page, limit) + limit
  {
  }
}
