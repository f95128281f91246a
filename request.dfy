/**
 * What every controller reads from an Express request, and the shape of its
 * answer. Query-string parameters are `Some(text)` when present and `None`
 * when absent; dates are milliseconds since the epoch, and `new Date(text)`
 * is a parameter (`None` standing for an invalid date).
 */
module Request {
  import opened Wrappers

  const DefaultUserId := 1

  /** `req.user?.id || 1`: a missing user or the falsy id 0 fall back to user 1. */
  function EffectiveUser(user: Option<int>): (u: int)
    ensures user.Some? && user.value != 0 ==> u == user.value
    ensures user.None? || user.value == 0 ==> u == DefaultUserId
    ensures u != 0
  {
    if user.Some? && user.value != 0 then user.value else DefaultUserId
  }

  /** A query parameter used as a JavaScript condition: present and not the empty string. */
  predicate Given(p: Option<string>)
  {
    p.Some? && p.value != ""
  }

  /** `p && p !== all`: a filter value other than the "everything" choice (`Todos`, `Todas`). */
  predicate Selects(p: Option<string>, all: string)
  {
    Given(p) && p.value != all
  }

  /** `Op.between [lo, hi]`, both ends included; an invalid bound matches nothing. */
  datatype Between = Between(lo: Option<int>, hi: Option<int>)
  {
    predicate Holds(d: int)
    {
      lo.Some? && hi.Some? && lo.value <= d <= hi.value
    }
  }

  /** The date range of a query: only when both `startDate` and `endDate` are given. */
  function RangeOf(parseDate: string -> Option<int>, startDate: Option<string>, endDate: Option<string>): (r: Option<Between>)
    ensures r.Some? <==> Given(startDate) && Given(endDate)
  {
    if Given(startDate) && Given(endDate) then Some(Between(parseDate(startDate.value), parseDate(endDate.value)))
    else None
  }

  /** `res.status(status).json(body)`, or `res.status(status).json({ error })`. */
  datatype Reply<+T> = Ok(status: nat, body: T) | Fail(status: nat, error: string)

  /** `res.json({ message })` after a delete, or the 404 when nothing was deleted. */
  function DeleteReply(deleted: nat, notFound: string, done: string): Reply<string>
  {
    if deleted == 0 then Fail(404, notFound) else Ok(200, done)
  }

  /** A body member that the controllers read as a list: an array, a string, or anything else (absent included). */
  datatype ListInput = Items(items: seq<string>) | Encoded(text: string) | Other

  /**
   * `Array.isArray(v) ? v : typeof v === 'string' ? JSON.parse(v || '[]') : []`,
   * where `parse` is `JSON.parse` and `None` is the exception it throws.
   */
  function NormalizedList(v: ListInput, parse: string -> Option<seq<string>>): (r: Option<seq<string>>)
    ensures v.Items? ==> r == Some(v.items)
    ensures v.Other? || v == Encoded("") ==> r == Some([])
    ensures r.None? <==> v.Encoded? && v.text != "" && parse(v.text).None?
  {
    match v
    case Items(items) => Some(items)
    case Encoded(text) => if text == "" then Some([]) else parse(text)
    case Other => Some([])
  }
}
