/** Vocabulary shared by every handler and model: optional values, the HTTP
    statuses the handlers answer with, timestamps and ASCII case folding. */
module Common {

  /** Seconds since the Unix epoch, UTC (the stored columns keep whole seconds). */
  type Time = int

  /** The currency every entity falls back to when a request leaves it out. */
  const DefaultCurrency: string := "BDT"

  datatype Option<+T> = None | Some(value: T) {
    /** The value, or `default` when absent: Rust's `unwrap_or`, and also SQL's
        `COALESCE(?, col)` with the bound parameter as the receiver. */
    function GetOr(default: T): T {
      match this
      case Some(v) => v
      case None => default
    }
  }

  /** `COALESCE(?, col)` on a NULL-able column: a NULL parameter keeps the
      stored value, so a stored value can be replaced but never cleared. */
  function CoalesceNullable<T>(patch: Option<T>, stored: Option<T>): (r: Option<T>)
    ensures stored.Some? ==> r.Some?
    ensures patch.Some? ==> r == patch
    ensures patch.None? ==> r == stored
  {
    if patch.Some? then patch else stored
  }

  /** The error statuses the handlers return. */
  datatype Status = BadRequest | Unauthorized | NotFound | Conflict | Internal | NotImplemented {
    function Code(): (c: int)
      ensures 400 <= c < 600
      ensures c >= 500 <==> this in {Internal, NotImplemented}
    {
      match this
      case BadRequest => 400
      case Unauthorized => 401
      case NotFound => 404
      case Conflict => 409
      case Internal => 500
      case NotImplemented => 501
    }
  }

  /** Handlers that answer with a bare status code on failure. */
  datatype Outcome<+T> = Success(value: T) | Failure(status: Status)

  /** Handlers that answer with a status and a JSON `{"error": ...}` body on failure. */
  datatype Reply<+T> = Ok(body: T) | Err(status: Status, error: string)

  function LowerChar(c: char): (d: char)
    ensures 'A' <= c <= 'Z' ==> 'a' <= d <= 'z'
    ensures !('A' <= c <= 'Z') ==> d == c
  {
    if 'A' <= c <= 'Z' then (c as int - 'A' as int + 'a' as int) as char else c
  }

  /** `str::to_lowercase` restricted to ASCII letters. */
  function LowerAscii(s: string): (r: string)
    ensures |r| == |s|
    ensures forall i :: 0 <= i < |s| ==> r[i] == LowerChar(s[i])
  {
    if s == [] then [] else [LowerChar(s[0])] + LowerAscii(s[1..])
  }
}
