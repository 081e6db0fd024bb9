/**
 Stored HTTP responses of the idempotency plugin: what is kept for replay, how many
 bytes it is charged for, and the buffered response writer that produces it.
 */
module IdempotencyResponse {
  import opened Sums

  type Header = map<string, seq<string>>

  /** Why a completed mutation cannot be replayed. */
  datatype Detail = UnknownOutcome | Overflowed | Unavailable

  /**
   `Captured` is what the handler wrote; one character of `body` stands for one byte and
   header names are in canonical form. `Terminal` is the 422 problem document with one of
   three fixed detail texts, `Unreplayable` the empty 422 response.
   */
  datatype Response =
    | Captured(status: int, header: Header, body: string)
    | Terminal(detail: Detail)
    | Unreplayable

  const STATUS_OK := 200

  /** The representation headers that may be replayed. */
  const REPLAY_NAMES: set<string> := {
    "Content-Type", "Content-Language", "Content-Encoding", "Content-Disposition", "Location",
    "Etag", "Cache-Control", "Expires", "Last-Modified", "Vary", "Retry-After"
  }

  function ReplayHeaders(header: Header): (result: Header)
    ensures forall name :: name in result <==> name in header && name in REPLAY_NAMES
    ensures forall name :: name in result ==> result[name] == header[name]
  {
    map name | name in header && name in REPLAY_NAMES :: header[name]
  }

  ghost function TotalLength(values: seq<string>): nat
  {
    if values == [] then 0 else TotalLength(values[..|values| - 1]) + |values[|values| - 1]|
  }

  ghost function HeaderWeight(header: Header): string -> int
  {
    name => if name in header then |name| + TotalLength(header[name]) else 0
  }

  ghost function HeaderBytes(header: Header): (bytes: int)
    ensures bytes >= 0
  {
    SumNonNegative(header.Keys, HeaderWeight(header));
    Sum(header.Keys, HeaderWeight(header))
  }

  /** The problem document is 79 bytes around the detail text; its Content-Type header is 51 more. */
  function TerminalSize(detail: Detail): int
  {
    match detail
    case UnknownOutcome => 79 + 31 + 51
    case Overflowed => 79 + 58 + 51
    case Unavailable => 79 + 65 + 51
  }

  ghost function Size(response: Response): (bytes: int)
    ensures bytes >= 0
  {
    match response
    case Captured(_, header, body) => |body| + HeaderBytes(header)
    case Terminal(detail) => TerminalSize(detail)
    case Unreplayable => 0
  }

  /** headerSize: the loops visit the names of the map in an unspecified order. */
  method HeaderSize(header: Header) returns (size: int)
    ensures size == HeaderBytes(header)
  {
    size := 0;
    var left := header.Keys;
    assert header.Keys - left == {};
    while left != {}
      invariant left <= header.Keys
      invariant size == Sum(header.Keys - left, HeaderWeight(header))
      decreases left
    {
      var name :| name in left;
      size := size + |name|;
      ghost var before := size;
      var values := header[name];
      for i := 0 to |values|
        invariant size == before + TotalLength(values[..i])
      {
        size := size + |values[i]|;
        assert values[..i + 1][..i] == values[..i];
      }
      assert values[..|values|] == values;
      SumRemove(header.Keys - (left - {name}), HeaderWeight(header), name);
      assert header.Keys - (left - {name}) - {name} == header.Keys - left;
      left := left - {name};
    }
    assert header.Keys - left == header.Keys;
  }

  /** What the store keeps of a response; the only header of a terminal one is a replayable one. */
  function Stored(response: Response): Response
  {
    if response.Captured? then response.(header := ReplayHeaders(response.header)) else response
  }

  /** What is kept when `used` of `maxBytes` bytes are already charged. */
  ghost function Fitted(response: Response, used: int, maxBytes: int): Response
  {
    var kept := Stored(response);
    if used + Size(kept) <= maxBytes && Size(kept) <= maxBytes then kept
    else if used + TerminalSize(Unavailable) <= maxBytes then Terminal(Unavailable)
    else Unreplayable
  }

  /** Whatever is fitted never exceeds the budget, and it is the response itself unless that would. */
  lemma FittedFits(response: Response, used: int, maxBytes: int)
    requires 0 <= used <= maxBytes
    ensures used + Size(Fitted(response, used, maxBytes)) <= maxBytes
    ensures Fitted(response, used, maxBytes) == Stored(response) || used + Size(Stored(response)) > maxBytes
  {
  }

  /** The part of complete that chooses what to keep. */
  method Fit(response: Response, used: int, maxBytes: int) returns (kept: Response, size: int)
    requires 0 <= used <= maxBytes
    ensures kept == Fitted(response, used, maxBytes) && size == Size(kept)
  {
    kept := Stored(response);
    size := SizeOf(kept);
    if size > maxBytes || used + size > maxBytes {
      kept := Terminal(Unavailable);
      size := SizeOf(kept);
      if used + size > maxBytes {
        kept := Unreplayable;
        size := 0;
      }
    }
  }

  method SizeOf(response: Response) returns (size: int)
    ensures size == Size(response)
  {
    match response
    case Captured(_, header, body) =>
      var headers := HeaderSize(header);
      size := |body| + headers;
    case Terminal(detail) =>
      size := TerminalSize(detail);
    case Unreplayable =>
      size := 0;
  }

  ghost function Concat(parts: seq<string>): string
  {
    if parts == [] then "" else Concat(parts[..|parts| - 1]) + parts[|parts| - 1]
  }

  /** The buffered response writer handed to the mutation handler. */
  class Capture {
    var header: Header
    var status: int
    var body: string
    var overflow: bool
    const limit: int
    ghost var attempted: seq<string>  // every value the handler tried to write

    /** As long as nothing overflowed, the buffer is exactly what was written. */
    ghost predicate Valid()
      reads this
    {
      && |body| <= limit
      && (!overflow ==> body == Concat(attempted))
      && (overflow <==> |Concat(attempted)| > limit)
      && (attempted != [] ==> status != 0)
    }

    constructor (limit: int)
      requires limit >= 1
      ensures Valid() && this.limit == limit && attempted == [] && header == map[] && status == 0
    {
      this.limit := limit;
      header, status, body, overflow, attempted := map[], 0, "", false, [];
    }

    method WriteHeader(code: int)
      requires Valid() && code != 0
      modifies this`status
      ensures Valid()
      ensures status == if 100 <= code < 200 || old(status) != 0 then old(status) else code
    {
      if 100 <= code < 200 {
        return;
      }
      if status == 0 {
        status := code;
      }
    }

    method Write(value: string) returns (ok: bool)
      requires Valid()
      modifies this`status, this`body, this`overflow, this`attempted
      ensures Valid() && attempted == old(attempted) + [value]
      ensures status == if old(status) == 0 then STATUS_OK else old(status)
      ensures ok <==> |old(body)| + |value| <= limit
      ensures body == if ok then old(body) + value else old(body)
      ensures overflow <==> old(overflow) || !ok
    {
      ghost var before := attempted;
      attempted := attempted + [value];
      assert attempted[..|before|] == before;
      if status == 0 {
        status := STATUS_OK;
      }
      if |body| + |value| > limit {
        overflow := true;
        return false;
      }
      body := body + value;
      return true;
    }

    /** The middleware's choice: the captured response, or a terminal one if it overflowed. */
    method Result() returns (response: Response)
      requires Valid()
      ensures response ==
        if |Concat(attempted)| > limit then Terminal(Overflowed)
        else Captured(if status == 0 then STATUS_OK else status, header, Concat(attempted))
    {
      if overflow {
        response := Terminal(Overflowed);
      } else {
        response := Captured(if status == 0 then STATUS_OK else status, header, body);
      }
    }
  }
}
