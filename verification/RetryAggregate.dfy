/** The retry aggregate and the delays between its attempts. */
module RetryAggregate {
  import opened Wrappers

  datatype Status = PENDING | SUCCESS | FAILED | CANCELLED

  /** A row of the retries table. Instants are milliseconds. */
  datatype Row = Row(
    requestId: nat,
    status: Status,
    attemptCount: int,
    lastAttemptAt: Option<int>,
    nextAttemptAt: Option<int>,
    responseStatus: Option<int>,
    responseBody: Option<string>,
    customBody: Option<string>,
    customHeaders: Option<map<string, string>>)

  const RETRY_DELAY_MAP: map<int, int> :=
    map[1 := 30000, 2 := 120000, 3 := 600000, 4 := 3600000, 5 := 86400000]

  const MAX_ATTEMPTS := 5

  function Delay(n: int): Option<int> {
    if n in RETRY_DELAY_MAP then Some(RETRY_DELAY_MAP[n]) else None
  }

  function Fail(r: Row, body: string, status: int, next: Option<int>): Row {
    r.(attemptCount := r.attemptCount + 1,
       status := if r.attemptCount + 1 >= MAX_ATTEMPTS then FAILED else r.status,
       responseBody := Some(body), responseStatus := Some(status),
       lastAttemptAt := r.nextAttemptAt, nextAttemptAt := next)
  }

  function Succeed(r: Row, body: string, status: int): Row {
    r.(status := SUCCESS, responseStatus := Some(status), responseBody := Some(body), nextAttemptAt := None)
  }

  function WithPayload(r: Row, body: Option<string>, headers: Option<map<string, string>>): Row {
    r.(customBody := if body.Some? then body else r.customBody,
       customHeaders := if headers.Some? then headers else r.customHeaders)
  }

  /** The aggregate; `next` is None where the code computes an invalid date. */
  class Retry {
    const requestId: nat
    var status: Status
    var attemptCount: int
    var lastAttemptAt: Option<int>
    var nextAttemptAt: Option<int>
    var responseStatus: Option<int>
    var responseBody: Option<string>
    var customBody: Option<string>
    var customHeaders: Option<map<string, string>>

    constructor (row: Row)
      ensures ToRow() == row
    {
      requestId := row.requestId;
      status := row.status;
      attemptCount := row.attemptCount;
      lastAttemptAt := row.lastAttemptAt;
      nextAttemptAt := row.nextAttemptAt;
      responseStatus := row.responseStatus;
      responseBody := row.responseBody;
      customBody := row.customBody;
      customHeaders := row.customHeaders;
    }

    function ToRow(): Row
      reads this
    {
      Row(requestId, status, attemptCount, lastAttemptAt, nextAttemptAt, responseStatus, responseBody,
          customBody, customHeaders)
    }

    method OnFail(body: string, responseStatus: int, next: Option<int>)
      modifies this
      ensures ToRow() == Fail(old(ToRow()), body, responseStatus, next)
    {
      attemptCount := attemptCount + 1;
      if attemptCount >= MAX_ATTEMPTS {
        status := FAILED;
      }
      responseBody := Some(body);
      this.responseStatus := Some(responseStatus);
      lastAttemptAt := nextAttemptAt;
      nextAttemptAt := next;
    }

    method OnSuccess(body: string, responseStatus: int)
      modifies this
      ensures ToRow() == Succeed(old(ToRow()), body, responseStatus)
    {
      status := SUCCESS;
      this.responseStatus := Some(responseStatus);
      responseBody := Some(body);
      nextAttemptAt := None;
    }

    method UpdatePayload(body: Option<string>, headers: Option<map<string, string>>)
      modifies this
      ensures ToRow() == WithPayload(old(ToRow()), body, headers)
    {
      if body.Some? { customBody := body; }
      if headers.Some? { customHeaders := headers; }
    }
  }
}
