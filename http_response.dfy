/**
 * `HttpResponse`: an immutable record of a status code, a body and the
 * response headers, with `isSuccess` for the 2xx status class (section 15.3
 * of RFC 9110).
 */
module Responses {

  /** The constructor stores its three arguments; `status()`, `body()` and
      `headers()` return them unchanged. The headers are the value of the
      `HttpHeaders` copied in, i.e. its name-to-value map. */
  datatype HttpResponse = HttpResponse(status: int, body: string, headers: map<string, string>)

  /** `isSuccess()`: the status lies in [200, 300). */
  predicate IsSuccess(r: HttpResponse) {
    r.status >= 200 && r.status < 300
  }

  /** Success is exactly membership of the 2xx class: a non-negative status
      whose hundreds digit is 2. */
  lemma SuccessIsClass2xx(r: HttpResponse)
    ensures IsSuccess(r) <==> r.status >= 0 && r.status / 100 == 2
  {
    if r.status >= 0 && r.status / 100 == 2 {
      assert 200 <= r.status < 300 by {
        assert r.status == 100 * (r.status / 100) + r.status % 100;
      }
    }
  }
}
