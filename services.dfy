/**
 * The parts of the design and blog services that compute something: the
 * absolute image URL, the upload percentage reported while a form is sent,
 * and the counts `bulkDelete` returns. Both services carry the same code.
 * The HTTP requests themselves are outcomes supplied by the caller.
 */
module Services {
  import opened Wrappers
  import opened Strings
  import opened Helpers

  /** How an awaited service call settled: with its response body, or by throwing. */
  datatype Outcome<T> = Returned(value: T) | Threw(error: ErrorValue)

  /** `API_BASE_URL`. */
  const ApiBaseUrl: string := "http://localhost:8080"

  /**
   * `getImageUrl`: null for a missing or empty path, a path starting with
   * `http` as it is, otherwise the path under the API base, with a `/`
   * added between them only when the path does not start with one.
   */
  function ImageUrl(path: Option<string>): Option<string> {
    if path.None? || path.value == "" then None
    else if StartsWith(path.value, "http") then path
    else Some(ApiBaseUrl + (if StartsWith(path.value, "/") then "" else "/") + path.value)
  }

  lemma BaseIsAbsolute(rest: string)
    ensures StartsWith(ApiBaseUrl + rest, "http")
  {
    assert (ApiBaseUrl + rest)[..4] == "http";
  }

  /**
   * The URL of any non-empty path is absolute and ends with the path itself;
   * a relative path gets exactly one `/` in front of it when it lacks one.
   */
  lemma ImageUrlShape(path: string)
    requires path != ""
    ensures ImageUrl(Some(path)).Some?
    ensures StartsWith(ImageUrl(Some(path)).value, "http")
    ensures !StartsWith(path, "http") && StartsWith(path, "/") ==> ImageUrl(Some(path)).value == ApiBaseUrl + path
    ensures !StartsWith(path, "http") && !StartsWith(path, "/") ==> ImageUrl(Some(path)).value == ApiBaseUrl + "/" + path
    ensures StartsWith(path, "http") ==> ImageUrl(Some(path)).value == path
  {
    if !StartsWith(path, "http") {
      var sep := if StartsWith(path, "/") then "" else "/";
      BaseIsAbsolute(sep + path);
      assert ApiBaseUrl + sep + path == ApiBaseUrl + (sep + path);
    }
  }

  /** Resolving an already resolved URL changes nothing. */
  lemma ImageUrlIdempotent(path: Option<string>)
    ensures ImageUrl(path).Some? ==> ImageUrl(ImageUrl(path)) == ImageUrl(path)
    ensures ImageUrl(path).None? <==> path.None? || path.value == ""
  {
    if path.Some? && path.value != "" {
      ImageUrlShape(path.value);
    }
  }

  // ---------------------------------------------------------------- upload progress

  /** `Math.round(n / d)` for `n >= 0` and `d > 0`: halves round up. */
  function RoundDiv(n: nat, d: nat): nat
    requires d > 0
  {
    (2 * n + d) / (2 * d)
  }

  /** A positive factor can be cancelled from a strict inequality. */
  lemma MulLess(x: int, y: int, c: int)
    requires c > 0 && x * c < y * c
    ensures x < y
  {
    assert (y - x) * c == y * c - x * c;
  }

  /** The quotient times the divisor is at most the dividend, and the next multiple lies above it. */
  lemma DivBounds(a: int, b: int)
    requires b > 0
    ensures (a / b) * b <= a < (a / b + 1) * b
  {
    assert a == (a / b) * b + a % b;
    assert (a / b + 1) * b == (a / b) * b + b;
  }

  /** Division is determined by quotient and remainder. */
  lemma DivUnique(a: int, b: int, q: int, r: int)
    requires b > 0 && 0 <= r < b && a == q * b + r
    ensures a / b == q
  {
    DivBounds(a, b);
    assert (q + 1) * b == q * b + b;
    MulLess(a / b, q + 1, b);
    MulLess(q, a / b + 1, b);
  }

  lemma RoundDivBelow(n: nat, d: nat, k: nat)
    requires d > 0 && 2 * n + d < (2 * k + 2) * d
    ensures RoundDiv(n, d) <= k
  {
    var a := 2 * n + d;
    DivBounds(a, 2 * d);
    assert (2 * k + 2) * d == (k + 1) * (2 * d);
    MulLess(a / (2 * d), k + 1, 2 * d);
  }

  lemma RoundDivExact(k: nat, d: nat)
    requires d > 0
    ensures RoundDiv(k * d, d) == k
  {
    assert 2 * (k * d) + d == k * (2 * d) + d;
    DivUnique(2 * (k * d) + d, 2 * d, k, d);
  }

  lemma RoundDivMonotone(n: nat, m: nat, d: nat)
    requires d > 0 && n <= m
    ensures RoundDiv(n, d) <= RoundDiv(m, d)
  {
    var a, b := 2 * n + d, 2 * m + d;
    DivBounds(a, 2 * d);
    DivBounds(b, 2 * d);
    MulLess(a / (2 * d), b / (2 * d) + 1, 2 * d);
  }

  /**
   * `onUploadProgress`: with a callback and a known, non-zero total, the
   * callback gets `round(loaded * 100 / total)`; otherwise it is not called.
   */
  function Progress(hasCallback: bool, loaded: nat, total: nat): Option<nat> {
    if hasCallback && total != 0 then Some(RoundDiv(loaded * 100, total)) else None
  }

  /** The percentage is reported only with a callback and a total, lies in [0, 100] and is 100 once everything is sent. */
  lemma ProgressRange(hasCallback: bool, loaded: nat, total: nat)
    ensures Progress(hasCallback, loaded, total).Some? <==> hasCallback && total != 0
    ensures loaded <= total && Progress(hasCallback, loaded, total).Some? ==> Progress(hasCallback, loaded, total).value <= 100
    ensures loaded == total && Progress(hasCallback, loaded, total).Some? ==> Progress(hasCallback, loaded, total).value == 100
  {
    if hasCallback && total != 0 && loaded <= total {
      assert 2 * (loaded * 100) + total <= 201 * total;
      RoundDivBelow(loaded * 100, total, 100);
      if loaded == total {
        RoundDivExact(100, total);
      }
    }
  }

  /** As more is sent, the reported percentage never goes back. */
  lemma ProgressMonotone(loaded: nat, later: nat, total: nat)
    requires loaded <= later && total != 0
    ensures Progress(true, loaded, total).value <= Progress(true, later, total).value
  {
    RoundDivMonotone(loaded * 100, later * 100, total);
  }

  // ---------------------------------------------------------------- bulk delete

  /** How one `api.delete` settled. */
  datatype Settled = Fulfilled | Rejected

  /** `{ successful, failed, total }`. */
  datatype BulkResult = BulkResult(successful: nat, failed: nat, total: nat)

  /** `results.filter(r => r.status === status).length`. */
  function CountStatus(results: seq<Settled>, status: Settled): nat {
    if results == [] then 0 else (if results[0] == status then 1 else 0) + CountStatus(results[1..], status)
  }

  lemma {:induction false} CountStatusSplit(results: seq<Settled>)
    ensures CountStatus(results, Fulfilled) + CountStatus(results, Rejected) == |results|
  {
    if results != [] {
      CountStatusSplit(results[1..]);
    }
  }

  /**
   * `bulkDelete`: one delete per id, all awaited with `allSettled`; `settle`
   * says how the request for the id at each position settled.
   */
  function BulkDelete(ids: seq<string>, settle: int -> Settled): BulkResult {
    var results := seq(|ids|, i requires 0 <= i < |ids| => settle(i));
    BulkResult(CountStatus(results, Fulfilled), CountStatus(results, Rejected), |ids|)
  }

  /** Every request is counted once: succeeded plus failed is the number of ids. */
  lemma BulkDeleteCounts(ids: seq<string>, settle: int -> Settled)
    ensures BulkDelete(ids, settle).total == |ids|
    ensures BulkDelete(ids, settle).successful + BulkDelete(ids, settle).failed == |ids|
    ensures (forall i :: 0 <= i < |ids| ==> settle(i) == Fulfilled) ==> BulkDelete(ids, settle).failed == 0
  {
    var results := seq(|ids|, i requires 0 <= i < |ids| => settle(i));
    CountStatusSplit(results);
    if forall i :: 0 <= i < |ids| ==> settle(i) == Fulfilled {
      NoneRejected(results);
    }
  }

  lemma {:induction false} NoneRejected(results: seq<Settled>)
    requires forall i :: 0 <= i < |results| ==> results[i] == Fulfilled
    ensures CountStatus(results, Rejected) == 0
  {
    if results != [] {
      NoneRejected(results[1..]);
    }
  }
}
