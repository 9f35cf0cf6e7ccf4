/** The per-controller request window of the event endpoint (nmc_bmc_observer/src/main.rs). */
module RateLimit {
  import opened Sequences
  import opened BmcState

  const PERIOD: int := 60000
  const LIMIT: nat := 120

  datatype Bucket = Bucket(start: int, count: nat)

  /** One request at time `at`; it passes when the new count is within LIMIT. */
  function Touch(b: Option<Bucket>, at: int): Bucket {
    if b.None? || at - b.value.start >= PERIOD then Bucket(at, 1) else Bucket(b.value.start, b.value.count + 1)
  }

  class Limiter {
    var rate: map<Id, Bucket>

    constructor ()
      ensures rate == map[]
    {
      rate := map[];
    }

    method Admit(id: Id, at: int) returns (ok: bool)
      modifies this
      ensures var b := Touch(if id in old(rate) then Some(old(rate)[id]) else None, at);
        rate == old(rate)[id := b] && (ok <==> b.count <= LIMIT)
    {
      if id !in rate { rate := rate[id := Bucket(at, 0)]; }
      if at - rate[id].start >= PERIOD {
        rate := rate[id := Bucket(at, 0)];
      }
      rate := rate[id := rate[id].(count := rate[id].count + 1)];
      ok := rate[id].count <= LIMIT;
    }
  }

  // ---------------------------------------------------------------- runs

  datatype Hit = Hit(id: Id, at: int)

  /** The limiter's table after a run of requests. */
  function Table(hits: seq<Hit>): map<Id, Bucket> {
    if hits == [] then map[]
    else
      var t := Table(hits[..|hits| - 1]);
      var h := hits[|hits| - 1];
      t[h.id := Touch(if h.id in t then Some(t[h.id]) else None, h.at)]
  }

  function TimesOf(hits: seq<Hit>, id: Id): seq<int> {
    if hits == [] then []
    else
      var before := TimesOf(hits[..|hits| - 1], id);
      if hits[|hits| - 1].id == id then before + [hits[|hits| - 1].at] else before
  }

  /** One controller's bucket after its own requests. */
  function After(times: seq<int>): Option<Bucket> {
    if times == [] then None else Some(Touch(After(times[..|times| - 1]), times[|times| - 1]))
  }

  predicate Passes(times: seq<int>, i: nat)
    requires i < |times|
  {
    After(times[..i + 1]).value.count <= LIMIT
  }

  // ---------------------------------------------------------------- windows, from the times alone

  /** The request that opened the window of the i-th one: the first request opens a window, and then the
      first request at least a minute after the opening opens the next. */
  function Opening(times: seq<int>, i: nat): (o: nat)
    requires i < |times|
    ensures o <= i
  {
    if i == 0 then 0
    else
      var o := Opening(times, i - 1);
      if times[i] - times[o] < 60000 then o else i
  }

  /** The bucket is the window in force: it began with the opening request, and it counts every request
      since, that one included. This holds for any clock, also one that goes back. */
  lemma {:induction false} BucketIsTheWindow(times: seq<int>, i: nat)
    requires i < |times|
    ensures var b := After(times[..i + 1]).value;
      b.start == times[Opening(times, i)] && b.count == i - Opening(times, i) + 1
  {
    assert times[..i + 1][..i] == times[..i];
    if i > 0 { BucketIsTheWindow(times, i - 1); }
  }

  /** A request passes if and only if fewer than 120 came before it in its window. */
  lemma PassesIff(times: seq<int>, i: nat)
    requires i < |times|
    ensures Passes(times, i) <==> i - Opening(times, i) < 120
  {
    BucketIsTheWindow(times, i);
  }

  /** Requests of one window share their opening, and lie less than a minute after it. */
  lemma {:induction false} WindowIsShort(times: seq<int>, i: nat, j: nat)
    requires i < |times| && Opening(times, i) <= j <= i
    ensures Opening(times, j) == Opening(times, i)
    ensures times[j] - times[Opening(times, i)] < 60000
  {
    if j < i && Opening(times, i) < i { WindowIsShort(times, i - 1, j); }
  }

  /** A request at least a minute after the opening of the last window passes and opens the next one,
      however many were refused before. */
  lemma NextWindowOpens(times: seq<int>, i: nat)
    requires 0 < i < |times| && times[i] - times[Opening(times, i - 1)] >= 60000
    ensures Opening(times, i) == i && Passes(times, i)
  {
    PassesIff(times, i);
  }

  /** A request is refused only after 120 others, all within the minute that the request itself lies in. */
  lemma RefusedOnlyWhenFull(times: seq<int>, i: nat)
    requires i < |times| && Sorted(times) && !Passes(times, i)
    ensures var o := Opening(times, i);
      i - o >= 120 && forall j | o <= j <= i :: times[o] <= times[j] < times[o] + 60000
  {
    PassesIff(times, i);
    var o := Opening(times, i);
    forall j | o <= j <= i ensures times[o] <= times[j] < times[o] + 60000 {
      WindowIsShort(times, i, j);
    }
  }

  /** Requests that pass in the half-open interval of one period from a. */
  function Passed(times: seq<int>, a: int): nat {
    if times == [] then 0
    else
      var last := |times| - 1;
      Passed(times[..last], a) + if a <= times[last] < a + 60000 && Passes(times, last) then 1 else 0
  }

  /** Requests that pass among the first n, in the window opened by request o. */
  function PassedInWindow(times: seq<int>, o: nat, n: nat): nat
    requires n <= |times|
  {
    if n == 0 then 0
    else PassedInWindow(times, o, n - 1) + if Opening(times, n - 1) == o && Passes(times, n - 1) then 1 else 0
  }

  predicate Sorted(times: seq<int>) {
    forall i, j | 0 <= i <= j < |times| :: times[i] <= times[j]
  }

  /** Controllers do not share a budget. */
  lemma {:induction false} TableIsPerController(hits: seq<Hit>, id: Id)
    ensures After(TimesOf(hits, id)) == if id in Table(hits) then Some(Table(hits)[id]) else None
  {
    if hits != [] {
      var before := hits[..|hits| - 1];
      TableIsPerController(before, id);
      if hits[|hits| - 1].id == id {
        assert (TimesOf(before, id) + [hits[|hits| - 1].at])[..|TimesOf(before, id)|] == TimesOf(before, id);
      }
    }
  }

  function Capped(n: nat): nat { if n <= LIMIT then n else LIMIT }

  /** The window in force began by the last request. */
  lemma {:induction false} StartIsPast(times: seq<int>)
    requires times != [] && Sorted(times)
    ensures After(times).value.start <= times[|times| - 1]
  {
    var last := |times| - 1;
    if last > 0 { StartIsPast(times[..last]); }
  }

  /** At most 120 requests pass per window. */
  lemma {:induction false} AtMostLimitPerWindow(times: seq<int>, o: nat, n: nat)
    requires n <= |times|
    ensures PassedInWindow(times, o, n) <= (if n <= o then 0 else Capped(n - o)) <= 120
  {
    if n > 0 {
      AtMostLimitPerWindow(times, o, n - 1);
      PassesIff(times, n - 1);
    }
  }

  lemma {:induction false} NothingBefore(times: seq<int>, a: int)
    requires forall i | 0 <= i < |times| :: times[i] < a
    ensures Passed(times, a) == 0
  {
    if times != [] { NothingBefore(times[..|times| - 1], a); }
  }

  lemma {:induction false} IntervalBound(times: seq<int>, a: int)
    requires times != [] && Sorted(times)
    ensures var b := After(times).value;
      Passed(times, a) <= if b.start < a then Capped(b.count)
                          else if b.start < a + PERIOD then LIMIT + Capped(b.count)
                          else 2 * LIMIT
  {
    var last := |times| - 1;
    assert times[..last + 1] == times;
    if last > 0 {
      IntervalBound(times[..last], a);
      StartIsPast(times[..last]);
      if times[last] < a { NothingBefore(times, a); }
    }
  }

  /** At most twice LIMIT requests pass in any interval of one period, wherever it begins. */
  lemma AtMostTwiceLimitPerInterval(times: seq<int>, a: int)
    requires Sorted(times)
    ensures Passed(times, a) <= 240
  {
    if times != [] { IntervalBound(times, a); }
  }
}
