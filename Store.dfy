/** The durable hit counter (a key/integer store with an atomic `INCR`) and
    `get_submission_hits`, the bounded retry around one increment. The store's
    connectivity is an input: the outcome of each successive attempt. */
module Store {

  /** The value a key reads as; a key never incremented reads as 0. */
  function Count(counts: map<string, int>, key: string): int {
    if key in counts then counts[key] else 0
  }

  /** The store after one atomic increment of `key`. */
  function Increment(counts: map<string, int>, key: string): (r: map<string, int>)
    ensures Count(r, key) == Count(counts, key) + 1
    ensures forall k :: k != key ==> Count(r, k) == Count(counts, k)
    ensures r.Keys == counts.Keys + {key}
  {
    counts[key := Count(counts, key) + 1]
  }

  /** Every key of the store holds at least 1. The monitor only ever
      increments, so a store it started empty stays this way. */
  ghost predicate Positive(counts: map<string, int>) {
    forall k :: k in counts ==> counts[k] >= 1
  }

  lemma IncrementKeepsPositive(counts: map<string, int>, key: string)
    requires Positive(counts)
    ensures Positive(Increment(counts, key))
  {
    forall k | k in Increment(counts, key) ensures Increment(counts, key)[k] >= 1 {
      assert Count(Increment(counts, key), k) == Increment(counts, key)[k];
    }
  }

  class CounterStore {
    var counts: map<string, int>

    /** Connecting to the store finds whatever counts earlier runs left in it. */
    constructor (initial: map<string, int>)
      ensures counts == initial
    {
      counts := initial;
    }

    /** `INCR key`: adds one to the key and returns the new value. */
    method Incr(key: string) returns (n: int)
      modifies this
      ensures n == Count(old(counts), key) + 1
      ensures counts == Increment(old(counts), key)
    {
      counts := Increment(counts, key);
      n := counts[key];
    }
  }

  /** What one attempt to reach the store does: it increments, it loses the
      connection (`ConnectionError`), or it fails in any other way. */
  datatype Attempt = Reached | ConnectionLost | OtherFailure

  datatype Failure = ConnectionError | OtherError

  /** What `get_submission_hits` returns, or the exception it raises. */
  datatype HitsResult = Hits(count: int) | Raised(failure: Failure)

  /** `retries` starts at 5: one attempt and five more. */
  const Retries: nat := 5
  const MaxAttempts: nat := Retries + 1

  /** The outcome of attempt `i` (counting from 0); the store is reachable
      for every attempt past the end of `attempts`. */
  function AttemptAt(attempts: seq<Attempt>, i: nat): Attempt {
    if i < |attempts| then attempts[i] else Reached
  }

  /** The first attempt at or after `i`, among the first `MaxAttempts`, that does
      not lose the connection; `MaxAttempts` when every one of them does. */
  function FirstSettled(attempts: seq<Attempt>, i: nat): (k: nat)
    requires i <= MaxAttempts
    ensures i <= k <= MaxAttempts
    ensures forall j :: i <= j < k ==> AttemptAt(attempts, j) == ConnectionLost
    ensures k < MaxAttempts ==> AttemptAt(attempts, k) != ConnectionLost
    decreases MaxAttempts - i
  {
    if i == MaxAttempts || AttemptAt(attempts, i) != ConnectionLost then i
    else FirstSettled(attempts, i + 1)
  }

  /** The number of attempts `get_submission_hits` makes. */
  function AttemptsMade(attempts: seq<Attempt>): (n: nat)
    ensures 1 <= n <= MaxAttempts
  {
    var k := FirstSettled(attempts, 0);
    if k == MaxAttempts then MaxAttempts else k + 1
  }

  /** The reference outcome of the retry loop and the store it leaves: the first
      attempt among the first six that does not lose the connection decides. It
      increments, or it fails and the error propagates unretried; six lost
      connections in a row re-raise the last `ConnectionError`. */
  function RetryIncrement(counts: map<string, int>, key: string, attempts: seq<Attempt>): (r: (HitsResult, map<string, int>))
    ensures r.0.Hits? ==> r.0.count == Count(counts, key) + 1 && r.1 == Increment(counts, key)
    ensures r.0.Raised? ==> r.1 == counts
  {
    var k := FirstSettled(attempts, 0);
    if k == MaxAttempts then (Raised(ConnectionError), counts)
    else if AttemptAt(attempts, k) == Reached then (Hits(Count(counts, key) + 1), Increment(counts, key))
    else (Raised(OtherError), counts)
  }

  /** `get_submission_hits(sub_id)`; the half-second sleep between attempts is
      a no-op here. The ghost `made` counts the attempts. */
  method GetSubmissionHits(store: CounterStore, key: string, attempts: seq<Attempt>)
    returns (r: HitsResult, ghost made: nat)
    modifies store
    ensures (r, store.counts) == RetryIncrement(old(store.counts), key, attempts)
    ensures made == AttemptsMade(attempts)
  {
    var retries := Retries;
    made := 0;
    while true
      invariant 0 <= retries <= Retries
      invariant made == Retries - retries
      invariant store.counts == old(store.counts)
      invariant forall j :: 0 <= j < made ==> AttemptAt(attempts, j) == ConnectionLost
      decreases retries
    {
      var outcome := AttemptAt(attempts, Retries - retries);
      made := made + 1;
      if outcome == Reached {
        var n := store.Incr(key);
        return Hits(n), made;
      } else if outcome == OtherFailure {
        return Raised(OtherError), made;
      }
      if retries == 0 {
        return Raised(ConnectionError), made;
      }
      retries := retries - 1;
    }
  }

  /** An attempt among the first six that reaches the store yields the
      incremented value, and only that key changes, by exactly one. */
  lemma RetrySucceedsWithinSix(counts: map<string, int>, key: string, attempts: seq<Attempt>, i: nat)
    requires i < MaxAttempts && AttemptAt(attempts, i) == Reached
    requires forall j :: 0 <= j < i ==> AttemptAt(attempts, j) == ConnectionLost
    ensures RetryIncrement(counts, key, attempts).0 == Hits(Count(counts, key) + 1)
    ensures RetryIncrement(counts, key, attempts).1 == Increment(counts, key)
    ensures AttemptsMade(attempts) == i + 1
  {
  }

  /** Six lost connections in a row raise `ConnectionError` and leave the store as it was. */
  lemma SixLostConnectionsRaise(counts: map<string, int>, key: string, attempts: seq<Attempt>)
    requires forall j :: 0 <= j < MaxAttempts ==> AttemptAt(attempts, j) == ConnectionLost
    ensures RetryIncrement(counts, key, attempts) == (Raised(ConnectionError), counts)
    ensures AttemptsMade(attempts) == MaxAttempts
  {
  }

  /** Any failure that is not a lost connection propagates at once, without a retry. */
  lemma OtherFailurePropagates(counts: map<string, int>, key: string, attempts: seq<Attempt>, i: nat)
    requires i < MaxAttempts && AttemptAt(attempts, i) == OtherFailure
    requires forall j :: 0 <= j < i ==> AttemptAt(attempts, j) == ConnectionLost
    ensures RetryIncrement(counts, key, attempts) == (Raised(OtherError), counts)
    ensures AttemptsMade(attempts) == i + 1
  {
  }

  /** A store that loses the first three connections and answers the fourth
      attempt still increments once. */
  lemma ThreeFailuresThenSuccess(counts: map<string, int>, key: string)
    ensures RetryIncrement(counts, key, [ConnectionLost, ConnectionLost, ConnectionLost, Reached])
         == (Hits(Count(counts, key) + 1), Increment(counts, key))
  {
    RetrySucceedsWithinSix(counts, key, [ConnectionLost, ConnectionLost, ConnectionLost, Reached], 3);
  }
}
