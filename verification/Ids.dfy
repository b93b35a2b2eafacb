/** Request ids: a wrapping counter, probed a bounded number of times for an id that is neither zero nor pending. */
module Ids {
  import opened Wire

  const MAX_ATTEMPTS: nat := 100

  function Advance(counter: uint32, d: nat): uint32 {
    (counter + d) % WORD32
  }

  predicate Free(id: uint32, taken: set<uint32>) {
    id != 0 && id !in taken
  }

  /** The generator: the first free id within `attempts` draws, or else whatever the counter then shows. */
  function Generate(counter: uint32, taken: set<uint32>, attempts: nat): (id: uint32)
    decreases attempts
  {
    if attempts == 0 then counter
    else if Free(Advance(counter, 1), taken) then Advance(counter, 1)
    else Generate(Advance(counter, 1), taken, attempts - 1)
  }

  lemma AdvanceTwice(counter: uint32, a: nat, b: nat)
    ensures Advance(Advance(counter, a), b) == Advance(counter, a + b)
  {
  }

  /** `d` draws past the counter lies the first free id. */
  ghost predicate FirstFreeAt(counter: uint32, taken: set<uint32>, d: nat) {
    && d > 0
    && Free(Advance(counter, d), taken)
    && forall e: nat :: 0 < e < d ==> !Free(Advance(counter, e), taken)
  }

  ghost predicate NoneFree(counter: uint32, taken: set<uint32>, attempts: nat) {
    forall e: nat :: 0 < e <= attempts ==> !Free(Advance(counter, e), taken)
  }

  lemma {:induction false} GenerateFinds(counter: uint32, taken: set<uint32>, attempts: nat, d: nat)
    requires d <= attempts && FirstFreeAt(counter, taken, d)
    ensures Generate(counter, taken, attempts) == Advance(counter, d)
    decreases attempts
  {
    if d > 1 {
      var next := Advance(counter, 1);
      assert !Free(next, taken);
      forall e: nat ensures Advance(next, e) == Advance(counter, e + 1) {
        AdvanceTwice(counter, 1, e);
      }
      GenerateFinds(next, taken, attempts - 1, d - 1);
    }
  }

  lemma {:induction false} GenerateFallsBack(counter: uint32, taken: set<uint32>, attempts: nat)
    requires NoneFree(counter, taken, attempts)
    ensures Generate(counter, taken, attempts) == Advance(counter, attempts)
    decreases attempts
  {
    if attempts > 0 {
      var next := Advance(counter, 1);
      assert !Free(next, taken);
      forall e: nat ensures Advance(next, e) == Advance(counter, e + 1) {
        AdvanceTwice(counter, 1, e);
      }
      GenerateFallsBack(next, taken, attempts - 1);
    }
  }

  lemma {:induction false} FindFirst(counter: uint32, taken: set<uint32>, attempts: nat) returns (d: nat)
    requires !NoneFree(counter, taken, attempts)
    ensures 0 < d <= attempts && FirstFreeAt(counter, taken, d)
  {
    d := 1;
    while !Free(Advance(counter, d), taken)
      invariant 0 < d <= attempts && forall e: nat :: 0 < e < d ==> !Free(Advance(counter, e), taken)
      decreases attempts - d
    {
      d := d + 1;
    }
  }

  /** The ids of the next `n` draws. */
  ghost function Window(counter: uint32, n: nat): set<uint32> {
    if n == 0 then {} else Window(counter, n - 1) + {Advance(counter, n)}
  }

  lemma {:induction false} WindowMembers(counter: uint32, n: nat, id: uint32)
    ensures id in Window(counter, n) <==> exists d: nat :: 0 < d <= n && id == Advance(counter, d)
  {
    if n > 0 {
      WindowMembers(counter, n - 1, id);
    }
  }

  /** Fewer than 2^32 draws never repeat an id. */
  lemma DrawsDiffer(a: nat, b: nat)
    requires a < b < a + WORD32
    ensures a % WORD32 != b % WORD32
  {
    var q, r := a / WORD32, b / WORD32;
    assert a == WORD32 * q + a % WORD32 && b == WORD32 * r + b % WORD32;
    assert (b - a) - (b % WORD32 - a % WORD32) == WORD32 * (r - q);
  }

  lemma TwoDrawsDiffer(counter: uint32, d: nat, n: nat)
    requires d < n < d + WORD32
    ensures Advance(counter, d) != Advance(counter, n)
  {
    DrawsDiffer(counter + d, counter + n);
  }

  /** Any of up to 2^32 draws is new among earlier ones. */
  lemma {:induction false} LaterDrawIsNew(counter: uint32, m: nat, n: nat)
    requires m < n <= WORD32
    ensures Advance(counter, n) !in Window(counter, m)
  {
    if m > 0 {
      LaterDrawIsNew(counter, m - 1, n);
      TwoDrawsDiffer(counter, m, n);
    }
  }

  lemma {:induction false} WindowSize(counter: uint32, n: nat)
    requires n <= WORD32
    ensures |Window(counter, n)| == n
  {
    if n > 0 {
      WindowSize(counter, n - 1);
      LaterDrawIsNew(counter, n - 1, n);
    }
  }

  /** Pigeonhole: with two fewer pending ids than attempts, some draw is free. */
  lemma SomeDrawIsFree(counter: uint32, taken: set<uint32>, attempts: nat)
    requires |taken| + 2 <= attempts <= WORD32
    ensures !NoneFree(counter, taken, attempts)
  {
    if NoneFree(counter, taken, attempts) {
      var drawn := Window(counter, attempts);
      WindowSize(counter, attempts);
      forall id | id in drawn ensures id in taken + {0} {
        WindowMembers(counter, attempts, id);
      }
      SubsetSize(drawn, taken + {0});
    }
  }

  /**
   Run without interference, from any counter value and across wrap-around: with at most 98 pending
   requests the generator returns the first non-zero, non-pending id after the counter.
   */
  lemma GeneratedIdIsFirstFree(counter: uint32, taken: set<uint32>)
    requires |taken| <= 98
    ensures exists d: nat :: d <= MAX_ATTEMPTS && FirstFreeAt(counter, taken, d)
                             && Generate(counter, taken, MAX_ATTEMPTS) == Advance(counter, d)
  {
    SomeDrawIsFree(counter, taken, MAX_ATTEMPTS);
    var d := FindFirst(counter, taken, MAX_ATTEMPTS);
    GenerateFinds(counter, taken, MAX_ATTEMPTS, d);
  }

  /** Whatever is pending, the id is usable exactly when one of the next hundred is; the fallback never is. */
  lemma GeneratedIdIsFreeIff(counter: uint32, taken: set<uint32>)
    ensures Free(Generate(counter, taken, MAX_ATTEMPTS), taken) <==> !NoneFree(counter, taken, MAX_ATTEMPTS)
  {
    if NoneFree(counter, taken, MAX_ATTEMPTS) {
      GenerateFallsBack(counter, taken, MAX_ATTEMPTS);
    } else {
      var d := FindFirst(counter, taken, MAX_ATTEMPTS);
      GenerateFinds(counter, taken, MAX_ATTEMPTS, d);
    }
  }

  /** The adapter's own counter, which numbers the messages that are no calls. */
  function NextSequence(sequence: uint32): uint32 {
    Advance(sequence, 1)
  }

  /**
   Both counters of a loader start at zero and nothing keeps them apart: as long as no call is pending, the
   n-th call and the n-th other message bear the same id.
   */
  lemma CountersMeet(n: uint32)
    requires n < WORD32 - 1
    ensures Generate(n, {}, MAX_ATTEMPTS) == NextSequence(n)
  {
    assert Free(Advance(n, 1), {});
  }
}
