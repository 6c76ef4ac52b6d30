/** The worker's table of responder threads, doubled when full until the
    configured maximum (worker loop of server/main.c). */
module ThreadTable {

  function Pow2(k: nat): (p: nat)
    ensures p >= 1
  {
    if k == 0 then 1 else 2 * Pow2(k - 1)
  }

  /** The largest size the doubling reaches. */
  function Grown(num: nat, max: nat): (r: nat)
    requires num >= 1
    ensures r >= num
    decreases max - num
  {
    if 2 * num <= max then Grown(2 * num, max) else num
  }

  /** How many requests a worker takes on before it refuses one. */
  function Capacity(min: nat, max: nat): nat
    requires min >= 1
  {
    Grown(min, max) - 1
  }

  class Table {
    var threads: array<nat>
    var numThreads: nat
    var currentThread: nat
    const maxThreads: nat

    ghost predicate Valid()
      reads this
    {
      1 <= numThreads == threads.Length && currentThread < numThreads
    }

    /** The threads created so far, oldest first. */
    ghost function Created(): seq<nat>
      reads this, threads
      requires Valid()
    {
      threads[..currentThread]
    }

    constructor (min: nat, max: nat)
      requires min >= 1
      ensures Valid() && fresh(threads) && Created() == [] && numThreads == min && maxThreads == max
    {
      threads := new nat[min](_ => 0);
      numThreads, currentThread, maxThreads := min, 0, max;
      new;
      assert Created() == [];
    }

    /** `realloc`: a longer table with the same beginning. */
    method Enlarge(n: nat)
      requires Valid() && n > numThreads
      modifies this`threads, this`numThreads
      ensures Valid() && numThreads == n && fresh(threads) && Created() == old(Created())
    {
      var bigger := new nat[n](_ => 0);
      var i := 0;
      while i < currentThread
        invariant i <= currentThread && Valid() && threads == old(threads) && numThreads == old(numThreads)
        invariant bigger[..i] == threads[..i] && Created() == old(Created())
      {
        bigger[i] := threads[i];
        i := i + 1;
      }
      threads, numThreads := bigger, n;
    }

    /** One turn of the worker loop: the thread is entered in the table, or the
        request is refused and the loop ends. */
    method Admit(thread: nat) returns (ok: bool)
      requires Valid()
      modifies this, threads
      ensures ok <==> old(currentThread) < Grown(old(numThreads), maxThreads) - 1
      ensures ok ==> Valid() && Created() == old(Created()) + [thread]
      ensures ok ==> Grown(numThreads, maxThreads) == Grown(old(numThreads), maxThreads)
      ensures ok ==> threads == old(threads) || fresh(threads)
    {
      if currentThread == numThreads - 1 {
        if 2 * numThreads > maxThreads {
          numThreads := 2 * numThreads;
          return false;
        }
        Enlarge(2 * numThreads);
      }
      ghost var before := Created();
      threads[currentThread] := thread;
      currentThread := currentThread + 1;
      assert Created() == before + [thread];
      return true;
    }
  }

  /** A worker offered the given requests one after the other: it serves exactly
      the first Capacity(min, max) of them. */
  method Serve(min: nat, max: nat, requests: seq<nat>) returns (served: nat)
    requires min >= 1
    ensures served == if |requests| <= Capacity(min, max) then |requests| else Capacity(min, max)
  {
    var table := new Table(min, max);
    served := 0;
    while served < |requests|
      invariant served <= |requests| && table.Valid() && fresh(table) && fresh(table.threads)
      invariant table.Created() == requests[..served] && table.maxThreads == max
      invariant Grown(table.numThreads, max) == Grown(min, max)
      invariant served <= Capacity(min, max)
      decreases |requests| - served
    {
      assert |table.Created()| == served;
      var ok := table.Admit(requests[served]);
      if !ok { return; }
      assert requests[..served + 1] == requests[..served] + [requests[served]];
      served := served + 1;
    }
  }

  /** The closed form: min * 2^k - 1 for the largest k that keeps within max. */
  lemma {:induction false} CapacityExact(min: nat, max: nat) returns (k: nat)
    requires min >= 1
    ensures Capacity(min, max) == min * Pow2(k) - 1
    ensures k > 0 ==> min * Pow2(k) <= max
    ensures min * Pow2(k + 1) > max
    decreases max - min
  {
    if 2 * min <= max {
      var j := CapacityExact(2 * min, max);
      k := j + 1;
      assert min * Pow2(k) == min * (2 * Pow2(j)) == 2 * min * Pow2(j);
      assert min * Pow2(k + 1) == min * (2 * (2 * Pow2(j))) == 2 * min * Pow2(j + 1);
    } else {
      k := 0;
      assert Pow2(0) == 1 && Pow2(1) == 2;
    }
  }

  /** With min <= max the served count plus one is above max / 2 and at most max. */
  lemma {:induction false} CapacityBounds(min: nat, max: nat)
    requires 1 <= min <= max
    ensures max < 2 * (Capacity(min, max) + 1) && Capacity(min, max) + 1 <= max
    decreases max - min
  {
    if 2 * min <= max {
      CapacityBounds(2 * min, max);
    }
  }

  /** The shipped configuration, 10 and 100: 79 requests. */
  lemma ShippedCapacity()
    ensures Capacity(10, 100) == 79
  {
  }
}
