/**
 * The localStorage fallback of `getVisitorCount` (script.js:66-77): when the
 * counter service cannot be reached, the page keeps its own count under the
 * key 'visitorCount'. The stored value is `None` when the key is absent.
 */
module Visitor {
  import opened Wrappers

  /** The count the fallback reports and stores, given what was stored before. */
  function NextCount(stored: Option<int>): (count: int)
    ensures stored.None? ==> count == 1
    ensures stored.Some? ==> count > stored.value
  {
    match stored
    case None => 1
    case Some(c) => c + 1
  }

  /** What 'visitorCount' holds after `k` fallback visits, starting from `stored`. */
  function StoredAfter(stored: Option<int>, k: nat): Option<int>
  {
    if k == 0 then stored else Some(NextCount(StoredAfter(stored, k - 1)))
  }

  /** On a browser that had no count, the `k`-th fallback visit stores and reports `k`. */
  lemma {:induction false} StoredAfterFromNothing(k: nat)
    ensures StoredAfter(None, k) == if k == 0 then None else Some(k)
  {
    if k > 1 {
      StoredAfterFromNothing(k - 1);
    }
  }

  /** After a count `c` is stored, `k` more fallback visits store `c + k`. */
  lemma {:induction false} StoredAfterFromCount(c: int, k: nat)
    ensures StoredAfter(Some(c), k) == Some(c + k)
  {
    if k > 0 {
      StoredAfterFromCount(c, k - 1);
    }
  }

  /** The browser's localStorage, reduced to the one key the page uses. */
  class LocalStorage {
    var visitorCount: Option<int>

    constructor (stored: Option<int>)
      ensures visitorCount == stored
    {
      visitorCount := stored;
    }

    /** The `catch` branch of `getVisitorCount`: read the count, bump it, write it back, report it. */
    method FallbackVisitorCount() returns (count: int)
      modifies this`visitorCount
      ensures count == NextCount(old(visitorCount))
      ensures visitorCount == Some(count)
    {
      var stored := visitorCount;
      if stored.None? {
        count := 1;
        visitorCount := Some(count);
      } else {
        count := stored.value + 1;
        visitorCount := Some(count);
      }
    }
  }
}
