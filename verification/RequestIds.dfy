/** src/rosy/node/service/caller.py: the cyclic allocator of request IDs. */
module RequestIds {
  import opened Streams

  function After(id: nat, n: nat): (next: nat)
    requires id < n
    ensures next == if id + 1 == n then 0 else id + 1
  {
    (id + 1) % n
  }

  /** The search: try `tries` IDs from the cursor on, and give up after that. */
  function FirstFree(used: set<nat>, cursor: nat, tries: nat, n: nat): Option<nat>
    requires cursor < n
    decreases tries
  {
    if tries == 0 then None
    else if cursor !in used then Some(cursor)
    else FirstFree(used, After(cursor, n), tries - 1, n)
  }

  /** How far round the ring of n IDs `id` is from the cursor. */
  function Distance(cursor: nat, id: nat, n: nat): nat
    requires cursor < n && id < n
  {
    if cursor <= id then id - cursor else id + n - cursor
  }

  /** One step on is one further round, and n steps lead back to the start. */
  lemma RoundTheRing(start: nat, id: nat, n: nat)
    requires start < n && id < n
    ensures Distance(start, After(id, n), n) ==
      (if Distance(start, id, n) + 1 == n then 0 else Distance(start, id, n) + 1)
    ensures Distance(start, id, n) == 0 <==> id == start
  {
  }

  lemma {:induction false} FirstFreeWithin(used: set<nat>, cursor: nat, tries: nat, n: nat)
    requires cursor < n && tries <= n
    ensures match FirstFree(used, cursor, tries, n)
      case Some(id) =>
        && id < n && id !in used && Distance(cursor, id, n) < tries
        && forall other: nat :: other < n && other !in used ==> Distance(cursor, id, n) <= Distance(cursor, other, n)
      case None => forall id: nat :: id < n && Distance(cursor, id, n) < tries ==> id in used
    decreases tries
  {
    if tries > 0 && cursor in used {
      var next := After(cursor, n);
      RoundTheRing(cursor, cursor, n);
      FirstFreeWithin(used, next, tries - 1, n);
      forall id: nat | id < n && id != cursor
        ensures Distance(cursor, id, n) == Distance(next, id, n) + 1
      {
      }
    }
  }

  /** The allocator yields the first free ID at or after the cursor and fails exactly when all n are
      taken. */
  lemma AllocatorIsExact(used: set<nat>, cursor: nat, n: nat)
    requires cursor < n
    ensures match FirstFree(used, cursor, n, n)
      case Some(id) =>
        && id < n && id !in used
        && forall other: nat :: other < n && other !in used ==> Distance(cursor, id, n) <= Distance(cursor, other, n)
      case None => forall id: nat :: id < n ==> id in used
  {
    FirstFreeWithin(used, cursor, n, n);
    forall id: nat | id < n ensures Distance(cursor, id, n) < n {
    }
  }

  /** Where the cursor stands after i steps. */
  function StepsOn(start: nat, i: nat, n: nat): (id: nat)
    requires start < n
    ensures id < n
    decreases i
  {
    if i == 0 then start else After(StepsOn(start, i - 1, n), n)
  }

  /** Each of the first n - 1 steps is one further round the ring, and n steps lead back to the start. */
  lemma {:induction false} FullTurn(start: nat, i: nat, n: nat)
    requires start < n && i <= n
    ensures Distance(start, StepsOn(start, i, n), n) == if i == n then 0 else i
    ensures StepsOn(start, n, n) == start
  {
    DistanceAfter(start, i, n);
    DistanceAfter(start, n, n);
    RoundTheRing(start, StepsOn(start, n, n), n);
  }

  lemma {:induction false} DistanceAfter(start: nat, i: nat, n: nat)
    requires start < n && i <= n
    ensures Distance(start, StepsOn(start, i, n), n) == if i == n then 0 else i
    decreases i
  {
    if i > 0 {
      DistanceAfter(start, i - 1, n);
      RoundTheRing(start, StepsOn(start, i - 1, n), n);
    }
  }
}
