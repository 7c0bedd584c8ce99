/** Following parent links that may form cycles. */
module ParentLinks {
  import opened Wrappers

  /** The item `k` links above `id`, as far as links are known. */
  function Up<T>(table: map<T, T>, id: T, k: nat): Option<T> {
    if k == 0 then Some(id)
    else
      var below := Up(table, id, k - 1);
      if below.Some? && below.value in table then Some(table[below.value]) else None
  }

  /** Every parent of a member is a member, except perhaps `top`. */
  ghost predicate Closed<T(!new)>(table: map<T, T>, s: set<T>, top: Option<T>) {
    forall id | id in s && id in table && Some(table[id]) != top :: table[id] in s
  }

  lemma {:induction false} ClosedUp<T(!new)>(table: map<T, T>, s: set<T>, first: T, k: nat)
    requires Closed(table, s, None) && first in s && Up(table, first, k).Some?
    ensures Up(table, first, k).value in s
  {
    if k > 0 { ClosedUp(table, s, first, k - 1); }
  }
}
