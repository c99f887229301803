/** What every component shares: optional values, word sizes, least elements. */
module Basics {

  datatype Option<+T> = None | Some(value: T)

  const U32: nat := 0x1_0000_0000
  const U64: nat := 0x1_0000_0000_0000_0000

  /** A nonempty multiset has an element with the least key: the top of a heap exists. */
  lemma {:induction false} Least(m: multiset<nat>, keys: map<nat, nat>) returns (p: nat)
    requires m != multiset{} && forall q :: q in m ==> q in keys
    ensures p in m && forall q :: q in m ==> keys[p] <= keys[q]
    decreases |m|
  {
    p :| p in m;
    var rest := m - multiset{p};
    if rest != multiset{} {
      var q := Least(rest, keys);
      if keys[q] < keys[p] { p := q; }
    }
  }
}
