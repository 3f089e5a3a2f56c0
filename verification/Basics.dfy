/** Machine words, optional values, and histories. */
module Basics {

  const UINT32: int := 0x1_0000_0000
  const INT32: int := 0x8000_0000

  type uint32 = n: int | 0 <= n < UINT32

  datatype Option<T> = None | Some(value: T)

  /** What happened so far, the latest last. */
  datatype History<T> = Nothing | Then(before: History<T>, last: T) {
    function Count(): nat {
      if Nothing? then 0 else before.Count() + 1
    }

    /** The latest `n`. */
    function Suffix(n: nat): History<T>
      requires n <= Count()
    {
      if n == 0 then Nothing else Then(before.Suffix(n - 1), last)
    }
  }

  /** The earliest first. */
  function InOrder<T>(h: History<T>): (s: seq<T>)
    ensures |s| == h.Count()
  {
    if h.Nothing? then [] else InOrder(h.before) + [h.last]
  }

  /** `more` is `run`, or goes on from it. */
  ghost predicate Extends<T>(more: History<T>, run: History<T>) {
    more == run || (more.Then? && Extends(more.before, run))
  }

  /** How often `e` is in the log. */
  function Occurrences<T(==)>(log: seq<T>, e: T): nat {
    if log == [] then 0 else Occurrences(log[..|log| - 1], e) + if log[|log| - 1] == e then 1 else 0
  }

  lemma OccurrencesAppended<T>(log: seq<T>, x: T, e: T)
    ensures Occurrences(log + [x], e) == Occurrences(log, e) + if x == e then 1 else 0
  {
    assert (log + [x])[..|log|] == log;
  }
}
