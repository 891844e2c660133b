/** The least free number at or above a base, with and without an upper end, and what finding it guarantees. */
module Allocation {
  import opened Wrappers

  function FirstFree(used: set<int>, i: int): int
    decreases |used|
  {
    if i in used then FirstFree(used - {i}, i + 1) else i
  }

  lemma {:induction false} FirstFreeIsLeast(used: set<int>, i: int)
    ensures i <= FirstFree(used, i) <= i + |used| && FirstFree(used, i) !in used
    ensures forall j :: i <= j < FirstFree(used, i) ==> j in used
    decreases |used|
  {
    if i in used {
      FirstFreeIsLeast(used - {i}, i + 1);
      forall j | i < j < FirstFree(used, i) ensures j in used { assert j in used - {i}; }
    }
  }

  function PortFrom(blocked: set<int>, port: int, max: int): Option<int>
    decreases max - port
  {
    if port > max then None else if port !in blocked then Some(port) else PortFrom(blocked, port + 1, max)
  }

  lemma {:induction false} PortFromIsLeast(blocked: set<int>, port: int, max: int)
    ensures match PortFrom(blocked, port, max)
            case Some(p) => port <= p <= max && p !in blocked && forall j :: port <= j < p ==> j in blocked
            case None => forall j :: port <= j <= max ==> j in blocked
    decreases max - port
  {
    if port <= max && port in blocked { PortFromIsLeast(blocked, port + 1, max); }
  }

  /** A search that fails has seen as many blocked numbers as the range holds. */
  lemma {:induction false} NoPortMeansFull(blocked: set<int>, port: int, max: int)
    requires PortFrom(blocked, port, max).None? && port <= max + 1
    ensures |blocked| >= max - port + 1
    decreases max - port
  {
    if port <= max {
      PortFromIsLeast(blocked, port, max);
      PortFromIgnoresBelow(blocked, blocked - {port}, port + 1, max);
      NoPortMeansFull(blocked - {port}, port + 1, max);
    }
  }

  lemma {:induction false} PortFromIgnoresBelow(blocked: set<int>, blocked': set<int>, port: int, max: int)
    requires forall j :: j >= port ==> (j in blocked <==> j in blocked')
    ensures PortFrom(blocked, port, max) == PortFrom(blocked', port, max)
    decreases max - port
  {
    if port <= max { PortFromIgnoresBelow(blocked, blocked', port + 1, max); }
  }

  function Image<T(!new)>(s: set<T>, f: T -> int): set<int> { set x | x in s :: f(x) }

  /** The image of a set is no larger than the set. */
  lemma {:induction false} ImageSize<T(!new)>(s: set<T>, f: T -> int)
    ensures |Image(s, f)| <= |s|
  {
    if s != {} {
      var x :| x in s;
      ImageSize(s - {x}, f);
      assert Image(s, f) == Image(s - {x}, f) + {f(x)};
    }
  }
}
