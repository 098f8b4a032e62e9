/** Reals extended with +infinity, for Python's `float('inf')`: the initial
    upper bound of the branch-and-bound search, and the distance between two
    nodes of a graph that no path connects. */
module ExtReal {

  datatype Ext = Fin(v: real) | Inf

  predicate Le(a: Ext, b: Ext) {
    match (a, b)
    case (_, Inf) => true
    case (Inf, Fin(_)) => false
    case (Fin(x), Fin(y)) => x <= y
  }

  predicate Lt(a: Ext, b: Ext) {
    !Le(b, a)
  }

  function Min(a: Ext, b: Ext): (m: Ext)
    ensures Le(m, a) && Le(m, b)
    ensures m == a || m == b
  {
    if Le(a, b) then a else b
  }

  function Max(a: Ext, b: Ext): (m: Ext)
    ensures Le(a, m) && Le(b, m)
    ensures m == a || m == b
  {
    if Le(a, b) then b else a
  }

  lemma LeTrans(a: Ext, b: Ext, c: Ext)
    requires Le(a, b) && Le(b, c)
    ensures Le(a, c)
  {
  }

  lemma LeTotal(a: Ext, b: Ext)
    ensures Le(a, b) || Le(b, a)
  {
  }
}
