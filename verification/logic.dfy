/** Three-valued (Kleene) logic, shared by SQL `WHERE` clauses and polars filter expressions:
    a comparison with NULL is unknown, and a filter keeps a row only when its condition is
    true. */
module Logic {
  datatype Truth = IsTrue | IsFalse | IsUnknown

  function Or(a: Truth, b: Truth): (t: Truth)
    ensures t == IsTrue <==> a == IsTrue || b == IsTrue
    ensures t == IsFalse <==> a == IsFalse && b == IsFalse
  {
    if a.IsTrue? || b.IsTrue? then IsTrue
    else if a.IsUnknown? || b.IsUnknown? then IsUnknown
    else IsFalse
  }

  function And(a: Truth, b: Truth): (t: Truth)
    ensures t == IsTrue <==> a == IsTrue && b == IsTrue
    ensures t == IsFalse <==> a == IsFalse || b == IsFalse
  {
    if a.IsFalse? || b.IsFalse? then IsFalse
    else if a.IsUnknown? || b.IsUnknown? then IsUnknown
    else IsTrue
  }

  /** Negation keeps unknown unknown: `~` of a NULL test is still NULL. */
  function Not(a: Truth): (t: Truth)
    ensures t == IsTrue <==> a == IsFalse
    ensures t == IsFalse <==> a == IsTrue
  {
    match a
    case IsTrue => IsFalse
    case IsFalse => IsTrue
    case IsUnknown => IsUnknown
  }

  function FromBool(b: bool): (t: Truth)
    ensures t == IsTrue <==> b
    ensures t.IsUnknown? == false
  {
    if b then IsTrue else IsFalse
  }

  /** Neither a condition nor its negation keeps a row whose condition is unknown. */
  lemma UnknownExcludedBothWays(a: Truth)
    requires a == IsUnknown
    ensures a != IsTrue && Not(a) != IsTrue
  {
  }
}
