/** `resolveConflict` as a tournament over any collection of operations. */
module OtConflict {
  import opened Prelude
  import opened OtCrdt

  function ResolveConflict(op1: Operation, op2: Operation): Operation {
    if op1.revision != op2.revision then
      if op1.revision > op2.revision then op1 else op2
    else if LexLe(op1.userId, op2.userId) then op1 else op2
  }

  /** A higher revision, or the same revision and a user id that does not sort after the other's. */
  predicate Outranks(x: Operation, y: Operation) {
    x.revision > y.revision || (x.revision == y.revision && LexLe(x.userId, y.userId))
  }

  /** One way to order and group pairwise resolutions. */
  datatype Bracket = Single(op: Operation) | Match(left: Bracket, right: Bracket)

  function Entrants(t: Bracket): set<Operation> {
    match t
    case Single(op) => {op}
    case Match(l, r) => Entrants(l) + Entrants(r)
  }

  function Winner(t: Bracket): Operation {
    match t
    case Single(op) => op
    case Match(l, r) => ResolveConflict(Winner(l), Winner(r))
  }

  ghost predicate IsTop(x: Operation, ops: set<Operation>) {
    x in ops && forall y :: y in ops ==> Outranks(x, y)
  }

  lemma OutranksTransitive(x: Operation, y: Operation, z: Operation)
    requires Outranks(x, y) && Outranks(y, z)
    ensures Outranks(x, z)
  {
    if x.revision == z.revision { LexLeTransitive(x.userId, y.userId, z.userId); }
  }

  lemma {:induction false} WinnerIsTop(t: Bracket)
    ensures IsTop(Winner(t), Entrants(t))
  {
    match t
    case Single(op) => LexLeTotal(op.userId, op.userId);
    case Match(l, r) =>
      WinnerIsTop(l);
      WinnerIsTop(r);
      LexLeTotal(Winner(l).userId, Winner(r).userId);
      forall y | y in Entrants(t) ensures Outranks(Winner(t), y) {
        OutranksTransitive(Winner(t), if y in Entrants(l) then Winner(l) else Winner(r), y) by {
          LexLeTotal(Winner(l).userId, Winner(l).userId);
          LexLeTotal(Winner(r).userId, Winner(r).userId);
        }
      }
  }

  ghost predicate SameWinnerEveryWay(ops: set<Operation>) {
    forall s: Bracket, t: Bracket :: Entrants(s) == ops && Entrants(t) == ops ==> Winner(s) == Winner(t)
  }

  /** Order and grouping never matter exactly when no two operations share the top rank. */
  lemma OrderIndependentExactly(t: Bracket)
    ensures SameWinnerEveryWay(Entrants(t)) <==>
            forall x, y :: IsTop(x, Entrants(t)) && IsTop(y, Entrants(t)) ==> x == y
  {
    var ops := Entrants(t);
    forall x, y | IsTop(x, ops) && IsTop(y, ops) && x != y ensures !SameWinnerEveryWay(ops) {
      WinnerIsTop(t);
      var first, second := Match(Single(x), t), Match(Single(y), t);
      assert Entrants(first) == ops && Entrants(second) == ops;
      TopTies(x, Winner(t), ops);
      TopTies(y, Winner(t), ops);
      LexLeTotal(x.userId, x.userId);
      assert Winner(first) == x && Winner(second) == y;
    }
    if forall x, y :: IsTop(x, ops) && IsTop(y, ops) ==> x == y {
      forall s: Bracket, u: Bracket | Entrants(s) == ops && Entrants(u) == ops ensures Winner(s) == Winner(u) {
        WinnerIsTop(s);
        WinnerIsTop(u);
      }
    }
  }

  lemma TopTies(x: Operation, y: Operation, ops: set<Operation>)
    requires IsTop(x, ops) && IsTop(y, ops)
    ensures x.revision == y.revision && x.userId == y.userId
  {
    assert Outranks(x, y) && Outranks(y, x);
    LexLeAntisymmetric(x.userId, y.userId);
  }

  ghost predicate DistinctKeys(ops: set<Operation>) {
    forall x, y :: x in ops && y in ops && x.revision == y.revision && x.userId == y.userId ==> x == y
  }

  /** With distinct (revision, user) pairs the winner is the same for every order and grouping. */
  lemma DistinctKeysDecide(s: Bracket, t: Bracket)
    requires Entrants(s) == Entrants(t)
    requires DistinctKeys(Entrants(s))
    ensures Winner(s) == Winner(t)
  {
    WinnerIsTop(s);
    WinnerIsTop(t);
    TopTies(Winner(s), Winner(t), Entrants(s));
  }
}
