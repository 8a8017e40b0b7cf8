// Shared vocabulary.
module Common {

  datatype Option<+T> = None | Some(value: T)

  // The numbers below n.
  ghost function Ids(n: nat): (s: set<nat>)
    ensures forall i: nat :: i in s <==> i < n
  {
    if n == 0 then {} else Ids(n - 1) + {n - 1}
  }
}
