/**
 What the modules share: optional values and 32-bit words.
 */
module Basics {
  datatype Option<+T> = None | Some(value: T)

  const WORD := 0x1_0000_0000

  type U32 = x: int | 0 <= x < WORD

  /** The least member of a set. */
  ghost function Least(s: set<nat>): (m: nat)
    requires s != {}
    ensures m in s && forall x | x in s :: m <= x
  {
    var x :| x in s;
    var rest := s - {x};
    assert forall y | y in s :: y == x || y in rest;
    if rest == {} then x else
      var m := Least(rest);
      if x < m then x else m
  }

  /** The value kept in a word. */
  function Word(v: int): U32 { v % WORD }
}
