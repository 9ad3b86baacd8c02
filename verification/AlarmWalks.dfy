/**
 The walk of alt_tick over the list of alarms when callbacks unregister alarms on the way. The
 walk reads the next entry before it makes the callback, and alt_llist_remove makes an entry
 that it takes out of the list point at itself.
 */
module AlarmWalks {
  import opened Basics

  type Id = nat

  /** The entries in the list, and the one the walk is at; None is the head of the list, where it ends. */
  datatype Walk = Walk(list: seq<Id>, at: Option<Id>)

  /** The entries behind `a`. */
  function Behind(list: seq<Id>, a: Id): seq<Id> {
    if list == [] then [] else if list[0] == a then list[1..] else Behind(list[1..], a)
  }

  /** `a->next`. */
  function NextOf(list: seq<Id>, a: Id): Option<Id> {
    if a !in list then Some(a) else if Behind(list, a) == [] then None else Some(Behind(list, a)[0])
  }

  /** The list without the entries that have been removed. */
  function Without(list: seq<Id>, gone: set<Id>): (rest: seq<Id>)
    ensures forall x :: x in rest <==> x in list && x !in gone
  {
    if list == [] then []
    else if list[0] in gone then Without(list[1..], gone)
    else [list[0]] + Without(list[1..], gone)
  }

  /** One turn of the loop. The callback, if there is one, and alt_tick itself unregister the alarms of `gone`. */
  function Turn(w: Walk, gone: set<Id>): Walk {
    if w.at == None then w else Walk(Without(w.list, gone), NextOf(w.list, w.at.value))
  }

  /** After `k` turns; `gone(i)` are the alarms unregistered in turn `i`. */
  function After(w: Walk, gone: nat -> set<Id>, k: nat): Walk {
    if k == 0 then w else Turn(After(w, gone, k - 1), gone(k - 1))
  }

  /** The turn unregisters the alarm it is going to look at next. */
  predicate StopsNext(w: Walk, gone: set<Id>) {
    w.at.Some? && w.at.value in w.list && Behind(w.list, w.at.value) != [] && Behind(w.list, w.at.value)[0] in gone
  }

  /** The walk comes to its end. */
  ghost predicate Ends(w: Walk, gone: nat -> set<Id>) { exists k: nat :: After(w, gone, k).at == None }

  ghost predicate NeverStopsNext(w: Walk, gone: nat -> set<Id>) {
    forall k: nat :: !StopsNext(After(w, gone, k), gone(k))
  }

  /** alt_tick starts with the first entry. */
  function Start(list: seq<Id>): Walk { Walk(list, if list == [] then None else Some(list[0])) }

  // ---------------------------------------------------------------- the walk that ends

  lemma {:induction false} BehindWithout(list: seq<Id>, gone: set<Id>, a: Id)
    requires a !in gone
    ensures Behind(Without(list, gone), a) == Without(Behind(list, a), gone)
  {
    if list != [] {
      assert ([list[0]] + Without(list[1..], gone))[1..] == Without(list[1..], gone);
      if list[0] != a { BehindWithout(list[1..], gone, a); }
    }
  }

  lemma {:induction false} ShorterWithout(list: seq<Id>, gone: set<Id>)
    ensures |Without(list, gone)| <= |list|
  {
    if list != [] { ShorterWithout(list[1..], gone); }
  }

  lemma {:induction false} BehindNext(list: seq<Id>, a: Id)
    requires Distinct(list) && Behind(list, a) != []
    ensures Behind(list, a)[0] in list && Behind(list, Behind(list, a)[0]) == Behind(list, a)[1..]
  {
    if list[0] == a {
      assert list[1] == Behind(list, a)[0] && list[1] != list[0];
    } else {
      var rest := list[1..];
      assert Distinct(rest);
      BehindNext(rest, a);
      assert rest[0] != list[0] || |rest| == 0;
      InTail(rest, list[0], Behind(rest, a)[0]);
    }
  }

  lemma InTail(rest: seq<Id>, first: Id, x: Id)
    requires Distinct([first] + rest) && x in rest
    ensures x != first
  {
    var i :| 0 <= i < |rest| && rest[i] == x;
    var list := [first] + rest;
    assert list[0] == first && list[i + 1] == x;
  }

  predicate Distinct(list: seq<Id>) { forall i, j | 0 <= i < j < |list| :: list[i] != list[j] }

  lemma {:induction false} DistinctWithout(list: seq<Id>, gone: set<Id>)
    requires Distinct(list)
    ensures Distinct(Without(list, gone))
  {
    if list != [] {
      var rest := list[1..];
      DistinctWithout(rest, gone);
      assert forall x | x in Without(rest, gone) :: x != list[0];
    }
  }

  /** The walk is at an entry of a list without repetitions, or at its end. */
  predicate OnList(w: Walk) { Distinct(w.list) && (w.at.Some? ==> w.at.value in w.list) }

  /** How many turns are left at most. */
  function Left(w: Walk): nat { if w.at == None then 0 else 1 + |Behind(w.list, w.at.value)| }

  lemma TurnGoesOn(w: Walk, gone: set<Id>)
    requires OnList(w) && w.at.Some? && !StopsNext(w, gone)
    ensures OnList(Turn(w, gone)) && Left(Turn(w, gone)) < Left(w)
  {
    var a := w.at.value;
    DistinctWithout(w.list, gone);
    if Behind(w.list, a) != [] {
      var b := Behind(w.list, a)[0];
      BehindNext(w.list, a);
      BehindWithout(w.list, gone, b);
      ShorterWithout(Behind(w.list, b), gone);
    }
  }

  lemma {:induction false} ComesToEnd(w: Walk, gone: nat -> set<Id>, k: nat) returns (end: nat)
    requires NeverStopsNext(w, gone) && OnList(After(w, gone, k))
    ensures After(w, gone, end).at == None
    decreases Left(After(w, gone, k))
  {
    if After(w, gone, k).at == None {
      end := k;
    } else {
      TurnGoesOn(After(w, gone, k), gone(k));
      assert After(w, gone, k + 1) == Turn(After(w, gone, k), gone(k));
      end := ComesToEnd(w, gone, k + 1);
    }
  }

  // ---------------------------------------------------------------- the walk that does not

  /** The walk is at an entry that is not in the list any more. */
  predicate IsStuck(w: Walk) { w.at.Some? && w.at.value !in w.list }

  lemma {:induction false} StuckForEver(w: Walk, gone: nat -> set<Id>, k: nat, m: nat)
    requires k <= m && IsStuck(After(w, gone, k))
    ensures IsStuck(After(w, gone, m))
    decreases m
  {
    if k < m { StuckForEver(w, gone, k, m - 1); }
  }

  lemma {:induction false} EndStays(w: Walk, gone: nat -> set<Id>, k: nat, m: nat)
    requires k <= m && After(w, gone, k).at == None
    ensures After(w, gone, m).at == None
    decreases m
  {
    if k < m { EndStays(w, gone, k, m - 1); }
  }

  lemma StopSticks(w: Walk, gone: nat -> set<Id>, k: nat)
    requires StopsNext(After(w, gone, k), gone(k))
    ensures !Ends(w, gone)
  {
    assert After(w, gone, k + 1) == Turn(After(w, gone, k), gone(k));
    assert IsStuck(After(w, gone, k + 1));
    forall m: nat ensures After(w, gone, m).at != None {
      if m <= k {
        if After(w, gone, m).at == None { EndStays(w, gone, m, k); }
      } else {
        StuckForEver(w, gone, k + 1, m);
      }
    }
  }

  /**
   Whatever alarms the callbacks unregister, the walk ends if and only if none of its turns
   unregisters the alarm that it is going to look at next.
   */
  lemma WalkEndsExactly(list: seq<Id>, gone: nat -> set<Id>)
    requires Distinct(list)
    ensures Ends(Start(list), gone) <==> NeverStopsNext(Start(list), gone)
  {
    var w := Start(list);
    if NeverStopsNext(w, gone) {
      assert OnList(After(w, gone, 0));
      var end := ComesToEnd(w, gone, 0);
    } else {
      var k: nat :| StopsNext(After(w, gone, k), gone(k));
      StopSticks(w, gone, k);
    }
  }

  /** The callback of the first of two alarms stops the second one. */
  lemma StopsNeighbour(a: Id, b: Id)
    requires a != b
    ensures !Ends(Start([a, b]), k => if k == 0 then {b} else {})
  {
    var gone: nat -> set<Id> := k => if k == 0 then {b} else {};
    assert Behind([a, b], a) == [b];
    assert StopsNext(After(Start([a, b]), gone, 0), gone(0));
    StopSticks(Start([a, b]), gone, 0);
  }
}
