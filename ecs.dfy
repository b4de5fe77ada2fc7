/** Entity ids, tile coordinates and the order in which a join over
    component storages visits entities. */
module Ecs {

  /** An entity of the entity-component store, by its id. */
  type Entity = nat

  datatype Option<+T> = None | Some(value: T)

  /** A tile coordinate (rltk's `Point`). */
  datatype Point = Point(x: int, y: int)

  function Min(a: int, b: int): int { if a <= b then a else b }
  function Max(a: int, b: int): int { if a <= b then b else a }

  predicate StrictlyIncreasing(s: seq<nat>)
  {
    forall i, j :: 0 <= i < j < |s| ==> s[i] < s[j]
  }

  lemma LeastOf(s: set<Entity>) returns (m: Entity)
    requires s != {}
    ensures m in s && forall e :: e in s ==> m <= e
  {
    var x :| x in s;
    if s == {x} {
      m := x;
    } else {
      var rest := LeastOf(s - {x});
      m := if x < rest then x else rest;
      forall e | e in s
        ensures m <= e
      {
        if e != x {
          assert e in s - {x};
        }
      }
    }
  }

  lemma LeastExists(s: set<Entity>)
    requires s != {}
    ensures exists m :: m in s && forall e :: e in s ==> m <= e
  {
    var m := LeastOf(s);
  }

  /** The smallest id of a non-empty set of entities. */
  function Least(s: set<Entity>): (m: Entity)
    requires s != {}
    ensures m in s && forall e :: e in s ==> m <= e
  {
    LeastExists(s);
    var m :| m in s && forall e :: e in s ==> m <= e;
    m
  }

  /** The entities of `s` in the order a join visits them: each exactly
      once (`JoinOrderMembers`), in ascending id (`JoinOrderAscends`). */
  function InJoinOrder(s: set<Entity>): seq<Entity>
    decreases s
  {
    if s == {} then []
    else
      var m := Least(s);
      [m] + InJoinOrder(s - {m})
  }

  lemma {:induction false} JoinOrderMembers(s: set<Entity>)
    ensures |InJoinOrder(s)| == |s|
    ensures forall e :: e in InJoinOrder(s) <==> e in s
    ensures forall k :: 0 <= k < |InJoinOrder(s)| ==> InJoinOrder(s)[k] in s
    decreases s
  {
    if s != {} {
      var m := Least(s);
      JoinOrderMembers(s - {m});
    }
  }

  lemma {:induction false} JoinOrderAscends(s: set<Entity>)
    ensures StrictlyIncreasing(InJoinOrder(s))
    decreases s
  {
    if s != {} {
      var m := Least(s);
      var rest := InJoinOrder(s - {m});
      JoinOrderAscends(s - {m});
      JoinOrderMembers(s - {m});
      assert forall k :: 0 <= k < |rest| ==> m < rest[k];
    }
  }
}
