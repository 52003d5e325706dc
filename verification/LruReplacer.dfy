/**
 The LRU replacer: a linked list of values, most recently inserted in front, and a map
 from values to their nodes.  The victim is the value whose last insert is oldest.
 */
module LruReplacers {
  import opened Sequences
  import opened Wrappers

  // The nodes of `list` hold the values of `order`, and the map finds them.
  ghost predicate Names<T>(list: seq<nat>, value: map<nat, T>, node: map<T, nat>, order: seq<T>, bound: nat) {
    && |list| == |order|
    && forall i :: 0 <= i < |list| ==>
      list[i] < bound && list[i] in value && value[list[i]] == order[i] && order[i] in node && node[order[i]] == list[i]
  }

  lemma {:induction false} NamesWithout<T>(list: seq<nat>, value: map<nat, T>, node: map<T, nat>, order: seq<T>, bound: nat, v: T)
    requires Names(list, value, node, order, bound) && v in node
    requires forall i :: 0 <= i < |list| ==> (list[i] == node[v] <==> order[i] == v)
    ensures Names(Without(list, node[v]), value, node, Without(order, v), bound)
  {
    if list != [] {
      assert forall j :: 1 <= j < |list| ==> list[j] == list[1..][j - 1] && order[j] == order[1..][j - 1];
      NamesWithout(list[1..], value, node, order[1..], bound, v);
    }
  }

  lemma NamesFront<T>(list: seq<nat>, value: map<nat, T>, node: map<T, nat>, order: seq<T>, bound: nat, v: T)
    requires Names(list, value, node, order, bound) && v !in order
    ensures Names([bound] + list, value[bound := v], node[v := bound], [v] + order, bound + 1)
  {
  }

  // Values inserted later come first.
  ghost predicate ByAge<T>(order: seq<T>, stamp: map<T, nat>, clock: nat) {
    && (forall i :: 0 <= i < |order| ==> order[i] in stamp && stamp[order[i]] < clock)
    && forall i, j :: 0 <= i < j < |order| ==> stamp[order[i]] > stamp[order[j]]
  }

  lemma {:induction false} ByAgeWithout<T(!new)>(order: seq<T>, stamp: map<T, nat>, clock: nat, v: T)
    requires ByAge(order, stamp, clock)
    ensures ByAge(Without(order, v), stamp, clock)
  {
    if order != [] {
      assert forall j :: 1 <= j < |order| ==> order[j] == order[1..][j - 1];
      ByAgeWithout(order[1..], stamp, clock, v);
      var rest := Without(order[1..], v);
      WithoutMembers(order[1..], v);
      forall j | 0 <= j < |rest|
        ensures stamp[order[0]] > stamp[rest[j]]
      {
        assert rest[j] in order[1..];
      }
    }
  }

  lemma ByAgeFront<T>(order: seq<T>, stamp: map<T, nat>, clock: nat, v: T)
    requires ByAge(order, stamp, clock) && Distinct(order) && v !in order
    ensures ByAge([v] + order, stamp[v := clock], clock + 1) && Distinct([v] + order)
  {
  }

  class LRUReplacer<T(==, !new)> {
    var list: seq<nat>
    var value: map<nat, T>
    var node: map<T, nat>
    var created: nat
    // The values in the order of the list, and when each was last inserted.
    ghost var order: seq<T>
    ghost var stamp: map<T, nat>
    ghost var clock: nat

    ghost predicate Valid()
      reads this
    {
      && Names(list, value, node, order, created)
      && Distinct(order)
      && (forall v :: v in node ==> v in order)
      && ByAge(order, stamp, clock)
    }

    constructor ()
      ensures Valid() && order == []
    {
      list, value, node, created := [], map[], map[], 0;
      order, stamp, clock := [], map[], 0;
    }

    // Takes a value out of list and map.
    method Unlink(v: T)
      requires Valid() && v in node
      modifies this
      ensures Valid() && order == Without(old(order), v) && stamp == old(stamp) && clock == old(clock)
      ensures v !in order && created == old(created) && v !in node
    {
      assert v in order;
      NamesWithout(list, value, node, order, created, v);
      WithoutDistinct(order, v);
      WithoutMembers(order, v);
      ByAgeWithout(order, stamp, clock, v);
      list := Without(list, node[v]);
      order := Without(order, v);
      node := node - {v};
      assert forall i :: 0 <= i < |order| ==> order[i] != v;
    }

    method Insert(v: T)
      requires Valid()
      modifies this
      ensures Valid() && order == [v] + Without(old(order), v)
      ensures clock == old(clock) + 1 && stamp == old(stamp)[v := old(clock)]
    {
      if v in node {
        Unlink(v);
      } else {
        WithoutAbsent(order, v);
      }
      PushFront(v);
    }

    method PushFront(v: T)
      requires Valid() && v !in order
      modifies this
      ensures Valid() && order == [v] + old(order)
      ensures clock == old(clock) + 1 && stamp == old(stamp)[v := old(clock)]
    {
      ByAgeFront(order, stamp, clock, v);
      NamesFront(list, value, node, order, created, v);
      list, value, node, created := [created] + list, value[created := v], node[v := created], created + 1;
      order, stamp, clock := [v] + order, stamp[v := clock], clock + 1;
    }

    method Victim() returns (r: Option<T>)
      requires Valid()
      modifies this
      ensures Valid() && stamp == old(stamp) && clock == old(clock)
      ensures old(order) == [] ==> r == None && order == []
      ensures old(order) != [] ==> r == Some(old(order)[|old(order)| - 1]) && order == old(order)[..|old(order)| - 1]
      ensures r.Some? ==> forall v :: v in old(order) ==> old(stamp)[r.value] <= old(stamp)[v]
    {
      if list == [] { return None; }
      var v := value[list[|list| - 1]];
      WithoutLast(order);
      assert forall x :: x in order ==> stamp[v] <= stamp[x];
      Unlink(v);
      return Some(v);
    }

    method Erase(v: T) returns (found: bool)
      requires Valid()
      modifies this
      ensures Valid() && order == Without(old(order), v) && stamp == old(stamp) && clock == old(clock)
      ensures found == (v in old(order))
    {
      found := v in node;
      if found {
        Unlink(v);
      } else {
        WithoutAbsent(order, v);
      }
    }
  }
}
