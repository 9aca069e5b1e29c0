/** The bounded map of pkg/modelscache/lru.go: list elements shared between a recency list and a key
    index, values overwritten in place. It refines the recency sequence. */
module LruCache {
  import opened Options
  import opened Recency

  class Element<V> {
    const key: string
    var val: V

    constructor (key: string, val: V)
      ensures this.key == key && this.val == val
    {
      this.key, this.val := key, val;
    }
  }

  ghost function KeySet<V>(ll: seq<Element<V>>): set<string> {
    if ll == [] then {} else {ll[0].key} + KeySet(ll[1..])
  }

  lemma {:induction false} KeySetFacts<V>(ll: seq<Element<V>>, k: string)
    ensures k in KeySet(ll) <==> exists i :: 0 <= i < |ll| && ll[i].key == k
  {
    if ll != [] {
      KeySetFacts(ll[1..], k);
      assert forall i | 1 <= i < |ll| :: ll[i] == ll[1..][i - 1];
      if k in KeySet(ll[1..]) {
        var i :| 0 <= i < |ll[1..]| && ll[1..][i].key == k;
        assert ll[i + 1].key == k;
      }
    }
  }

  ghost predicate DistinctKeys<V>(ll: seq<Element<V>>) {
    forall i, j | 0 <= i < j < |ll| :: ll[i].key != ll[j].key
  }

  ghost predicate Indexed<V>(ll: seq<Element<V>>, items: map<string, Element<V>>) {
    forall i | 0 <= i < |ll| :: ll[i].key in items && items[ll[i].key] == ll[i]
  }

  /** List and index hold the same elements under the same keys. */
  ghost predicate Linked<V>(ll: seq<Element<V>>, items: map<string, Element<V>>) {
    DistinctKeys(ll) && Indexed(ll, items) && items.Keys == KeySet(ll)
  }

  /** The place of a key that the index knows. */
  lemma Located<V>(ll: seq<Element<V>>, items: map<string, Element<V>>, key: string) returns (i: nat)
    requires Linked(ll, items) && key in items
    ensures i < |ll| && ll[i] == items[key] && ll[i].key == key
  {
    KeySetFacts(ll, key);
    i :| i < |ll| && ll[i].key == key;
  }

  ghost function Pairs<V>(ll: seq<Element<V>>): (s: seq<(string, V)>)
    reads ll
    ensures |s| == |ll| && forall i | 0 <= i < |ll| :: s[i] == (ll[i].key, ll[i].val)
  {
    if ll == [] then [] else [(ll[0].key, ll[0].val)] + Pairs(ll[1..])
  }

  function Cut<V>(ll: seq<Element<V>>, i: nat): seq<Element<V>>
    requires i < |ll|
  {
    ll[..i] + ll[i + 1..]
  }

  lemma {:induction false} CutKeys<V>(ll: seq<Element<V>>, i: nat)
    requires i < |ll| && DistinctKeys(ll)
    ensures KeySet(Cut(ll, i)) == KeySet(ll) - {ll[i].key}
  {
    forall k ensures k in KeySet(Cut(ll, i)) <==> k in KeySet(ll) && k != ll[i].key {
      KeySetFacts(ll, k);
      KeySetFacts(Cut(ll, i), k);
      if k in KeySet(ll) && k != ll[i].key {
        var j :| 0 <= j < |ll| && ll[j].key == k;
        assert Cut(ll, i)[if j < i then j else j - 1] == ll[j];
      }
    }
  }

  lemma CutLinked<V>(ll: seq<Element<V>>, items: map<string, Element<V>>, i: nat)
    requires Linked(ll, items) && i < |ll|
    ensures Linked(Cut(ll, i), items - {ll[i].key})
  {
    CutKeys(ll, i);
  }

  lemma FrontLinked<V>(rest: seq<Element<V>>, items: map<string, Element<V>>, el: Element<V>)
    requires Linked(rest, items) && el.key !in items
    ensures Linked([el] + rest, items[el.key := el])
  {
    var ll := [el] + rest;
    assert ll[1..] == rest;
    assert forall i | 1 <= i < |ll| :: ll[i] == rest[i - 1];
  }

  ghost function Elements<V>(ll: seq<Element<V>>): set<object> {
    set i | 0 <= i < |ll| :: ll[i]
  }

  lemma CutElements<V>(ll: seq<Element<V>>, i: nat)
    requires i < |ll|
    ensures Elements(Cut(ll, i)) <= Elements(ll)
    ensures Elements([ll[i]] + Cut(ll, i)) <= Elements(ll)
  {
  }

  lemma PairsOfCut<V>(ll: seq<Element<V>>, i: nat)
    requires i < |ll|
    ensures Pairs(Cut(ll, i)) == Pairs(ll)[..i] + Pairs(ll)[i + 1..]
  {
    var s, cut := Pairs(ll), Cut(ll, i);
    var t := s[..i] + s[i + 1..];
    forall j | 0 <= j < |cut| ensures Pairs(cut)[j] == t[j] {
      assert cut[j] == if j < i then ll[j] else ll[j + 1];
    }
  }

  /** The list and its contents, cut at the same place. */
  lemma CutPairs<V>(ll: seq<Element<V>>, i: nat)
    requires DistinctKeys(ll) && i < |ll|
    ensures Pairs(Cut(ll, i)) == Removed(Pairs(ll), ll[i].key)
  {
    PairsOfCut(ll, i);
    RemovedAt(Pairs(ll), i);
  }

  lemma MovedLinked<V>(ll: seq<Element<V>>, items: map<string, Element<V>>, i: nat)
    requires Linked(ll, items) && i < |ll|
    ensures Linked([ll[i]] + Cut(ll, i), items)
  {
    var el := ll[i];
    CutLinked(ll, items, i);
    FrontLinked(Cut(ll, i), items - {el.key}, el);
    assert items == (items - {el.key})[el.key := el];
  }

  lemma PairsOfFront<V>(el: Element<V>, rest: seq<Element<V>>)
    ensures Pairs([el] + rest) == [(el.key, el.val)] + Pairs(rest)
  {
    assert ([el] + rest)[1..] == rest;
  }

  /** An element moved to the front: still linked, and the contents follow. */
  lemma MovedToFront<V>(ll: seq<Element<V>>, items: map<string, Element<V>>, i: nat)
    requires Linked(ll, items) && i < |ll|
    ensures Linked([ll[i]] + Cut(ll, i), items)
    ensures Pairs([ll[i]] + Cut(ll, i)) == [(ll[i].key, ll[i].val)] + Removed(Pairs(ll), ll[i].key)
  {
    MovedLinked(ll, items, i);
    CutPairs(ll, i);
    PairsOfFront(ll[i], Cut(ll, i));
  }

  /** The index answers for the list. */
  lemma IndexFinds<V>(ll: seq<Element<V>>, items: map<string, Element<V>>, key: string)
    requires Linked(ll, items)
    ensures Find(Pairs(ll), key) == if key in items then Some(items[key].val) else None
    ensures key !in items ==> Removed(Pairs(ll), key) == Pairs(ll)
  {
    if key in items {
      var i := Located(ll, items, key);
      FindAt(Pairs(ll), i);
    } else {
      KeySetFacts(ll, key);
      FindFacts(Pairs(ll), key);
      RemovedAbsent(Pairs(ll), key);
    }
  }

  class Lru<V> {
    const cap: nat
    var ll: seq<Element<V>>
    var items: map<string, Element<V>>

    ghost predicate Valid()
      reads this
    {
      1 <= cap && |ll| <= cap && Linked(ll, items)
    }

    ghost function Contents(): (s: seq<(string, V)>)
      reads this, ll
    {
      Pairs(ll)
    }

    constructor (capacity: int)
      ensures Valid() && ll == [] && cap == (if capacity < 1 then 1 else capacity)
    {
      cap := if capacity < 1 then 1 else capacity;
      ll, items := [], map[];
    }

    method Peek(key: string) returns (val: Option<V>)
      requires Valid()
      ensures val == Find(Contents(), key)
    {
      IndexFinds(ll, items, key);
      val := if key in items then Some(items[key].val) else None;
    }

    method Len() returns (n: nat)
      requires Valid()
      ensures n == |Contents()| && n <= cap
    {
      n := |ll|;
    }

    method Get(key: string) returns (val: Option<V>)
      requires Valid()
      modifies this`ll
      ensures Valid() && Elements(ll) <= old(Elements(ll))
      ensures val == Find(old(Contents()), key) && Contents() == Touched(old(Contents()), key)
    {
      IndexFinds(ll, items, key);
      if key !in items {
        return None;
      }
      ghost var i := Located(ll, items, key);
      MoveToFront(items[key]);
      return Some(items[key].val);
    }

    /** container/list's MoveToFront. */
    method MoveToFront(el: Element<V>)
      requires Valid() && el in ll
      modifies this`ll
      ensures Valid() && Elements(ll) <= old(Elements(ll))
      ensures Contents() == [(el.key, el.val)] + Removed(old(Contents()), el.key)
    {
      var i: nat :| i < |ll| && ll[i] == el;
      MovedToFront(ll, items, i);
      CutElements(ll, i);
      ll := [el] + Cut(ll, i);
    }

    method Delete(key: string)
      requires Valid()
      modifies this`ll, this`items
      ensures Valid() && Elements(ll) <= old(Elements(ll))
      ensures Contents() == Removed(old(Contents()), key)
    {
      IndexFinds(ll, items, key);
      if key in items {
        ghost var j := Located(ll, items, key);
        var i: nat :| i < |ll| && ll[i] == items[key];
        CutLinked(ll, items, i);
        CutPairs(ll, i);
        CutElements(ll, i);
        ll, items := Cut(ll, i), items - {key};
      }
    }

    /** Insert or overwrite in place, then evict from the back while the list is too long. */
    method Put(key: string, val: V)
      requires Valid()
      modifies this`ll, this`items, Elements(ll)
      ensures Valid() && fresh(Elements(ll) - old(Elements(ll)))
      ensures Contents() == Recency.Put(old(Contents()), key, val, cap)
    {
      IndexFinds(ll, items, key);
      if key in items {
        ghost var i := Located(ll, items, key);
        Replace(items[key], val, i);
      } else {
        var el := new Element(key, val);
        FrontLinked(ll, items, el);
        ll, items := [el] + ll, items[key := el];
        Evict();
      }
    }

    /** Overwrite a value in place and make its element the most recent. */
    method Replace(el: Element<V>, val: V, ghost i: nat)
      requires Valid() && i < |ll| && ll[i] == el
      modifies this`ll, el
      ensures Valid() && Elements(ll) <= old(Elements(ll))
      ensures Contents() == [(el.key, val)] + Removed(old(Contents()), el.key)
    {
      CutPairs(ll, i);
      Overwrite(el, val, i);
      CutPairs(ll, i);
      MoveToFront(el);
    }

    /** Writing through the index changes the one element and no other. */
    method Overwrite(el: Element<V>, val: V, ghost i: nat)
      requires Valid() && i < |ll| && ll[i] == el
      modifies el
      ensures el.val == val && Pairs(Cut(ll, i)) == old(Pairs(Cut(ll, i)))
    {
      ghost var rest := Cut(ll, i);
      assert forall j | 0 <= j < |rest| :: rest[j] != el;
      el.val := val;
    }

    method Evict()
      requires 1 <= cap && Linked(ll, items)
      modifies this`ll, this`items
      ensures Valid() && Elements(ll) <= old(Elements(ll))
      ensures Contents() == Take(old(Contents()), cap)
    {
      while |ll| > cap
        invariant Linked(ll, items) && |ll| >= (if |old(ll)| < cap then |old(ll)| else cap)
        invariant |ll| <= |old(ll)| && ll == old(ll)[..|ll|]
      {
        var last := |ll| - 1;
        CutLinked(ll, items, last);
        var tail := ll[last];
        assert Cut(ll, last) == ll[..last];
        ll, items := ll[..last], items - {tail.key};
      }
    }
  }
}
