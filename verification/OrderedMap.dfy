/** A JavaScript `Map`: its entries in insertion order, no key twice. Setting a key that was deleted
    first puts it at the end. */
module OrderedMap {
  datatype Entry<V> = Entry(key: string, value: V)

  function Find<V>(es: seq<Entry<V>>, key: string): (i: nat)
    ensures i <= |es|
    ensures i < |es| ==> es[i].key == key
    ensures forall j :: 0 <= j < i ==> es[j].key != key
  {
    if es == [] || es[0].key == key then 0 else Find(es[1..], key) + 1
  }

  predicate Has<V>(es: seq<Entry<V>>, key: string) {
    Find(es, key) < |es|
  }

  function RemoveAt<V>(es: seq<Entry<V>>, i: nat): seq<Entry<V>>
    requires i < |es|
  {
    es[..i] + es[i + 1..]
  }

  function Delete<V>(es: seq<Entry<V>>, key: string): seq<Entry<V>> {
    var i := Find(es, key);
    if i < |es| then RemoveAt(es, i) else es
  }

  predicate UniqueKeys<V>(es: seq<Entry<V>>) {
    forall i, j :: 0 <= i < j < |es| ==> es[i].key != es[j].key
  }

  lemma {:induction false} DeleteFacts<V>(es: seq<Entry<V>>, key: string)
    requires UniqueKeys(es)
    ensures var r := Delete(es, key);
            UniqueKeys(r) && |es| - 1 <= |r| <= |es| &&
            (forall e :: e in r <==> e in es && e.key != key)
  {
    var i := Find(es, key);
    if i < |es| {
      var r := RemoveAt(es, i);
      assert forall j :: 0 <= j < |r| ==> r[j] == if j < i then es[j] else es[j + 1];
      forall e | e in es && e.key != key ensures e in r {
        var j :| 0 <= j < |es| && es[j] == e;
        assert r[if j < i then j else j - 1] == e;
      }
    }
  }

  lemma {:induction false} RemoveAtFacts<V>(es: seq<Entry<V>>, i: nat)
    requires UniqueKeys(es) && i < |es|
    ensures RemoveAt(es, i) == Delete(es, es[i].key)
  {
  }

  /** Deletes the key and sets it again: it becomes the newest entry. */
  function Renew<V>(es: seq<Entry<V>>, e: Entry<V>): seq<Entry<V>> {
    Delete(es, e.key) + [e]
  }
}
