/** Small vocabulary shared by the models: optional values and insertion-ordered records. */
module Common {

  datatype Option<+T> = None | Some(value: T)

  /** No two positions hold the same element. */
  ghost predicate Distinct<T>(s: seq<T>) {
    forall i, j :: 0 <= i < j < |s| ==> s[i] != s[j]
  }

  ghost function Elements<T>(s: seq<T>): set<T> {
    set x | x in s
  }

  lemma Associative<T>(a: seq<T>, b: seq<T>, c: seq<T>)
    ensures a + (b + c) == (a + b) + c
  {
  }

  /** The wanted ones among the first `n`. */
  ghost function Picked(wanted: set<nat>, n: nat): seq<nat> {
    if n == 0 then []
    else if n - 1 in wanted then Picked(wanted, n - 1) + [n - 1]
    else Picked(wanted, n - 1)
  }

  /** They come in order, and all of them come. */
  lemma {:induction false} PickedInOrder(wanted: set<nat>, n: nat)
    ensures forall i: nat :: i in Picked(wanted, n) <==> i < n && i in wanted
    ensures forall j, k :: 0 <= j < k < |Picked(wanted, n)| ==> Picked(wanted, n)[j] < Picked(wanted, n)[k]
  {
    if n > 0 {
      PickedInOrder(wanted, n - 1);
      var before := Picked(wanted, n - 1);
      forall j | 0 <= j < |before| ensures before[j] < n - 1 {
        assert before[j] in before;
      }
    }
  }

  lemma PickedBelow(wanted: set<nat>, n: nat)
    ensures forall j :: 0 <= j < |Picked(wanted, n)| ==> Picked(wanted, n)[j] < n
  {
    PickedInOrder(wanted, n);
    forall j | 0 <= j < |Picked(wanted, n)| ensures Picked(wanted, n)[j] < n {
      assert Picked(wanted, n)[j] in Picked(wanted, n);
    }
  }

  /** A JavaScript object used as a dictionary: `Object.keys` enumerates its own keys in
      insertion order. Integer-like keys, which JavaScript enumerates first, are not modelled. */
  datatype Record<+V> = Record(keys: seq<string>, values: map<string, V>) {

    ghost predicate Valid() {
      && Distinct(keys)
      && forall k :: k in keys <==> k in values
    }

    predicate Has(k: string) { k in values }

    /** Assigning an existing key keeps its position; a new key goes last. */
    function Set(k: string, v: V): Record<V> {
      Record(if k in values then keys else keys + [k], values[k := v])
    }

    function Delete(k: string): Record<V> {
      Record(Without(keys, k), values - {k})
    }
  }

  function Empty<V>(): Record<V> { Record([], map[]) }

  function Without(keys: seq<string>, k: string): (r: seq<string>)
    ensures forall x :: x in r <==> x in keys && x != k
  {
    if keys == [] then []
    else if keys[0] == k then Without(keys[1..], k)
    else [keys[0]] + Without(keys[1..], k)
  }

  lemma {:induction false} WithoutAbsent(keys: seq<string>, k: string)
    requires k !in keys
    ensures Without(keys, k) == keys
  {
    if keys != [] {
      WithoutAbsent(keys[1..], k);
    }
  }

  /** Deleting a key leaves the others in their order. */
  lemma {:induction false} WithoutOne(a: seq<string>, k: string, b: seq<string>)
    requires k !in a && k !in b
    ensures Without(a + [k] + b, k) == a + b
  {
    if a == [] {
      assert (a + [k] + b)[1..] == b;
      WithoutAbsent(b, k);
    } else {
      WithoutOne(a[1..], k, b);
      assert (a + [k] + b)[1..] == a[1..] + [k] + b;
      Associative([a[0]], a[1..], b);
    }
  }

  lemma SetValid<V>(r: Record<V>, k: string, v: V)
    requires r.Valid()
    ensures r.Set(k, v).Valid()
  {
  }

  lemma WithoutDistinct(keys: seq<string>, k: string)
    requires Distinct(keys)
    ensures Distinct(Without(keys, k))
  {
    if keys != [] {
      WithoutDistinct(keys[1..], k);
      assert keys[0] !in Without(keys[1..], k) by {
        assert forall j :: 0 <= j < |keys[1..]| ==> keys[1..][j] == keys[j + 1] != keys[0];
      }
    }
  }

  lemma DeleteValid<V>(r: Record<V>, k: string)
    requires r.Valid()
    ensures r.Delete(k).Valid()
  {
    WithoutDistinct(r.keys, k);
  }
}
