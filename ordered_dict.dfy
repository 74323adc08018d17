/** A JavaScript plain object used as a dictionary from account strings to
    numbers. Its keys are account identifiers, never array indices, so
    `Object.entries` lists them in the order they were first inserted. */
module OrderedDict {

  /** Keys listed once each: no key repeats one listed before it. */
  ghost predicate Distinct(ks: seq<string>) {
    ks == [] || (ks[|ks| - 1] !in ks[..|ks| - 1] && Distinct(ks[..|ks| - 1]))
  }

  /** In a list without repetition, no key occurs before its own position. */
  lemma {:induction false} DistinctAt(ks: seq<string>, i: nat)
    requires Distinct(ks) && i < |ks|
    ensures ks[i] !in ks[..i]
  {
    if i < |ks| - 1 {
      var init := ks[..|ks| - 1];
      assert init[..i] == ks[..i] && init[i] == ks[i];
      DistinctAt(init, i);
    }
  }

  /** An object: its enumeration order `keys` and its contents `values`. */
  datatype Dict = Dict(keys: seq<string>, values: map<string, int>)
  {
    /** Every stored key is enumerated exactly once, and nothing else is. */
    ghost predicate Valid() {
      Distinct(keys) && forall k :: k in values <==> k in keys
    }

    /** `d[k] || 0`: the stored number, or 0 for a key that is absent. */
    function Get(k: string): int {
      if k in values then values[k] else 0
    }

    /** `d[k] = v`: an existing key keeps its place in the enumeration
        order, a new key is enumerated after all the others. */
    function Put(k: string, v: int): Dict {
      if k in values then Dict(keys, values[k := v])
      else Dict(keys + [k], values[k := v])
    }
  }

  /** Storing a number keeps every key enumerated exactly once. */
  lemma PutValid(d: Dict, k: string, v: int)
    requires d.Valid()
    ensures d.Put(k, v).Valid()
  {
    if k !in d.values {
      assert (d.keys + [k])[..|d.keys|] == d.keys;
    }
  }

  /** Reading back: the key just stored holds the new number, every other key
      what it held before, and the enumeration order grows only by a new key
      at its end. */
  lemma PutGet(d: Dict, k: string, v: int)
    ensures d.Put(k, v).Get(k) == v
    ensures forall x :: x != k ==> d.Put(k, v).Get(x) == d.Get(x)
    ensures k in d.values ==> d.Put(k, v).keys == d.keys
    ensures k !in d.values ==> d.Put(k, v).keys == d.keys + [k]
  {
  }

  /** The empty object `{}`. */
  const Empty: Dict := Dict([], map[])

  /** The sum of the numbers stored under `ks`, added from first to last. */
  function SumOver(ks: seq<string>, m: map<string, int>): int
    requires forall k :: k in ks ==> k in m
  {
    if ks == [] then 0 else SumOver(ks[..|ks| - 1], m) + m[ks[|ks| - 1]]
  }

  /** The sum of all the numbers an object holds. */
  function Sum(d: Dict): int
    requires d.Valid()
  {
    SumOver(d.keys, d.values)
  }

  /** Overwriting one value changes the sum by the difference, once, because
      the key is listed once; a key outside `ks` does not change it at all. */
  lemma {:induction false} SumOverUpdate(ks: seq<string>, m: map<string, int>, k: string, v: int)
    requires forall x :: x in ks ==> x in m
    requires Distinct(ks)
    ensures SumOver(ks, m[k := v]) == SumOver(ks, m) + (if k in ks then v - m[k] else 0)
  {
    if ks != [] {
      var init, last := ks[..|ks| - 1], ks[|ks| - 1];
      assert ks == init + [last];
      assert k in ks <==> k in init || k == last;
      SumOverUpdate(init, m, k, v);
    }
  }

  /** Storing `v` under `k` changes the sum by `v` minus what `k` held before. */
  lemma SumPut(d: Dict, k: string, v: int)
    requires d.Valid()
    ensures d.Put(k, v).Valid()
    ensures Sum(d.Put(k, v)) == Sum(d) - d.Get(k) + v
  {
    PutValid(d, k, v);
    SumOverUpdate(d.keys, d.values, k, v);
    if k !in d.values {
      var e := d.Put(k, v);
      assert e.keys[..|e.keys| - 1] == d.keys;
    }
  }

  /** When every value is at least 1, the sum is at least the number of keys. */
  lemma {:induction false} SumAtLeastSize(ks: seq<string>, m: map<string, int>)
    requires forall x :: x in ks ==> x in m && m[x] >= 1
    ensures SumOver(ks, m) >= |ks|
  {
    if ks != [] {
      assert ks[|ks| - 1] in ks;
      SumAtLeastSize(ks[..|ks| - 1], m);
    }
  }
}
