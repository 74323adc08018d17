/** The second script: drop unissued tokens, count the tokens each account
    holds, and share the unsold supply among the holders in proportion to
    their holdings, each share rounded to the nearest integer. */
module V2Holders {
  import opened Registry
  import opened OrderedDict
  import opened Rounding

  /** The collection's total supply, as configured in the script. */
  const TotalSupply: int := 2200

  /** The owner the registry records for a token that has not been issued. */
  const Unissued: string := "0000"

  /** `owners.filter((x) => x !== sentinel)`. */
  function WithoutSentinel(owners: seq<string>, sentinel: string): (holders: seq<string>)
    ensures sentinel !in holders
    ensures forall x :: x != sentinel ==> multiset(holders)[x] == multiset(owners)[x]
    ensures |holders| == |owners| - multiset(owners)[sentinel]
  {
    if owners == [] then []
    else
      assert owners == [owners[0]] + owners[1..];
      if owners[0] == sentinel then WithoutSentinel(owners[1..], sentinel)
      else [owners[0]] + WithoutSentinel(owners[1..], sentinel)
  }

  /** The filter keeps registry order: filtering a concatenation filters
      each part in place. */
  lemma {:induction false} WithoutSentinelAppend(a: seq<string>, b: seq<string>, sentinel: string)
    ensures WithoutSentinel(a + b, sentinel) == WithoutSentinel(a, sentinel) + WithoutSentinel(b, sentinel)
  {
    if a == [] {
      assert a + b == b;
    } else {
      var ab := a + b;
      assert ab[0] == a[0] && ab[1..] == a[1..] + b;
      WithoutSentinelAppend(a[1..], b, sentinel);
      if a[0] != sentinel {
        assert ([a[0]] + WithoutSentinel(a[1..], sentinel)) + WithoutSentinel(b, sentinel)
            == [a[0]] + (WithoutSentinel(a[1..], sentinel) + WithoutSentinel(b, sentinel));
      }
    }
  }

  /** Nothing but the sentinel is removed. */
  lemma {:induction false} WithoutSentinelKeeps(owners: seq<string>, sentinel: string)
    requires sentinel !in owners
    ensures WithoutSentinel(owners, sentinel) == owners
  {
    if owners != [] {
      assert forall x :: x in owners[1..] ==> x in owners;
      WithoutSentinelKeeps(owners[1..], sentinel);
      assert [owners[0]] + owners[1..] == owners;
    }
  }

  /** The holder list: the registry's owners with the sentinel dropped. */
  function Holders(registry: seq<Entry>, sentinel: string): seq<string> {
    WithoutSentinel(Owners(registry), sentinel)
  }


  /** `holders.reduce((acc, x) => { acc[x] = (acc[x] || 0) + 1; return acc; }, {})`. */
  function Tally(holders: seq<string>): Dict {
    if holders == [] then Empty
    else
      var acc := Tally(holders[..|holders| - 1]);
      acc.Put(holders[|holders| - 1], acc.Get(holders[|holders| - 1]) + 1)
  }

  /** The tally has a key for every holder and for nothing else, and the
      value under an address is the number of times it occurs in the list. */
  lemma {:induction false} TallyCounts(holders: seq<string>)
    ensures forall a :: a in Tally(holders).values <==> a in holders
    ensures forall a :: a in Tally(holders).values ==> Tally(holders).values[a] == multiset(holders)[a] >= 1
  {
    if holders != [] {
      var init, x := holders[..|holders| - 1], holders[|holders| - 1];
      assert holders == init + [x];
      TallyCounts(init);
    }
  }

  /** The tally is a well-formed object, each address enumerated once, and
      its counts add up to the length of the holder list. */
  lemma {:induction false} TallySum(holders: seq<string>)
    ensures Tally(holders).Valid()
    ensures Sum(Tally(holders)) == |holders|
  {
    if holders != [] {
      var init, x := holders[..|holders| - 1], holders[|holders| - 1];
      var acc := Tally(init);
      assert Tally(holders) == acc.Put(x, acc.Get(x) + 1);
      TallySum(init);
      SumPut(acc, x, acc.Get(x) + 1);
    }
  }

  /** One count never exceeds the sum of all positive counts. */
  lemma {:induction false} CountAtMostSum(ks: seq<string>, m: map<string, int>, k: string)
    requires forall x :: x in ks ==> x in m && m[x] >= 1
    requires k in ks
    ensures m[k] <= SumOver(ks, m)
  {
    var init, last := ks[..|ks| - 1], ks[|ks| - 1];
    assert ks == init + [last];
    SumAtLeastSize(init, m);
    if k != last {
      CountAtMostSum(init, m, k);
    }
  }

  /** Rounding every share independently: the summed allocations differ from
      the pool share of the summed counts by at most half a unit per address,
      and by strictly less on the low side. */
  lemma {:induction false} DriftBound(ks: seq<string>, counts: map<string, int>, allocs: map<string, int>, p: int, r: int)
    requires p > 0
    requires forall k :: k in ks ==> k in counts && k in allocs && allocs[k] == RoundDiv(r * counts[k], p)
    ensures 2 * p * SumOver(ks, allocs) - |ks| * p <= 2 * r * SumOver(ks, counts)
    ensures ks != [] ==> 2 * r * SumOver(ks, counts) < 2 * p * SumOver(ks, allocs) + |ks| * p
  {
    if ks != [] {
      var init, last := ks[..|ks| - 1], ks[|ks| - 1];
      assert last in ks;
      assert forall k :: k in init ==> k in ks;
      DriftBound(init, counts, allocs, p, r);
      DriftStep(p, r, SumOver(init, allocs), SumOver(init, counts), |init|, counts[last]);
    }
  }

  /** The counts added over one more address, in enumeration order. */
  lemma SumOverStep(ks: seq<string>, i: nat, counts: map<string, int>)
    requires i < |ks|
    requires forall k :: k in ks ==> k in counts
    ensures ks[..i + 1] == ks[..i] + [ks[i]]
    ensures SumOver(ks[..i + 1], counts) == SumOver(ks[..i], counts) + counts[ks[i]]
  {
    assert ks[..i + 1][..i] == ks[..i];
  }

  /** What the rounded shares of a non-empty tally satisfy together: each lies
      between 0 and a non-negative pool, none is positive for a negative pool,
      and their sum is within half a unit per address of the pool. */
  lemma AllocationFacts(byCount: Dict, allocs: map<string, int>, purchased: int, remaining: int)
    requires byCount.Valid() && byCount.keys != []
    requires forall a :: a in byCount.values ==> byCount.values[a] >= 1
    requires Sum(byCount) == purchased
    requires forall a :: a in byCount.values ==>
      purchased > 0 && a in allocs && allocs[a] == RoundDiv(remaining * byCount.values[a], purchased)
    ensures 0 <= remaining ==> forall a :: a in byCount.values ==> 0 <= allocs[a] <= remaining
    ensures remaining <= 0 ==> forall a :: a in byCount.values ==> allocs[a] <= 0
    ensures -|byCount.keys| < 2 * (SumOver(byCount.keys, allocs) - remaining) <= |byCount.keys|
  {
    var keys := byCount.keys;
    assert keys[0] in byCount.values;
    forall a | a in byCount.values
      ensures 0 <= remaining ==> 0 <= allocs[a] <= remaining
      ensures remaining <= 0 ==> allocs[a] <= 0
    {
      var count := byCount.values[a];
      CountAtMostSum(keys, byCount.values, a);
      if 0 <= remaining {
        AllocationBounds(remaining, count, purchased);
      }
      if remaining <= 0 {
        AllocationNonPositive(remaining, count, purchased);
      }
    }
    DriftBound(keys, byCount.values, allocs, purchased, remaining);
    DriftPerAddress(purchased, remaining, SumOver(keys, allocs), |keys|);
  }

  /** The allocation loop: for each address in enumeration order, its share
      `count / purchased` of the pool `remaining`, rounded, recorded under the
      address, with the running totals of shares and of allocations. */
  method Allocate(byCount: Dict, purchased: int, remaining: int)
    returns (airdropByAddr: Dict, total: Fraction, totalAirdrop: int)
    requires byCount.Valid()
    requires forall a :: a in byCount.values ==> byCount.values[a] >= 1
    requires Sum(byCount) == purchased
    ensures airdropByAddr.Valid() && airdropByAddr.keys == byCount.keys
    ensures forall a :: a in byCount.values ==>
      purchased > 0 && a in airdropByAddr.values &&
      airdropByAddr.values[a] == RoundDiv(remaining * byCount.values[a], purchased)
    ensures totalAirdrop == Sum(airdropByAddr)
    ensures total.den > 0
    ensures byCount.keys != [] ==> total == Fraction(purchased, purchased)
    ensures total.Value() == if byCount.keys == [] then 0.0 else 1.0
    ensures byCount.keys == [] ==> airdropByAddr == Empty && totalAirdrop == 0
  {
    var keys := byCount.keys;
    SumAtLeastSize(keys, byCount.values);
    airdropByAddr := Empty;
    // The script starts from the number 0; any positive denominator will do
    // until the first share fixes it at `purchased`.
    var den := if purchased > 0 then purchased else 1;
    total, totalAirdrop := Fraction(0, den), 0;
    for i := 0 to |keys|
      invariant airdropByAddr.Valid() && airdropByAddr.keys == keys[..i]
      invariant forall a :: a in airdropByAddr.values ==>
        purchased > 0 && a in byCount.values &&
        airdropByAddr.values[a] == RoundDiv(remaining * byCount.values[a], purchased)
      invariant totalAirdrop == Sum(airdropByAddr)
      invariant total == Fraction(SumOver(keys[..i], byCount.values), den)
    {
      var addr := keys[i];
      DistinctAt(keys, i);
      var count := byCount.values[addr];
      var pie := Fraction(count, purchased);
      SumOverStep(keys, i, byCount.values);
      var airdrop := RoundDiv(remaining * count, purchased);
      total := total.Plus(pie);
      totalAirdrop := totalAirdrop + airdrop;
      SumPut(airdropByAddr, addr, airdrop);
      airdropByAddr := airdropByAddr.Put(addr, airdrop);
    }
    assert keys[..|keys|] == keys;
    if keys == [] {
      assert airdropByAddr.values == map[];
      ZeroIsZero(total);
    } else {
      WholeIsOne(total);
    }
  }

  /** A worked case with the script's sentinel: of four owners, the unissued
      one is dropped and the others keep their order. */
  lemma ExampleHolders()
    ensures WithoutSentinel(["a", Unissued, "b", "a"], Unissued) == ["a", "b", "a"]
  {
    assert WithoutSentinel(["a"], Unissued) == ["a"] by {
      assert ["a"][1..] == [];
    }
    assert WithoutSentinel(["b", "a"], Unissued) == ["b", "a"] by {
      assert ["b", "a"][1..] == ["a"];
    }
    assert WithoutSentinel([Unissued, "b", "a"], Unissued) == ["b", "a"] by {
      assert [Unissued, "b", "a"][1..] == ["b", "a"];
    }
    assert ["a", Unissued, "b", "a"][1..] == [Unissued, "b", "a"];
    assert ["a"] + ["b", "a"] == ["a", "b", "a"];
  }

  /** The same case continued: two accounts holding two tokens and one token,
      enumerated in order of first appearance, and the script's 2197 unsold
      tokens shared as 1465 and 732. */
  lemma ExampleTally()
    ensures Tally(["a", "b", "a"]) == Dict(["a", "b"], map["a" := 2, "b" := 1])
    ensures RoundDiv((TotalSupply - 3) * 2, 3) == 1465 && RoundDiv((TotalSupply - 3) * 1, 3) == 732
  {
    var holders := ["a", "b", "a"];
    assert holders[..2] == ["a", "b"] && holders[..2][..1] == ["a"] && holders[..2][..1][..0] == [];
    assert Tally(["a"]) == Dict(["a"], map["a" := 1]);
    assert Tally(["a", "b"]) == Dict(["a", "b"], map["a" := 1, "b" := 1]);
    assert map["a" := 1, "b" := 1]["a" := 2] == map["a" := 2, "b" := 1];
  }

  /** The whole second script, from the registry to the two objects it writes
      and the two totals it reports. */
  method FetchV2Holders(registry: seq<Entry>, supply: int, sentinel: string)
    returns (holders: seq<string>, purchased: int, remaining: int,
             addrByCount: Dict, airdropByAddr: Dict, total: Fraction, totalAirdrop: int)
    ensures holders == Holders(registry, sentinel)
    ensures purchased == |holders| && remaining == supply - purchased
    ensures addrByCount.Valid() && forall a :: a in addrByCount.values <==> a in holders
    ensures forall a :: a in addrByCount.values ==> addrByCount.values[a] == multiset(holders)[a]
    ensures Sum(addrByCount) == purchased
    ensures airdropByAddr.Valid() && airdropByAddr.keys == addrByCount.keys
    ensures forall a :: a in holders ==>
      a in airdropByAddr.values &&
      airdropByAddr.values[a] == RoundDiv(remaining * multiset(holders)[a], purchased)
    ensures 0 <= remaining ==>
      forall a :: a in airdropByAddr.values ==> 0 <= airdropByAddr.values[a] <= remaining
    ensures totalAirdrop == Sum(airdropByAddr)
    ensures total.den > 0 && total.Value() == if holders == [] then 0.0 else 1.0
    ensures holders == [] ==>
      addrByCount == Empty && airdropByAddr == Empty && totalAirdrop == 0 && remaining == supply
    ensures holders != [] ==>
      -|addrByCount.keys| < 2 * (totalAirdrop - remaining) <= |addrByCount.keys|
  {
    holders := Holders(registry, sentinel);
    purchased := |holders|;
    remaining := supply - purchased;
    addrByCount := Tally(holders);
    TallyCounts(holders);
    TallySum(holders);
    airdropByAddr, total, totalAirdrop := Allocate(addrByCount, purchased, remaining);
    if holders != [] {
      assert holders[0] in addrByCount.keys;
      AllocationFacts(addrByCount, airdropByAddr.values, purchased, remaining);
    } else {
      assert addrByCount.values == map[];
    }
  }
}
