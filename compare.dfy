/**
 * The comparison panel: a list of at most four products with distinct ids,
 * toggled one product at a time, and the attribute rows of its table.
 */
module Compare {
  import opened Distinct
  import opened Catalogue

  /** The panel holds at most this many products. */
  const MaxCompared := 4

  /** Some entry of `s` has id `id` (`prev.some(x => x.id === id)`). */
  predicate HasId(s: seq<Product>, id: string) {
    exists x :: x in s && x.id == id
  }

  predicate DistinctIds(s: seq<Product>) {
    forall i, j :: 0 <= i < j < |s| ==> s[i].id != s[j].id
  }

  /** The invariant the toggle keeps: within the cap, no id twice. */
  predicate ValidSelection(s: seq<Product>) {
    |s| <= MaxCompared && DistinctIds(s)
  }

  /** `prev.filter(x => x.id !== id)`: the entries with another id, in their order. */
  function RemoveId(s: seq<Product>, id: string): (r: seq<Product>)
    ensures forall x {:trigger x in r} :: x in r <==> x in s && x.id != id
    ensures !HasId(r, id)
    ensures |r| <= |s|
    ensures HasId(s, id) ==> |r| < |s|
  {
    if |s| == 0 then []
    else
      var rest := RemoveId(s[1..], id);
      assert forall x :: x in s <==> x == s[0] || x in s[1..];
      assert HasId(s, id) && s[0].id != id ==> HasId(s[1..], id);
      if s[0].id == id then rest else [s[0]] + rest
  }

  /** Removing entries keeps ids distinct. */
  lemma {:induction false} RemoveIdDistinct(s: seq<Product>, id: string)
    requires DistinctIds(s)
    ensures DistinctIds(RemoveId(s, id))
  {
    if |s| > 0 {
      assert DistinctIds(s[1..]);
      RemoveIdDistinct(s[1..], id);
      var rest := RemoveId(s[1..], id);
      if s[0].id != id {
        forall k | 0 <= k < |rest| ensures rest[k].id != s[0].id {
          assert rest[k] in rest;
          assert rest[k] in s[1..];
          var m :| 0 <= m < |s[1..]| && s[1..][m] == rest[k];
          assert s[m + 1] == rest[k];
        }
      }
    }
  }

  /**
   * `toggleCompare(p)` applied to the previous list: a product already there
   * (by id) is taken out, otherwise it is appended unless four are selected.
   */
  function Toggle(prev: seq<Product>, p: Product): (next: seq<Product>)
    ensures HasId(next, p.id) <==> !HasId(prev, p.id) && |prev| < MaxCompared
    ensures forall x :: x in prev && x.id != p.id ==> x in next
    ensures forall x :: x in next ==> x in prev || x == p
    ensures HasId(prev, p.id) ==> next == RemoveId(prev, p.id)
    ensures !HasId(prev, p.id) && |prev| < MaxCompared ==> next == prev + [p]
    ensures !HasId(prev, p.id) && |prev| >= MaxCompared ==> next == prev
  {
    if HasId(prev, p.id) then RemoveId(prev, p.id)
    else if |prev| >= MaxCompared then prev
    else
      assert p in prev + [p];
      prev + [p]
  }

  /** Removal distributes over concatenation: each part loses its entries with the id, in place. */
  lemma {:induction false} RemoveIdConcat(a: seq<Product>, b: seq<Product>, id: string)
    ensures RemoveId(a + b, id) == RemoveId(a, id) + RemoveId(b, id)
  {
    if |a| == 0 {
      assert a + b == b;
    } else {
      assert (a + b)[0] == a[0] && (a + b)[1..] == a[1..] + b;
      RemoveIdConcat(a[1..], b, id);
    }
  }

  /** Removal on one entry: gone when it has the id, kept otherwise. */
  lemma RemoveIdSingleton(x: Product, id: string)
    ensures RemoveId([x], id) == if x.id == id then [] else [x]
  {
    assert [x][1..] == [];
  }

  /** A list in which no entry has the id is left as it is. */
  lemma {:induction false} RemoveAbsentId(s: seq<Product>, id: string)
    requires !HasId(s, id)
    ensures RemoveId(s, id) == s
  {
    if |s| > 0 {
      assert s[0] in s;
      assert !HasId(s[1..], id) by {
        forall x | x in s[1..] ensures x.id != id {
          assert x in s;
        }
      }
      RemoveAbsentId(s[1..], id);
    }
  }

  /** When entry `k` is the only one with the id, removing the id takes out that entry alone. */
  lemma {:induction false} RemoveIdAt(prev: seq<Product>, id: string, k: int)
    requires 0 <= k < |prev| && prev[k].id == id
    requires forall j :: 0 <= j < |prev| && j != k ==> prev[j].id != id
    ensures RemoveId(prev, id) == prev[..k] + prev[k + 1..]
  {
    var rest := prev[1..];
    if k == 0 {
      assert !HasId(rest, id) by {
        forall y | y in rest ensures y.id != id {
          var m :| 0 <= m < |rest| && rest[m] == y;
          assert prev[m + 1] == y;
        }
      }
      RemoveAbsentId(rest, id);
      assert RemoveId(prev, id) == RemoveId(rest, id);
      assert prev[..k] + prev[k + 1..] == rest;
    } else {
      assert prev[0].id != id;
      assert forall j :: 0 <= j < |rest| && j != k - 1 ==> rest[j].id != id by {
        forall j | 0 <= j < |rest| && j != k - 1 ensures rest[j].id != id {
          assert rest[j] == prev[j + 1];
        }
      }
      RemoveIdAt(rest, id, k - 1);
      assert RemoveId(prev, id) == [prev[0]] + RemoveId(rest, id);
      assert prev[..k] == [prev[0]] + rest[..k - 1];
      assert prev[k + 1..] == rest[k..];
      assert [prev[0]] + (rest[..k - 1] + rest[k..]) == ([prev[0]] + rest[..k - 1]) + rest[k..];
    }
  }

  /**
   * Toggling a selected product takes out exactly its entry: the entries
   * before and after it stay, in their order.
   */
  lemma ToggleRemoves(prev: seq<Product>, p: Product, k: int)
    requires DistinctIds(prev) && 0 <= k < |prev| && prev[k].id == p.id
    ensures Toggle(prev, p) == prev[..k] + prev[k + 1..]
    ensures |Toggle(prev, p)| == |prev| - 1
  {
    assert prev[k] in prev;
    assert HasId(prev, p.id);
    assert forall j :: 0 <= j < |prev| && j != k ==> prev[j].id != p.id by {
      forall j | 0 <= j < |prev| && j != k ensures prev[j].id != p.id {
        if j < k {
          assert prev[j].id != prev[k].id;
        } else {
          assert prev[k].id != prev[j].id;
        }
      }
    }
    RemoveIdAt(prev, p.id, k);
  }

  /** Every toggle keeps the selection within four entries and free of repeated ids. */
  lemma ToggleKeepsValid(prev: seq<Product>, p: Product)
    requires ValidSelection(prev)
    ensures ValidSelection(Toggle(prev, p))
  {
    if HasId(prev, p.id) {
      RemoveIdDistinct(prev, p.id);
    } else if |prev| < MaxCompared {
      var next := prev + [p];
      forall i, j | 0 <= i < j < |next| ensures next[i].id != next[j].id {
        if j == |prev| {
          assert prev[i] in prev;
        }
      }
    }
  }

  /** Toggling a product in and then out again restores the selection. */
  lemma ToggleTwiceRestores(prev: seq<Product>, p: Product)
    requires !HasId(prev, p.id) && |prev| < MaxCompared
    ensures Toggle(Toggle(prev, p), p) == prev
  {
    var next := prev + [p];
    assert HasId(next, p.id) by { assert p in next; }
    RemoveIdAppend(prev, p);
  }

  lemma {:induction false} RemoveIdAppend(prev: seq<Product>, p: Product)
    requires !HasId(prev, p.id)
    ensures RemoveId(prev + [p], p.id) == prev
  {
    if |prev| == 0 {
      assert [p][1..] == [];
    } else {
      assert prev[0] in prev;
      assert !HasId(prev[1..], p.id) by {
        forall x | x in prev[1..] ensures x.id != p.id {
          assert x in prev;
        }
      }
      assert (prev + [p])[1..] == prev[1..] + [p];
      RemoveIdAppend(prev[1..], p);
    }
  }

  /** The attribute names of one product, in the order its record lists them (`Object.keys(p.specs)`). */
  function SpecKeys(p: Product): (keys: seq<string>)
    ensures |keys| == |p.specs|
    ensures forall i :: 0 <= i < |p.specs| ==> keys[i] == p.specs[i].key
  {
    seq(|p.specs|, i requires 0 <= i < |p.specs| => p.specs[i].key)
  }

  /** `compare.flatMap(p => Object.keys(p.specs))`. */
  function AllSpecKeys(compared: seq<Product>): (keys: seq<string>)
    ensures forall k :: k in keys <==> exists p :: p in compared && k in SpecKeys(p)
  {
    if |compared| == 0 then []
    else
      var rest := AllSpecKeys(compared[1..]);
      assert forall p :: p in compared <==> p == compared[0] || p in compared[1..];
      SpecKeys(compared[0]) + rest
  }

  /** Flattening a concatenation concatenates the flattened parts: products contribute keys in list order. */
  lemma {:induction false} AllSpecKeysConcat(a: seq<Product>, b: seq<Product>)
    ensures AllSpecKeys(a + b) == AllSpecKeys(a) + AllSpecKeys(b)
  {
    if |a| == 0 {
      assert a + b == b;
    } else {
      assert (a + b)[0] == a[0] && (a + b)[1..] == a[1..] + b;
      AllSpecKeysConcat(a[1..], b);
    }
  }

  /** One product contributes its own keys in record order. */
  lemma AllSpecKeysSingleton(p: Product)
    ensures AllSpecKeys([p]) == SpecKeys(p)
  {
    assert [p][1..] == [];
  }

  /**
   * The rows of the comparison table: every attribute name of any compared
   * product, each once, in order of first appearance.
   */
  function SpecKeyUnion(compared: seq<Product>): (keys: seq<string>)
    ensures NoDuplicates(keys)
    ensures forall k :: k in keys <==> exists p :: p in compared && k in SpecKeys(p)
  {
    Unique(AllSpecKeys(compared))
  }

  /** A table row comes before another exactly when its name appears first in the concatenated key lists. */
  lemma SpecKeyUnionOrder(compared: seq<Product>)
    ensures var all := AllSpecKeys(compared); var keys := SpecKeyUnion(compared);
            forall i, j :: 0 <= i < j < |keys| ==> FirstIndex(all, keys[i]) < FirstIndex(all, keys[j])
  {
    UniqueFirstOccurrenceOrder(AllSpecKeys(compared));
  }

  /** Comparing the two regulators gives the four shared attribute names once each, in record order. */
  lemma ScenarioRegulatorRows()
    ensures SpecKeyUnion([Products[0], Products[1]]) == ["Bilanciato", "Porte_HP", "Porte_LP", "Peso_g"]
  {
    var keys := ["Bilanciato", "Porte_HP", "Porte_LP", "Peso_g"];
    assert SpecKeys(Products[0]) == keys;
    assert SpecKeys(Products[1]) == keys;
    var both := [Products[0], Products[1]];
    assert both[1..] == [Products[1]] && [Products[1]][1..] == [];
    assert AllSpecKeys([Products[1]]) == keys + AllSpecKeys([]);
    assert AllSpecKeys(both) == keys + keys;
    UniqueOfDistinct(keys);
    UniqueAppendSeen(keys, keys);
  }
}
