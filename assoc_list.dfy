/**
 * The glue's JavaScript `Map` of held keys as an association list in insertion order: `set` on a
 * present key replaces its value where it stands, `set` on a new key appends,
 * `delete` removes the entry. `ToMap` is the dictionary the list denotes.
 */
module AssocList {
  import opened Input

  /** One entry: a key code and the modifiers recorded for it. */
  type Entry = (string, WebKeyEvent)

  /** The keys of the list, in order. */
  function Keys(l: seq<Entry>): (r: seq<string>)
    ensures |r| == |l|
    ensures forall i :: 0 <= i < |l| ==> r[i] == l[i].0
  {
    seq(|l|, i requires 0 <= i < |l| => l[i].0)
  }

  /** No key occurs twice. */
  predicate Distinct(l: seq<Entry>)
  {
    forall i, j :: 0 <= i < j < |l| ==> l[i].0 != l[j].0
  }

  /** The dictionary the list denotes. */
  function ToMap(l: seq<Entry>): map<string, WebKeyEvent>
    decreases |l|
  {
    if |l| == 0 then map[] else ToMap(l[..|l| - 1])[l[|l| - 1].0 := l[|l| - 1].1]
  }

  /** `Map.prototype.set`: the key is then present, and the keys already there keep their order in front. */
  function Set(l: seq<Entry>, k: string, v: WebKeyEvent): (r: seq<Entry>)
    ensures k in Keys(r)
    ensures Keys(l) <= Keys(r)
  {
    if k in Keys(l) then
      var r := seq(|l|, i requires 0 <= i < |l| => if l[i].0 == k then (k, v) else l[i]);
      assert exists i :: 0 <= i < |l| && Keys(l)[i] == k && Keys(r)[i] == k;
      r
    else
      KeysSnoc(l, (k, v));
      l + [(k, v)]
  }

  /** `Map.prototype.delete`: the dictionary loses the key, and every other key keeps its value. */
  function Delete(l: seq<Entry>, k: string): (r: seq<Entry>)
    ensures ToMap(r) == ToMap(l) - {k}
    decreases |l|
  {
    if |l| == 0 then []
    else
      var rest, last := Delete(l[..|l| - 1], k), l[|l| - 1];
      if last.0 == k then rest
      else
        ToMapSnoc(rest, last);
        rest + [last]
  }

  lemma ToMapSnoc(l: seq<Entry>, e: Entry)
    ensures ToMap(l + [e]) == ToMap(l)[e.0 := e.1]
  {
    assert (l + [e])[..|l|] == l;
  }

  lemma KeysSnoc(l: seq<Entry>, e: Entry)
    ensures Keys(l + [e]) == Keys(l) + [e.0]
  {
  }

  /** A duplicate-free list holds exactly its keys, each with its own value. */
  lemma {:induction false} ToMapAt(l: seq<Entry>)
    requires Distinct(l)
    ensures forall k :: k in ToMap(l) <==> k in Keys(l)
    ensures forall i :: 0 <= i < |l| ==> ToMap(l)[l[i].0] == l[i].1
    decreases |l|
  {
    if |l| > 0 {
      var init := l[..|l| - 1];
      ToMapAt(init);
      assert Keys(l) == Keys(init) + [l[|l| - 1].0];
      forall i | 0 <= i < |l|
        ensures ToMap(l)[l[i].0] == l[i].1
      {
        if i < |l| - 1 {
          assert init[i] == l[i];
        }
      }
    }
  }

  /** The dictionary holds as many entries as a duplicate-free list. */
  lemma {:induction false} ToMapSize(l: seq<Entry>)
    requires Distinct(l)
    ensures |ToMap(l)| == |l|
    decreases |l|
  {
    if |l| > 0 {
      var init := l[..|l| - 1];
      ToMapSize(init);
      ToMapAt(init);
      assert l[|l| - 1].0 !in Keys(init) by {
        forall i | 0 <= i < |init| ensures Keys(init)[i] != l[|l| - 1].0 {
          assert init[i] == l[i];
        }
      }
    }
  }

  /**
   * `set` writes the key's value and no other: a present key keeps its place
   * (overwritten, not duplicated), a new key goes last, and no key repeats.
   */
  lemma SetSpec(l: seq<Entry>, k: string, v: WebKeyEvent)
    requires Distinct(l)
    ensures Distinct(Set(l, k, v))
    ensures ToMap(Set(l, k, v)) == ToMap(l)[k := v]
    ensures Keys(Set(l, k, v)) == if k in ToMap(l) then Keys(l) else Keys(l) + [k]
  {
    ToMapAt(l);
    if k in Keys(l) {
      SetOverwrites(l, k, v);
    } else {
      var r := Set(l, k, v);
      KeysSnoc(l, (k, v));
      ToMapSnoc(l, (k, v));
      forall i, j | 0 <= i < j < |r| ensures r[i].0 != r[j].0 {
        if j == |l| {
          assert Keys(l)[i] == l[i].0;
        }
      }
    }
  }

  /** `set` on a present key: same keys in the same order, the key's value replaced. */
  lemma SetOverwrites(l: seq<Entry>, k: string, v: WebKeyEvent)
    requires Distinct(l) && k in Keys(l)
    ensures Keys(Set(l, k, v)) == Keys(l)
    ensures Distinct(Set(l, k, v))
    ensures ToMap(Set(l, k, v)) == ToMap(l)[k := v]
  {
    var r := Set(l, k, v);
    assert Keys(r) == Keys(l);
    assert Distinct(r) by {
      forall i, j | 0 <= i < j < |r| ensures r[i].0 != r[j].0 {
        assert r[i].0 == l[i].0 && r[j].0 == l[j].0;
      }
    }
    ToMapAt(l);
    ToMapAt(r);
    var m, m' := ToMap(r), ToMap(l)[k := v];
    assert m.Keys == m'.Keys;
    forall x | x in m
      ensures m[x] == m'[x]
    {
      var i :| 0 <= i < |l| && Keys(l)[i] == x;
      assert r[i].0 == x;
    }
  }

  /** Deleting keeps only keys the list had, other than the deleted one, and adds no repeats. */
  lemma {:induction false} DeleteKeys(l: seq<Entry>, k: string)
    ensures forall x :: x in Keys(Delete(l, k)) ==> x in Keys(l) && x != k
    ensures Distinct(l) ==> Distinct(Delete(l, k))
    decreases |l|
  {
    if |l| > 0 {
      var init, last := l[..|l| - 1], l[|l| - 1];
      DeleteKeys(init, k);
      assert l == init + [last];
      KeysSnoc(init, last);
      var rest := Delete(init, k);
      if last.0 != k {
        KeysSnoc(rest, last);
        if Distinct(l) {
          assert Distinct(init);
          assert last.0 !in Keys(init) by {
            forall i | 0 <= i < |init| ensures Keys(init)[i] != last.0 {
              assert init[i] == l[i];
            }
          }
          assert last.0 !in Keys(rest);
          forall i, j | 0 <= i < j < |rest + [last]|
            ensures (rest + [last])[i].0 != (rest + [last])[j].0
          {
            if j == |rest| {
              assert Keys(rest)[i] == rest[i].0;
            }
          }
        }
      } else {
        assert Delete(l, k) == rest;
        if Distinct(l) {
          assert Distinct(init);
        }
      }
    }
  }

  /** `delete` removes the key from the dictionary and leaves every other key unchanged. */
  lemma DeleteSpec(l: seq<Entry>, k: string)
    requires Distinct(l)
    ensures Distinct(Delete(l, k))
    ensures ToMap(Delete(l, k)) == ToMap(l) - {k}
    ensures k !in ToMap(Delete(l, k))
  {
    DeleteKeys(l, k);
  }
}
