/**
 * The closure loop of `parseWordNet` (scripts/generate-hot-and-cold-data.ts): it
 * adds the reverse of every relation to the map and the sets it is iterating.
 * JavaScript visits entries added during the iteration, so a Map is its keys in
 * insertion order with a list of distinct neighbours for each.
 */
module SynsetClosure {
  import opened RankTable

  type Id = string

  class Relation {
    var keys: seq<Id>
    var neighbours: map<Id, seq<Id>>

    ghost predicate Valid()
      reads this
    {
      && Distinct(keys)
      && (forall k :: k in keys <==> k in neighbours)
      && forall k <- neighbours :: Distinct(neighbours[k])
    }

    ghost predicate Has(a: Id, b: Id)
      reads this
    {
      a in neighbours && b in neighbours[a]
    }

    ghost predicate Mentions(x: Id)
      reads this
    {
      x in neighbours || exists k :: Has(k, x)
    }

    /** Every id the relation mentions. */
    ghost function Ids(): (ids: set<Id>)
      reads this
      ensures forall x :: x in ids <==> Mentions(x)
    {
      var ids := (set k | k in neighbours) + (set k, b | k in neighbours && b in neighbours[k] :: b);
      assert forall x :: x in ids <==> Mentions(x) by {
        forall x
          ensures x in ids <==> Mentions(x)
        {
          if x in ids && x !in neighbours {
            var k :| k in neighbours && x in neighbours[k];
            assert Has(k, x);
          }
          if Mentions(x) && x !in neighbours {
            var k :| Has(k, x);
          }
        }
      }
      ids
    }

    constructor (keys: seq<Id>, neighbours: map<Id, seq<Id>>)
      requires Distinct(keys) && (forall k :: k in keys <==> k in neighbours)
      requires forall k <- neighbours :: Distinct(neighbours[k])
      ensures Valid() && this.keys == keys && this.neighbours == neighbours
    {
      this.keys, this.neighbours := keys, neighbours;
    }

    /** Adds `b` to the neighbours of `a`, with a new entry for `a` if it has none. */
    method Add(a: Id, b: Id)
      requires Valid()
      modifies this
      ensures Valid()
      ensures forall x, y :: Has(x, y) <==> old(Has(x, y)) || (x == a && y == b)
      ensures old(keys) <= keys && a in neighbours
      ensures forall k <- old(neighbours) :: k in neighbours && (k != a ==> neighbours[k] == old(neighbours)[k])
      ensures old(Has(a, b)) ==> neighbours == old(neighbours)
      ensures old(Mentions(a)) && old(Mentions(b)) ==> forall x :: Mentions(x) <==> old(Mentions(x))
    {
      var reverse := if a in neighbours then neighbours[a] else [];
      if b !in reverse {
        reverse := reverse + [b];
      }
      if a !in neighbours {
        keys := keys + [a];
      }
      neighbours := neighbours[a := reverse];
    }

    /** The inner loop: `synset` becomes a neighbour of each of its neighbours, and nothing else changes. */
    method AddReverses(synset: Id)
      requires Valid() && synset in neighbours
      modifies this
      ensures Valid()
      ensures forall x, y :: Has(x, y) <==> old(Has(x, y)) || (y == synset && old(Has(synset, x)))
      ensures old(keys) <= keys
      ensures forall x :: Mentions(x) <==> old(Mentions(x))
    {
      var j := 0;
      while j < |neighbours[synset]|
        invariant Valid() && old(keys) <= keys
        invariant synset in neighbours && neighbours[synset] == old(neighbours)[synset]
        invariant 0 <= j <= |neighbours[synset]|
        invariant forall x, y :: Has(x, y) <==> old(Has(x, y)) || (y == synset && x in neighbours[synset][..j])
        invariant forall x :: Mentions(x) <==> old(Mentions(x))
      {
        var neighbour := neighbours[synset][j];
        assert Has(synset, neighbour);
        assert neighbours[synset][..j + 1] == neighbours[synset][..j] + [neighbour];
        Add(neighbour, synset);
        j := j + 1;
      }
      assert neighbours[synset][..j] == neighbours[synset];
    }

    /** The loop terminates and leaves exactly the relation and its inverse. */
    method Close()
      requires Valid()
      modifies this
      ensures Valid()
      ensures forall a, b :: Has(a, b) <==> old(Has(a, b)) || old(Has(b, a))
      ensures old(keys) <= keys
    {
      ghost var ids := Ids();
      KeysWithin(ids);
      var i := 0;
      while i < |keys|
        invariant Valid() && old(keys) <= keys
        invariant 0 <= i <= |keys| <= |ids|
        invariant forall x :: Mentions(x) ==> x in ids
        invariant forall a, b :: Has(a, b) ==> old(Has(a, b)) || old(Has(b, a))
        invariant forall a, b :: old(Has(a, b)) ==> Has(a, b)
        invariant forall a, b :: a in keys[..i] && old(Has(a, b)) ==> Has(b, a)
        decreases |ids| - i
      {
        assert keys[i] in keys;
        ghost var visited := keys[..i + 1];
        AddReverses(keys[i]);
        KeysWithin(ids);
        i := i + 1;
        assert keys[..i] == visited;
      }
      assert keys[..i] == keys;
    }

    lemma KeysWithin(ids: set<Id>)
      requires Valid() && forall x :: Mentions(x) ==> x in ids
      ensures |keys| <= |ids|
    {
      var members := set k | k in keys;
      DistinctSize(keys);
      assert forall k <- keys :: Mentions(k);
      assert members <= ids && ids == members + (ids - members);
    }
  }
}
