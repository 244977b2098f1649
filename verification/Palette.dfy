// The colour map threaded through all images of a collection: a JavaScript Map from colour names
// to indices, which remembers the order in which its keys were first set.
module Palette {

  datatype Colors = Colors(keys: seq<string>, index: map<string, nat>)

  function Put(c: Colors, key: string, value: nat): Colors {
    Colors(if key in c.index then c.keys else c.keys + [key], c.index[key := value])
  }

  // A colour seen for the first time gets the map's size as its index.
  function Insert(c: Colors, key: string): Colors {
    if key in c.index then c else Put(c, key, |c.index|)
  }

  function InsertAll(c: Colors, names: seq<string>): Colors {
    if names == [] then c else Insert(InsertAll(c, names[..|names| - 1]), names[|names| - 1])
  }

  // Each key once, in insertion order, with its position as its index.
  ghost predicate Ordered(c: Colors) {
    && |c.index| == |c.keys|
    && (forall i :: 0 <= i < |c.keys| ==> c.keys[i] in c.index && c.index[c.keys[i]] == i)
    && (forall k :: k in c.index ==> c.index[k] < |c.keys| && c.keys[c.index[k]] == k)
  }

  class ColorMap {
    var keys: seq<string>
    var index: map<string, nat>

    ghost function View(): Colors
      reads this
    {
      Colors(keys, index)
    }

    constructor ()
      ensures View() == Colors([], map[])
    {
      keys, index := [], map[];
    }

    method Set(key: string, value: nat)
      modifies this
      ensures View() == Put(old(View()), key, value)
    {
      if key !in index {
        keys := keys + [key];
      }
      index := index[key := value];
    }
  }

  // Nothing known to the palette changes its place or its index.
  ghost predicate Extends(c: Colors, d: Colors) {
    && c.keys <= d.keys
    && forall k :: k in c.index ==> k in d.index && d.index[k] == c.index[k]
  }

  lemma InsertOrdered(c: Colors, key: string)
    requires Ordered(c)
    ensures Ordered(Insert(c, key)) && Extends(c, Insert(c, key))
    ensures key in Insert(c, key).index
  {
  }

  // The palette only ever grows at its end, and indices already given never change.
  lemma {:induction false} InsertAllGrows(c: Colors, names: seq<string>)
    requires Ordered(c)
    ensures Ordered(InsertAll(c, names)) && Extends(c, InsertAll(c, names))
    ensures forall k <- names :: k in InsertAll(c, names).index
  {
    if names != [] {
      hide Insert, Ordered;
      var n := |names| - 1;
      InsertAllGrows(c, names[..n]);
      InsertOrdered(InsertAll(c, names[..n]), names[n]);
      forall k <- names
        ensures k in InsertAll(c, names).index
      {
        assert k in names[..n] || k == names[n];
      }
    }
  }

  lemma InsertAllSnoc(c: Colors, names: seq<string>, name: string)
    ensures InsertAll(c, names + [name]) == Insert(InsertAll(c, names), name)
  {
    assert (names + [name])[..|names|] == names;
  }

  lemma {:induction false} InsertAllConcat(c: Colors, a: seq<string>, b: seq<string>)
    ensures InsertAll(c, a + b) == InsertAll(InsertAll(c, a), b)
  {
    if b == [] {
      assert a + b == a;
    } else {
      var n := |b| - 1;
      assert a + b == (a + b[..n]) + [b[n]];
      InsertAllSnoc(c, a + b[..n], b[n]);
      InsertAllConcat(c, a, b[..n]);
    }
  }
}
