/**
 Axial hex coordinates and adjacency. A cell (x, y) has six neighbours,
 reached by the unit steps (1,0), (-1,0), (0,1), (0,-1), (1,-1) and (-1,1).
 The engine only ever asks two things of coordinates: whether two are
 adjacent, and how many keys of the board are adjacent to a given one.
 */
module Hex {

  datatype Coord = Coord(x: int, y: int)

  const Origin := Coord(0, 0)

  /** `a.isAdjacentTo(b)`: b - a is one of the six unit hex steps. */
  predicate IsAdjacentTo(a: Coord, b: Coord) {
    var dx, dy := b.x - a.x, b.y - a.y;
    || (dx == 1 && dy == 0)
    || (dx == -1 && dy == 0)
    || (dx == 0 && dy == 1)
    || (dx == 0 && dy == -1)
    || (dx == 1 && dy == -1)
    || (dx == -1 && dy == 1)
  }

  /** The six cells around c. */
  function Neighbours(c: Coord): (n: set<Coord>)
    ensures forall d :: d in n <==> IsAdjacentTo(c, d)
  {
    { Coord(c.x + 1, c.y), Coord(c.x - 1, c.y),
      Coord(c.x, c.y + 1), Coord(c.x, c.y - 1),
      Coord(c.x + 1, c.y - 1), Coord(c.x - 1, c.y + 1) }
  }

  lemma NeighbourCount(c: Coord)
    ensures |Neighbours(c)| == 6
  {
    var a, b := Coord(c.x + 1, c.y), Coord(c.x - 1, c.y);
    var d, e := Coord(c.x, c.y + 1), Coord(c.x, c.y - 1);
    var f, g := Coord(c.x + 1, c.y - 1), Coord(c.x - 1, c.y + 1);
    var s2 := {a} + {b};
    assert |s2| == 2;
    var s3 := s2 + {d};
    assert d !in s2;
    var s4 := s3 + {e};
    assert e !in s3;
    var s5 := s4 + {f};
    assert f !in s4;
    var s6 := s5 + {g};
    assert g !in s5;
    assert |s6| == 6;
    assert Neighbours(c) == s6;
  }

  /** The keys among `keys` that are adjacent to c: what the engine counts
      when it walks the board looking at one butterfly. */
  function AdjacentKeys(keys: set<Coord>, c: Coord): (a: set<Coord>)
    ensures a <= keys && a <= Neighbours(c)
  {
    set h | h in keys && IsAdjacentTo(c, h)
  }

  /** Adding one key to the keys walked so far adds one to the count
      exactly when that key is new and adjacent to c. */
  lemma AdjacentKeysAdd(keys: set<Coord>, h: Coord, c: Coord)
    ensures |AdjacentKeys(keys + {h}, c)| ==
      |AdjacentKeys(keys, c)| + (if h !in keys && IsAdjacentTo(c, h) then 1 else 0)
  {
    if h !in keys && IsAdjacentTo(c, h) {
      assert AdjacentKeys(keys + {h}, c) == AdjacentKeys(keys, c) + {h};
    } else {
      assert AdjacentKeys(keys + {h}, c) == AdjacentKeys(keys, c);
    }
  }

  /** Counting adjacent keys can never exceed six, and reaches six exactly
      when every neighbour of c is among the keys. */
  lemma AdjacentCount(keys: set<Coord>, c: Coord)
    ensures |AdjacentKeys(keys, c)| <= 6
    ensures |AdjacentKeys(keys, c)| == 6 <==> Neighbours(c) <= keys
  {
    var a, n := AdjacentKeys(keys, c), Neighbours(c);
    NeighbourCount(c);
    assert n == a + (n - a);
    assert |n| == |a| + |n - a|;
    if |a| == 6 {
      assert |n - a| == 0;
      assert n - a == {};
      forall d | d in n ensures d in keys {
        assert d in a;
      }
    }
    if n <= keys {
      assert n <= a;
      assert n - a == {};
    }
  }
}
