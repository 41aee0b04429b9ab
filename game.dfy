/**
  The lights-out game state: a `w` by `h` board stored row after row in a flat
  list of 0/1 cells, where pressing a cell flips it and its four orthogonal
  neighbours.
 */
module Game {
  import opened Wrappers

  /** The number of values `range(n)` produces. */
  function Count(n: int): nat
  {
    if n > 0 then n else 0
  }

  function Abs(n: int): nat
  {
    if n < 0 then -n else n
  }

  predicate InBounds(w: int, h: int, x: int, y: int)
  {
    0 <= x < w && 0 <= y < h
  }

  /** (x, y) is (x0, y0) itself or one of its four orthogonal neighbours. */
  predicate Near(x0: int, y0: int, x: int, y: int)
  {
    Abs(x - x0) + Abs(y - y0) <= 1
  }

  lemma {:induction false} MulAtLeast(w: nat, d: nat)
    requires d >= 1
    ensures w * d >= w
    decreases d
  {
    if d > 1 {
      MulAtLeast(w, d - 1);
      assert w * d == w * (d - 1) + w;
    }
  }

  /** Consecutive multiples of a positive `w` are at least `w` apart. */
  lemma MulGap(w: int, a: int, b: int)
    requires w > 0 && a < b
    ensures w * a + w <= w * b
  {
    var d := b - a;
    assert w * b == w * a + w * d;
    MulAtLeast(w, d);
  }

  /** The flat index `x + w*y` of an in-bounds cell lies in `[0, w*h)`. */
  lemma IndexBounds(w: int, h: int, x: int, y: int)
    requires InBounds(w, h, x, y)
    ensures 0 <= x + w * y < w * h
  {
    MulGap(w, y, h);
    MulAtLeast(w, y + 1);
  }

  /** Distinct in-bounds cells have distinct flat indices. */
  lemma IndexInjective(w: int, h: int, x1: int, y1: int, x2: int, y2: int)
    requires InBounds(w, h, x1, y1) && InBounds(w, h, x2, y2)
    requires x1 + w * y1 == x2 + w * y2
    ensures x1 == x2 && y1 == y2
  {
    if y1 < y2 {
      MulGap(w, y1, y2);
    } else if y2 < y1 {
      MulGap(w, y2, y1);
    }
  }

  /** The list of (x, y) as the generator yields it: its flat index if in bounds, nothing otherwise. */
  function Keep(w: int, h: int, x: int, y: int): seq<nat>
  {
    if InBounds(w, h, x, y) then IndexBounds(w, h, x, y); [x + w * y] else []
  }

  /** The offsets of the plus-shaped neighbourhood, in the order the generator visits them. */
  const Offsets: seq<(int, int)> := [(0, 0), (-1, 0), (0, -1), (1, 0), (0, 1)]

  /** The generator body run over a list of offsets from (x0, y0). */
  function AdjsFrom(w: int, h: int, x0: int, y0: int, offsets: seq<(int, int)>): seq<nat>
    decreases |offsets|
  {
    if offsets == [] then []
    else Keep(w, h, x0 + offsets[0].0, y0 + offsets[0].1) + AdjsFrom(w, h, x0, y0, offsets[1..])
  }

  /** The flat indices of the in-bounds cells of the plus centred on (x0, y0). */
  function Adjs0(w: int, h: int, x0: int, y0: int): seq<nat>
  {
    AdjsFrom(w, h, x0, y0, Offsets)
  }

  /** The cached list of `Adjs0`; the cache does not change what is returned. */
  function Adjs(w: int, h: int, x0: int, y0: int): seq<nat>
  {
    Adjs0(w, h, x0, y0)
  }

  predicate Distinct(s: seq<nat>)
  {
    forall i, k :: 0 <= i < k < |s| ==> s[i] != s[k]
  }

  lemma {:induction false} AdjsFromLength(w: int, h: int, x0: int, y0: int, offsets: seq<(int, int)>)
    ensures |AdjsFrom(w, h, x0, y0, offsets)| <= |offsets|
  {
    if offsets != [] {
      AdjsFromLength(w, h, x0, y0, offsets[1..]);
    }
  }

  /** The index of an in-bounds cell at one of the offsets is yielded. */
  lemma {:induction false} AdjsFromHas(w: int, h: int, x0: int, y0: int, offsets: seq<(int, int)>, i: nat, x: int, y: int)
    requires i < |offsets| && x == x0 + offsets[i].0 && y == y0 + offsets[i].1
    requires InBounds(w, h, x, y)
    ensures x + w * y in AdjsFrom(w, h, x0, y0, offsets)
  {
    if i > 0 {
      AdjsFromHas(w, h, x0, y0, offsets[1..], i - 1, x, y);
    }
  }

  /** Every index yielded is that of an in-bounds cell at one of the offsets. */
  lemma {:induction false} AdjsFromOnly(w: int, h: int, x0: int, y0: int, offsets: seq<(int, int)>, j: int)
    requires j in AdjsFrom(w, h, x0, y0, offsets)
    ensures exists i :: 0 <= i < |offsets| && j in Keep(w, h, x0 + offsets[i].0, y0 + offsets[i].1)
  {
    if j !in Keep(w, h, x0 + offsets[0].0, y0 + offsets[0].1) {
      var rest := offsets[1..];
      AdjsFromOnly(w, h, x0, y0, rest, j);
      var i :| 0 <= i < |rest| && j in Keep(w, h, x0 + rest[i].0, y0 + rest[i].1);
      assert rest[i] == offsets[i + 1];
    }
  }

  lemma {:induction false} AdjsFromDistinct(w: int, h: int, x0: int, y0: int, offsets: seq<(int, int)>)
    requires forall i, k :: 0 <= i < k < |offsets| ==> offsets[i] != offsets[k]
    ensures Distinct(AdjsFrom(w, h, x0, y0, offsets))
  {
    if offsets != [] {
      var rest := offsets[1..];
      AdjsFromDistinct(w, h, x0, y0, rest);
      var x, y := x0 + offsets[0].0, y0 + offsets[0].1;
      if InBounds(w, h, x, y) && x + w * y in AdjsFrom(w, h, x0, y0, rest) {
        AdjsFromOnly(w, h, x0, y0, rest, x + w * y);
        var i :| 0 <= i < |rest| && x + w * y in Keep(w, h, x0 + rest[i].0, y0 + rest[i].1);
        IndexInjective(w, h, x, y, x0 + rest[i].0, y0 + rest[i].1);
        assert false;
      }
    }
  }

  lemma {:induction false} AdjsFromBounds(w: int, h: int, x0: int, y0: int, offsets: seq<(int, int)>)
    ensures forall i :: 0 <= i < |AdjsFrom(w, h, x0, y0, offsets)| ==> AdjsFrom(w, h, x0, y0, offsets)[i] < w * h
  {
    if offsets != [] {
      var x, y := x0 + offsets[0].0, y0 + offsets[0].1;
      if InBounds(w, h, x, y) {
        IndexBounds(w, h, x, y);
      }
      AdjsFromBounds(w, h, x0, y0, offsets[1..]);
    }
  }

  /** `Adjs0` yields at most five indices, all distinct, all in `[0, w*h)`. */
  lemma Adjs0Shape(w: int, h: int, x0: int, y0: int)
    ensures |Adjs0(w, h, x0, y0)| <= 5
    ensures Distinct(Adjs0(w, h, x0, y0))
    ensures forall i :: 0 <= i < |Adjs0(w, h, x0, y0)| ==> Adjs0(w, h, x0, y0)[i] < w * h
  {
    AdjsFromLength(w, h, x0, y0, Offsets);
    AdjsFromDistinct(w, h, x0, y0, Offsets);
    AdjsFromBounds(w, h, x0, y0, Offsets);
  }

  /** The offsets are exactly the displacements of Manhattan length at most one. */
  lemma OffsetsAreNear(dx: int, dy: int)
    ensures (dx, dy) in Offsets <==> Abs(dx) + Abs(dy) <= 1
  {
    if Abs(dx) + Abs(dy) <= 1 {
      if dx == 0 && dy == 0 {
        assert (dx, dy) == Offsets[0];
      } else if dx == -1 {
        assert (dx, dy) == Offsets[1];
      } else if dy == -1 {
        assert (dx, dy) == Offsets[2];
      } else if dx == 1 {
        assert (dx, dy) == Offsets[3];
      } else {
        assert (dx, dy) == Offsets[4];
      }
    }
  }

  /** Every in-bounds cell at distance at most one from (x0, y0) has its index yielded. */
  lemma Adjs0HasNear(w: int, h: int, x0: int, y0: int, x: int, y: int)
    requires InBounds(w, h, x, y) && Near(x0, y0, x, y)
    ensures x + w * y in Adjs0(w, h, x0, y0)
  {
    OffsetsAreNear(x - x0, y - y0);
    var i :| 0 <= i < |Offsets| && Offsets[i] == (x - x0, y - y0);
    AdjsFromHas(w, h, x0, y0, Offsets, i, x, y);
  }

  /** Every index yielded is that of an in-bounds cell at distance at most one from (x0, y0). */
  lemma Adjs0OnlyNear(w: int, h: int, x0: int, y0: int, j: int)
    requires j in Adjs0(w, h, x0, y0)
    ensures exists x, y :: InBounds(w, h, x, y) && Near(x0, y0, x, y) && j == x + w * y
  {
    AdjsFromOnly(w, h, x0, y0, Offsets, j);
    var i :| 0 <= i < |Offsets| && j in Keep(w, h, x0 + Offsets[i].0, y0 + Offsets[i].1);
    OffsetsAreNear(Offsets[i].0, Offsets[i].1);
    assert Near(x0, y0, x0 + Offsets[i].0, y0 + Offsets[i].1);
  }

  /** `Adjs0` yields exactly the indices of the in-bounds cells at distance at most one from (x0, y0). */
  lemma Adjs0Cells(w: int, h: int, x0: int, y0: int, j: int)
    ensures j in Adjs0(w, h, x0, y0) <==>
      exists x, y :: InBounds(w, h, x, y) && Near(x0, y0, x, y) && j == x + w * y
  {
    if exists x, y :: InBounds(w, h, x, y) && Near(x0, y0, x, y) && j == x + w * y {
      var x, y :| InBounds(w, h, x, y) && Near(x0, y0, x, y) && j == x + w * y;
      Adjs0HasNear(w, h, x0, y0, x, y);
    }
    if j in Adjs0(w, h, x0, y0) {
      Adjs0OnlyNear(w, h, x0, y0, j);
    }
  }

  /** One step of the generator: the offset `d`, landing on (x, y), before the offsets `rest`. */
  lemma AdjsFromCons(w: int, h: int, x0: int, y0: int, d: (int, int), rest: seq<(int, int)>, x: int, y: int)
    requires x == x0 + d.0 && y == y0 + d.1
    ensures AdjsFrom(w, h, x0, y0, [d] + rest) == Keep(w, h, x, y) + AdjsFrom(w, h, x0, y0, rest)
  {
    assert ([d] + rest)[1..] == rest;
  }

  /** `Adjs0` visits the cells in the order self, left, up, right, down. */
  lemma Adjs0Order(w: int, h: int, x0: int, y0: int)
    ensures Adjs0(w, h, x0, y0) ==
      Keep(w, h, x0, y0) + (Keep(w, h, x0 - 1, y0) + (Keep(w, h, x0, y0 - 1)
      + (Keep(w, h, x0 + 1, y0) + Keep(w, h, x0, y0 + 1))))
  {
    var down: seq<(int, int)> := [(0, 1)] + [];
    var right := [(1, 0)] + down;
    var up := [(0, -1)] + right;
    var left := [(-1, 0)] + up;
    assert Offsets == [(0, 0)] + left;
    AdjsFromCons(w, h, x0, y0, (0, 1), [], x0, y0 + 1);
    assert Keep(w, h, x0, y0 + 1) + [] == Keep(w, h, x0, y0 + 1);
    AdjsFromCons(w, h, x0, y0, (1, 0), down, x0 + 1, y0);
    AdjsFromCons(w, h, x0, y0, (0, -1), right, x0, y0 - 1);
    AdjsFromCons(w, h, x0, y0, (-1, 0), up, x0 - 1, y0);
    AdjsFromCons(w, h, x0, y0, (0, 0), left, x0, y0);
  }

  /** An in-bounds (x0, y0) comes first, as its own index. */
  lemma Adjs0SelfFirst(w: int, h: int, x0: int, y0: int)
    requires InBounds(w, h, x0, y0)
    ensures |Adjs0(w, h, x0, y0)| > 0 && Adjs0(w, h, x0, y0)[0] == x0 + w * y0
  {
    Adjs0Order(w, h, x0, y0);
  }

  /** A pattern after the flips of a toggle; `ok` is false when an index raised IndexError. */
  datatype Flipped = Flipped(pattern: seq<int>, ok: bool)

  /**
    `p[j] := 1 - p[j]` for each `j` of `js` in turn, stopping at the first
    index outside `p` with the earlier flips kept.
   */
  function FlipAll(p: seq<int>, js: seq<nat>): Flipped
    decreases |js|
  {
    if js == [] then Flipped(p, true)
    else if js[0] >= |p| then Flipped(p, false)
    else FlipAll(p[js[0] := 1 - p[js[0]]], js[1..])
  }

  /** One step of `FlipAll` from position `i` of the index list. */
  lemma FlipAllStep(p: seq<int>, js: seq<nat>, i: nat)
    requires i < |js|
    ensures js[i] >= |p| ==> FlipAll(p, js[i..]) == Flipped(p, false)
    ensures js[i] < |p| ==> FlipAll(p, js[i..]) == FlipAll(p[js[i] := 1 - p[js[i]]], js[i + 1..])
  {
    var rest := js[i..];
    assert rest != [] && rest[0] == js[i] && rest[1..] == js[i + 1..];
  }

  /** Reference definition: every cell listed in `js` flipped, every other cell kept. */
  function Toggled(p: seq<int>, js: seq<nat>): seq<int>
  {
    seq(|p|, k requires 0 <= k < |p| => if k in js then 1 - p[k] else p[k])
  }

  predicate Binary(p: seq<int>)
  {
    forall k :: 0 <= k < |p| ==> p[k] == 0 || p[k] == 1
  }

  /** Flipping keeps the length and the 0/1 values, and fails exactly when an index is outside the pattern. */
  lemma {:induction false} FlipAllShape(p: seq<int>, js: seq<nat>)
    decreases |js|
    ensures |FlipAll(p, js).pattern| == |p|
    ensures Binary(p) ==> Binary(FlipAll(p, js).pattern)
    ensures FlipAll(p, js).ok <==> forall i :: 0 <= i < |js| ==> js[i] < |p|
  {
    if js != [] && js[0] < |p| {
      FlipAllShape(p[js[0] := 1 - p[js[0]]], js[1..]);
      assert forall i :: 0 < i < |js| ==> js[i] == js[1..][i - 1];
    }
  }

  /** With distinct in-range indices, flipping one after another is the reference toggle. */
  lemma {:induction false} FlipAllIsToggled(p: seq<int>, js: seq<nat>)
    requires forall i :: 0 <= i < |js| ==> js[i] < |p|
    requires Distinct(js)
    ensures FlipAll(p, js) == Flipped(Toggled(p, js), true)
    decreases |js|
  {
    if js == [] {
      assert Toggled(p, js) == p;
    } else {
      var j := js[0];
      var q := p[j := 1 - p[j]];
      assert Distinct(js[1..]) by {
        forall i, k | 0 <= i < k < |js[1..]| ensures js[1..][i] != js[1..][k] {
          assert js[1..][i] == js[i + 1] && js[1..][k] == js[k + 1];
        }
      }
      FlipAllIsToggled(q, js[1..]);
      assert j !in js[1..] by {
        forall i | 0 <= i < |js[1..]| ensures js[1..][i] != j {
          assert js[1..][i] == js[i + 1];
        }
      }
      forall k | 0 <= k < |p| ensures Toggled(q, js[1..])[k] == Toggled(p, js)[k] {
        assert k in js <==> k == j || k in js[1..];
      }
    }
  }

  /** Toggling the same cells twice restores the pattern. */
  lemma ToggledTwice(p: seq<int>, js: seq<nat>)
    ensures Toggled(Toggled(p, js), js) == p
  {
  }

  /** Toggles of two lists of cells commute. */
  lemma ToggledCommute(p: seq<int>, a: seq<nat>, b: seq<nat>)
    ensures Toggled(Toggled(p, a), b) == Toggled(Toggled(p, b), a)
  {
  }

  /** The pattern after pressing (x, y) on a `w` by `h` board. */
  function ToggleAt(p: seq<int>, w: int, h: int, x: int, y: int): seq<int>
  {
    FlipAll(p, Adjs(w, h, x, y)).pattern
  }

  /**
    On a pattern of at least `w*h` cells, pressing (x0, y0) succeeds, flips exactly the
    cells that `Adjs` lists and keeps every other cell, the length and the 0/1 values.
   */
  lemma ToggleEffect(p: seq<int>, w: int, h: int, x0: int, y0: int)
    requires |p| >= w * h
    ensures FlipAll(p, Adjs(w, h, x0, y0)).ok
    ensures ToggleAt(p, w, h, x0, y0) == Toggled(p, Adjs(w, h, x0, y0))
    ensures |ToggleAt(p, w, h, x0, y0)| == |p|
    ensures forall k :: 0 <= k < |p| ==>
      ToggleAt(p, w, h, x0, y0)[k] == if k in Adjs(w, h, x0, y0) then 1 - p[k] else p[k]
    ensures Binary(p) ==> Binary(ToggleAt(p, w, h, x0, y0))
  {
    Adjs0Shape(w, h, x0, y0);
    FlipAllIsToggled(p, Adjs(w, h, x0, y0));
    FlipAllShape(p, Adjs(w, h, x0, y0));
  }

  /** Pressing the same cell twice restores the pattern. */
  lemma ToggleTwice(p: seq<int>, w: int, h: int, x0: int, y0: int)
    requires |p| >= w * h
    ensures ToggleAt(ToggleAt(p, w, h, x0, y0), w, h, x0, y0) == p
  {
    ToggleEffect(p, w, h, x0, y0);
    ToggleEffect(ToggleAt(p, w, h, x0, y0), w, h, x0, y0);
    ToggledTwice(p, Adjs(w, h, x0, y0));
  }

  /** Presses of any two cells commute. */
  lemma ToggleCommutes(p: seq<int>, w: int, h: int, xa: int, ya: int, xb: int, yb: int)
    requires |p| >= w * h
    ensures ToggleAt(ToggleAt(p, w, h, xa, ya), w, h, xb, yb) == ToggleAt(ToggleAt(p, w, h, xb, yb), w, h, xa, ya)
  {
    ToggleEffect(p, w, h, xa, ya);
    ToggleEffect(p, w, h, xb, yb);
    ToggleEffect(ToggleAt(p, w, h, xa, ya), w, h, xb, yb);
    ToggleEffect(ToggleAt(p, w, h, xb, yb), w, h, xa, ya);
    ToggledCommute(p, Adjs(w, h, xa, ya), Adjs(w, h, xb, yb));
  }

  /** Python's `any` over a list of cells: some cell is non-zero. */
  function Any(s: seq<int>): bool
  {
    s != [] && (s[0] != 0 || Any(s[1..]))
  }

  predicate Won(p: seq<int>)
  {
    !Any(p)
  }

  lemma {:induction false} WonIff(p: seq<int>)
    ensures Won(p) <==> forall k :: 0 <= k < |p| ==> p[k] == 0
  {
    if p != [] {
      WonIff(p[1..]);
      assert forall k :: 0 < k < |p| ==> p[k] == p[1..][k - 1];
    }
  }

  /** The board `__init__` builds when no pattern is given: `w*h` ones. */
  function Default(w: int, h: int): seq<int>
  {
    seq(Count(w * h), _ => 1)
  }

  /** A fresh default board of at least one cell is not won. */
  lemma DefaultNotWon(w: int, h: int)
    requires w * h > 0
    ensures |Default(w, h)| == w * h
    ensures Binary(Default(w, h))
    ensures !Won(Default(w, h))
  {
    WonIff(Default(w, h));
    assert Default(w, h)[0] == 1;
  }

  /** For cell (x, y) of a `wc` by `hc` loop nest, the draw index `x*hc + y` lies below `wc*hc`. */
  lemma CoinIndexBound(wc: nat, hc: nat, x: nat, y: nat)
    requires x < wc && y < hc
    ensures x * hc + y < wc * hc
  {
    MulGap(hc, x, wc);
    assert x * hc == hc * x && wc * hc == hc * wc;
  }

  /** The pattern after the inner loop of `randomstate` has run for cells `(x, 0) .. (x, y-1)`. */
  function Row(p: seq<int>, w: int, h: int, coins: seq<bool>, x: nat, y: nat): seq<int>
    requires x < Count(w) && y <= Count(h) && |coins| == Count(w) * Count(h)
    decreases y
  {
    if y == 0 then p
    else
      CoinIndexBound(Count(w), Count(h), x, y - 1);
      var q := Row(p, w, h, coins, x, y - 1);
      if coins[x * Count(h) + y - 1] then ToggleAt(q, w, h, x, y - 1) else q
  }

  /** The pattern after the outer loop of `randomstate` has run for rows `0 .. x-1`. */
  function Rows(p: seq<int>, w: int, h: int, coins: seq<bool>, x: nat): seq<int>
    requires x <= Count(w) && |coins| == Count(w) * Count(h)
  {
    if x == 0 then p else Row(Rows(p, w, h, coins, x - 1), w, h, coins, x - 1, Count(h))
  }

  lemma {:induction false} RowShape(p: seq<int>, w: int, h: int, coins: seq<bool>, x: nat, y: nat)
    requires x < Count(w) && y <= Count(h) && |coins| == Count(w) * Count(h)
    ensures |Row(p, w, h, coins, x, y)| == |p|
    ensures Binary(p) ==> Binary(Row(p, w, h, coins, x, y))
  {
    if y > 0 {
      RowShape(p, w, h, coins, x, y - 1);
      FlipAllShape(Row(p, w, h, coins, x, y - 1), Adjs(w, h, x, y - 1));
    }
  }

  lemma {:induction false} RowsShape(p: seq<int>, w: int, h: int, coins: seq<bool>, x: nat)
    requires x <= Count(w) && |coins| == Count(w) * Count(h)
    ensures |Rows(p, w, h, coins, x)| == |p|
    ensures Binary(p) ==> Binary(Rows(p, w, h, coins, x))
  {
    if x > 0 {
      RowsShape(p, w, h, coins, x - 1);
      RowShape(Rows(p, w, h, coins, x - 1), w, h, coins, x - 1, Count(h));
    }
  }

  /** A random board has the default board's size and only 0/1 cells. */
  lemma RandomBoardShape(w: int, h: int, coins: seq<bool>)
    requires |coins| == Count(w) * Count(h)
    ensures |Rows(Default(w, h), w, h, coins, Count(w))| == Count(w * h)
    ensures Binary(Rows(Default(w, h), w, h, coins, Count(w)))
  {
    RowsShape(Default(w, h), w, h, coins, Count(w));
  }

  /** The plain record `toobj` produces and `fromobj` reads; `pattern` is the same list object. */
  datatype Obj = Obj(w: int, h: int, pattern: Option<array<int>>)

  class Gamestate {
    const w: int
    const h: int
    const pattern: array<int>

    /** `__init__`: the given pattern is kept (not copied); without one the board is all ones. */
    constructor (w: int, h: int, pattern: Option<array<int>>)
      ensures this.w == w && this.h == h
      ensures pattern.Some? ==> this.pattern == pattern.value
      ensures pattern.None? ==> fresh(this.pattern) && this.pattern[..] == Default(w, h)
    {
      this.w := w;
      this.h := h;
      if pattern.Some? {
        this.pattern := pattern.value;
      } else {
        var cells := new int[Count(w * h)](_ => 1);
        assert cells[..] == Default(w, h);
        this.pattern := cells;
      }
    }

    /** The board is won exactly when every cell is 0. */
    function IsWin(): (r: bool)
      reads pattern
      ensures r <==> forall k :: 0 <= k < pattern.Length ==> pattern[k] == 0
    {
      WonIff(pattern[..]);
      Won(pattern[..])
    }

    /** The loop of `toggle`: flip each listed cell in turn; `ok` is false when an index raised IndexError. */
    method FlipCells(js: seq<nat>) returns (ok: bool)
      modifies pattern
      ensures FlipAll(old(pattern[..]), js) == Flipped(pattern[..], ok)
    {
      var i := 0;
      while i < |js|
        invariant 0 <= i <= |js|
        invariant FlipAll(pattern[..], js[i..]) == FlipAll(old(pattern[..]), js)
      {
        var j := js[i];
        FlipAllStep(pattern[..], js, i);
        if j >= pattern.Length {
          return false;
        }
        pattern[j] := 1 - pattern[j];
        i := i + 1;
      }
      assert js[|js|..] == [];
      return true;
    }

    /** Press (x0, y0): flip each cell `Adjs` lists; on a board of `w*h` cells or more this never raises. */
    method Toggle(x0: int, y0: int) returns (ok: bool)
      modifies pattern
      ensures FlipAll(old(pattern[..]), Adjs(w, h, x0, y0)) == Flipped(pattern[..], ok)
      ensures pattern.Length >= w * h ==> ok
    {
      if pattern.Length >= w * h {
        ToggleEffect(pattern[..], w, h, x0, y0);
      }
      ok := FlipCells(Adjs(w, h, x0, y0));
    }

    function ToObj(): Obj
    {
      Obj(w, h, Some(pattern))
    }

    /** `fromobj`: a state built from the record's fields, sharing its pattern. */
    static method FromObj(o: Obj) returns (s: Gamestate)
      ensures s.w == o.w && s.h == o.h
      ensures o.pattern.Some? ==> s.pattern == o.pattern.value
      ensures o.pattern.None? ==> fresh(s.pattern) && s.pattern[..] == Default(o.w, o.h)
    {
      s := new Gamestate(o.w, o.h, o.pattern);
    }

    /**
      `randomstate`, with `coins[x*Count(h) + y]` standing for the draw
      `random.random() < 0.5` made for cell (x, y).
     */
    static method RandomState(w: int, h: int, coins: seq<bool>) returns (s: Gamestate)
      requires |coins| == Count(w) * Count(h)
      ensures s.w == w && s.h == h && fresh(s.pattern)
      ensures s.pattern[..] == Rows(Default(w, h), w, h, coins, Count(w))
    {
      s := new Gamestate(w, h, None);
      var x: nat := 0;
      while x < w
        invariant x <= Count(w)
        invariant s.w == w && s.h == h && fresh(s.pattern)
        invariant s.pattern.Length == Count(w * h)
        invariant s.pattern[..] == Rows(Default(w, h), w, h, coins, x)
      {
        var y: nat := 0;
        while y < h
          invariant y <= Count(h)
          invariant s.pattern[..] == Row(Rows(Default(w, h), w, h, coins, x), w, h, coins, x, y)
        {
          CoinIndexBound(Count(w), Count(h), x, y);
          if coins[x * Count(h) + y] {
            var ok := s.Toggle(x, y);
            assert ok;
          }
          y := y + 1;
        }
        x := x + 1;
      }
    }
  }

  /** `fromobj(toobj(s))` has the same width, height and pattern as `s`. */
  method FromObjOfToObj(s: Gamestate) returns (t: Gamestate)
    ensures t.w == s.w && t.h == s.h && t.pattern == s.pattern
  {
    t := Gamestate.FromObj(s.ToObj());
  }
}
