/**
 What the atlas warning misses, and what it does not: arrangements that fit, built from the figures the warning is
 computed from, and exact conditions where there are some.
 */
module AtlasPacking {
  import opened AtlasBudget

  /******* Rectangles apart *******/

  predicate Apart(p: Position, a: Size, q: Position, b: Size) {
    p.x + a.width <= q.x || q.x + b.width <= p.x || p.y + a.height <= q.y || q.y + b.height <= p.y
  }

  predicate Inside(p: Position, s: Size, side: nat) { p.x + s.width <= side && p.y + s.height <= side }

  lemma ApartIsDisjoint(p: Position, a: Size, q: Position, b: Size)
    requires Apart(p, a, q, b)
    ensures Cells(p, a) !! Cells(q, b)
  {
  }

  lemma ApartFits(sizes: seq<Size>, at: seq<Position>, side: nat)
    requires |at| == |sizes| && forall i | 0 <= i < |sizes| :: Inside(at[i], sizes[i], side)
    requires forall i, j | 0 <= i < j < |sizes| :: Apart(at[i], sizes[i], at[j], sizes[j])
    ensures Fits(sizes, at, side) && CanFit(sizes, side)
  {
    forall i, j | 0 <= i < j < |sizes| ensures Cells(at[i], sizes[i]) !! Cells(at[j], sizes[j]) {
      ApartIsDisjoint(at[i], sizes[i], at[j], sizes[j]);
    }
  }

  lemma ProductGrows(a: nat, b: nat, c: nat)
    requires a <= b
    ensures a * c <= b * c && c * a <= c * b
  {
  }

  /******* A grid *******/

  predicate AtMost(sizes: seq<Size>, s: Size) {
    forall i | 0 <= i < |sizes| :: sizes[i].width <= s.width && sizes[i].height <= s.height
  }

  function GridPlace(i: nat, columns: nat, s: Size): Position
    requires columns > 0
  {
    Position((i % columns) * s.width, (i / columns) * s.height)
  }

  lemma SpansApart(a: nat, b: nat, width: nat)
    requires a < b
    ensures a * width + width <= b * width
  {
    ProductGrows(a + 1, b, width);
    assert (a + 1) * width == a * width + width;
  }

  lemma GridInside(i: nat, columns: nat, rows: nat, s: Size, side: nat)
    requires columns > 0 && i < columns * rows && columns * s.width <= side && rows * s.height <= side
    ensures Inside(GridPlace(i, columns, s), s, side)
  {
    RowBelow(i, columns, rows);
    SpansApart(i % columns, columns, s.width);
    SpansApart(i / columns, rows, s.height);
  }

  lemma RowBelow(i: nat, columns: nat, rows: nat)
    requires columns > 0 && i < columns * rows
    ensures i / columns < rows
  {
    assert i == columns * (i / columns) + i % columns;
    if i / columns >= rows {
      ProductGrows(rows, i / columns, columns);
    }
  }

  lemma GridApart(i: nat, j: nat, columns: nat, s: Size)
    requires columns > 0 && i < j
    ensures Apart(GridPlace(i, columns, s), s, GridPlace(j, columns, s), s)
  {
    Euclid(i, columns);
    Euclid(j, columns);
    PlacesApart(i % columns, i / columns, j % columns, j / columns, s);
  }

  lemma Euclid(i: nat, columns: nat)
    requires columns > 0
    ensures i == columns * (i / columns) + i % columns
  {
  }

  /** Two places of a grid do not overlap. */
  lemma PlacesApart(column: nat, row: nat, column': nat, row': nat, s: Size)
    requires column != column' || row != row'
    ensures Apart(Position(column * s.width, row * s.height), s, Position(column' * s.width, row' * s.height), s)
  {
    if row < row' {
      SpansApart(row, row', s.height);
    } else if row' < row {
      SpansApart(row', row, s.height);
    } else if column < column' {
      SpansApart(column, column', s.width);
    } else {
      SpansApart(column', column, s.width);
    }
  }

  /** How many sprites of one size a square takes in rows and columns. */
  function GridCount(s: Size, side: nat): nat
    requires !Empty(s)
  {
    Area(Size(side / s.width, side / s.height))
  }

  predicate Empty(s: Size) { s.width == 0 || s.height == 0 }

  /** Sprites fit in a grid when there are no more of them than the grid of the largest width and height has places. */
  lemma GridFits(sizes: seq<Size>, s: Size, side: nat)
    requires !Empty(s) && AtMost(sizes, s) && |sizes| <= GridCount(s, side)
    ensures CanFit(sizes, side)
  {
    var columns, rows := side / s.width, side / s.height;
    if sizes == [] {
      ApartFits(sizes, [], side);
    } else {
      assert columns == 0 ==> columns * rows == 0;
      var at := seq(|sizes|, i requires 0 <= i < |sizes| => GridPlace(i, columns, s));
      assert columns * s.width <= side && rows * s.height <= side;
      forall i | 0 <= i < |sizes| ensures Inside(at[i], sizes[i], side) {
        GridInside(i, columns, rows, s, side);
      }
      forall i, j | 0 <= i < j < |sizes| ensures Apart(at[i], sizes[i], at[j], sizes[j]) {
        GridApart(i, j, columns, s);
      }
      ApartFits(sizes, at, side);
    }
  }

  /******* Equal sprites *******/

  /** The grid place whose last pixel a placed sprite covers. */
  function GridCell(p: Position, s: Size): (nat, nat)
    requires !Empty(s)
  {
    (p.x / s.width, p.y / s.height)
  }

  function LastPixel(c: (nat, nat), s: Size): (nat, nat)
    requires !Empty(s)
  {
    (c.0 * s.width + s.width - 1, c.1 * s.height + s.height - 1)
  }

  lemma CoversLastPixel(p: Position, s: Size)
    requires !Empty(s)
    ensures LastPixel(GridCell(p, s), s) in Cells(p, s)
  {
    assert p.x == (p.x / s.width) * s.width + p.x % s.width;
    assert p.y == (p.y / s.height) * s.height + p.y % s.height;
  }

  lemma CellInGrid(p: Position, s: Size, side: nat)
    requires !Empty(s) && Inside(p, s, side)
    ensures p.x / s.width < side / s.width && p.y / s.height < side / s.height
  {
    QuotientBelow(p.x, s.width, side);
    QuotientBelow(p.y, s.height, side);
  }

  lemma QuotientBelow(x: nat, w: nat, side: nat)
    requires w > 0 && x + w <= side
    ensures x / w < side / w
  {
    var q := side / w;
    assert side == q * w + side % w && x == (x / w) * w + x % w;
    if x / w >= q {
      ProductGrows(q, x / w, w);
    }
  }

  /** The grid places taken by the first n sprites. */
  ghost function Taken(at: seq<Position>, s: Size, n: nat): set<(nat, nat)>
    requires !Empty(s) && n <= |at|
  {
    set i | 0 <= i < n :: GridCell(at[i], s)
  }

  ghost predicate AllOf(sizes: seq<Size>, s: Size) { forall i | 0 <= i < |sizes| :: sizes[i] == s }

  /** No two sprites of one size take one grid place. */
  lemma {:induction false} TakenCount(sizes: seq<Size>, at: seq<Position>, s: Size, side: nat, n: nat)
    requires !Empty(s) && AllOf(sizes, s) && Fits(sizes, at, side) && n <= |sizes|
    ensures |Taken(at, s, n)| == n
  {
    if n > 0 {
      TakenCount(sizes, at, s, side, n - 1);
      assert Taken(at, s, n) == Taken(at, s, n - 1) + {GridCell(at[n - 1], s)};
      forall i | 0 <= i < n - 1 ensures GridCell(at[i], s) != GridCell(at[n - 1], s) {
        CoversLastPixel(at[i], s);
        CoversLastPixel(at[n - 1], s);
        assert Cells(at[i], sizes[i]) !! Cells(at[n - 1], sizes[n - 1]);
      }
    }
  }

  /** Sprites of one size fit exactly when there are no more of them than grid places. */
  lemma EqualSpritesFitExactlyWhen(sizes: seq<Size>, s: Size, side: nat)
    requires !Empty(s) && AllOf(sizes, s)
    ensures CanFit(sizes, side) <==> |sizes| <= GridCount(s, side)
  {
    if |sizes| <= GridCount(s, side) {
      GridFits(sizes, s, side);
    }
    if at :| Fits(sizes, at, side) {
      var grid := Cells(Position(0, 0), Size(side / s.width, side / s.height));
      TakenCount(sizes, at, s, side, |sizes|);
      forall c | c in Taken(at, s, |sizes|) ensures c in grid {
        var i :| 0 <= i < |sizes| && c == GridCell(at[i], s);
        CellInGrid(at[i], s, side);
      }
      SubsetCount(Taken(at, s, |sizes|), grid);
      CellCount(Position(0, 0), Size(side / s.width, side / s.height));
    }
  }

  /******* Shelves *******/

  ghost predicate Indices(sizes: seq<Size>, rest: set<nat>) { forall i | i in rest :: i < |sizes| }

  /** The total area of the sprites with the given indices. */
  ghost function AreaOf(sizes: seq<Size>, rest: set<nat>): nat
    requires Indices(sizes, rest)
  {
    if rest == {} then 0 else var i :| i in rest; Area(sizes[i]) + AreaOf(sizes, rest - {i})
  }

  lemma {:induction false} AreaWithout(sizes: seq<Size>, rest: set<nat>, i: nat)
    requires Indices(sizes, rest) && i in rest
    ensures AreaOf(sizes, rest) == Area(sizes[i]) + AreaOf(sizes, rest - {i})
    decreases rest
  {
    var j :| j in rest && AreaOf(sizes, rest) == Area(sizes[j]) + AreaOf(sizes, rest - {j});
    if j != i {
      AreaWithout(sizes, rest - {j}, i);
      AreaWithout(sizes, rest - {i}, j);
      assert rest - {j} - {i} == rest - {i} - {j};
    }
  }

  function FirstIndices(n: nat): (r: set<nat>)
    ensures forall i: nat :: i in r <==> i < n
  {
    if n == 0 then {} else FirstIndices(n - 1) + {n - 1}
  }

  lemma {:induction false} AreaOfFirst(sizes: seq<Size>, n: nat)
    requires n <= |sizes|
    ensures AreaOf(sizes, FirstIndices(n)) == TotalArea(sizes[..n])
  {
    if n > 0 {
      AreaOfFirst(sizes, n - 1);
      AreaWithout(sizes, FirstIndices(n), n - 1);
      assert FirstIndices(n) - {n - 1} == FirstIndices(n - 1);
      assert sizes[..n][..n - 1] == sizes[..n - 1];
    }
  }

  lemma {:induction false} Tallest(sizes: seq<Size>, rest: set<nat>) returns (t: nat)
    requires Indices(sizes, rest) && rest != {}
    ensures t in rest && forall i | i in rest :: sizes[i].height <= sizes[t].height
    decreases rest
  {
    t :| t in rest;
    if rest != {t} {
      var u := Tallest(sizes, rest - {t});
      if sizes[t].height < sizes[u].height {
        t := u;
      }
    }
  }

  /** The room left: the current shelf from x on, and everything above the shelf. */
  predicate InRoom(p: Position, s: Size, x: nat, y: nat, shelf: nat) {
    p.y >= y + shelf || (p.x >= x && p.y >= y && p.y + s.height <= y + shelf)
  }

  ghost predicate Shelved(sizes: seq<Size>, rest: set<nat>, at: map<nat, Position>,
                          x: nat, y: nat, shelf: nat, side: nat)
    requires Indices(sizes, rest)
  {
    && (forall i | i in rest ::
          i in at && Inside(at[i], sizes[i], side) && InRoom(at[i], sizes[i], x, y, shelf))
    && (forall i, j | i in rest && j in rest && i != j :: Apart(at[i], sizes[i], at[j], sizes[j]))
  }

  /** The sprites left are no wider than `width` and no higher than `top`. */
  ghost predicate Bounded(sizes: seq<Size>, rest: set<nat>, width: nat, top: nat)
    requires Indices(sizes, rest)
  {
    forall i | i in rest :: sizes[i].width <= width && sizes[i].height <= top
  }

  /** One more sprite put at the edge of the room. */
  lemma ShelveOne(sizes: seq<Size>, rest: set<nat>, t: nat, at: map<nat, Position>,
                  x: nat, y: nat, shelf: nat, side: nat)
    requires Indices(sizes, rest) && t in rest && sizes[t].height <= shelf && Inside(Position(x, y), sizes[t], side)
    requires Shelved(sizes, rest - {t}, at, x + sizes[t].width, y, shelf, side)
    ensures Shelved(sizes, rest, at[t := Position(x, y)], x, y, shelf, side)
  {
  }

  /**
   Puts sprites on shelves, the tallest first: on the current shelf while they fit there, then on a new one above.  All
   that is needed is that their area, with the used part of the shelf at the height of what is left, is within the room
   above the shelf less a strip of the largest width.
   */
  lemma {:induction false} Shelve(sizes: seq<Size>, rest: set<nat>, width: nat, top: nat,
                                  x: nat, y: nat, shelf: nat, side: nat) returns (at: map<nat, Position>)
    requires Indices(sizes, rest) && Bounded(sizes, rest, width, top) && top <= shelf
    requires width <= side && x <= side && y + shelf <= side
    requires AreaOf(sizes, rest) + x * top <= (side - width) * (side - y - shelf)
    ensures Shelved(sizes, rest, at, x, y, shelf, side)
    decreases rest, 1
  {
    if rest == {} {
      at := map[];
    } else {
      var t := Tallest(sizes, rest);
      if x + sizes[t].width <= side {
        at := ShelveHere(sizes, rest, t, width, top, x, y, shelf, side);
      } else {
        at := ShelveAbove(sizes, rest, t, width, top, x, y, shelf, side);
      }
    }
  }

  /** The tallest sprite left fits on the current shelf. */
  lemma {:induction false} ShelveHere(sizes: seq<Size>, rest: set<nat>, t: nat, width: nat, top: nat,
                                      x: nat, y: nat, shelf: nat, side: nat) returns (at: map<nat, Position>)
    requires Indices(sizes, rest) && Bounded(sizes, rest, width, top) && top <= shelf
    requires t in rest && Bounded(sizes, rest, width, sizes[t].height)
    requires width <= side && x + sizes[t].width <= side && y + shelf <= side
    requires AreaOf(sizes, rest) + x * top <= (side - width) * (side - y - shelf)
    ensures Shelved(sizes, rest, at, x, y, shelf, side)
    decreases rest, 0
  {
    var s := sizes[t];
    AreaWithout(sizes, rest, t);
    SameShelf(AreaOf(sizes, rest - {t}), s, x, top);
    at := Shelve(sizes, rest - {t}, width, s.height, x + s.width, y, shelf, side);
    ShelveOne(sizes, rest, t, at, x, y, shelf, side);
    at := at[t := Position(x, y)];
  }

  /** The tallest sprite left opens a new shelf. */
  lemma {:induction false} ShelveAbove(sizes: seq<Size>, rest: set<nat>, t: nat, width: nat, top: nat,
                                       x: nat, y: nat, shelf: nat, side: nat) returns (at: map<nat, Position>)
    requires Indices(sizes, rest) && Bounded(sizes, rest, width, top) && top <= shelf
    requires t in rest && Bounded(sizes, rest, width, sizes[t].height)
    requires width <= side && x <= side < x + sizes[t].width && y + shelf <= side
    requires AreaOf(sizes, rest) + x * top <= (side - width) * (side - y - shelf)
    ensures Shelved(sizes, rest, at, x, y, shelf, side)
    decreases rest, 0
  {
    var s := sizes[t];
    AreaWithout(sizes, rest, t);
    NextShelf(AreaOf(sizes, rest - {t}), s, x, top, side - width, side - y - shelf);
    at := Shelve(sizes, rest - {t}, width, s.height, s.width, y + shelf, s.height, side);
    ShelveOne(sizes, rest, t, at, 0, y + shelf, s.height, side);
    at := at[t := Position(0, y + shelf)];
    RoomAbove(sizes, rest, at, x, y, shelf, s.height, side);
  }

  /** The room above the shelf is part of the room. */
  lemma RoomAbove(sizes: seq<Size>, rest: set<nat>, at: map<nat, Position>,
                  x: nat, y: nat, shelf: nat, next: nat, side: nat)
    requires Indices(sizes, rest) && Shelved(sizes, rest, at, 0, y + shelf, next, side)
    ensures Shelved(sizes, rest, at, x, y, shelf, side)
  {
  }

  lemma SameShelf(area: nat, s: Size, x: nat, top: nat)
    requires s.height <= top
    ensures area + (x + s.width) * s.height <= area + Area(s) + x * top
  {
    ProductGrows(s.height, top, x);
    assert (x + s.width) * s.height == x * s.height + Area(s);
  }

  lemma NextShelf(area: nat, s: Size, x: nat, top: nat, breadth: nat, room: nat)
    requires s.height <= top && breadth < x
    requires area + Area(s) + x * top <= breadth * room
    ensures s.height <= room && area + s.width * s.height <= breadth * (room - s.height)
  {
    ProductGrows(s.height, top, x);
    ProductGrows(breadth, x, s.height);
    assert area + Area(s) + breadth * s.height <= breadth * room;
    ProductGrows(breadth + 1, x, s.height);
    assert (breadth + 1) * s.height == breadth * s.height + s.height;
    if room < s.height {
      ProductGrows(room, s.height, breadth);
      assert false;
    }
    assert breadth * (room - s.height) == breadth * room - breadth * s.height;
  }

  /**
   Sprites fit when their total area is at most that of the square less a strip of the largest width and one of the
   largest height.
   */
  lemma ShelvesFit(sizes: seq<Size>, s: Size, side: nat)
    requires AtMost(sizes, s) && s.width <= side && s.height <= side
    requires TotalArea(sizes) <= (side - s.width) * (side - s.height)
    ensures CanFit(sizes, side)
  {
    var all := FirstIndices(|sizes|);
    AreaOfFirst(sizes, |sizes|);
    assert sizes[..|sizes|] == sizes;
    var places := Shelve(sizes, all, s.width, s.height, 0, 0, s.height, side);
    var at := seq(|sizes|, i requires 0 <= i < |sizes| && i in places => places[i]);
    forall i | 0 <= i < |sizes| ensures i in all && Inside(at[i], sizes[i], side) {
    }
    forall i, j | 0 <= i < j < |sizes| ensures Apart(at[i], sizes[i], at[j], sizes[j]) {
      assert i in all && j in all;
    }
    ApartFits(sizes, at, side);
  }

  /******* The warning *******/

  /** The largest width and height bound every sprite. */
  lemma LargestIsLargest(sizes: seq<Size>)
    ensures AtMost(sizes, Largest(sizes))
  {
    LargestBounds(sizes, Largest(sizes).width);
    LargestBounds(sizes, Largest(sizes).height);
  }

  /** What the figures of the warning suffice for: few enough sprites for a grid, or little enough area for shelves. */
  predicate FitsByFigures(count: nat, largest: Size, totalArea: nat, side: nat) {
    && largest.width <= side && largest.height <= side
    && (Empty(largest) || count <= GridCount(largest, side)
        || totalArea <= (side - largest.width) * (side - largest.height))
  }

  /**
   The warning for any number of sprites: where it is given no arrangement fits, and where it is not, one does when the
   figures it is computed from leave room for a grid or for shelves.  In between the figures do not decide.
   */
  lemma WarningDecides(sizes: seq<Size>)
    ensures ExceedsBudget(sizes) ==> !CanFit(sizes, BUDGET)
    ensures FitsByFigures(|sizes|, Largest(sizes), TotalArea(sizes), BUDGET) ==>
              !ExceedsBudget(sizes) && CanFit(sizes, BUDGET)
  {
    forall at ensures ExceedsBudget(sizes) ==> !Fits(sizes, at, BUDGET) {
      if ExceedsBudget(sizes) {
        WarningIsSound(sizes, at);
      }
    }
    var s := Largest(sizes);
    LargestIsLargest(sizes);
    if FitsByFigures(|sizes|, s, TotalArea(sizes), BUDGET) {
      if Empty(s) {
        EmptyFits(sizes, BUDGET);
      } else if |sizes| <= GridCount(s, BUDGET) {
        GridFits(sizes, s, BUDGET);
      } else {
        ShelvesFit(sizes, s, BUDGET);
      }
    }
  }

  /** Sprites without area fit wherever they are. */
  lemma EmptyFits(sizes: seq<Size>, side: nat)
    requires Empty(Largest(sizes)) && AtMost(sizes, Largest(sizes))
    requires Largest(sizes).width <= side && Largest(sizes).height <= side
    ensures CanFit(sizes, side)
  {
    var at := seq(|sizes|, i => Position(0, 0));
    forall i | 0 <= i < |sizes| ensures Empty(sizes[i]) && Cells(at[i], sizes[i]) == {} {
    }
    assert Fits(sizes, at, side);
  }

  /******* One sprite, and two *******/

  /** For one sprite the warning is exact. */
  lemma OneSpriteFitsExactlyWhen(a: Size)
    ensures CanFit([a], BUDGET) <==> !ExceedsBudget([a])
  {
    assert [a][..0] == [];
    assert TotalArea([a]) == Area(a);
    if a.width <= BUDGET && a.height <= BUDGET {
      assert Fits([a], [Position(0, 0)], BUDGET);
      SmallerArea(a.width, a.height, BUDGET);
    } else {
      assert [a][0] == a;
      forall at: seq<Position> ensures !Fits([a], at, BUDGET) {
        WarningIsSound([a], at);
      }
    }
  }

  lemma SmallerArea(width: nat, height: nat, side: nat)
    requires width <= side && height <= side
    ensures width * height <= side * side
  {
    assert width * height <= side * height <= side * side;
  }

  /**
   For two sprites, exactly what the warning misses: they fit when each does and they fit side by side or one above
   the other, or when one of them has no area.
   */
  lemma TwoSpritesFitExactlyWhen(a: Size, b: Size, side: nat)
    ensures CanFit([a, b], side) <==>
              && a.width <= side && a.height <= side && b.width <= side && b.height <= side
              && (a.width + b.width <= side || a.height + b.height <= side || Empty(a) || Empty(b))
  {
    if a.width <= side && a.height <= side && b.width <= side && b.height <= side {
      if Empty(a) || Empty(b) {
        assert Fits([a, b], [Position(0, 0), Position(0, 0)], side);
      } else if a.width + b.width <= side {
        assert Fits([a, b], [Position(0, 0), Position(a.width, 0)], side);
      } else if a.height + b.height <= side {
        assert Fits([a, b], [Position(0, 0), Position(0, a.height)], side);
      }
    }
    if at :| Fits([a, b], at, side) {
      PlacedApart(a, b, at, side);
    }
  }

  lemma PlacedApart(a: Size, b: Size, at: seq<Position>, side: nat)
    requires Fits([a, b], at, side)
    ensures a.width <= side && a.height <= side && b.width <= side && b.height <= side
    ensures a.width + b.width <= side || a.height + b.height <= side || Empty(a) || Empty(b)
  {
    var sizes, p, q := [a, b], at[0], at[1];
    assert sizes[0] == a && sizes[1] == b;
    var x, y := if p.x < q.x then q.x else p.x, if p.y < q.y then q.y else p.y;
    assert (x, y) !in Cells(p, a) || (x, y) !in Cells(q, b);
  }
}
