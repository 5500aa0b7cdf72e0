/**
 The warning that a folder's sprites may not fit one atlas texture.  Rotation and tight packing are switched
 off, so sprites are placed as upright rectangles of pixels.
 */
module AtlasBudget {
  import opened Options

  const BUDGET: nat := 2048

  datatype Size = Size(width: nat, height: nat)

  function Area(s: Size): nat { s.width * s.height }

  datatype Position = Position(x: nat, y: nat)

  function TotalArea(sizes: seq<Size>): nat {
    if sizes == [] then 0
    else TotalArea(sizes[..|sizes| - 1]) + Area(sizes[|sizes| - 1])
  }

  function Largest(sizes: seq<Size>): Size {
    if sizes == [] then Size(0, 0)
    else
      var rest, last := Largest(sizes[..|sizes| - 1]), sizes[|sizes| - 1];
      Size(if last.width > rest.width then last.width else rest.width,
           if last.height > rest.height then last.height else rest.height)
  }

  /** The sprites that could be loaded. */
  function Loaded(sprites: seq<Option<Size>>): seq<Size> {
    if sprites == [] then []
    else
      var rest, last := Loaded(sprites[..|sprites| - 1]), sprites[|sprites| - 1];
      if last.Some? then rest + [last.value] else rest
  }

  predicate ExceedsBudget(sizes: seq<Size>) {
    || TotalArea(sizes) > BUDGET * BUDGET
    || exists i | 0 <= i < |sizes| :: sizes[i].width > BUDGET || sizes[i].height > BUDGET
  }

  lemma {:induction false} LargestBounds(sizes: seq<Size>, side: nat)
    ensures Largest(sizes).width <= side <==> forall i | 0 <= i < |sizes| :: sizes[i].width <= side
    ensures Largest(sizes).height <= side <==> forall i | 0 <= i < |sizes| :: sizes[i].height <= side
  {
    if sizes != [] {
      var most := sizes[..|sizes| - 1];
      LargestBounds(most, side);
      assert forall i | 0 <= i < |sizes| :: i == |sizes| - 1 || sizes[i] == most[i];
    }
  }

  /** What one more sprite adds. */
  lemma OneMore(sprites: seq<Option<Size>>, i: nat)
    requires i < |sprites|
    ensures var before, after := Loaded(sprites[..i]), Loaded(sprites[..i + 1]);
            if sprites[i].None? then after == before
            else
              && TotalArea(after) == TotalArea(before) + Area(sprites[i].value)
              && Largest(after) == Size(
                    if sprites[i].value.width > Largest(before).width then sprites[i].value.width
                    else Largest(before).width,
                   if sprites[i].value.height > Largest(before).height then sprites[i].value.height
                   else Largest(before).height)
  {
    assert sprites[..i + 1][..i] == sprites[..i];
    if sprites[i].Some? {
      var before := Loaded(sprites[..i]);
      assert (before + [sprites[i].value])[..|before|] == before;
    }
  }

  /** Sprite i could be loaded, and is wider or higher than the given side. */
  predicate SticksOut(sprites: seq<Option<Size>>, i: int, side: nat) {
    0 <= i < |sprites| && sprites[i].Some? && (sprites[i].value.width > side || sprites[i].value.height > side)
  }

  lemma ExceedsSpelled(sprites: seq<Option<Size>>)
    ensures ExceedsBudget(Loaded(sprites)) <==>
              TotalArea(Loaded(sprites)) > 4194304 || exists i :: SticksOut(sprites, i, 2048)
  {
    var sizes := Loaded(sprites);
    forall s ensures s in sizes <==> Some(s) in sprites {
      LoadedHas(sprites, s);
    }
    if i :| 0 <= i < |sizes| && (sizes[i].width > BUDGET || sizes[i].height > BUDGET) {
      var k :| 0 <= k < |sprites| && sprites[k] == Some(sizes[i]);
      assert SticksOut(sprites, k, 2048);
    }
    if i :| SticksOut(sprites, i, 2048) {
      assert sprites[i] == Some(sprites[i].value);
      assert sprites[i].value in sizes;
    }
  }

  lemma {:induction false} LoadedHas(sprites: seq<Option<Size>>, s: Size)
    ensures s in Loaded(sprites) <==> Some(s) in sprites
  {
    if sprites != [] {
      LoadedHas(sprites[..|sprites| - 1], s);
      assert sprites == sprites[..|sprites| - 1] + [sprites[|sprites| - 1]];
    }
  }

  /** Loading leaves out what could not be loaded and nothing else, and keeps the order. */
  lemma {:induction false} LoadedInOrder(a: seq<Option<Size>>, b: seq<Option<Size>>)
    ensures Loaded(a + b) == Loaded(a) + Loaded(b)
    ensures forall s: Size :: Loaded([Some(s)]) == [s]
    ensures Loaded([None]) == []
    decreases |b|
  {
    var none: seq<Option<Size>> := [None];
    assert none[..0] == [];
    if b == [] {
      assert a + b == a;
    } else {
      LoadedInOrder(a, b[..|b| - 1]);
      assert (a + b)[..|a + b| - 1] == a + b[..|b| - 1];
    }
    forall s: Size ensures Loaded([Some(s)]) == [s] {
      assert [Some(s)][..0] == [];
    }
  }

  method WarnIfAtlasMayOverflow(sprites: seq<Option<Size>>) returns (warn: bool)
    ensures warn <==> ExceedsBudget(Loaded(sprites))
    ensures warn <==> TotalArea(Loaded(sprites)) > 4194304 || exists i :: SticksOut(sprites, i, 2048)
    ensures warn ==> !CanFit(Loaded(sprites), BUDGET)
  {
    ExceedsSpelled(sprites);
    if |sprites| == 0 {
      return false;
    }
    var totalArea: nat, maxWidth: nat, maxHeight: nat := 0, 0, 0;
    for i := 0 to |sprites|
      invariant totalArea == TotalArea(Loaded(sprites[..i]))
      invariant Size(maxWidth, maxHeight) == Largest(Loaded(sprites[..i]))
    {
      OneMore(sprites, i);
      if sprites[i] == None {
        continue;
      }
      var size := sprites[i].value;
      maxWidth := if size.width > maxWidth then size.width else maxWidth;
      maxHeight := if size.height > maxHeight then size.height else maxHeight;
      totalArea := totalArea + Area(size);
    }
    assert sprites[..|sprites|] == sprites;
    LargestBounds(Loaded(sprites), BUDGET);
    warn := !(totalArea <= BUDGET * BUDGET && maxWidth <= BUDGET && maxHeight <= BUDGET);
    if warn {
      forall at ensures !Fits(Loaded(sprites), at, BUDGET) {
        WarningIsSound(Loaded(sprites), at);
      }
    }
  }

  /******* Placements *******/

  /** The pixels a sprite covers. */
  ghost function Cells(p: Position, s: Size): set<(nat, nat)> {
    set x: nat, y: nat | p.x <= x < p.x + s.width && p.y <= y < p.y + s.height :: (x, y)
  }

  /** Every sprite lies inside a square texture, and no pixel is covered twice. */
  ghost predicate Fits(sizes: seq<Size>, at: seq<Position>, side: nat) {
    && |at| == |sizes|
    && (forall i | 0 <= i < |sizes| :: at[i].x + sizes[i].width <= side && at[i].y + sizes[i].height <= side)
    && (forall i, j | 0 <= i < j < |sizes| :: Cells(at[i], sizes[i]) !! Cells(at[j], sizes[j]))
  }

  /** Some arrangement fits. */
  ghost predicate CanFit(sizes: seq<Size>, side: nat) { exists at :: Fits(sizes, at, side) }

  lemma {:induction false} ColumnCount(x: nat, y: nat, height: nat)
    ensures |Cells(Position(x, y), Size(1, height))| == height
  {
    var p := Position(x, y);
    if height == 0 {
      assert Cells(p, Size(1, 0)) == {};
    } else {
      ColumnCount(x, y, height - 1);
      assert Cells(p, Size(1, height)) == Cells(p, Size(1, height - 1)) + {(x, y + height - 1)};
    }
  }

  /** A rectangle is a narrower one and its last column. */
  lemma LastColumn(p: Position, s: Size)
    requires s.width > 0
    ensures var narrow, column := Cells(p, Size(s.width - 1, s.height)),
                                  Cells(Position(p.x + s.width - 1, p.y), Size(1, s.height));
            Cells(p, s) == narrow + column && narrow !! column
  {
  }

  function AddColumns(width: nat, height: nat): nat {
    if width == 0 then 0 else AddColumns(width - 1, height) + height
  }

  lemma {:induction false} ColumnsAreArea(width: nat, height: nat)
    ensures AddColumns(width, height) == width * height
  {
    if width > 0 {
      ColumnsAreArea(width - 1, height);
      assert width * height == (width - 1) * height + height;
    }
  }

  lemma {:induction false} CountColumns(p: Position, s: Size)
    ensures |Cells(p, s)| == AddColumns(s.width, s.height)
    decreases s.width
  {
    if s.width == 0 {
      assert Cells(p, s) == {};
    } else {
      LastColumn(p, s);
      CountColumns(p, Size(s.width - 1, s.height));
      ColumnCount(p.x + s.width - 1, p.y, s.height);
    }
  }

  lemma CellCount(p: Position, s: Size)
    ensures |Cells(p, s)| == Area(s)
  {
    CountColumns(p, s);
    ColumnsAreArea(s.width, s.height);
  }

  ghost function AllCells(sizes: seq<Size>, at: seq<Position>): set<(nat, nat)>
    requires |at| == |sizes|
  {
    if sizes == [] then {}
    else AllCells(sizes[..|sizes| - 1], at[..|at| - 1]) + Cells(at[|at| - 1], sizes[|sizes| - 1])
  }

  lemma {:induction false} CoveredBySome(sizes: seq<Size>, at: seq<Position>, c: (nat, nat)) returns (i: nat)
    requires |at| == |sizes| && c in AllCells(sizes, at)
    ensures i < |sizes| && c in Cells(at[i], sizes[i])
  {
    if c in Cells(at[|at| - 1], sizes[|sizes| - 1]) {
      i := |sizes| - 1;
    } else {
      i := CoveredBySome(sizes[..|sizes| - 1], at[..|at| - 1], c);
    }
  }

  /** Sprites that share no pixel cover as many pixels as their areas add up to. */
  lemma {:induction false} CoveredCount(sizes: seq<Size>, at: seq<Position>, side: nat)
    requires Fits(sizes, at, side)
    ensures |AllCells(sizes, at)| == TotalArea(sizes)
  {
    if sizes != [] {
      var n := |sizes| - 1;
      CoveredCount(sizes[..n], at[..n], side);
      CellCount(at[n], sizes[n]);
      forall c | c in AllCells(sizes[..n], at[..n]) ensures c !in Cells(at[n], sizes[n]) {
        var i := CoveredBySome(sizes[..n], at[..n], c);
        assert Cells(at[i], sizes[i]) !! Cells(at[n], sizes[n]);
      }
    }
  }

  lemma SubsetCount<T>(a: set<T>, b: set<T>)
    requires a <= b
    ensures |a| <= |b|
  {
    assert b == a + (b - a);
  }

  /** The warning is sound: where it is given, the sprites fit the budget in no arrangement. */
  lemma WarningIsSound(sizes: seq<Size>, at: seq<Position>)
    requires ExceedsBudget(sizes)
    ensures !Fits(sizes, at, BUDGET)
  {
    if Fits(sizes, at, BUDGET) {
      var texture := Cells(Position(0, 0), Size(BUDGET, BUDGET));
      forall c | c in AllCells(sizes, at) ensures c in texture {
        var i := CoveredBySome(sizes, at, c);
      }
      CoveredCount(sizes, at, BUDGET);
      CellCount(Position(0, 0), Size(BUDGET, BUDGET));
      SubsetCount(AllCells(sizes, at), texture);
    }
  }

  /** It is not complete: two sprites can be within every bound it checks and still fit in no arrangement. */
  lemma WarningIsIncomplete(at: seq<Position>)
    ensures var sizes := [Size(1500, 1100), Size(1500, 1100)];
            !ExceedsBudget(sizes) && !Fits(sizes, at, BUDGET)
  {
    var sizes := [Size(1500, 1100), Size(1500, 1100)];
    assert sizes[..1] == [sizes[0]] && sizes[..1][..0] == [];
    assert TotalArea([sizes[0]]) == 1500 * 1100;
    assert TotalArea(sizes) == 2 * 1500 * 1100;
    if Fits(sizes, at, BUDGET) {
      MiddleCovered(at[0]);
      MiddleCovered(at[1]);
    }
  }

  lemma MiddleCovered(p: Position)
    requires p.x + 1500 <= BUDGET && p.y + 1100 <= BUDGET
    ensures (1000, 1000) in Cells(p, Size(1500, 1100))
  {
  }
}
