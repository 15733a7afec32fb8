/** Day 3, fabric claims: parse the claims `#id @ x,y: wxh`, register each
    claim's rectangle on a sparse grid of per-cell claim lists while keeping
    the set of conflicting claim IDs in sync with the grid, then count the
    cells claimed more than once and list the claims in no conflict. */
module Day03 {
  import opened Results
  import opened JsText
  import Keys

  /** A claim as `getClaimFromClaimText` builds it; every field may be NaN. */
  datatype Claim = Claim(claimId: Num, x: Num, y: Num, width: Num, height: Num)

  datatype ClaimError = InvalidClaim

  /** A grid cell, column first as in `fabricAllocationMap[x][y]`. */
  type Cell = (int, int)

  /** `claimIsValid`, lines 243-246: validation is not implemented and
      accepts every claim. */
  predicate ClaimIsValid(claim: Claim)
  {
    true
  }

  /** `getClaimFromClaimText`, lines 180-232: the five fields are read with
      `parseInt` from the slices between `#`, `@`, `,`, `:`, `x` and the end
      of the text. Nothing in the `try` block throws and the validation
      accepts everything, so the `throw` at line 228 is never reached. */
  function GetClaimFromClaimText(claimText: string): (r: Result<Claim, ClaimError>)
    ensures r.Ok?
  {
    var indexOfHash := IndexOf(claimText, '#');
    var indexOfAt := IndexOf(claimText, '@');
    var indexOfComma := IndexOf(claimText, ',');
    var indexOfColon := IndexOf(claimText, ':');
    var indexOfX := IndexOf(claimText, 'x');
    var claim := Claim(
      ParseInt(Slice(claimText, indexOfHash + 1, indexOfAt)),
      ParseInt(Slice(claimText, indexOfAt + 1, indexOfComma)),
      ParseInt(Slice(claimText, indexOfComma + 1, indexOfColon)),
      ParseInt(Slice(claimText, indexOfColon + 1, indexOfX)),
      ParseInt(Slice(claimText, indexOfX + 1, |claimText|)));
    if ClaimIsValid(claim) then Ok(claim) else Err(InvalidClaim)
  }

  /** The text of a claim with the given decimal fields. */
  function ClaimText(id: string, x: string, y: string, w: string, h: string): string
  {
    "#" + id + " @ " + x + "," + y + ": " + w + "x" + h
  }

  /** A well-formed claim text decodes to its five decimal fields. */
  lemma ClaimTextRoundTrip(id: string, x: string, y: string, w: string, h: string)
    requires id != [] && AllDigits(id) && x != [] && AllDigits(x) && y != [] && AllDigits(y)
    requires w != [] && AllDigits(w) && h != [] && AllDigits(h)
    ensures GetClaimFromClaimText(ClaimText(id, x, y, w, h))
         == Ok(Claim(Int(DigitsValue(id)), Int(DigitsValue(x)), Int(DigitsValue(y)), Int(DigitsValue(w)), Int(DigitsValue(h))))
  {
    IdValue(id, x, y, w, h);
    XValue(id, x, y, w, h);
    YValue(id, x, y, w, h);
    WValue(id, x, y, w, h);
    HValue(id, x, y, w, h);
  }

  lemma IdValue(id: string, x: string, y: string, w: string, h: string)
    requires id != [] && AllDigits(id)
    ensures var t := ClaimText(id, x, y, w, h);
      ParseInt(Slice(t, IndexOf(t, '#') + 1, IndexOf(t, '@'))) == Int(DigitsValue(id))
  {
    IdSlice(id, x, y, w, h);
    ParseIntBeforeSpace(id);
  }

  lemma XValue(id: string, x: string, y: string, w: string, h: string)
    requires AllDigits(id) && x != [] && AllDigits(x)
    ensures var t := ClaimText(id, x, y, w, h);
      ParseInt(Slice(t, IndexOf(t, '@') + 1, IndexOf(t, ','))) == Int(DigitsValue(x))
  {
    XSlice(id, x, y, w, h);
    ParseIntDigits(" ", x, []);
    assert " " + x + [] == " " + x;
  }

  lemma YValue(id: string, x: string, y: string, w: string, h: string)
    requires AllDigits(id) && AllDigits(x) && y != [] && AllDigits(y)
    ensures var t := ClaimText(id, x, y, w, h);
      ParseInt(Slice(t, IndexOf(t, ',') + 1, IndexOf(t, ':'))) == Int(DigitsValue(y))
  {
    YSlice(id, x, y, w, h);
    ParseIntOfDigits(y);
  }

  lemma WValue(id: string, x: string, y: string, w: string, h: string)
    requires AllDigits(id) && AllDigits(x) && AllDigits(y) && w != [] && AllDigits(w)
    ensures var t := ClaimText(id, x, y, w, h);
      ParseInt(Slice(t, IndexOf(t, ':') + 1, IndexOf(t, 'x'))) == Int(DigitsValue(w))
  {
    WSlice(id, x, y, w, h);
    ParseIntDigits(" ", w, []);
    assert " " + w + [] == " " + w;
  }

  lemma HValue(id: string, x: string, y: string, w: string, h: string)
    requires AllDigits(id) && AllDigits(x) && AllDigits(y) && AllDigits(w) && h != [] && AllDigits(h)
    ensures var t := ClaimText(id, x, y, w, h);
      ParseInt(Slice(t, IndexOf(t, 'x') + 1, |t|)) == Int(DigitsValue(h))
  {
    HSlice(id, x, y, w, h);
    ParseIntOfDigits(h);
  }

  lemma IdSlice(id: string, x: string, y: string, w: string, h: string)
    requires AllDigits(id)
    ensures var t := ClaimText(id, x, y, w, h);
      Slice(t, IndexOf(t, '#') + 1, IndexOf(t, '@')) == id + " "
  {
    var t := ClaimText(id, x, y, w, h);
    DigitsExclude(id, '@');
    assert t == [] + ['#'] + (id + " ") + ['@'] + (" " + x + "," + y + ": " + w + "x" + h);
    Between(t, [], '#', id + " ", '@', " " + x + "," + y + ": " + w + "x" + h);
  }

  lemma XSlice(id: string, x: string, y: string, w: string, h: string)
    requires AllDigits(id) && AllDigits(x)
    ensures var t := ClaimText(id, x, y, w, h);
      Slice(t, IndexOf(t, '@') + 1, IndexOf(t, ',')) == " " + x
  {
    var t := ClaimText(id, x, y, w, h);
    DigitsExclude(id, '@'); DigitsExclude(id, ','); DigitsExclude(x, ',');
    assert t == ("#" + id + " ") + ['@'] + (" " + x) + [','] + (y + ": " + w + "x" + h);
    Between(t, "#" + id + " ", '@', " " + x, ',', y + ": " + w + "x" + h);
  }

  lemma YSlice(id: string, x: string, y: string, w: string, h: string)
    requires AllDigits(id) && AllDigits(x) && AllDigits(y)
    ensures var t := ClaimText(id, x, y, w, h);
      Slice(t, IndexOf(t, ',') + 1, IndexOf(t, ':')) == y
  {
    var t := ClaimText(id, x, y, w, h);
    DigitsExclude(id, ','); DigitsExclude(id, ':'); DigitsExclude(x, ','); DigitsExclude(x, ':'); DigitsExclude(y, ':');
    assert t == ("#" + id + " @ " + x) + [','] + y + [':'] + (" " + w + "x" + h);
    Between(t, "#" + id + " @ " + x, ',', y, ':', " " + w + "x" + h);
  }

  lemma WSlice(id: string, x: string, y: string, w: string, h: string)
    requires AllDigits(id) && AllDigits(x) && AllDigits(y) && AllDigits(w)
    ensures var t := ClaimText(id, x, y, w, h);
      Slice(t, IndexOf(t, ':') + 1, IndexOf(t, 'x')) == " " + w
  {
    var t := ClaimText(id, x, y, w, h);
    DigitsExclude(id, ':'); DigitsExclude(id, 'x'); DigitsExclude(x, ':'); DigitsExclude(x, 'x');
    DigitsExclude(y, ':'); DigitsExclude(y, 'x'); DigitsExclude(w, 'x');
    assert t == ("#" + id + " @ " + x + "," + y) + [':'] + (" " + w) + ['x'] + h;
    Between(t, "#" + id + " @ " + x + "," + y, ':', " " + w, 'x', h);
  }

  lemma HSlice(id: string, x: string, y: string, w: string, h: string)
    requires AllDigits(id) && AllDigits(x) && AllDigits(y) && AllDigits(w)
    ensures var t := ClaimText(id, x, y, w, h);
      Slice(t, IndexOf(t, 'x') + 1, |t|) == h
  {
    var t := ClaimText(id, x, y, w, h);
    DigitsExclude(id, 'x'); DigitsExclude(x, 'x'); DigitsExclude(y, 'x'); DigitsExclude(w, 'x');
    assert t == ("#" + id + " @ " + x + "," + y + ": " + w) + ['x'] + h;
    AfterLast(t, "#" + id + " @ " + x + "," + y + ": " + w, 'x', h);
  }

  /** The example of the comment at line 181. */
  lemma ClaimExample()
    ensures GetClaimFromClaimText("#123 @ 3,2: 5x4") == Ok(Claim(Int(123), Int(3), Int(2), Int(5), Int(4)))
  {
    assert ClaimText("123", "3", "2", "5", "4") == "#123 @ 3,2: 5x4";
    ClaimTextRoundTrip("123", "3", "2", "5", "4");
    DigitsExample();
  }

  lemma DigitsExample()
    ensures DigitsValue("123") == 123 && DigitsValue("3") == 3 && DigitsValue("2") == 2
    ensures DigitsValue("5") == 5 && DigitsValue("4") == 4
  {
    assert "123"[..2] == "12" && "12"[..1] == "1" && "1"[..0] == "";
    assert "3"[..0] == "" && "2"[..0] == "" && "5"[..0] == "" && "4"[..0] == "";
  }

  /** The cells with a <= column < b and c <= row < d. */
  function Rect(a: int, b: int, c: int, d: int): set<Cell>
  {
    set i, j | a <= i < b && c <= j < d :: (i, j)
  }

  /** The claim's rectangle covers the cell. A NaN field makes the loop
      conditions of `registerClaim` false at once, so such a claim covers
      nothing. */
  predicate Covers(claim: Claim, p: Cell)
  {
    && claim.x.Int? && claim.y.Int? && claim.width.Int? && claim.height.Int?
    && claim.x.value <= p.0 < claim.x.value + claim.width.value
    && claim.y.value <= p.1 < claim.y.value + claim.height.value
  }

  /** The cells `registerClaim` visits. */
  function RectCells(claim: Claim): (r: set<Cell>)
    ensures forall p :: p in r <==> Covers(claim, p)
  {
    if claim.x.Int? && claim.y.Int? && claim.width.Int? && claim.height.Int? then
      Rect(claim.x.value, claim.x.value + claim.width.value, claim.y.value, claim.y.value + claim.height.value)
    else {}
  }

  /** The claims listed at a cell; a missing cell lists none, which is what
      `ensureFabricAllocationMapDataStructureExists` creates. */
  function ListAt(cells: map<Cell, seq<Claim>>, p: Cell): seq<Claim>
  {
    if p in cells then cells[p] else []
  }

  /** The grid with the claim appended once at every cell in `s`. */
  function PlaceIn(cells: map<Cell, seq<Claim>>, claim: Claim, s: set<Cell>): map<Cell, seq<Claim>>
  {
    map p | p in cells.Keys + s :: ListAt(cells, p) + (if p in s then [claim] else [])
  }

  /** The grid after `registerClaim(claim)`. */
  function Place(cells: map<Cell, seq<Claim>>, claim: Claim): map<Cell, seq<Claim>>
  {
    PlaceIn(cells, claim, RectCells(claim))
  }

  /** Registering appends the claim exactly once at each cell of its
      rectangle and changes no other cell. */
  lemma PlaceAt(cells: map<Cell, seq<Claim>>, claim: Claim, p: Cell)
    ensures p in Place(cells, claim) <==> p in cells || Covers(claim, p)
    ensures ListAt(Place(cells, claim), p) == ListAt(cells, p) + (if Covers(claim, p) then [claim] else [])
  {
  }

  /** A claim of zero (or negative) width or height touches no cell. */
  lemma PlaceEmpty(cells: map<Cell, seq<Claim>>, claim: Claim)
    requires claim.width == Int(0) || claim.height == Int(0)
    ensures Place(cells, claim) == cells
  {
    assert RectCells(claim) == {};
    PlaceInNone(cells, claim);
  }

  /** Appending at no cell leaves the grid as it is. */
  lemma PlaceInNone(cells: map<Cell, seq<Claim>>, claim: Claim)
    ensures PlaceIn(cells, claim, {}) == cells
  {
    var r := PlaceIn(cells, claim, {});
    assert r.Keys == cells.Keys;
    forall p | p in cells ensures r[p] == cells[p] {
      assert r[p] == cells[p] + [];
    }
  }

  lemma PlaceInAdd(cells: map<Cell, seq<Claim>>, claim: Claim, s: set<Cell>, p: Cell)
    requires p !in s
    ensures PlaceIn(cells, claim, s + {p}) == PlaceIn(cells, claim, s)[p := ListAt(cells, p) + [claim]]
  {
  }

  /** The IDs of the claims listed at cells with more than one claim. */
  function ConflictIds(cells: map<Cell, seq<Claim>>): set<Num>
  {
    set p, k | p in cells && |cells[p]| > 1 && 0 <= k < |cells[p]| :: cells[p][k].claimId
  }

  function Ids(list: seq<Claim>): set<Num>
  {
    set k | 0 <= k < |list| :: list[k].claimId
  }

  /** Appending a claim at a cell adds to the conflicts exactly what
      `addClaimToPosition` adds: both IDs when the list reaches two, the new
      ID when it grows beyond. */
  lemma ConflictIdsAppend(cells: map<Cell, seq<Claim>>, p: Cell, claim: Claim)
    ensures var list := ListAt(cells, p) + [claim];
      ConflictIds(cells[p := list])
      == ConflictIds(cells) + (if |list| == 2 then Ids(list) else if |list| > 2 then {claim.claimId} else {})
  {
    var old_ := ListAt(cells, p);
    var list := old_ + [claim];
    var next := cells[p := list];
    var extra := if |list| == 2 then Ids(list) else if |list| > 2 then {claim.claimId} else {};
    forall id | id in ConflictIds(next) ensures id in ConflictIds(cells) + extra {
      var q, k :| q in next && |next[q]| > 1 && 0 <= k < |next[q]| && next[q][k].claimId == id;
      if q != p {
        assert cells[q][k].claimId == id;
      } else if |list| > 2 && k < |old_| {
        assert cells[p][k] == list[k];
      }
    }
    forall id | id in ConflictIds(cells) + extra ensures id in ConflictIds(next) {
      if id in ConflictIds(cells) {
        var q, k :| q in cells && |cells[q]| > 1 && 0 <= k < |cells[q]| && cells[q][k].claimId == id;
        if q == p {
          assert next[q][k] == cells[q][k];
        } else {
          assert next[q][k] == cells[q][k];
        }
      } else if |list| == 2 {
        var k :| 0 <= k < |list| && list[k].claimId == id;
        assert next[p][k].claimId == id;
      } else {
        assert next[p][|list| - 1].claimId == id;
      }
    }
  }

  /** The module-level `fabricAllocationMap` and `claimsInConflict`. */
  class Fabric {
    var cells: map<Cell, seq<Claim>>
    var claimsInConflict: set<Num>

    /** The conflict set is in sync with the grid. */
    ghost predicate Valid()
      reads this
    {
      claimsInConflict == ConflictIds(cells)
    }

    constructor ()
      ensures cells == map[] && claimsInConflict == {}
      ensures Valid()
    {
      cells, claimsInConflict := map[], {};
    }

    /** `addClaimToPosition`, lines 124-151. The conflict set only grows. */
    method AddClaimToPosition(claim: Claim, positionX: int, positionY: int)
      requires Valid()
      modifies this
      ensures Valid()
      ensures cells == old(cells)[(positionX, positionY) := ListAt(old(cells), (positionX, positionY)) + [claim]]
      ensures old(claimsInConflict) <= claimsInConflict
    {
      var p := (positionX, positionY);
      ConflictIdsAppend(cells, p, claim);
      var claimedByClaims := ListAt(cells, p) + [claim];
      cells := cells[p := claimedByClaims];
      if |claimedByClaims| > 1 {
        if |claimedByClaims| == 2 {
          for k := 0 to |claimedByClaims|
            invariant cells == old(cells)[p := claimedByClaims]
            invariant claimsInConflict == old(claimsInConflict) + set i | 0 <= i < k :: claimedByClaims[i].claimId
          {
            claimsInConflict := claimsInConflict + {claimedByClaims[k].claimId};
          }
        } else {
          claimsInConflict := claimsInConflict + {claim.claimId};
        }
      }
    }

    /** `registerClaim`, lines 96-113: the nested loops over the columns and
        rows of the claim's rectangle. */
    method RegisterClaim(claim: Claim)
      requires Valid()
      modifies this
      ensures Valid()
      ensures cells == Place(old(cells), claim)
      ensures old(claimsInConflict) <= claimsInConflict
    {
      if !(claim.x.Int? && claim.y.Int? && claim.width.Int? && claim.height.Int?) {
        PlaceInNone(cells, claim);
        return;
      }
      var originX, originY := claim.x.value, claim.y.value;
      var endPositionX := originX + claim.width.value;
      var endPositionY := originY + claim.height.value;
      ghost var start := cells;
      var positionX := originX;
      ghost var placed := Rect(originX, positionX, originY, endPositionY);
      RectEmpty(originX, positionX, originY, endPositionY);
      PlaceInNone(start, claim);
      while positionX < endPositionX
        invariant Valid()
        invariant originX <= positionX
        invariant positionX <= endPositionX || positionX == originX
        invariant placed == Rect(originX, positionX, originY, endPositionY)
        invariant cells == PlaceIn(start, claim, placed)
        invariant old(claimsInConflict) <= claimsInConflict
        decreases endPositionX - positionX
      {
        RegisterColumn(claim, originX, positionX, originY, endPositionY, start);
        RectAddColumn(originX, positionX, originY, endPositionY);
        placed := placed + Rect(positionX, positionX + 1, originY, endPositionY);
        positionX := positionX + 1;
      }
      if positionX != endPositionX {
        RectEmpty(originX, positionX, originY, endPositionY);
        RectEmpty(originX, endPositionX, originY, endPositionY);
      }
      assert placed == RectCells(claim);
    }

    /** The conflict count of lines 40-58, skipping the columns never
        created: every cell visited once, counted when more than one claim
        lists it. The cells are visited in no particular order, which does
        not change the count. */
    method CountConflicts() returns (claimConflicts: nat)
      ensures claimConflicts == |ConflictCells(cells)|
    {
      claimConflicts := 0;
      var grid := cells;
      var pending := grid.Keys;
      while pending != {}
        invariant pending <= grid.Keys
        invariant claimConflicts == |ConflictCells(grid) - pending|
        decreases |pending|
      {
        var position :| position in pending;
        ConflictCellsVisit(grid, pending, position);
        if IsElementIndex(position.0) && IsElementIndex(position.1) && |grid[position]| > 1 {
          claimConflicts := claimConflicts + 1;
        }
        pending := pending - {position};
      }
      assert ConflictCells(grid) - pending == ConflictCells(grid);
    }

    /** The loop of lines 68-77: the claims not in the conflict set, in
        input order. */
    method CollectUnconflicted(claimsArray: seq<Claim>) returns (unconflictedClaims: seq<Claim>)
      ensures unconflictedClaims == Unconflicted(claimsArray, claimsInConflict)
    {
      unconflictedClaims := [];
      for i := 0 to |claimsArray|
        invariant unconflictedClaims == Unconflicted(claimsArray[..i], claimsInConflict)
      {
        assert claimsArray[..i + 1][..i] == claimsArray[..i];
        if claimsArray[i].claimId !in claimsInConflict {
          unconflictedClaims := unconflictedClaims + [claimsArray[i]];
        }
      }
      assert claimsArray[..|claimsArray|] == claimsArray;
    }

    /** The inner loop of `registerClaim`, lines 109-112: the rows of one
        column of the rectangle. */
    method RegisterColumn(claim: Claim, originX: int, positionX: int, originY: int, endPositionY: int,
                          ghost start: map<Cell, seq<Claim>>)
      requires Valid() && originX <= positionX
      requires cells == PlaceIn(start, claim, Rect(originX, positionX, originY, endPositionY))
      modifies this
      ensures Valid()
      ensures cells == PlaceIn(start, claim, Rect(originX, positionX, originY, endPositionY) + Rect(positionX, positionX + 1, originY, endPositionY))
      ensures old(claimsInConflict) <= claimsInConflict
    {
      ghost var done := Rect(originX, positionX, originY, endPositionY);
      var positionY := originY;
      ghost var placed := done;
      RectEmpty(positionX, positionX + 1, originY, positionY);
      while positionY < endPositionY
        invariant Valid()
        invariant originY <= positionY
        invariant positionY <= endPositionY || positionY == originY
        invariant placed == done + Rect(positionX, positionX + 1, originY, positionY)
        invariant cells == PlaceIn(start, claim, placed)
        invariant old(claimsInConflict) <= claimsInConflict
        decreases endPositionY - positionY
      {
        RectAddCell(originX, positionX, originY, positionY, endPositionY);
        PlaceInAdd(start, claim, placed, (positionX, positionY));
        PlaceInAt(start, claim, placed, (positionX, positionY));
        AddClaimToPosition(claim, positionX, positionY);
        placed := placed + {(positionX, positionY)};
        positionY := positionY + 1;
      }
      if positionY != endPositionY {
        RectEmpty(positionX, positionX + 1, originY, positionY);
        RectEmpty(positionX, positionX + 1, originY, endPositionY);
      }
    }
  }

  /** Visiting one more cell adds one to the count exactly when it is a
      conflict. */
  lemma ConflictCellsVisit(cells: map<Cell, seq<Claim>>, pending: set<Cell>, p: Cell)
    requires p in pending && pending <= cells.Keys
    ensures |ConflictCells(cells) - (pending - {p})|
         == |ConflictCells(cells) - pending| + (if IsElementIndex(p.0) && IsElementIndex(p.1) && |cells[p]| > 1 then 1 else 0)
  {
    var counted := ConflictCells(cells) - pending;
    if IsElementIndex(p.0) && IsElementIndex(p.1) && |cells[p]| > 1 {
      assert ConflictCells(cells) - (pending - {p}) == counted + {p};
    } else {
      assert ConflictCells(cells) - (pending - {p}) == counted;
    }
  }

  lemma RectEmpty(a: int, b: int, c: int, d: int)
    requires b <= a || d <= c
    ensures Rect(a, b, c, d) == {}
  {
  }

  lemma RectAddColumn(a: int, px: int, c: int, d: int)
    requires a <= px
    ensures Rect(a, px, c, d) + Rect(px, px + 1, c, d) == Rect(a, px + 1, c, d)
  {
  }

  /** The inner loop adds the cell (px, py) to what it has covered, and that
      cell is new. */
  lemma RectAddCell(a: int, px: int, c: int, py: int, d: int)
    requires a <= px && c <= py
    ensures (px, py) !in Rect(a, px, c, d) + Rect(px, px + 1, c, py)
    ensures Rect(a, px, c, d) + Rect(px, px + 1, c, py) + {(px, py)} == Rect(a, px, c, d) + Rect(px, px + 1, c, py + 1)
  {
  }

  lemma PlaceInAt(cells: map<Cell, seq<Claim>>, claim: Claim, s: set<Cell>, p: Cell)
    requires p !in s
    ensures ListAt(PlaceIn(cells, claim, s), p) == ListAt(cells, p)
  {
    if p in cells {
      assert PlaceIn(cells, claim, s)[p] == cells[p] + [];
    }
  }

  /** The grid after registering the claims in turn. */
  function Grid(claims: seq<Claim>): map<Cell, seq<Claim>>
  {
    if claims == [] then map[] else Place(Grid(claims[..|claims| - 1]), claims[|claims| - 1])
  }

  /** The claims covering a cell, in registration order. */
  function Covering(claims: seq<Claim>, p: Cell): seq<Claim>
  {
    if claims == [] then []
    else Covering(claims[..|claims| - 1], p) + (if Covers(claims[|claims| - 1], p) then [claims[|claims| - 1]] else [])
  }

  /** Each cell of the grid lists exactly the claims covering it, in
      registration order, and a cell exists once some claim covers it. */
  lemma {:induction false} GridCovering(claims: seq<Claim>, p: Cell)
    ensures p in Grid(claims) <==> Covering(claims, p) != []
    ensures ListAt(Grid(claims), p) == Covering(claims, p)
  {
    if claims != [] {
      GridCovering(claims[..|claims| - 1], p);
      PlaceAt(Grid(claims[..|claims| - 1]), claims[|claims| - 1], p);
    }
  }

  /** The indices of the claims covering a cell. */
  function CoverSet(claims: seq<Claim>, p: Cell): set<nat>
  {
    set i: nat | i < |claims| && Covers(claims[i], p)
  }

  /** A cell's list is as long as the number of claims covering it. */
  lemma {:induction false} CoveringCount(claims: seq<Claim>, p: Cell)
    ensures |Covering(claims, p)| == |CoverSet(claims, p)|
  {
    if claims != [] {
      var n := |claims| - 1;
      var front := claims[..n];
      CoveringCount(front, p);
      if Covers(claims[n], p) {
        assert CoverSet(claims, p) == CoverSet(front, p) + {n};
      } else {
        assert CoverSet(claims, p) == CoverSet(front, p);
      }
    }
  }

  /** Where an entry of a cell's list comes from. */
  lemma {:induction false} CoveringSource(claims: seq<Claim>, p: Cell, k: nat) returns (i: nat)
    requires k < |Covering(claims, p)|
    ensures i < |claims| && claims[i] == Covering(claims, p)[k] && Covers(claims[i], p)
  {
    var n := |claims| - 1;
    var front := claims[..n];
    if k < |Covering(front, p)| {
      i := CoveringSource(front, p, k);
    } else {
      i := n;
    }
  }

  /** Where a covering claim sits in the cell's list. */
  lemma {:induction false} CoveringHas(claims: seq<Claim>, p: Cell, i: nat) returns (k: nat)
    requires i < |claims| && Covers(claims[i], p)
    ensures k < |Covering(claims, p)| && Covering(claims, p)[k] == claims[i]
  {
    var n := |claims| - 1;
    var front := claims[..n];
    if i < n {
      k := CoveringHas(front, p, i);
    } else {
      k := |Covering(front, p)|;
    }
  }

  /** A list of two or more at a cell covered by claim i holds some other
      claim covering that cell. */
  lemma {:induction false} OtherCover(claims: seq<Claim>, p: Cell, i: nat) returns (j: nat)
    requires i < |claims| && Covers(claims[i], p) && |Covering(claims, p)| > 1
    ensures j < |claims| && j != i && Covers(claims[j], p)
  {
    var n := |claims| - 1;
    var front := claims[..n];
    if i == n {
      j := CoveringSource(front, p, 0);
    } else if Covers(claims[n], p) {
      j := n;
    } else {
      j := OtherCover(front, p, i);
    }
  }

  /** Two different claims covering a cell make its list two or more long. */
  lemma {:induction false} TwoCovers(claims: seq<Claim>, p: Cell, i: nat, j: nat)
    requires i < j < |claims| && Covers(claims[i], p) && Covers(claims[j], p)
    ensures |Covering(claims, p)| > 1
  {
    var n := |claims| - 1;
    var front := claims[..n];
    if j == n {
      var _ := CoveringHas(front, p, i);
    } else {
      TwoCovers(front, p, i, j);
    }
  }

  /** Claim i shares some cell with another claim. */
  ghost predicate SharesCell(claims: seq<Claim>, i: nat)
    requires i < |claims|
  {
    exists j: nat, p: Cell | j < |claims| && j != i :: Covers(claims[i], p) && Covers(claims[j], p)
  }

  /** The conflict set of the grid holds exactly the IDs of the claims that
      share a cell with another claim. */
  lemma ConflictIdsShared(claims: seq<Claim>, id: Num)
    ensures id in ConflictIds(Grid(claims)) <==> exists i: nat | i < |claims| :: claims[i].claimId == id && SharesCell(claims, i)
  {
    var g := Grid(claims);
    if id in ConflictIds(g) {
      var p, k :| p in g && |g[p]| > 1 && 0 <= k < |g[p]| && g[p][k].claimId == id;
      GridCovering(claims, p);
      var i := CoveringSource(claims, p, k);
      var j := OtherCover(claims, p, i);
      assert SharesCell(claims, i);
    }
    if exists i: nat | i < |claims| :: claims[i].claimId == id && SharesCell(claims, i) {
      var i: nat :| i < |claims| && claims[i].claimId == id && SharesCell(claims, i);
      var j: nat, p: Cell :| j < |claims| && j != i && Covers(claims[i], p) && Covers(claims[j], p);
      if i < j { TwoCovers(claims, p, i, j); } else { TwoCovers(claims, p, j, i); }
      var k := CoveringHas(claims, p, i);
      GridCovering(claims, p);
      assert g[p][k].claimId == id;
    }
  }

  /** Registering a further claim never removes a conflict. */
  lemma ConflictIdsGrow(claims: seq<Claim>, claim: Claim)
    ensures ConflictIds(Grid(claims)) <= ConflictIds(Grid(claims + [claim]))
  {
    var more := claims + [claim];
    assert more[..|claims|] == claims;
    forall id | id in ConflictIds(Grid(claims)) ensures id in ConflictIds(Grid(more)) {
      ConflictIdsShared(claims, id);
      ConflictIdsShared(more, id);
      var i: nat :| i < |claims| && claims[i].claimId == id && SharesCell(claims, i);
      var j: nat, p: Cell :| j < |claims| && j != i && Covers(claims[i], p) && Covers(claims[j], p);
      assert more[i] == claims[i] && more[j] == claims[j];
      assert SharesCell(more, i);
    }
  }

  /** An array's length is below 2^32: only an index from 0 to 2^32 - 2 is
      an element. Any other index, negative or at least 2^32 - 1, makes a
      plain property, which neither `length`, `for ... of` nor `forEach`
      sees. */
  const ArrayIndexLimit := 4294967295

  predicate IsElementIndex(i: int)
  {
    0 <= i < ArrayIndexLimit
  }

  /** The cells the conflict count visits and counts: claimed more than once,
      at element indices in both dimensions. */
  function ConflictCells(cells: map<Cell, seq<Claim>>): set<Cell>
  {
    set p | p in cells && IsElementIndex(p.0) && IsElementIndex(p.1) && |cells[p]| > 1
  }

  /** `fabricAllocationMap.length`: one past the largest column that is an
      element index. */
  function ColumnCount(cells: map<Cell, seq<Claim>>): nat
  {
    var columns := set p | p in cells && IsElementIndex(p.0) :: p.0;
    if columns == {} then 0 else Keys.Max(columns) + 1
  }

  predicate HasColumn(cells: map<Cell, seq<Claim>>, x: int)
  {
    exists p | p in cells :: p.0 == x
  }

  function ColumnConflicts(cells: map<Cell, seq<Claim>>, x: int): nat
  {
    |set p | p in cells && p.0 == x && IsElementIndex(p.0) && IsElementIndex(p.1) && |cells[p]| > 1|
  }

  /** The loop of lines 45-58 as written: `for ... of` visits every index
      below the length, yielding `undefined` for a column never created, and
      `undefined.forEach` throws; None stands for that TypeError. */
  function ScanColumns(cells: map<Cell, seq<Claim>>, x: nat, length: nat): Option<nat>
    decreases length - x
  {
    if x >= length then Some(0)
    else if !HasColumn(cells, x) then None
    else
      match ScanColumns(cells, x + 1, length)
      case None => None
      case Some(n) => Some(ColumnConflicts(cells, x) + n)
  }

  function CountConflictsAsWritten(cells: map<Cell, seq<Claim>>): Option<nat>
  {
    ScanColumns(cells, 0, ColumnCount(cells))
  }

  /** The conflict cells in the columns from `x` up to `length`. */
  ghost function ConflictsFrom(cells: map<Cell, seq<Claim>>, x: int, length: int): set<Cell>
  {
    set p | p in ConflictCells(cells) && x <= p.0 < length
  }

  /** Over columns that all exist, the scan as written counts the conflict
      cells of those columns. */
  lemma {:induction false} ScanColumnsCounts(cells: map<Cell, seq<Claim>>, x: nat, length: nat)
    requires forall c | x <= c < length :: HasColumn(cells, c)
    ensures ScanColumns(cells, x, length) == Some(|ConflictsFrom(cells, x, length)|)
    decreases length - x
  {
    if x < length {
      ScanColumnsCounts(cells, x + 1, length);
      ConflictsFromSplit(cells, x, length);
    } else {
      assert ConflictsFrom(cells, x, length) == {};
    }
  }

  lemma ConflictsFromSplit(cells: map<Cell, seq<Claim>>, x: nat, length: int)
    requires x < length
    ensures |ConflictsFrom(cells, x, length)| == ColumnConflicts(cells, x) + |ConflictsFrom(cells, x + 1, length)|
  {
    var column := set p | p in cells && p.0 == x && IsElementIndex(p.0) && IsElementIndex(p.1) && |cells[p]| > 1;
    var later := ConflictsFrom(cells, x + 1, length);
    forall p | p in ConflictsFrom(cells, x, length)
      ensures p in column + later
    {
      if p.0 != x {
        assert p in later;
      }
    }
    assert ConflictsFrom(cells, x, length) == column + later;
    assert column * later == {};
  }

  /** Where the loop as written does not throw, because no column below the
      array's length is a hole, it counts what the corrected count does. */
  lemma CountConflictsAgree(cells: map<Cell, seq<Claim>>)
    requires forall c | 0 <= c < ColumnCount(cells) :: HasColumn(cells, c)
    ensures CountConflictsAsWritten(cells) == Some(|ConflictCells(cells)|)
  {
    ScanColumnsCounts(cells, 0, ColumnCount(cells));
    var columns := set p | p in cells && IsElementIndex(p.0) :: p.0;
    forall p | p in ConflictCells(cells)
      ensures p.0 < ColumnCount(cells)
    {
      assert p.0 in columns;
    }
    assert ConflictsFrom(cells, 0, ColumnCount(cells)) == ConflictCells(cells);
  }

  /** Claims that cover only columns outside the element indices make plain
      properties of the outer array: its length stays 0, so the loop as
      written counts nothing and does not throw, and neither does the
      corrected count. */
  lemma PlainPropertiesOnly(claims: seq<Claim>)
    requires forall i, q | 0 <= i < |claims| && Covers(claims[i], q) :: !IsElementIndex(q.0)
    ensures ConflictCells(Grid(claims)) == {} && CountConflictsAsWritten(Grid(claims)) == Some(0)
  {
    var g := Grid(claims);
    forall q | q in g
      ensures !IsElementIndex(q.0)
    {
      GridCovering(claims, q);
      CoveringCount(claims, q);
      var i :| i in CoverSet(claims, q);
    }
    assert (set q | q in g && IsElementIndex(q.0) :: q.0) == {};
  }

  /** Two claims on column 2^32 - 1 (`#1 @ 4294967295,0: 1x1` and
      `#2 @ 4294967295,0: 1x1`) share a cell, yet both counts are 0. */
  lemma BeyondLastIndex()
    ensures var g := Grid([Claim(Int(1), Int(ArrayIndexLimit), Int(0), Int(1), Int(1)),
                           Claim(Int(2), Int(ArrayIndexLimit), Int(0), Int(1), Int(1))]);
      && (ArrayIndexLimit, 0) in g && |g[(ArrayIndexLimit, 0)]| == 2
      && ConflictCells(g) == {} && CountConflictsAsWritten(g) == Some(0)
  {
    var c1 := Claim(Int(1), Int(ArrayIndexLimit), Int(0), Int(1), Int(1));
    var c2 := Claim(Int(2), Int(ArrayIndexLimit), Int(0), Int(1), Int(1));
    var claims := [c1, c2];
    var p := (ArrayIndexLimit, 0);
    assert Covers(c1, p) && Covers(c2, p);
    assert claims[..1] == [c1] && [c1][..0] == [];
    assert Covering([c1], p) == [c1];
    assert Covering(claims, p) == Covering([c1], p) + [c2];
    GridCovering(claims, p);
    PlainPropertiesOnly(claims);
  }

  /** A single claim away from column 0 (the text `#1 @ 1,0: 1x1`, see
      `HoleText`) leaves a hole at column 0: the loop as written throws,
      where the count evidently intended is 0. */
  lemma CountConflictsHole()
    ensures var g := Grid([Claim(Int(1), Int(1), Int(0), Int(1), Int(1))]);
      CountConflictsAsWritten(g) == None && ConflictCells(g) == {}
  {
    var c := Claim(Int(1), Int(1), Int(0), Int(1), Int(1));
    HoleGrid(c);
    HoleScan(map[(1, 0) := [c]]);
  }

  lemma HoleText()
    ensures GetClaimFromClaimText("#1 @ 1,0: 1x1") == Ok(Claim(Int(1), Int(1), Int(0), Int(1), Int(1)))
  {
    assert ClaimText("1", "1", "0", "1", "1") == "#1 @ 1,0: 1x1";
    ClaimTextRoundTrip("1", "1", "0", "1", "1");
    DigitsOne();
  }

  lemma DigitsOne()
    ensures DigitsValue("1") == 1 && DigitsValue("0") == 0
  {
    assert "1"[..0] == "" && "0"[..0] == "";
  }

  lemma HoleGrid(c: Claim)
    requires c == Claim(Int(1), Int(1), Int(0), Int(1), Int(1))
    ensures Grid([c]) == map[(1, 0) := [c]]
  {
    assert [c][..0] == [];
    assert Grid([c]) == Place(map[], c);
    assert RectCells(c) == {(1, 0)};
    var g := Place(map[], c);
    assert g.Keys == {(1, 0)};
    var m := map[(1, 0) := [c]];
    assert g[(1, 0)] == [] + [c] == m[(1, 0)];
    assert g.Keys == m.Keys;
    assert forall p | p in g :: g[p] == m[p];
  }

  lemma HoleScan(g: map<Cell, seq<Claim>>)
    requires g.Keys == {(1, 0)} && |g[(1, 0)]| == 1
    ensures CountConflictsAsWritten(g) == None && ConflictCells(g) == {}
  {
    assert (set p | p in g && IsElementIndex(p.0) :: p.0) == {1};
    assert ColumnCount(g) == 2;
    assert !HasColumn(g, 0);
  }

  /** The claims in input order whose ID is not in the conflict set
      (lines 68-77). */
  function Unconflicted(claims: seq<Claim>, conflicts: set<Num>): (r: seq<Claim>)
    ensures forall c :: c in r <==> c in claims && c.claimId !in conflicts
    ensures |r| <= |claims|
  {
    if claims == [] then []
    else
      var last := claims[|claims| - 1];
      var front := claims[..|claims| - 1];
      assert claims == front + [last];
      Unconflicted(front, conflicts) + (if last.claimId in conflicts then [] else [last])
  }

  /** The filter keeps the input order: it distributes over concatenation. */
  lemma {:induction false} UnconflictedConcat(a: seq<Claim>, b: seq<Claim>, conflicts: set<Num>)
    ensures Unconflicted(a + b, conflicts) == Unconflicted(a, conflicts) + Unconflicted(b, conflicts)
  {
    if b != [] {
      var n := |b| - 1;
      assert (a + b)[..|a + b| - 1] == a + b[..n];
      UnconflictedConcat(a, b[..n], conflicts);
    } else {
      assert a + b == a;
    }
  }

  /** With no conflicts every claim is kept. */
  lemma {:induction false} UnconflictedAll(claims: seq<Claim>, conflicts: set<Num>)
    requires forall i | 0 <= i < |claims| :: claims[i].claimId !in conflicts
    ensures Unconflicted(claims, conflicts) == claims
  {
    if claims != [] {
      var front, last := claims[..|claims| - 1], claims[|claims| - 1];
      assert front + [last] == claims;
      assert last.claimId !in conflicts;
      UnconflictedAll(front, conflicts);
    }
  }

  /** Line 32: every claim text converted. */
  function ClaimsOf(claimTexts: seq<string>): seq<Claim>
  {
    seq(|claimTexts|, i requires 0 <= i < |claimTexts| => GetClaimFromClaimText(claimTexts[i]).value)
  }

  /** `day03`, lines 24-86, from the claim texts onwards: the number of cells
      claimed more than once and the claims in no conflict. */
  method Day03(claimTexts: seq<string>) returns (claimConflicts: nat, unconflictedClaims: seq<Claim>)
    ensures claimConflicts == |ConflictCells(Grid(ClaimsOf(claimTexts)))|
    ensures unconflictedClaims == Unconflicted(ClaimsOf(claimTexts), ConflictIds(Grid(ClaimsOf(claimTexts))))
  {
    var claimsArray := ClaimsOf(claimTexts);
    claimConflicts, unconflictedClaims := ReportClaims(claimsArray);
  }

  /** Lines 35-77: register every claim, then count and filter. */
  method ReportClaims(claimsArray: seq<Claim>) returns (claimConflicts: nat, unconflictedClaims: seq<Claim>)
    ensures claimConflicts == |ConflictCells(Grid(claimsArray))|
    ensures unconflictedClaims == Unconflicted(claimsArray, ConflictIds(Grid(claimsArray)))
  {
    var fabric := new Fabric();
    for i := 0 to |claimsArray|
      invariant fabric.Valid()
      invariant fabric.cells == Grid(claimsArray[..i])
    {
      assert claimsArray[..i + 1][..i] == claimsArray[..i];
      fabric.RegisterClaim(claimsArray[i]);
    }
    assert claimsArray[..|claimsArray|] == claimsArray;
    claimConflicts := fabric.CountConflicts();
    unconflictedClaims := fabric.CollectUnconflicted(claimsArray);
  }
}
