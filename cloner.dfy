/** The cloner object (cloner.cpp): it draws `count` copies of its children, cycling through
    them, and places copy `i` according to its mode. Positions and angles are floating-point
    geometry and are not part of this model: a clone records which child it copies, its name and
    the placement it was given. */
module Clones {
  import opened Text

  /** The options of the MODE property, in their order. */
  datatype Mode = Linear | Grid | Radial | Path | Script | FillRandom

  /** The properties whose visibility depends on the mode. */
  datatype PropertyKey =
    | Code | Count | Count2D | Distance2D | Radius | PathReference
    | Start | End | Border | Align | Seed | Anchor

  /** The mode-controlled properties, as listed in update_property_visibility. */
  function ModeKeys(): seq<PropertyKey>
  {
    [Code, Count, Count2D, Distance2D, Radius, PathReference, Start, End, Border, Align, Seed, Anchor]
  }

  /** Every property key is one of the mode-controlled ones. */
  lemma ModeKeysComplete(k: PropertyKey)
    ensures k in ModeKeys()
  {
    match k
    case Code => assert ModeKeys()[0] == k;
    case Count => assert ModeKeys()[1] == k;
    case Count2D => assert ModeKeys()[2] == k;
    case Distance2D => assert ModeKeys()[3] == k;
    case Radius => assert ModeKeys()[4] == k;
    case PathReference => assert ModeKeys()[5] == k;
    case Start => assert ModeKeys()[6] == k;
    case End => assert ModeKeys()[7] == k;
    case Border => assert ModeKeys()[8] == k;
    case Align => assert ModeKeys()[9] == k;
    case Seed => assert ModeKeys()[10] == k;
    case Anchor => assert ModeKeys()[11] == k;
  }

  /** The visibility map of update_property_visibility: the properties each mode shows. */
  function VisibleKeys(mode: Mode): set<PropertyKey>
  {
    match mode
    case Linear => {Count, Distance2D}
    case Radial => {Count, Radius, Start, End, Align, Border}
    case Path => {Count, PathReference, Start, End, Align, Border, Anchor}
    case Script => {Count, Code}
    case FillRandom => {Count, PathReference, Seed, Anchor}
    case Grid => {Count2D, Distance2D}
  }

  /** The property the clone count is read from in `mode`. */
  function CountKey(mode: Mode): PropertyKey
  {
    if mode == Grid then Count2D else Count
  }

  /** The count of make_clones: the product of the two grid counts in Grid mode, the COUNT
      property otherwise. */
  function CloneCount(mode: Mode, count: nat, count2d: (nat, nat)): nat
  {
    if mode == Grid then count2d.0 * count2d.1 else count
  }

  /** The property the count is read from is always one the mode shows, and COUNT is shown in
      every mode except Grid. */
  lemma CountKeyVisible(mode: Mode)
    ensures CountKey(mode) in VisibleKeys(mode)
    ensures Count in VisibleKeys(mode) <==> mode != Grid
    ensures Count2D in VisibleKeys(mode) <==> mode == Grid
  {
  }

  // ---------------------------------------------------------------------------------------------
  // Grid placement (set_grid)

  /** The cell of clone `i` in a grid of `columns` columns: (column, row). */
  function GridCell(i: nat, columns: nat): (r: (nat, nat))
    requires columns > 0
    ensures r.0 < columns && r.1 * columns + r.0 == i
  {
    (i % columns, i / columns)
  }

  lemma MulMono(a: nat, b: nat, c: nat)
    requires a <= b
    ensures a * c <= b * c
  {
  }

  lemma MulAddRight(a: nat, t: nat, c: nat)
    ensures (a + t) * c == a * c + t * c
  {
  }

  /** Row-major positions are ordered by row first: a later row comes after every cell of an
      earlier one. */
  lemma RowMajorOrdered(r1: nat, c1: nat, r2: nat, c2: nat, columns: nat)
    requires c1 < columns && r1 < r2
    ensures r1 * columns + c1 < r2 * columns + c2
  {
    MulAddRight(r1, r2 - r1, columns);
    MulMono(1, r2 - r1, columns);
  }

  /** A row and a column inside the grid give one row-major index. */
  lemma RowMajorUnique(r1: nat, c1: nat, r2: nat, c2: nat, columns: nat)
    requires c1 < columns && c2 < columns
    requires r1 * columns + c1 == r2 * columns + c2
    ensures r1 == r2 && c1 == c2
  {
    if r1 < r2 {
      RowMajorOrdered(r1, c1, r2, c2, columns);
    } else if r2 < r1 {
      RowMajorOrdered(r2, c2, r1, c1, columns);
    }
  }

  /** Every clone of a `columns` by `rows` grid gets a cell inside the grid. */
  lemma GridCellInside(i: nat, columns: nat, rows: nat)
    requires columns > 0 && i < rows * columns
    ensures GridCell(i, columns).1 < rows
  {
    var cell := GridCell(i, columns);
    if cell.1 >= rows {
      MulMono(rows, cell.1, columns);
    }
  }

  /** Different clones get different cells. */
  lemma GridCellsDistinct(i: nat, j: nat, columns: nat)
    requires columns > 0 && i != j
    ensures GridCell(i, columns) != GridCell(j, columns)
  {
  }

  /** Every cell of a `columns` by `rows` grid is the cell of one of its clones. */
  lemma GridCellReached(c: nat, r: nat, columns: nat, rows: nat)
    requires c < columns && r < rows
    ensures r * columns + c < rows * columns
    ensures GridCell(r * columns + c, columns) == (c, r)
  {
    RowMajorOrdered(r, c, rows, 0, columns);
    var cell := GridCell(r * columns + c, columns);
    RowMajorUnique(cell.1, cell.0, r, c, columns);
  }

  // ---------------------------------------------------------------------------------------------
  // Clones

  /** Where a clone was put: the original transformation of its child, `index` steps of the
      distance vector, a grid cell, the circle point for `get_t(index)`, the point of the
      referenced path object for `get_t(index)`, wherever the script put it, or a random point
      of the referenced area object. */
  datatype Placement =
    | Unplaced
    | Offset(index: nat)
    | Cell(column: nat, row: nat)
    | OnCircle(index: nat)
    | OnPath(index: nat)
    | ByScript(index: nat)
    | AtRandom

  /** A copy of child `source`, which carries that child's name. */
  datatype Clone = Clone(source: nat, name: string, placement: Placement)

  /** The placement make_clones gives clone `i` in `mode`; `pathObject` says whether the
      PATH_REFERENCE property refers to an object. Without one, set_path and set_fillrandom
      return without touching the clone. */
  function Placed(mode: Mode, i: nat, count2d: (nat, nat), pathObject: bool): (p: Placement)
    requires mode == Grid ==> i < count2d.1 * count2d.0
    ensures p == Unplaced <==> (mode == Path || mode == FillRandom) && !pathObject
  {
    match mode
    case Linear => Offset(i)
    case Grid => var cell := GridCell(i, count2d.0); Cell(cell.0, cell.1)
    case Radial => OnCircle(i)
    case Path => if pathObject then OnPath(i) else Unplaced
    case Script => ByScript(i)
    case FillRandom => if pathObject then AtRandom else Unplaced
  }

  /** The name convert gives the `i`-th adopted clone: its own name, a space and `i`. */
  function Numbered(name: string, i: nat): string
  {
    name + " " + NatToString(i)
  }

  /** Numbered names of different clones differ, whatever the clones' own names. */
  lemma NumberedInjective(a: string, i: nat, b: string, j: nat)
    requires Numbered(a, i) == Numbered(b, j)
    ensures i == j && a == b
  {
    NatToStringDigits(i);
    NatToStringDigits(j);
    if |NatToString(i)| <= |NatToString(j)| {
      SuffixEqual(a, NatToString(i), b, NatToString(j));
    } else {
      SuffixEqual(b, NatToString(j), a, NatToString(i));
    }
    if i != j {
      NatToStringInjective(i, j);
    }
  }

  /** Two texts ending in a space and a run of digits split at the same place. */
  lemma SuffixEqual(a: string, d: string, b: string, e: string)
    requires AllDigits(d) && AllDigits(e) && |d| <= |e|
    requires a + " " + d == b + " " + e
    ensures d == e && a == b
  {
    var s := a + " " + d;
    var k := |s| - |d| - 1;
    assert s[k] == ' ';
    if |d| < |e| {
      assert false;
    }
    assert d == s[k + 1..] == e;
    assert a == s[..k] == b;
  }

  /** The result of copy_children(n) for these children: `n` clones, clone `i` copying child
      `i mod |children|`, or none at all when there are no children or `n` is 0. */
  ghost predicate ChildCopies(children: seq<string>, n: nat, r: seq<Clone>)
  {
    && |r| == (if |children| > 0 then n else 0)
    && forall i :: 0 <= i < |r| ==>
      r[i].source == i % |children| && r[i].name == children[i % |children|]
  }

  /** Every child is copied as soon as there are at least as many clones as children. */
  lemma EveryChildCopied(children: seq<string>, n: nat, r: seq<Clone>, c: nat)
    requires ChildCopies(children, n, r) && c < |children| <= n
    ensures exists i :: 0 <= i < |r| && r[i].source == c
  {
    assert r[c].source == c % |children| == c;
  }

  /** The result of make_clones: the copies of copy_children(count()) placed by the mode. */
  ghost predicate MadeClones(children: seq<string>, mode: Mode, count: nat, count2d: (nat, nat), pathObject: bool, r: seq<Clone>)
  {
    && |r| == (if |children| > 0 then CloneCount(mode, count, count2d) else 0)
    && forall i :: 0 <= i < |r| ==>
      && r[i].source == i % |children| && r[i].name == children[i % |children|]
      && (mode == Grid ==> i < count2d.1 * count2d.0)
      && r[i].placement == Placed(mode, i, count2d, pathObject)
  }

  /** The parameter of get_t: 0 when there are fewer than two steps, otherwise the point `i` of
      `n` evenly spaced from start to end, which apply_border then maps (apply_border is not part
      of this model). */
  datatype TValue = Zero | Bordered(raw: real)

  /** get_t(i, inclusive) with the COUNT, START and END properties given. */
  function GetT(count: int, inclusive: bool, i: nat, start: real, end: real): (r: TValue)
    ensures count + (if inclusive then 0 else 1) <= 1 <==> r == Zero
  {
    var n := count + (if inclusive then 0 else 1);
    if n <= 1 then Zero
    else Bordered(start + (end - start) / ((n - 1) as real) * (i as real))
  }

  /** With at least two steps the first clone is at the start and, when inclusive, the last one
      at the end; when not inclusive, the end is one step after the last clone. */
  lemma GetTEnds(count: int, inclusive: bool, start: real, end: real)
    requires count + (if inclusive then 0 else 1) > 1
    ensures GetT(count, inclusive, 0, start, end) == Bordered(start)
    ensures count >= 1 ==> GetT(count, inclusive, count - 1 + (if inclusive then 0 else 1), start, end) == Bordered(end)
  {
    var n := count + (if inclusive then 0 else 1);
    var m := (n - 1) as real;
    assert (end - start) / m * m == end - start;
  }

  class Cloner {
    var mode: Mode
    /** The COUNT property (its range is 0 to the largest int). */
    var count: nat
    /** The COUNT_2D property: columns and rows. */
    var count2d: (nat, nat)
    /** Whether the PATH_REFERENCE property refers to an object (the path or area to fill). */
    var pathObject: bool
    /** The names of the children, in order. */
    var children: seq<string>
    var clones: seq<Clone>
    var drawChildren: bool
    /** The visibility of the mode-controlled properties. */
    var visible: map<PropertyKey, bool>

    /** A new cloner: Linear mode, COUNT 3, COUNT_2D 3 by 3, no children; polish has set the
        visibility for Linear mode and updated the clones. */
    constructor (active: bool)
      ensures mode == Linear && count == 3 && count2d == (3, 3) && children == [] && !pathObject
      ensures clones == [] && drawChildren == !active
      ensures forall k :: k in visible && visible[k] == (k in VisibleKeys(Linear))
    {
      mode := Linear;
      count := 3;
      count2d := (3, 3);
      pathObject := false;
      children := [];
      clones := [];
      drawChildren := true;
      visible := map[];
      new;
      UpdatePropertyVisibility(Linear);
      Update(active);
    }

    /** update_property_visibility: every mode-controlled property is shown exactly when the
        mode's set lists it. */
    method UpdatePropertyVisibility(m: Mode)
      modifies this`visible
      ensures forall k :: k in visible && visible[k] == (k in VisibleKeys(m))
    {
      var keys := ModeKeys();
      var i := 0;
      while i < |keys|
        invariant 0 <= i <= |keys|
        invariant forall j :: 0 <= j < i ==> keys[j] in visible && visible[keys[j]] == (keys[j] in VisibleKeys(m))
      {
        visible := visible[keys[i] := keys[i] in VisibleKeys(m)];
        i := i + 1;
      }
      forall k
        ensures k in visible && visible[k] == (k in VisibleKeys(m))
      {
        ModeKeysComplete(k);
      }
    }

    /** copy_children(n): the push_back loop over `n` clones, cycling through the children. */
    method CopyChildren(n: nat) returns (r: seq<Clone>)
      ensures ChildCopies(children, n, r)
      ensures n == 0 ==> r == []
    {
      r := [];
      var nChildren := |children|;
      if nChildren > 0 && n > 0 {
        var i := 0;
        while i < n
          invariant 0 <= i <= n && |r| == i
          invariant forall j :: 0 <= j < i ==> r[j].source == j % nChildren && r[j].name == children[j % nChildren]
        {
          r := r + [Clone(i % nChildren, children[i % nChildren], Unplaced)];
          i := i + 1;
        }
      }
    }

    /** make_clones: copy_children(count()), then each clone placed according to the mode. */
    method MakeClones() returns (r: seq<Clone>)
      ensures MadeClones(children, mode, count, count2d, pathObject, r)
    {
      var n := if mode == Grid then count2d.0 * count2d.1 else count;
      var copies := CopyChildren(n);
      r := [];
      var i := 0;
      while i < |copies|
        invariant 0 <= i <= |copies| && |r| == i
        invariant forall j :: 0 <= j < i ==>
          && r[j].source == copies[j].source && r[j].name == copies[j].name
          && (mode == Grid ==> j < count2d.1 * count2d.0)
          && r[j].placement == Placed(mode, j, count2d, pathObject)
      {
        var placement := PlaceClone(i);
        r := r + [copies[i].(placement := placement)];
        i := i + 1;
      }
    }

    /** The switch over the mode in make_clones' loop: where clone `i` goes. */
    method PlaceClone(i: nat) returns (p: Placement)
      requires mode == Grid ==> i < count2d.1 * count2d.0
      ensures p == Placed(mode, i, count2d, pathObject)
    {
      p := match mode
        case Linear => Offset(i)
        case Grid => Cell(i % count2d.0, i / count2d.0)
        case Radial => OnCircle(i)
        case Path => if pathObject then OnPath(i) else Unplaced
        case Script => ByScript(i)
        case FillRandom => if pathObject then AtRandom else Unplaced;
    }

    /** update: an active cloner replaces its clones by fresh ones and hides its children; an
        inactive one drops its clones and draws its children. */
    method Update(active: bool)
      modifies this`clones, this`drawChildren
      ensures active ==> MadeClones(children, mode, count, count2d, pathObject, clones) && !drawChildren
      ensures !active ==> clones == [] && drawChildren
    {
      if active {
        clones := MakeClones();
        drawChildren := false;
      } else {
        clones := [];
        drawChildren := true;
      }
    }

    /** A change of the MODE property: the visibility follows the new mode, then update. */
    method SetMode(m: Mode, active: bool)
      modifies this`mode, this`visible, this`clones, this`drawChildren
      ensures mode == m
      ensures forall k :: k in visible && visible[k] == (k in VisibleKeys(m))
      ensures active ==> MadeClones(children, m, count, count2d, pathObject, clones) && !drawChildren
      ensures !active ==> clones == [] && drawChildren
    {
      mode := m;
      UpdatePropertyVisibility(m);
      Update(active);
    }

    /** on_property_value_changed for PATH_REFERENCE: the reference now refers to an object or
        not, and the clones are made again. */
    method SetPathReference(refersToObject: bool, active: bool)
      modifies this`pathObject, this`clones, this`drawChildren
      ensures pathObject == refersToObject
      ensures active ==> MadeClones(children, mode, count, count2d, refersToObject, clones) && !drawChildren
      ensures !active ==> clones == [] && drawChildren
    {
      pathObject := refersToObject;
      Update(active);
    }

    /** convert: the clones adopted by the new object are named after themselves and their
        position among the clones. */
    method ConvertNames() returns (names: seq<string>)
      ensures |names| == |clones|
      ensures forall i :: 0 <= i < |names| ==> names[i] == Numbered(clones[i].name, i)
      ensures forall i, j :: 0 <= i < j < |names| ==> names[i] != names[j]
    {
      names := [];
      var i := 0;
      while i < |clones|
        invariant 0 <= i <= |clones| && |names| == i
        invariant forall j :: 0 <= j < i ==> names[j] == Numbered(clones[j].name, j)
      {
        names := names + [clones[i].name + " " + NatToString(i)];
        i := i + 1;
      }
      forall i, j | 0 <= i < j < |names|
        ensures names[i] != names[j]
      {
        if names[i] == names[j] {
          NumberedInjective(clones[i].name, i, clones[j].name, j);
        }
      }
    }
  }
}
