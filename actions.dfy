/** Point and object actions of the main window (actions.cpp): selecting, deselecting and
    inverting the points of the selected paths, grouping the selected points into contiguous
    ranges for removal, collecting the tangent changes of `make_linear`/`make_smooth`, and the
    order in which `convert_objects` converts nested objects. Commands submitted to the scene are
    returned as values. */
module Actions {
  import opened Wrappers

  /** A path point: its selection flag and the rest of its geometry (positions and tangents, which
      these actions carry along without computing with them). */
  datatype Point = Point(isSelected: bool, geometry: nat)

  /** A path: segments of points, edited in place. */
  class Path {
    var segments: seq<seq<Point>>
    const isClosed: bool

    constructor (segments: seq<seq<Point>>, isClosed: bool)
      ensures this.segments == segments && this.isClosed == isClosed
    {
      this.segments := segments;
      this.isClosed := isClosed;
    }
  }

  /** The selection of paths, a std::set: no path twice. */
  predicate Distinct(paths: seq<Path>)
  {
    forall i, j :: 0 <= i < j < |paths| ==> paths[i] != paths[j]
  }

  // ---------------------------------------------------------------------------------------------
  // select_all, deselect_all, invert_selection

  datatype SelectionChange = SelectAll | DeselectAll | InvertSelection

  /** The new flag of one point. */
  function Flip(change: SelectionChange, selected: bool): bool
  {
    match change
    case SelectAll => true
    case DeselectAll => false
    case InvertSelection => !selected
  }

  function ChangeSegment(change: SelectionChange, segment: seq<Point>): (r: seq<Point>)
    ensures |r| == |segment|
  {
    seq(|segment|, i requires 0 <= i < |segment| => segment[i].(isSelected := Flip(change, segment[i].isSelected)))
  }

  /** Every point's flag changed, nothing else about the path. */
  function ChangePoints(change: SelectionChange, segments: seq<seq<Point>>): (r: seq<seq<Point>>)
    ensures |r| == |segments|
  {
    seq(|segments|, s requires 0 <= s < |segments| => ChangeSegment(change, segments[s]))
  }

  /** After select_all every point is selected, after deselect_all none is, and both keep each
      point's geometry. */
  lemma SelectAllSelects(segments: seq<seq<Point>>, change: SelectionChange)
    requires change != InvertSelection
    ensures var r := ChangePoints(change, segments);
      forall s, i :: 0 <= s < |r| && 0 <= i < |r[s]| ==>
        |r[s]| == |segments[s]|
        && r[s][i].isSelected == (change == SelectAll)
        && r[s][i].geometry == segments[s][i].geometry
  {
  }

  /** select_all and deselect_all are idempotent. */
  lemma {:induction false} SelectIdempotent(segments: seq<seq<Point>>, change: SelectionChange)
    requires change != InvertSelection
    ensures ChangePoints(change, ChangePoints(change, segments)) == ChangePoints(change, segments)
  {
    var once := ChangePoints(change, segments);
    forall s | 0 <= s < |segments| ensures ChangeSegment(change, once[s]) == once[s] {
      assert |ChangeSegment(change, once[s])| == |once[s]|;
    }
  }

  /** invert_selection twice gives back the original selection. */
  lemma {:induction false} InvertTwice(segments: seq<seq<Point>>)
    ensures ChangePoints(InvertSelection, ChangePoints(InvertSelection, segments)) == segments
  {
    var once := ChangePoints(InvertSelection, segments);
    forall s | 0 <= s < |segments| ensures ChangeSegment(InvertSelection, once[s]) == segments[s] {
      var t := ChangeSegment(InvertSelection, once[s]);
      assert |t| == |segments[s]|;
      forall i | 0 <= i < |t| ensures t[i] == segments[s][i] {
      }
    }
  }

  /** The flags of one path's points, changed point by point in iteration order. */
  method ChangePath(path: Path, change: SelectionChange)
    modifies path`segments
    ensures path.segments == ChangePoints(change, old(path.segments))
  {
    ghost var original := path.segments;
    var s := 0;
    while s < |path.segments|
      invariant 0 <= s <= |path.segments| && |path.segments| == |original|
      invariant forall k :: 0 <= k < s ==> path.segments[k] == ChangeSegment(change, original[k])
      invariant forall k :: s <= k < |original| ==> path.segments[k] == original[k]
    {
      var segment := path.segments[s];
      var i := 0;
      while i < |segment|
        invariant 0 <= i <= |segment| && |segment| == |original[s]|
        invariant forall j :: 0 <= j < i ==> segment[j] == ChangeSegment(change, original[s])[j]
        invariant forall j :: i <= j < |segment| ==> segment[j] == original[s][j]
      {
        segment := segment[i := segment[i].(isSelected := Flip(change, segment[i].isSelected))];
        i := i + 1;
      }
      assert segment == ChangeSegment(change, original[s]);
      path.segments := path.segments[s := segment];
      s := s + 1;
    }
    assert path.segments == ChangePoints(change, original);
  }

  /** select_all, deselect_all, invert_selection: the change applied to every point of every
      selected path. */
  method ChangeSelection(paths: seq<Path>, change: SelectionChange)
    requires Distinct(paths)
    modifies set p | p in paths
    ensures forall j :: 0 <= j < |paths| ==> paths[j].segments == ChangePoints(change, old(paths[j].segments))
  {
    var j := 0;
    while j < |paths|
      invariant 0 <= j <= |paths|
      invariant forall k :: 0 <= k < j ==> paths[k].segments == ChangePoints(change, old(paths[k].segments))
      invariant forall k :: j <= k < |paths| ==> paths[k].segments == old(paths[k].segments)
    {
      ChangePath(paths[j], change);
      j := j + 1;
    }
  }

  // ---------------------------------------------------------------------------------------------
  // remove_selected_points

  /** A point of a path (Path::iterator without the path). */
  datatype Position = Position(segment: nat, point: nat)

  /** A run of `length` points starting at `start` (RemovePointsCommand::Range). */
  datatype Range = Range(start: Position, length: nat)

  /** The selected points among the first `n` of segment `s`. */
  function SelectedIn(segment: seq<Point>, s: nat, n: nat): seq<Position>
    requires n <= |segment|
  {
    if n == 0 then []
    else SelectedIn(segment, s, n - 1) + (if segment[n - 1].isSelected then [Position(s, n - 1)] else [])
  }

  /** The selected points of the first `n` segments, in iteration order. */
  function SelectedUpTo(segments: seq<seq<Point>>, n: nat): seq<Position>
    requires n <= |segments|
  {
    if n == 0 then []
    else SelectedUpTo(segments, n - 1) + SelectedIn(segments[n - 1], n - 1, |segments[n - 1]|)
  }

  /** The selected points of a path, in iteration order. */
  function Selected(segments: seq<seq<Point>>): seq<Position>
  {
    SelectedUpTo(segments, |segments|)
  }

  /** is_contiguos: the next point of the same segment as the last selected one. */
  predicate Contiguous(last: Position, p: Position)
  {
    p.segment == last.segment && p.point == last.point + 1
  }

  /** The ranges of remove_selected_points: a selected point extends the last range when it
      follows the last selected point, otherwise it opens a range of one. */
  function Group(ps: seq<Position>): (r: seq<Range>)
    ensures |r| == 0 <==> ps == []
  {
    if ps == [] then []
    else
      var rs := Group(ps[..|ps| - 1]);
      var p := ps[|ps| - 1];
      if |ps| >= 2 && Contiguous(ps[|ps| - 2], p) then
        rs[..|rs| - 1] + [rs[|rs| - 1].(length := rs[|rs| - 1].length + 1)]
      else rs + [Range(p, 1)]
  }

  /** The points a range stands for. */
  function Expand(r: Range): (ps: seq<Position>)
    decreases r.length
    ensures |ps| == r.length
  {
    if r.length == 0 then []
    else Expand(r.(length := r.length - 1)) + [Position(r.start.segment, r.start.point + r.length - 1)]
  }

  /** The points a list of ranges stands for, in order. */
  function Expansion(rs: seq<Range>): seq<Position>
  {
    if rs == [] then [] else Expansion(rs[..|rs| - 1]) + Expand(rs[|rs| - 1])
  }

  /** The sum of the range lengths. */
  function TotalLength(rs: seq<Range>): nat
  {
    if rs == [] then 0 else TotalLength(rs[..|rs| - 1]) + rs[|rs| - 1].length
  }

  /** Every range has at least one point, and the last range ends at the last selected point. */
  lemma {:induction false} GroupShape(ps: seq<Position>)
    ensures forall k :: 0 <= k < |Group(ps)| ==> Group(ps)[k].length >= 1
    ensures ps != [] ==>
      var last := Group(ps)[|Group(ps)| - 1];
      last.start.segment == ps[|ps| - 1].segment && last.start.point + last.length == ps[|ps| - 1].point + 1
  {
    if ps != [] {
      GroupShape(ps[..|ps| - 1]);
    }
  }

  lemma ExpansionSnoc(rs: seq<Range>, r: Range)
    ensures Expansion(rs + [r]) == Expansion(rs) + Expand(r)
  {
    assert (rs + [r])[..|rs|] == rs;
  }

  /** A range one longer stands for one more point, the next one of its segment. */
  lemma ExpandGrow(r: Range)
    ensures Expand(r.(length := r.length + 1)) == Expand(r) + [Position(r.start.segment, r.start.point + r.length)]
  {
    assert r.(length := r.length + 1).(length := r.length) == r;
  }

  /** Lengthening the last range by one adds the point after it. */
  lemma ExtendLast(init: seq<Range>, r: Range, p: Position)
    requires p == Position(r.start.segment, r.start.point + r.length)
    ensures Expansion(init + [r.(length := r.length + 1)]) == Expansion(init + [r]) + [p]
  {
    ExpansionSnoc(init, r);
    ExpansionSnoc(init, r.(length := r.length + 1));
    ExpandGrow(r);
    AppendAssocPositions(Expansion(init), Expand(r), [p]);
  }

  /** Any other point opens a range of its own. */
  lemma GroupOpen(front: seq<Position>, p: Position)
    requires front == [] || !Contiguous(front[|front| - 1], p)
    ensures Expansion(Group(front + [p])) == Expansion(Group(front)) + [p]
  {
    var ps := front + [p];
    assert ps[..|ps| - 1] == front;
    assert Group(ps) == Group(front) + [Range(p, 1)] by {
      if front != [] {
        assert ps[|ps| - 2] == front[|front| - 1];
      }
    }
    ExpansionSnoc(Group(front), Range(p, 1));
    assert Expand(Range(p, 1)) == [p];
  }

  /** A point that follows the last one extends the last range. */
  lemma GroupExtend(ps: seq<Position>)
    requires |ps| >= 2 && Contiguous(ps[|ps| - 2], ps[|ps| - 1])
    ensures Expansion(Group(ps)) == Expansion(Group(ps[..|ps| - 1])) + [ps[|ps| - 1]]
  {
    var front := ps[..|ps| - 1];
    var p := ps[|ps| - 1];
    assert front[|front| - 1] == ps[|ps| - 2];
    GroupShape(front);
    var rs := Group(front);
    var last := rs[|rs| - 1];
    assert Group(ps) == rs[..|rs| - 1] + [last.(length := last.length + 1)];
    assert rs[..|rs| - 1] + [last] == rs;
    ExtendLast(rs[..|rs| - 1], last, p);
  }

  /** The ranges stand for exactly the selected points, in order. */
  lemma {:induction false} GroupExpands(ps: seq<Position>)
    ensures Expansion(Group(ps)) == ps
  {
    if ps != [] {
      var front := ps[..|ps| - 1];
      var p := ps[|ps| - 1];
      assert front + [p] == ps;
      GroupExpands(front);
      if front != [] && Contiguous(front[|front| - 1], p) {
        assert ps[|ps| - 2] == front[|front| - 1];
        GroupExtend(ps);
      } else {
        GroupOpen(front, p);
      }
    }
  }

  /** The range lengths add up to the number of points the ranges stand for. */
  lemma {:induction false} TotalLengthExpansion(rs: seq<Range>)
    ensures TotalLength(rs) == |Expansion(rs)|
  {
    if rs != [] {
      TotalLengthExpansion(rs[..|rs| - 1]);
    }
  }

  /** The lengths of the ranges of a path add up to its number of selected points. */
  lemma RangesCount(ps: seq<Position>)
    ensures TotalLength(Group(ps)) == |ps|
  {
    GroupExpands(ps);
    TotalLengthExpansion(Group(ps));
  }

  /** The last of a run of selected points, if any. */
  function LastOf(ps: seq<Position>): (r: Option<Position>)
    ensures r.Some? <==> ps != []
  {
    if ps == [] then None else Some(ps[|ps| - 1])
  }

  /** One selected point met by remove_selected_points: it extends the last range when it follows
      the last selected point, otherwise it opens a range of one. */
  method AddPoint(ranges: seq<Range>, last: Option<Position>, p: Position, ghost ps: seq<Position>)
      returns (ranges': seq<Range>, last': Option<Position>)
    requires ranges == Group(ps) && last == LastOf(ps)
    ensures ranges' == Group(ps + [p]) && last' == LastOf(ps + [p])
  {
    ghost var ps' := ps + [p];
    assert ps'[..|ps'| - 1] == ps;
    if last.Some? && Contiguous(last.value, p) {
      ranges' := ranges[..|ranges| - 1] + [ranges[|ranges| - 1].(length := ranges[|ranges| - 1].length + 1)];
    } else {
      ranges' := ranges + [Range(p, 1)];
    }
    last' := Some(p);
  }

  /** The loop over the points of segment `s`, continuing the ranges of the points before it. */
  method SegmentRanges(segment: seq<Point>, s: nat, ranges0: seq<Range>, last0: Option<Position>, ghost front: seq<Position>)
      returns (ranges: seq<Range>, last: Option<Position>)
    requires ranges0 == Group(front) && last0 == LastOf(front)
    ensures ranges == Group(front + SelectedIn(segment, s, |segment|))
    ensures last == LastOf(front + SelectedIn(segment, s, |segment|))
  {
    ranges, last := ranges0, last0;
    ghost var ps := front;
    assert front + SelectedIn(segment, s, 0) == ps;
    var i := 0;
    while i < |segment|
      invariant 0 <= i <= |segment|
      invariant ps == front + SelectedIn(segment, s, i)
      invariant ranges == Group(ps) && last == LastOf(ps)
    {
      if segment[i].isSelected {
        var p := Position(s, i);
        ranges, last := AddPoint(ranges, last, p, ps);
        AppendAssocPositions(front, SelectedIn(segment, s, i), [p]);
        ps := ps + [p];
      } else {
        assert SelectedIn(segment, s, i + 1) == SelectedIn(segment, s, i) + [];
      }
      i := i + 1;
    }
  }

  /** The loop over a path's points in remove_selected_points, tracking the last selected point. */
  method RangesOf(path: Path) returns (ranges: seq<Range>)
    ensures ranges == Group(Selected(path.segments))
  {
    var segments := path.segments;
    ranges := [];
    var last: Option<Position> := None;
    var s := 0;
    while s < |segments|
      invariant 0 <= s <= |segments|
      invariant ranges == Group(SelectedUpTo(segments, s))
      invariant last == LastOf(SelectedUpTo(segments, s))
    {
      ranges, last := SegmentRanges(segments[s], s, ranges, last, SelectedUpTo(segments, s));
      s := s + 1;
    }
  }

  lemma AppendAssocPositions(a: seq<Position>, b: seq<Position>, c: seq<Position>)
    ensures a + b + c == a + (b + c)
  {
  }

  /** A removal command: the path and its ranges. */
  datatype RemoveCommand = RemoveCommand(path: Path, ranges: seq<Range>)

  /** The commands of remove_selected_points: one per selected path that has selected points. */
  function RemoveCommands(paths: seq<Path>): seq<RemoveCommand>
    reads set p | p in paths
  {
    if paths == [] then []
    else
      var p := paths[|paths| - 1];
      var ranges := Group(Selected(p.segments));
      RemoveCommands(paths[..|paths| - 1]) + (if ranges == [] then [] else [RemoveCommand(p, ranges)])
  }

  /** remove_selected_points: the ranges of every selected path, submitted when there are any,
      all under one macro that is started with the first command. */
  method RemoveSelectedPoints(paths: seq<Path>) returns (commands: seq<RemoveCommand>, macroStarted: bool)
    ensures commands == RemoveCommands(paths)
    ensures macroStarted <==> commands != []
  {
    commands := [];
    macroStarted := false;
    var j := 0;
    while j < |paths|
      invariant 0 <= j <= |paths|
      invariant commands == RemoveCommands(paths[..j])
      invariant macroStarted <==> commands != []
    {
      assert paths[..j + 1][..j] == paths[..j];
      var ranges := RangesOf(paths[j]);
      if ranges != [] {
        commands := commands + [RemoveCommand(paths[j], ranges)];
        if !macroStarted {
          macroStarted := true;
        }
      }
      j := j + 1;
    }
    assert paths[..j] == paths;
  }

  /** Every submitted command covers exactly its path's selected points, in ranges of at least one
      point whose lengths add up to their number; a path without selected points gets none. */
  lemma RemoveCommandsSpec(paths: seq<Path>, k: nat)
    requires k < |RemoveCommands(paths)|
    ensures var c := RemoveCommands(paths)[k];
      && c.path in paths
      && c.ranges == Group(Selected(c.path.segments))
      && Expansion(c.ranges) == Selected(c.path.segments)
      && Selected(c.path.segments) != []
      && TotalLength(c.ranges) == |Selected(c.path.segments)|
      && forall r :: r in c.ranges ==> r.length >= 1
  {
    var c := RemoveCommandAt(paths, k);
    GroupExpands(Selected(c.path.segments));
    GroupShape(Selected(c.path.segments));
    RangesCount(Selected(c.path.segments));
  }

  lemma {:induction false} RemoveCommandAt(paths: seq<Path>, k: nat) returns (c: RemoveCommand)
    requires k < |RemoveCommands(paths)|
    ensures c == RemoveCommands(paths)[k]
    ensures c.path in paths && c.ranges == Group(Selected(c.path.segments)) && c.ranges != []
  {
    var front := paths[..|paths| - 1];
    if k < |RemoveCommands(front)| {
      c := RemoveCommandAt(front, k);
    } else {
      c := RemoveCommands(paths)[k];
    }
  }

  // ---------------------------------------------------------------------------------------------
  // modify_tangents (make_linear, make_smooth)

  datatype InterpolationMode = Bezier | Smooth | Linear

  /** A point of a given path (Path::iterator). */
  datatype PathPosition = PathPosition(path: Path, segment: nat, point: nat)

  /** The replacement of a point: Path::smoothen_point of its segment, or the point with its
      tangents nibbed (the geometry of either is not part of this model). */
  datatype NewPoint = Smoothened(segment: seq<Point>, isClosed: bool, index: nat) | Nibbed(point: Point)

  /** The replacement `mode` gives the point at `(s, i)` of `path`. */
  function Replacement(mode: InterpolationMode, path: Path, s: nat, i: nat): NewPoint
    reads path
    requires s < |path.segments| && i < |path.segments[s]|
  {
    if mode == Smooth then Smoothened(path.segments[s], path.isClosed, i) else Nibbed(path.segments[s][i])
  }

  /** The map of modify_tangents holds a replacement for exactly the selected points of the
      selected paths, and none at all in Bezier mode. */
  ghost predicate TangentMap(mode: InterpolationMode, paths: seq<Path>, m: map<PathPosition, NewPoint>)
    reads set p | p in paths
  {
    && (forall key :: key in m ==>
      && mode != Bezier
      && key.path in paths
      && key.segment < |key.path.segments|
      && key.point < |key.path.segments[key.segment]|
      && key.path.segments[key.segment][key.point].isSelected)
    && (forall j, s, i ::
          (0 <= j < |paths| && 0 <= s < |paths[j].segments| && 0 <= i < |paths[j].segments[s]|
           && mode != Bezier && paths[j].segments[s][i].isSelected)
          ==> PathPosition(paths[j], s, i) in m)
  }

  ghost predicate TangentValues(mode: InterpolationMode, paths: seq<Path>, m: map<PathPosition, NewPoint>)
    reads set p | p in paths
    requires TangentMap(mode, paths, m)
  {
    forall key :: key in m ==> m[key] == Replacement(mode, key.path, key.segment, key.point)
  }

  /** modify_tangents: the replacements of the selected points; the commands (reset of the
      interpolation property to Bezier and the point modification) are submitted only when the map
      is not empty. */
  method ModifyTangents(mode: InterpolationMode, paths: seq<Path>) returns (m: map<PathPosition, NewPoint>, submitted: bool)
    ensures TangentMap(mode, paths, m) && TangentValues(mode, paths, m)
    ensures submitted <==> m != map[]
    ensures mode == Bezier ==> !submitted
  {
    m := map[];
    var j := 0;
    while j < |paths|
      invariant 0 <= j <= |paths|
      invariant TangentMap(mode, paths[..j], m) && TangentValues(mode, paths[..j], m)
    {
      m := ModifyPathTangents(mode, paths[..j], paths[j], m);
      assert paths[..j + 1] == paths[..j] + [paths[j]];
      j := j + 1;
    }
    assert paths[..j] == paths;
    if mode == Bezier {
      assert forall key :: key !in m;
      assert m == map[];
    }
    submitted := m != map[];
  }

  /** The loops over one path's segments and points. */
  method ModifyPathTangents(mode: InterpolationMode, done: seq<Path>, path: Path, m0: map<PathPosition, NewPoint>)
    returns (m: map<PathPosition, NewPoint>)
    requires TangentMap(mode, done, m0) && TangentValues(mode, done, m0)
    ensures TangentMap(mode, done + [path], m) && TangentValues(mode, done + [path], m)
  {
    m := m0;
    var s := 0;
    while s < |path.segments|
      invariant 0 <= s <= |path.segments|
      invariant forall key :: key in m ==> key in m0 || (key.path == path && key.segment < s)
      invariant forall key :: key in m0 ==> key in m && m[key] == m0[key]
      invariant forall s', i' :: 0 <= s' < s && 0 <= i' < |path.segments[s']| ==>
        (PathPosition(path, s', i') in m <==> mode != Bezier && path.segments[s'][i'].isSelected)
      invariant forall key :: key in m && key !in m0 ==>
        key.segment < |path.segments| && key.point < |path.segments[key.segment]|
        && m[key] == Replacement(mode, path, key.segment, key.point)
    {
      m := ModifySegmentTangents(mode, path, s, done, m0, m);
      s := s + 1;
    }
    TangentMapStep(mode, done, path, m0, m);
  }

  /** The loop over the points of segment `s` of `path`: after it, the map also holds a
      replacement for exactly the selected points of that segment (none in Bezier mode). */
  method ModifySegmentTangents(mode: InterpolationMode, path: Path, s: nat, ghost done: seq<Path>,
                               ghost m0: map<PathPosition, NewPoint>, m1: map<PathPosition, NewPoint>)
    returns (m: map<PathPosition, NewPoint>)
    requires TangentMap(mode, done, m0) && TangentValues(mode, done, m0)
    requires s < |path.segments|
    requires forall key :: key in m1 ==> key in m0 || (key.path == path && key.segment < s)
    requires forall key :: key in m0 ==> key in m1 && m1[key] == m0[key]
    requires forall s', i' :: 0 <= s' < s && 0 <= i' < |path.segments[s']| ==>
      (PathPosition(path, s', i') in m1 <==> mode != Bezier && path.segments[s'][i'].isSelected)
    requires forall key :: key in m1 && key !in m0 ==>
      key.segment < |path.segments| && key.point < |path.segments[key.segment]|
      && m1[key] == Replacement(mode, path, key.segment, key.point)
    ensures forall key :: key in m ==> key in m0 || (key.path == path && key.segment < s + 1)
    ensures forall key :: key in m0 ==> key in m && m[key] == m0[key]
    ensures forall s', i' :: 0 <= s' < s + 1 && 0 <= i' < |path.segments[s']| ==>
      (PathPosition(path, s', i') in m <==> mode != Bezier && path.segments[s'][i'].isSelected)
    ensures forall key :: key in m && key !in m0 ==>
      key.segment < |path.segments| && key.point < |path.segments[key.segment]|
      && m[key] == Replacement(mode, path, key.segment, key.point)
  {
    m := m1;
    var i := 0;
    while i < |path.segments[s]|
      invariant 0 <= i <= |path.segments[s]|
      invariant forall key :: key in m ==> key in m0 || (key.path == path && (key.segment < s || (key.segment == s && key.point < i)))
      invariant forall key :: key in m0 ==> key in m && m[key] == m0[key]
      invariant forall s', i' :: 0 <= s' < s && 0 <= i' < |path.segments[s']| ==>
        (PathPosition(path, s', i') in m <==> mode != Bezier && path.segments[s'][i'].isSelected)
      invariant forall i' :: 0 <= i' < i ==>
        (PathPosition(path, s, i') in m <==> mode != Bezier && path.segments[s][i'].isSelected)
      invariant forall key :: key in m && key !in m0 ==>
        key.segment < |path.segments| && key.point < |path.segments[key.segment]|
        && m[key] == Replacement(mode, path, key.segment, key.point)
    {
      if path.segments[s][i].isSelected {
        var key := PathPosition(path, s, i);
        match mode
        case Bezier =>
        case Smooth =>
          m := m[key := Smoothened(path.segments[s], path.isClosed, i)];
        case Linear =>
          m := m[key := Nibbed(path.segments[s][i])];
      }
      i := i + 1;
    }
  }

  lemma TangentMapStep(mode: InterpolationMode, done: seq<Path>, path: Path, m0: map<PathPosition, NewPoint>, m: map<PathPosition, NewPoint>)
    requires TangentMap(mode, done, m0) && TangentValues(mode, done, m0)
    requires forall key :: key in m ==> key in m0 || key.path == path
    requires forall key :: key in m0 ==> key in m && m[key] == m0[key]
    requires forall s', i' :: 0 <= s' < |path.segments| && 0 <= i' < |path.segments[s']| ==>
      (PathPosition(path, s', i') in m <==> mode != Bezier && path.segments[s'][i'].isSelected)
    requires forall key :: key in m && key !in m0 ==>
      key.segment < |path.segments| && key.point < |path.segments[key.segment]|
      && m[key] == Replacement(mode, path, key.segment, key.point)
    ensures TangentMap(mode, done + [path], m) && TangentValues(mode, done + [path], m)
  {
    var all := done + [path];
    forall key | key in m
      ensures && mode != Bezier && key.path in all
        && key.segment < |key.path.segments| && key.point < |key.path.segments[key.segment]|
        && key.path.segments[key.segment][key.point].isSelected
    {
      if key !in m0 {
        assert PathPosition(path, key.segment, key.point) == key;
      }
    }
    forall j, s, i | 0 <= j < |all| && 0 <= s < |all[j].segments| && 0 <= i < |all[j].segments[s]|
      && mode != Bezier && all[j].segments[s][i].isSelected
      ensures PathPosition(all[j], s, i) in m
    {
      if j < |done| {
        assert all[j] == done[j];
        assert PathPosition(done[j], s, i) in m0;
      }
    }
  }

  // ---------------------------------------------------------------------------------------------
  // convert_objects

  type ObjectId = nat

  /** The object tree: each object's parent, and a depth that grows from parent to child. */
  datatype Tree = Tree(parent: map<ObjectId, ObjectId>, depth: map<ObjectId, nat>)

  predicate TreeWf(t: Tree)
  {
    forall o :: o in t.parent ==> o in t.depth && t.parent[o] in t.depth && t.depth[t.parent[o]] < t.depth[o]
  }

  function Depth(t: Tree, o: ObjectId): nat
  {
    if o in t.depth then t.depth[o] else 0
  }

  /** `a` is a proper ancestor of `o`. */
  predicate IsAncestor(t: Tree, a: ObjectId, o: ObjectId)
    requires TreeWf(t)
    decreases Depth(t, o)
  {
    o in t.parent && (t.parent[o] == a || IsAncestor(t, a, t.parent[o]))
  }

  /** An ancestor is shallower than its descendant. */
  lemma {:induction false} AncestorShallower(t: Tree, a: ObjectId, o: ObjectId)
    requires TreeWf(t) && IsAncestor(t, a, o)
    ensures Depth(t, a) < Depth(t, o)
    decreases Depth(t, o)
  {
    if t.parent[o] != a {
      AncestorShallower(t, a, t.parent[o]);
    }
  }

  /** Object::remove_internal_children: the objects none of whose ancestors is in the set. */
  function TopLevel(t: Tree, objects: set<ObjectId>): (r: set<ObjectId>)
    requires TreeWf(t)
    ensures r <= objects
  {
    set o | o in objects && !(exists a :: a in objects && IsAncestor(t, a, o))
  }

  /** The batches convert_objects converts: the top-level convertibles, then (recursively) the
      leftovers; it stops when no convertible is top-level. */
  function ConvertRounds(t: Tree, convertibles: set<ObjectId>): (r: seq<set<ObjectId>>)
    requires TreeWf(t)
    decreases |convertibles|
  {
    var top := TopLevel(t, convertibles);
    if top == {} then []
    else
      DifferenceSmaller(convertibles, top);
      [top] + ConvertRounds(t, convertibles - top)
  }

  /** Some object of a non-empty set is shallowest. */
  lemma {:induction false} ShallowestExists(t: Tree, s: set<ObjectId>) returns (m: ObjectId)
    requires s != {}
    ensures m in s && forall o :: o in s ==> Depth(t, m) <= Depth(t, o)
    decreases |s|
  {
    var x :| x in s;
    if s == {x} {
      m := x;
    } else {
      var m' := ShallowestExists(t, s - {x});
      m := if Depth(t, x) < Depth(t, m') then x else m';
    }
  }

  /** A non-empty set of objects has a top-level object. */
  lemma TopLevelNonEmpty(t: Tree, objects: set<ObjectId>)
    requires TreeWf(t) && objects != {}
    ensures TopLevel(t, objects) != {}
  {
    var m := ShallowestExists(t, objects);
    if exists a :: a in objects && IsAncestor(t, a, m) {
      var a :| a in objects && IsAncestor(t, a, m);
      AncestorShallower(t, a, m);
      assert false;
    }
    assert m in TopLevel(t, objects);
  }

  lemma DifferenceSmaller(s: set<ObjectId>, part: set<ObjectId>)
    requires part <= s && part != {}
    ensures |s - part| < |s|
  {
    var o :| o in part;
    assert s - part <= s - {o};
  }

  /** Only convertibles are converted. */
  lemma {:induction false} ConvertRoundsWithin(t: Tree, convertibles: set<ObjectId>)
    requires TreeWf(t)
    ensures forall j, x :: 0 <= j < |ConvertRounds(t, convertibles)| && x in ConvertRounds(t, convertibles)[j] ==>
      x in convertibles
    decreases |convertibles|
  {
    var top := TopLevel(t, convertibles);
    if top != {} {
      DifferenceSmaller(convertibles, top);
      ConvertRoundsWithin(t, convertibles - top);
      var rest := ConvertRounds(t, convertibles - top);
      var r := ConvertRounds(t, convertibles);
      assert r == [top] + rest;
      assert forall j :: 1 <= j < |r| ==> r[j] == rest[j - 1];
      forall j, y | 0 <= j < |r| && y in r[j] ensures y in convertibles {
        if j > 0 {
          assert y in rest[j - 1];
        }
      }
    }
  }

  /** Every convertible is converted. */
  lemma {:induction false} ConvertRoundsCover(t: Tree, convertibles: set<ObjectId>, x: ObjectId)
    requires TreeWf(t) && x in convertibles
    ensures exists j :: 0 <= j < |ConvertRounds(t, convertibles)| && x in ConvertRounds(t, convertibles)[j]
    decreases |convertibles|
  {
    var top := TopLevel(t, convertibles);
    TopLevelNonEmpty(t, convertibles);
    var r := ConvertRounds(t, convertibles);
    DifferenceSmaller(convertibles, top);
    assert r == [top] + ConvertRounds(t, convertibles - top);
    if x in top {
      assert x in r[0];
      assert 0 < |r|;
      assert exists j :: 0 <= j < |r| && x in r[j];
    } else {
      ConvertRoundsCover(t, convertibles - top, x);
      var rest := ConvertRounds(t, convertibles - top);
      var j :| 0 <= j < |rest| && x in rest[j];
      assert x in r[j + 1];
    }
  }

  /** No object is converted twice. */
  lemma {:induction false} ConvertRoundsDisjoint(t: Tree, convertibles: set<ObjectId>)
    requires TreeWf(t)
    ensures forall j, k :: 0 <= j < k < |ConvertRounds(t, convertibles)| ==>
      ConvertRounds(t, convertibles)[j] !! ConvertRounds(t, convertibles)[k]
    decreases |convertibles|
  {
    var top := TopLevel(t, convertibles);
    if top != {} {
      DifferenceSmaller(convertibles, top);
      ConvertRoundsDisjoint(t, convertibles - top);
      ConvertRoundsWithin(t, convertibles - top);
      var rest := ConvertRounds(t, convertibles - top);
      var r := ConvertRounds(t, convertibles);
      assert r == [top] + rest;
      assert forall j :: 1 <= j < |r| ==> r[j] == rest[j - 1];
    }
  }

  /** An object is converted after every convertible ancestor of it (or, for two objects of one
      batch, neither is the other's ancestor): a converted object's children do not change while
      it is converted. */
  lemma {:induction false} ConvertRoundsParentsFirst(t: Tree, convertibles: set<ObjectId>)
    requires TreeWf(t)
    ensures forall j, k, o, a ::
      (0 <= j <= k < |ConvertRounds(t, convertibles)| && o in ConvertRounds(t, convertibles)[j]
       && a in ConvertRounds(t, convertibles)[k]) ==> !IsAncestor(t, a, o)
    decreases |convertibles|
  {
    var top := TopLevel(t, convertibles);
    if top != {} {
      DifferenceSmaller(convertibles, top);
      ConvertRoundsParentsFirst(t, convertibles - top);
      ConvertRoundsWithin(t, convertibles - top);
      var rest := ConvertRounds(t, convertibles - top);
      var r := ConvertRounds(t, convertibles);
      assert r == [top] + rest;
      assert forall j :: 1 <= j < |r| ==> r[j] == rest[j - 1];
    }
  }
}
