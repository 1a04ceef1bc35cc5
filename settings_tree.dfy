/** The settings tree (settingstree.cpp): named groups of named string values, read from a
    line-oriented file of `[group]` headers and `name: value` lines, with a snapshot of all values
    that `Store` takes and `Restore` puts back. The file is given as its sequence of lines, or
    `None` when it cannot be opened. */
module Settings {
  import opened Wrappers
  import opened Text

  /** SettingsTreeValueItem: the group it belongs to, its name and its current value. */
  datatype ValueItem = ValueItem(group: string, name: string, value: string)

  /** SettingsTreeGroupItem: a name and the values in file order. */
  datatype GroupItem = GroupItem(name: string, values: seq<ValueItem>)

  /** A Qt model index into the tree: the invisible root, a group row or a value row. */
  datatype ModelIndex = Root | GroupIndex(name: string) | ValueIndex(group: string, name: string)

  /** The state of the line loop: the groups read so far and the active group name. */
  datatype LoadState = LoadState(groups: seq<GroupItem>, groupName: string)

  /** The message the duplicate-key check stops the program with. */
  const DuplicateKeyMessage: string := "Duplicate key sequence."

  /** `\w` of the group regular expression, restricted to ASCII: a letter, a digit or `_`. */
  predicate IsWordChar(c: char)
  {
    ('a' <= c <= 'z') || ('A' <= c <= 'Z') || IsDigit(c) || c == '_'
  }

  /** The whole line matches `\[\w+\]`. */
  predicate IsGroupHeader(line: string)
  {
    && |line| >= 3 && line[0] == '[' && line[|line| - 1] == ']'
    && forall i :: 1 <= i < |line| - 1 ==> IsWordChar(line[i])
  }

  /** The group name a header line names. */
  function HeaderName(line: string): (name: string)
    requires IsGroupHeader(line)
    ensures |name| == |line| - 2 && line == "[" + name + "]"
  {
    line[1..|line| - 1]
  }

  /** std::find_if by name: the position of the first entry called `name`. */
  function FindName(names: seq<string>, name: string): (r: Option<nat>)
    ensures r.None? <==> forall k :: 0 <= k < |names| ==> names[k] != name
    ensures r.Some? ==>
      && r.value < |names| && names[r.value] == name
      && forall k :: 0 <= k < r.value ==> names[k] != name
  {
    if names == [] then None
    else if names[0] == name then Some(0)
    else match FindName(names[1..], name)
      case None => None
      case Some(k) => Some(k + 1)
  }

  /** The group search of the loader: the first group called `name`. */
  function FindGroup(groups: seq<GroupItem>, name: string): (r: Option<nat>)
    ensures r.None? <==> forall k :: 0 <= k < |groups| ==> groups[k].name != name
    ensures r.Some? ==> r.value < |groups| && groups[r.value].name == name
    ensures r.Some? ==> forall k :: 0 <= k < r.value ==> groups[k].name != name
  {
    var names := seq(|groups|, k requires 0 <= k < |groups| => groups[k].name);
    assert forall k :: 0 <= k < |groups| ==> names[k] == groups[k].name;
    FindName(names, name)
  }

  /** The duplicate-key search within a group: the first value called `name`. */
  function FindValue(values: seq<ValueItem>, name: string): (r: Option<nat>)
    ensures r.None? <==> forall k :: 0 <= k < |values| ==> values[k].name != name
    ensures r.Some? ==> r.value < |values| && values[r.value].name == name
    ensures r.Some? ==> forall k :: 0 <= k < r.value ==> values[k].name != name
  {
    var names := seq(|values|, k requires 0 <= k < |values| => values[k].name);
    assert forall k :: 0 <= k < |values| ==> names[k] == values[k].name;
    FindName(names, name)
  }

  /** Within a group the value names are distinct and every value knows its group. */
  predicate GroupWf(g: GroupItem)
  {
    && (forall a, b :: 0 <= a < b < |g.values| ==> g.values[a].name != g.values[b].name)
    && (forall k :: 0 <= k < |g.values| ==> g.values[k].group == g.name)
  }

  /** The tree's invariant: distinct group names and well-formed groups. */
  predicate Wf(groups: seq<GroupItem>)
  {
    && (forall a, b :: 0 <= a < b < |groups| ==> groups[a].name != groups[b].name)
    && (forall k :: 0 <= k < |groups| ==> GroupWf(groups[k]))
  }

  // ---------------------------------------------------------------------------------------------
  // load_from_file

  /** Adds the value `name` with `value` to the group at `gi`, which must not hold that name yet:
      a duplicate stops the program. */
  function AddValue(st: LoadState, gi: nat, name: string, value: string): Result<LoadState>
    requires gi < |st.groups|
  {
    var g := st.groups[gi];
    if FindValue(g.values, name).Some? then Err(DuplicateKeyMessage)
    else Ok(st.(groups := st.groups[gi := g.(values := g.values + [ValueItem(g.name, name, value)])]))
  }

  /** One iteration of the line loop of load_from_file. */
  function LoadLine(st: LoadState, insertMode: bool, raw: string): Result<LoadState>
  {
    var line := Trim(raw);
    if line == [] || line[0] == '#' then Ok(st)
    else if IsGroupHeader(line) then Ok(st.(groupName := HeaderName(line)))
    else if st.groupName == "" then Ok(st)
    else
      var tokens := Split(line, ':');
      if |tokens| != 2 then Ok(st)
      else
        AddKey(st, insertMode, Trim(tokens[0]), Trim(tokens[1]))
  }

  /** A key line in the active group: into the group of that name, or into a new group appended
      in insert mode; outside insert mode a key of an unknown group is ignored. */
  function AddKey(st: LoadState, insertMode: bool, name: string, value: string): Result<LoadState>
  {
    match FindGroup(st.groups, st.groupName)
    case Some(gi) => AddValue(st, gi, name, value)
    case None =>
      if insertMode then
        AddValue(st.(groups := st.groups + [GroupItem(st.groupName, [])]), |st.groups|, name, value)
      else Ok(st)
  }

  /** The line loop over `lines`, from the start state `st`. */
  function LoadLines(st: LoadState, insertMode: bool, lines: seq<string>): Result<LoadState>
  {
    if lines == [] then Ok(st)
    else match LoadLines(st, insertMode, lines[..|lines| - 1])
      case Ok(s) => LoadLine(s, insertMode, lines[|lines| - 1])
      case Err(e) => Err(e)
  }

  lemma LoadLinesStep(st: LoadState, insertMode: bool, lines: seq<string>, i: nat)
    requires i < |lines|
    ensures LoadLines(st, insertMode, lines[..i + 1]) ==
      match LoadLines(st, insertMode, lines[..i])
      case Ok(s) => LoadLine(s, insertMode, lines[i])
      case Err(e) => Err(e)
  {
    assert lines[..i + 1][..i] == lines[..i];
  }

  /** Once a line stops the loop, no later line is read. */
  lemma {:induction false} LoadLinesStopped(st: LoadState, insertMode: bool, lines: seq<string>, i: nat)
    requires i <= |lines| && LoadLines(st, insertMode, lines[..i]).Err?
    ensures LoadLines(st, insertMode, lines) == LoadLines(st, insertMode, lines[..i])
    decreases |lines| - i
  {
    if i < |lines| {
      LoadLinesStep(st, insertMode, lines, i);
      LoadLinesStopped(st, insertMode, lines, i + 1);
    } else {
      assert lines[..i] == lines;
    }
  }

  /** Blank lines and comment lines change nothing. */
  lemma LoadLineSkips(st: LoadState, insertMode: bool, raw: string)
    requires Trim(raw) == [] || Trim(raw)[0] == '#'
    ensures LoadLine(st, insertMode, raw) == Ok(st)
  {
  }

  /** A group header makes the bracketed name the active group, and changes nothing else. */
  lemma LoadLineHeader(st: LoadState, insertMode: bool, raw: string)
    requires IsGroupHeader(Trim(raw))
    ensures LoadLine(st, insertMode, raw) == Ok(LoadState(st.groups, HeaderName(Trim(raw))))
  {
  }

  /** A line that is neither blank, a comment nor a header is ignored while no group is active,
      and so is a line with no `:` or more than one (a value cannot contain `:`). */
  lemma LoadLineIgnored(st: LoadState, insertMode: bool, raw: string)
    requires Trim(raw) != [] && Trim(raw)[0] != '#' && !IsGroupHeader(Trim(raw))
    requires st.groupName == "" || Count(Trim(raw), ':') != 1
    ensures LoadLine(st, insertMode, raw) == Ok(st)
  {
    SplitCount(Trim(raw), ':');
  }

  /** A key line: not blank, not a comment, not a header, and exactly two `:`-separated tokens,
      whose trimmed texts are the name and the value. */
  predicate KeyLine(raw: string, name: string, value: string)
  {
    var line := Trim(raw);
    && line != [] && line[0] != '#' && !IsGroupHeader(line)
    && |Split(line, ':')| == 2 && name == Trim(Split(line, ':')[0]) && value == Trim(Split(line, ':')[1])
  }

  /** A key line in an active group adds its name and value. */
  lemma LoadLineKey(st: LoadState, insertMode: bool, raw: string, name: string, value: string)
    requires st.groupName != "" && KeyLine(raw, name, value)
    ensures LoadLine(st, insertMode, raw) == AddKey(st, insertMode, name, value)
  {
  }

  /** A name the active group already holds stops the program; otherwise the value is appended at
      the end of its group. A group not seen before is appended first when the tree was empty
      when loading began, and the key is ignored when it was not. */
  lemma AddKeySpec(st: LoadState, insertMode: bool, name: string, value: string)
    ensures var r := AddKey(st, insertMode, name, value);
      match FindGroup(st.groups, st.groupName)
      case Some(gi) =>
        var g := st.groups[gi];
        && (FindValue(g.values, name).Some? ==> r == Err(DuplicateKeyMessage))
        && (FindValue(g.values, name).None? ==>
              r == Ok(st.(groups := st.groups[gi := GroupItem(g.name, g.values + [ValueItem(g.name, name, value)])])))
      case None =>
        && (insertMode ==>
              r == Ok(st.(groups := st.groups + [GroupItem(st.groupName, [ValueItem(st.groupName, name, value)])])))
        && (!insertMode ==> r == Ok(st))
  {
    if FindGroup(st.groups, st.groupName).None? && insertMode {
      var gs := st.groups + [GroupItem(st.groupName, [])];
      var st' := st.(groups := gs);
      assert AddKey(st, insertMode, name, value) == AddValue(st', |st.groups|, name, value);
      assert gs[|st.groups|] == GroupItem(st.groupName, []);
      assert FindValue(gs[|st.groups|].values, name).None?;
      var v := ValueItem(st.groupName, name, value);
      assert gs[|st.groups|].values + [v] == [v];
      assert AddValue(st', |st.groups|, name, value) == Ok(st'.(groups := gs[|st.groups| := GroupItem(st.groupName, [v])]));
      assert gs[|st.groups| := GroupItem(st.groupName, [ValueItem(st.groupName, name, value)])]
        == st.groups + [GroupItem(st.groupName, [ValueItem(st.groupName, name, value)])];
    }
  }

  /** Appending a value that is not yet in the group keeps the tree well formed. */
  lemma AddValueWf(st: LoadState, gi: nat, name: string, value: string)
    requires gi < |st.groups| && Wf(st.groups) && AddValue(st, gi, name, value).Ok?
    ensures Wf(AddValue(st, gi, name, value).value.groups)
  {
    var g := st.groups[gi];
    var g' := g.(values := g.values + [ValueItem(g.name, name, value)]);
    var gs := st.groups[gi := g'];
    assert GroupWf(g') by {
      forall a, b | 0 <= a < b < |g'.values| ensures g'.values[a].name != g'.values[b].name {
        if b == |g.values| {
          assert g'.values[a] == g.values[a];
        }
      }
    }
    assert AddValue(st, gi, name, value).value.groups == gs;
  }

  /** Every line keeps the tree well formed. */
  lemma LoadLineWf(st: LoadState, insertMode: bool, raw: string)
    requires Wf(st.groups) && LoadLine(st, insertMode, raw).Ok?
    ensures Wf(LoadLine(st, insertMode, raw).value.groups)
  {
    var line := Trim(raw);
    if line != [] && line[0] != '#' && !IsGroupHeader(line) && st.groupName != "" {
      var tokens := Split(line, ':');
      if |tokens| == 2 {
        AddKeyWf(st, insertMode, Trim(tokens[0]), Trim(tokens[1]));
      }
    }
  }

  lemma AddKeyWf(st: LoadState, insertMode: bool, name: string, value: string)
    requires Wf(st.groups) && AddKey(st, insertMode, name, value).Ok?
    ensures Wf(AddKey(st, insertMode, name, value).value.groups)
  {
    match FindGroup(st.groups, st.groupName)
    case Some(gi) =>
      AddValueWf(st, gi, name, value);
    case None =>
      if insertMode {
        var st' := st.(groups := st.groups + [GroupItem(st.groupName, [])]);
        assert Wf(st'.groups);
        AddValueWf(st', |st.groups|, name, value);
      }
  }

  /** Loading any lines into a well-formed tree leaves a well-formed tree: group names stay
      distinct and value names stay distinct within each group. */
  lemma {:induction false} LoadLinesWf(st: LoadState, insertMode: bool, lines: seq<string>)
    requires Wf(st.groups) && LoadLines(st, insertMode, lines).Ok?
    ensures Wf(LoadLines(st, insertMode, lines).value.groups)
  {
    if lines != [] {
      var front := lines[..|lines| - 1];
      LoadLinesWf(st, insertMode, front);
      LoadLineWf(LoadLines(st, insertMode, front).value, insertMode, lines[|lines| - 1]);
    }
  }

  /** `after` extends `before`: the old groups keep their names and positions, their values are
      extended at the end, and at most one group is appended (only in insert mode). */
  predicate Grows(before: seq<GroupItem>, after: seq<GroupItem>, insertMode: bool)
  {
    && |before| <= |after| <= |before| + 1
    && (insertMode || |after| == |before|)
    && forall k :: 0 <= k < |before| ==> after[k].name == before[k].name && before[k].values <= after[k].values
  }

  lemma AddKeyGrows(st: LoadState, insertMode: bool, name: string, value: string)
    requires AddKey(st, insertMode, name, value).Ok?
    ensures Grows(st.groups, AddKey(st, insertMode, name, value).value.groups, insertMode)
  {
    AddKeySpec(st, insertMode, name, value);
  }

  /** A line never removes a group or a value. */
  lemma LoadLineGrows(st: LoadState, insertMode: bool, raw: string)
    requires LoadLine(st, insertMode, raw).Ok?
    ensures Grows(st.groups, LoadLine(st, insertMode, raw).value.groups, insertMode)
  {
    var line := Trim(raw);
    if line != [] && line[0] != '#' && !IsGroupHeader(line) && st.groupName != "" {
      var tokens := Split(line, ':');
      if |tokens| == 2 {
        AddKeyGrows(st, insertMode, Trim(tokens[0]), Trim(tokens[1]));
      }
    }
  }


  // ---------------------------------------------------------------------------------------------
  // store and restore

  /** The snapshot of values, by group name and value name. */
  type Snapshot = map<string, map<string, string>>

  /** `m_stored_values[group][name]` read through std::map::operator[]: "" when absent. */
  function Lookup(m: Snapshot, group: string, name: string): string
  {
    if group in m && name in m[group] then m[group][name] else ""
  }

  /** `m_stored_values[group][name] = value`. */
  function Put(m: Snapshot, group: string, name: string, value: string): Snapshot
  {
    m[group := (if group in m then m[group] else map[])[name := value]]
  }

  lemma PutLookup(m: Snapshot, group: string, name: string, value: string, g: string, k: string)
    ensures Lookup(Put(m, group, name, value), g, k) == if g == group && k == name then value else Lookup(m, g, k)
  {
  }

  /** The entries store writes for one group's values, in order. */
  function StoreValues(m: Snapshot, group: string, values: seq<ValueItem>): Snapshot
  {
    if values == [] then m
    else Put(StoreValues(m, group, values[..|values| - 1]), group, values[|values| - 1].name, values[|values| - 1].value)
  }

  /** The entries store writes for all groups, in order. */
  function StoreGroups(m: Snapshot, groups: seq<GroupItem>): Snapshot
  {
    if groups == [] then m
    else StoreValues(StoreGroups(m, groups[..|groups| - 1]), groups[|groups| - 1].name, groups[|groups| - 1].values)
  }

  /** Reading `m_stored_values[group][name]` through operator[] inserts "" when absent. */
  function Touch(m: Snapshot, group: string, name: string): (r: Snapshot)
    ensures group in r && name in r[group] && r[group][name] == Lookup(m, group, name)
  {
    Put(m, group, name, Lookup(m, group, name))
  }

  function TouchValues(m: Snapshot, group: string, values: seq<ValueItem>): Snapshot
  {
    if values == [] then m
    else Touch(TouchValues(m, group, values[..|values| - 1]), group, values[|values| - 1].name)
  }

  function TouchGroups(m: Snapshot, groups: seq<GroupItem>): Snapshot
  {
    if groups == [] then m
    else TouchValues(TouchGroups(m, groups[..|groups| - 1]), groups[|groups| - 1].name, groups[|groups| - 1].values)
  }

  /** One group with every value set to what the snapshot holds for it. */
  function RestoredGroup(g: GroupItem, m: Snapshot): (r: GroupItem)
    ensures r.name == g.name && |r.values| == |g.values|
    ensures forall j :: 0 <= j < |g.values| ==> r.values[j] == g.values[j].(value := Lookup(m, g.name, g.values[j].name))
  {
    GroupItem(g.name, seq(|g.values|, j requires 0 <= j < |g.values| => g.values[j].(value := Lookup(m, g.name, g.values[j].name))))
  }

  /** Every group restored from the snapshot. */
  function Restored(groups: seq<GroupItem>, m: Snapshot): (r: seq<GroupItem>)
    ensures |r| == |groups| && forall i :: 0 <= i < |groups| ==> r[i] == RestoredGroup(groups[i], m)
  {
    seq(|groups|, i requires 0 <= i < |groups| => RestoredGroup(groups[i], m))
  }

  lemma TouchLookup(m: Snapshot, group: string, name: string, g: string, k: string)
    ensures Lookup(Touch(m, group, name), g, k) == Lookup(m, g, k)
  {
    PutLookup(m, group, name, Lookup(m, group, name), g, k);
  }

  lemma {:induction false} TouchValuesLookup(m: Snapshot, group: string, values: seq<ValueItem>, g: string, k: string)
    ensures Lookup(TouchValues(m, group, values), g, k) == Lookup(m, g, k)
  {
    if values != [] {
      TouchValuesLookup(m, group, values[..|values| - 1], g, k);
      TouchLookup(TouchValues(m, group, values[..|values| - 1]), group, values[|values| - 1].name, g, k);
    }
  }

  /** Restoring reads the snapshot without changing what it holds. */
  lemma {:induction false} TouchGroupsLookup(m: Snapshot, groups: seq<GroupItem>, g: string, k: string)
    ensures Lookup(TouchGroups(m, groups), g, k) == Lookup(m, g, k)
  {
    if groups != [] {
      TouchGroupsLookup(m, groups[..|groups| - 1], g, k);
      TouchValuesLookup(TouchGroups(m, groups[..|groups| - 1]), groups[|groups| - 1].name, groups[|groups| - 1].values, g, k);
    }
  }

  /** Storing one group's values leaves every other entry alone. */
  lemma {:induction false} StoreValuesOther(m: Snapshot, group: string, values: seq<ValueItem>, g: string, k: string)
    requires g != group || forall j :: 0 <= j < |values| ==> values[j].name != k
    ensures Lookup(StoreValues(m, group, values), g, k) == Lookup(m, g, k)
  {
    if values != [] {
      var last := values[|values| - 1];
      StoreValuesOther(m, group, values[..|values| - 1], g, k);
      PutLookup(StoreValues(m, group, values[..|values| - 1]), group, last.name, last.value, g, k);
    }
  }

  /** Storing a group with distinct value names records each value under its name. */
  lemma {:induction false} StoreValuesHit(m: Snapshot, group: string, values: seq<ValueItem>, j: nat)
    requires j < |values| && forall a, b :: 0 <= a < b < |values| ==> values[a].name != values[b].name
    ensures Lookup(StoreValues(m, group, values), group, values[j].name) == values[j].value
  {
    var front := values[..|values| - 1];
    var last := values[|values| - 1];
    PutLookup(StoreValues(m, group, front), group, last.name, last.value, group, values[j].name);
    if j < |values| - 1 {
      StoreValuesHit(m, group, front, j);
    }
  }

  /** After store, the snapshot holds every value of a well-formed tree under its group and name. */
  lemma {:induction false} StoreGroupsLookup(m: Snapshot, groups: seq<GroupItem>, i: nat, j: nat)
    requires Wf(groups) && i < |groups| && j < |groups[i].values|
    ensures Lookup(StoreGroups(m, groups), groups[i].name, groups[i].values[j].name) == groups[i].values[j].value
  {
    var front := groups[..|groups| - 1];
    var last := groups[|groups| - 1];
    if i == |groups| - 1 {
      StoreValuesHit(StoreGroups(m, front), last.name, last.values, j);
    } else {
      assert Wf(front);
      assert front[i] == groups[i];
      StoreGroupsLookup(m, front, i, j);
      StoreValuesOther(StoreGroups(m, front), last.name, last.values, groups[i].name, groups[i].values[j].name);
    }
  }

  /** `store` followed by `restore` leaves every value of a well-formed tree as it was. */
  lemma StoreThenRestore(m: Snapshot, groups: seq<GroupItem>)
    requires Wf(groups)
    ensures Restored(groups, StoreGroups(m, groups)) == groups
  {
    var r := Restored(groups, StoreGroups(m, groups));
    forall i | 0 <= i < |groups| ensures r[i] == groups[i] {
      forall j | 0 <= j < |groups[i].values| ensures r[i].values[j] == groups[i].values[j] {
        StoreGroupsLookup(m, groups, i, j);
      }
    }
  }

  // ---------------------------------------------------------------------------------------------
  // The tree object

  class SettingsTree {
    var groups: seq<GroupItem>
    var storedValues: Snapshot

    constructor ()
      ensures groups == [] && storedValues == map[]
    {
      groups := [];
      storedValues := map[];
    }

    /** load_from_file: `None` stands for a file that cannot be opened, which reports failure and
        changes nothing; otherwise the lines are read in order (an empty tree reads in insert
        mode), and a duplicate key stops the program with an error. */
    method LoadFromFile(file: Option<seq<string>>) returns (r: Result<bool>)
      modifies this`groups
      ensures file.None? ==> r == Ok(false) && groups == old(groups)
      ensures file.Some? ==>
        var loaded := LoadLines(LoadState(old(groups), ""), old(groups) == [], file.value);
        && (loaded.Ok? ==> r == Ok(true) && groups == loaded.value.groups)
        && (loaded.Err? ==> r == Err(loaded.message))
    {
      if file.None? {
        return Ok(false);
      }
      var lines := file.value;
      var insertMode := groups == [];
      ghost var start := LoadState(groups, "");
      var groupName := "";
      var i := 0;
      while i < |lines|
        invariant 0 <= i <= |lines|
        invariant LoadLines(start, insertMode, lines[..i]) == Ok(LoadState(groups, groupName))
      {
        LoadLinesStep(start, insertMode, lines, i);
        var next := ReadLine(lines[i], insertMode, groupName);
        if next.Err? {
          LoadLinesStopped(start, insertMode, lines, i + 1);
          return Err(next.message);
        }
        groupName := next.value;
        i := i + 1;
      }
      assert lines[..i] == lines;
      return Ok(true);
    }

    /** One pass of load_from_file's line loop with `groupName` active: the group active after
        the line, or the duplicate-key error. */
    method ReadLine(raw: string, insertMode: bool, groupName: string) returns (r: Result<string>)
      modifies this`groups
      ensures var expected := LoadLine(LoadState(old(groups), groupName), insertMode, raw);
        && (expected.Ok? ==> r == Ok(expected.value.groupName) && groups == expected.value.groups)
        && (expected.Err? ==> r == Err(expected.message))
    {
      var line := Trim(raw);
      r := Ok(groupName);
      if line == [] || line[0] == '#' {
      } else if IsGroupHeader(line) {
        r := Ok(HeaderName(line));
      } else if groupName != "" {
        var tokens := Split(line, ':');
        if |tokens| == 2 {
          var name := Trim(tokens[0]);
          var value := Trim(tokens[1]);
          var found := FindGroup(groups, groupName);
          var gi := |groups|;
          if found.Some? {
            gi := found.value;
          } else if insertMode {
            groups := groups + [GroupItem(groupName, [])];
          }
          if gi < |groups| {
            var g := groups[gi];
            if FindValue(g.values, name).Some? {
              return Err(DuplicateKeyMessage);
            }
            groups := groups[gi := g.(values := g.values + [ValueItem(g.name, name, value)])];
          }
        }
      }
    }

    /** group(name): the first group with that name, or nothing. */
    function Group(name: string): (r: Option<GroupItem>)
      reads this
      ensures r.None? <==> forall k :: 0 <= k < |groups| ==> groups[k].name != name
      ensures r.Some? ==> r.value.name == name
      ensures r.Some? ==> exists k :: 0 <= k < |groups| && groups[k] == r.value && forall k' :: 0 <= k' < k ==> groups[k'].name != name
    {
      match FindGroup(groups, name)
      case None => None
      case Some(k) => Some(groups[k])
    }

    /** rowCount: the groups under the root, the values under a group, nothing under a value. */
    function RowCount(parent: ModelIndex): (n: nat)
      reads this
      requires parent.GroupIndex? ==> Group(parent.name).Some?
    {
      match parent
      case Root => |groups|
      case GroupIndex(name) => |Group(name).value.values|
      case ValueIndex(_, _) => 0
    }

    /** store: every value is recorded in the snapshot under its group and name. */
    method Store()
      modifies this`storedValues
      ensures storedValues == StoreGroups(old(storedValues), groups)
    {
      var i := 0;
      while i < |groups|
        invariant 0 <= i <= |groups|
        invariant storedValues == StoreGroups(old(storedValues), groups[..i])
      {
        assert groups[..i + 1][..i] == groups[..i];
        var g := groups[i];
        var j := 0;
        ghost var before := storedValues;
        while j < |g.values|
          invariant 0 <= j <= |g.values|
          invariant storedValues == StoreValues(before, g.name, g.values[..j])
        {
          assert g.values[..j + 1][..j] == g.values[..j];
          storedValues := Put(storedValues, g.name, g.values[j].name, g.values[j].value);
          j := j + 1;
        }
        assert g.values[..j] == g.values;
        i := i + 1;
      }
      assert groups[..i] == groups;
    }

    /** restore: every value is set to what the snapshot holds for it ("" when it holds nothing,
        and that entry is then created). */
    method Restore()
      modifies this`groups, this`storedValues
      ensures groups == Restored(old(groups), old(storedValues))
      ensures storedValues == TouchGroups(old(storedValues), old(groups))
    {
      ghost var start := groups;
      var i := 0;
      while i < |groups|
        invariant 0 <= i <= |groups| == |start|
        invariant forall k :: i <= k < |groups| ==> groups[k] == start[k]
        invariant forall k :: 0 <= k < i ==> groups[k] == RestoredGroup(start[k], old(storedValues))
        invariant storedValues == TouchGroups(old(storedValues), start[..i])
        decreases |groups| - i
      {
        assert start[..i + 1][..i] == start[..i];
        RestoredAfterTouch(old(storedValues), start[..i], start[i]);
        var values, stored := RestoreValues(groups[i], storedValues);
        storedValues := stored;
        groups := groups[i := GroupItem(groups[i].name, values)];
        i := i + 1;
      }
      assert start[..i] == start;
      assert groups == Restored(start, old(storedValues));
    }
  }

  /** Restoring a group reads the same values before and after other groups were restored. */
  lemma RestoredAfterTouch(m: Snapshot, done: seq<GroupItem>, g: GroupItem)
    ensures RestoredGroup(g, TouchGroups(m, done)) == RestoredGroup(g, m)
  {
    forall j | 0 <= j < |g.values|
      ensures Lookup(TouchGroups(m, done), g.name, g.values[j].name) == Lookup(m, g.name, g.values[j].name)
    {
      TouchGroupsLookup(m, done, g.name, g.values[j].name);
    }
  }

  /** The inner loop of restore, over the values of `g`: each value is read from `stored` through
      operator[], which creates the entries it does not find. */
  method RestoreValues(g: GroupItem, stored: Snapshot) returns (values: seq<ValueItem>, stored': Snapshot)
    ensures values == RestoredGroup(g, stored).values
    ensures stored' == TouchValues(stored, g.name, g.values)
  {
    values := g.values;
    stored' := stored;
    var j := 0;
    while j < |values|
      invariant 0 <= j <= |values| == |g.values|
      invariant forall k :: j <= k < |values| ==> values[k] == g.values[k]
      invariant forall k :: 0 <= k < j ==> values[k] == RestoredGroup(g, stored).values[k]
      invariant stored' == TouchValues(stored, g.name, g.values[..j])
    {
      TouchValuesStep(stored, g, j);
      stored' := Touch(stored', g.name, values[j].name);
      values := values[j := values[j].(value := stored'[g.name][values[j].name])];
      j := j + 1;
    }
    assert g.values[..j] == g.values;
    assert values == RestoredGroup(g, stored).values;
  }

  /** One pass of restore's inner loop touches the next value and reads it from the snapshot. */
  lemma TouchValuesStep(stored: Snapshot, g: GroupItem, j: nat)
    requires j < |g.values|
    ensures var after := Touch(TouchValues(stored, g.name, g.values[..j]), g.name, g.values[j].name);
      && TouchValues(stored, g.name, g.values[..j + 1]) == after
      && after[g.name][g.values[j].name] == Lookup(stored, g.name, g.values[j].name)
  {
    assert g.values[..j + 1][..j] == g.values[..j];
    TouchValuesLookup(stored, g.name, g.values[..j], g.name, g.values[j].name);
  }

  /** Under a well-formed tree a group index counts exactly that group's values. */
  lemma RowCountOfGroup(t: SettingsTree, i: nat)
    requires Wf(t.groups) && i < |t.groups|
    ensures t.Group(t.groups[i].name).Some? && t.RowCount(GroupIndex(t.groups[i].name)) == |t.groups[i].values|
  {
    var k := FindGroup(t.groups, t.groups[i].name).value;
    assert k == i;
  }
}
