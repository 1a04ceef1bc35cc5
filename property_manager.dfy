/** The property manager's view of a selection (propertymanager.cpp): the keys every selected
    entity has with the same property type, the `tab/name` split of a key, and the tabs that
    `set_selection` builds, one per category in order of first occurrence. */
module PropertyManager {
  import opened Wrappers
  import opened Text

  type Key = string

  /** A property as the manager sees it: the identity of its C++ type and its category. */
  datatype Property = Property(typeIndex: nat, category: string)

  /** An object with properties (HasProperties): its keys in order and the property of each. */
  datatype Entity = Entity(keys: seq<Key>, properties: map<Key, Property>)

  /** Every listed key has a property. */
  predicate EntityWf(e: Entity)
  {
    forall k :: k in e.keys ==> k in e.properties
  }

  predicate SelectionWf(selection: seq<Entity>)
  {
    forall j :: 0 <= j < |selection| ==> EntityWf(selection[j])
  }

  // ---------------------------------------------------------------------------------------------
  // get_key_intersection

  /** `e` has `key`, with the type the first entity's property has. */
  predicate HasKeyOfSameType(first: Entity, e: Entity, key: Key)
    requires key in first.properties && EntityWf(e)
  {
    key in e.keys && e.properties[key].typeIndex == first.properties[key].typeIndex
  }

  /** The keys of `keys` that `e` has with the same type (one erase/remove_if pass). */
  function KeepSameType(keys: seq<Key>, first: Entity, e: Entity): seq<Key>
    requires forall k :: k in keys ==> k in first.properties
    requires EntityWf(e)
  {
    if keys == [] then []
    else
      var key := keys[|keys| - 1];
      KeepSameType(keys[..|keys| - 1], first, e) + (if HasKeyOfSameType(first, e, key) then [key] else [])
  }

  /** The passes of the outer loop over the other entities, in selection order. */
  function KeepAll(keys: seq<Key>, first: Entity, others: seq<Entity>): (r: seq<Key>)
    requires forall k :: k in keys ==> k in first.properties
    requires SelectionWf(others)
    ensures forall k :: k in r ==> k in first.properties
  {
    if others == [] then keys
    else
      var front := KeepAll(keys, first, others[..|others| - 1]);
      KeepSameTypeIn(front, first, others[|others| - 1]);
      KeepSameType(front, first, others[|others| - 1])
  }

  lemma {:induction false} KeepSameTypeIn(keys: seq<Key>, first: Entity, e: Entity)
    requires forall k :: k in keys ==> k in first.properties
    requires EntityWf(e)
    ensures forall k :: k in KeepSameType(keys, first, e) ==> k in keys
  {
    if keys != [] {
      KeepSameTypeIn(keys[..|keys| - 1], first, e);
    }
  }

  /** get_key_intersection: nothing for an empty selection, else the first entity's keys that
      every other selected entity has with the same type. */
  function KeyIntersection(selection: seq<Entity>): (r: seq<Key>)
    requires SelectionWf(selection)
    ensures selection == [] ==> r == []
  {
    if selection == [] then []
    else KeepAll(selection[0].keys, selection[0], selection[1..])
  }

  /** Every entity of `others` has `key` with the first entity's type. */
  predicate SharedBy(first: Entity, others: seq<Entity>, key: Key)
    requires key in first.properties && SelectionWf(others)
  {
    forall j :: 0 <= j < |others| ==> HasKeyOfSameType(first, others[j], key)
  }

  /** The reference definition: the keys, in their order, that every other entity shares. */
  function Shared(keys: seq<Key>, first: Entity, others: seq<Entity>): (r: seq<Key>)
    requires forall k :: k in keys ==> k in first.properties
    requires SelectionWf(others)
    ensures forall k :: k in r ==> k in keys
  {
    if keys == [] then []
    else
      var key := keys[|keys| - 1];
      Shared(keys[..|keys| - 1], first, others) + (if SharedBy(first, others, key) then [key] else [])
  }

  /** One more pass of remove_if narrows the shared keys by one more entity. */
  lemma {:induction false} SharedStep(keys: seq<Key>, first: Entity, others: seq<Entity>, e: Entity)
    requires forall k :: k in keys ==> k in first.properties
    requires SelectionWf(others) && EntityWf(e)
    ensures SelectionWf(others + [e])
    ensures KeepSameType(Shared(keys, first, others), first, e) == Shared(keys, first, others + [e])
  {
    var all := others + [e];
    assert SelectionWf(all) by {
      assert forall j :: 0 <= j < |others| ==> all[j] == others[j];
    }
    if keys != [] {
      var front := keys[..|keys| - 1];
      var key := keys[|keys| - 1];
      SharedStep(front, first, others, e);
      var s := Shared(front, first, others);
      assert Shared(keys, first, others) == s + (if SharedBy(first, others, key) then [key] else []);
      assert SharedBy(first, all, key) <==> SharedBy(first, others, key) && HasKeyOfSameType(first, e, key) by {
        assert forall j :: 0 <= j < |others| ==> all[j] == others[j];
        assert all[|others|] == e;
      }
      if SharedBy(first, others, key) {
        var t := s + [key];
        assert t[..|t| - 1] == s;
      } else {
        assert s + [] == s;
      }
    }
  }

  /** The passes of the loop compute the reference definition. */
  lemma {:induction false} KeepAllShared(keys: seq<Key>, first: Entity, others: seq<Entity>)
    requires forall k :: k in keys ==> k in first.properties
    requires SelectionWf(others)
    ensures KeepAll(keys, first, others) == Shared(keys, first, others)
  {
    if others == [] {
      SharedNone(keys, first);
    } else {
      var front := others[..|others| - 1];
      KeepAllShared(keys, first, front);
      SharedStep(keys, first, front, others[|others| - 1]);
      assert front + [others[|others| - 1]] == others;
    }
  }

  lemma {:induction false} SharedNone(keys: seq<Key>, first: Entity)
    requires forall k :: k in keys ==> k in first.properties
    ensures Shared(keys, first, []) == keys
  {
    if keys != [] {
      SharedNone(keys[..|keys| - 1], first);
    }
  }

  /** A key survives exactly when the first entity has it and every other selected entity has it
      with the same type. */
  lemma {:induction false} SharedMember(keys: seq<Key>, first: Entity, others: seq<Entity>, key: Key)
    requires forall k :: k in keys ==> k in first.properties
    requires SelectionWf(others)
    ensures key in Shared(keys, first, others) <==> key in keys && SharedBy(first, others, key)
  {
    if keys != [] {
      SharedMember(keys[..|keys| - 1], first, others, key);
      assert keys == keys[..|keys| - 1] + [keys[|keys| - 1]];
    }
  }

  /** The intersection keeps exactly the first entity's keys that all others share. */
  lemma KeyIntersectionMember(selection: seq<Entity>, key: Key)
    requires SelectionWf(selection) && selection != []
    ensures key in KeyIntersection(selection) <==>
      key in selection[0].keys && SharedBy(selection[0], selection[1..], key)
  {
    assert SelectionWf(selection[1..]) by {
      assert forall j :: 0 <= j < |selection| - 1 ==> selection[1..][j] == selection[j + 1];
    }
    KeepAllShared(selection[0].keys, selection[0], selection[1..]);
    SharedMember(selection[0].keys, selection[0], selection[1..], key);
  }

  /** The intersection is the first entity's keys filtered, in their original order. */
  lemma KeyIntersectionOrder(selection: seq<Entity>)
    requires SelectionWf(selection) && selection != []
    ensures SelectionWf(selection[1..])
    ensures KeyIntersection(selection) == Shared(selection[0].keys, selection[0], selection[1..])
  {
    assert forall j :: 0 <= j < |selection| - 1 ==> selection[1..][j] == selection[j + 1];
    KeepAllShared(selection[0].keys, selection[0], selection[1..]);
  }

  /** remove_if over `keys`: the keys that `e` has with the first entity's type, in order. */
  method RemoveMismatches(keys: seq<Key>, first: Entity, e: Entity) returns (r: seq<Key>)
    requires forall k :: k in keys ==> k in first.properties
    requires EntityWf(e)
    ensures r == KeepSameType(keys, first, e)
  {
    r := [];
    var i := 0;
    while i < |keys|
      invariant 0 <= i <= |keys|
      invariant r == KeepSameType(keys[..i], first, e)
    {
      assert keys[..i + 1][..i] == keys[..i];
      if keys[i] in e.keys && e.properties[keys[i]].typeIndex == first.properties[keys[i]].typeIndex {
        r := r + [keys[i]];
      }
      i := i + 1;
    }
    assert keys[..|keys|] == keys;
  }

  /** get_key_intersection: start from the first entity's keys and erase, for each further
      entity, the keys it lacks or holds with another type. */
  method GetKeyIntersection(selection: seq<Entity>) returns (keys: seq<Key>)
    requires SelectionWf(selection)
    ensures keys == KeyIntersection(selection)
  {
    if |selection| == 0 {
      return [];
    }
    var first := selection[0];
    keys := first.keys;
    var i := 1;
    while i < |selection|
      invariant 1 <= i <= |selection|
      invariant keys == KeepAll(first.keys, first, selection[1..i])
    {
      assert selection[1..i + 1][..i - 1] == selection[1..i];
      keys := RemoveMismatches(keys, first, selection[i]);
      i := i + 1;
    }
    assert selection[1..i] == selection[1..];
  }

  // ---------------------------------------------------------------------------------------------
  // split_key

  /** split_key: no `/` gives an empty tab name and the whole key; otherwise the key is cut at
      its first `/`. */
  function SplitKey(key: Key): (r: (string, string))
    ensures '/' !in r.0
    ensures '/' !in key ==> r == ("", key)
    ensures '/' in key ==> r.0 + "/" + r.1 == key
  {
    match IndexOf(key, '/')
    case None => ("", key)
    case Some(pos) =>
      assert key == key[..pos] + "/" + key[pos + 1..];
      (key[..pos], key[pos + 1..])
  }

  /** A tab name without `/` joined to a property name splits back into the two. */
  lemma SplitKeyRoundTrip(tab: string, name: string)
    requires '/' !in tab
    ensures SplitKey(tab + "/" + name) == (tab, name)
  {
    var key := tab + "/" + name;
    assert key[|tab|] == '/';
    assert key[..|tab|] == tab;
    assert IndexOf(key, '/') == Some(|tab|);
    assert key[|tab| + 1..] == name;
  }

  // ---------------------------------------------------------------------------------------------
  // set_selection

  /** The tab a key's properties go to: the category of its property (read from the first
      selected entity). */
  function TabLabel(first: Entity, key: Key): string
    requires key in first.properties
  {
    first.properties[key].category
  }

  /** The tab labels in order of first occurrence (the OrderedMap's keys). */
  function Labels(first: Entity, keys: seq<Key>): (r: seq<string>)
    requires forall k :: k in keys ==> k in first.properties
  {
    if keys == [] then []
    else
      var front := Labels(first, keys[..|keys| - 1]);
      var tab := TabLabel(first, keys[|keys| - 1]);
      if tab in front then front else front + [tab]
  }

  /** The keys whose properties land on the tab `tab`, in key order. */
  function TabKeys(first: Entity, keys: seq<Key>, tab: string): seq<Key>
    requires forall k :: k in keys ==> k in first.properties
  {
    if keys == [] then []
    else
      var key := keys[|keys| - 1];
      TabKeys(first, keys[..|keys| - 1], tab) + (if TabLabel(first, key) == tab then [key] else [])
  }

  /** The labels are distinct, and a label is listed exactly when some key carries it. */
  lemma {:induction false} LabelsSpec(first: Entity, keys: seq<Key>)
    requires forall k :: k in keys ==> k in first.properties
    ensures forall i, j :: 0 <= i < j < |Labels(first, keys)| ==> Labels(first, keys)[i] != Labels(first, keys)[j]
    ensures forall l :: l in Labels(first, keys) <==> exists k :: k in keys && TabLabel(first, k) == l
  {
    if keys != [] {
      var front := keys[..|keys| - 1];
      LabelsSpec(first, front);
      assert keys == front + [keys[|keys| - 1]];
      forall l ensures l in Labels(first, keys) <==> exists k :: k in keys && TabLabel(first, k) == l {
        if l in Labels(first, front) {
          var k :| k in front && TabLabel(first, k) == l;
          assert k in keys;
        }
      }
    }
  }

  /** Every key's properties are on the tab of its category, and only there. */
  lemma {:induction false} TabKeysSpec(first: Entity, keys: seq<Key>, tab: string, key: Key)
    requires forall k :: k in keys ==> k in first.properties
    ensures key in TabKeys(first, keys, tab) <==> key in keys && TabLabel(first, key) == tab
  {
    if keys != [] {
      TabKeysSpec(first, keys[..|keys| - 1], tab, key);
      assert keys == keys[..|keys| - 1] + [keys[|keys| - 1]];
    }
  }

  /** The manager's tab widget: one label and one list of keys per tab, in tab order. */
  class PropertyManager {
    var tabLabels: seq<string>
    var tabKeys: seq<seq<Key>>

    constructor ()
      ensures tabLabels == [] && tabKeys == []
    {
      tabLabels := [];
      tabKeys := [];
    }

    /** clear: every tab is removed. */
    method Clear()
      modifies this
      ensures tabLabels == [] && tabKeys == []
    {
      tabLabels := [];
      tabKeys := [];
    }

    /** set_selection: the tabs are rebuilt from the key intersection, one per category in order
        of first occurrence, each holding the keys of that category in key order. */
    method SetSelection(selection: seq<Entity>)
      requires SelectionWf(selection)
      modifies this
      ensures selection == [] ==> tabLabels == [] && tabKeys == []
      ensures selection != [] ==>
        var keys := KeyIntersection(selection);
        && (forall k :: k in keys ==> k in selection[0].properties)
        && tabLabels == Labels(selection[0], keys)
        && |tabKeys| == |tabLabels|
        && (forall t :: 0 <= t < |tabLabels| ==> tabKeys[t] == TabKeys(selection[0], keys, tabLabels[t]))
    {
      var keys := GetKeyIntersection(selection);
      Clear();
      if selection == [] {
        return;
      }
      var labels, tabs := GroupByTab(selection[0], keys);
      var t := 0;
      while t < |labels|
        invariant 0 <= t <= |labels|
        invariant tabLabels == labels[..t] && |tabKeys| == t
        invariant forall u :: 0 <= u < t ==> tabKeys[u] == tabs[labels[u]]
      {
        tabLabels := tabLabels + [labels[t]];
        tabKeys := tabKeys + [tabs[labels[t]]];
        t := t + 1;
      }
      assert labels[..t] == labels;
    }
  }

  /** The OrderedMap of set_selection: each key is added to the tab of its category, a tab being
      created the first time its category is seen. */
  method GroupByTab(first: Entity, keys: seq<Key>) returns (labels: seq<string>, tabs: map<string, seq<Key>>)
    requires forall k :: k in keys ==> k in first.properties
    ensures labels == Labels(first, keys)
    ensures forall l :: l in tabs <==> l in labels
    ensures forall l :: l in tabs ==> tabs[l] == TabKeys(first, keys, l)
  {
    labels := [];
    tabs := map[];
    var i := 0;
    while i < |keys|
      invariant 0 <= i <= |keys|
      invariant labels == Labels(first, keys[..i])
      invariant forall l :: l in tabs <==> l in labels
      invariant forall l :: l in tabs ==> tabs[l] == TabKeys(first, keys[..i], l)
    {
      assert keys[..i + 1][..i] == keys[..i];
      var tab := first.properties[keys[i]].category;
      if tab !in tabs {
        TabKeysUnlabelled(first, keys[..i], tab);
        tabs := tabs[tab := []];
        labels := labels + [tab];
      }
      tabs := tabs[tab := tabs[tab] + [keys[i]]];
      i := i + 1;
      TabKeysOutside(first, keys[..i], tab);
    }
    assert keys[..i] == keys;
  }

  /** A category no key carries has no keys. */
  lemma {:induction false} TabKeysUnlabelled(first: Entity, keys: seq<Key>, tab: string)
    requires forall k :: k in keys ==> k in first.properties
    requires tab !in Labels(first, keys)
    ensures TabKeys(first, keys, tab) == []
  {
    if keys != [] {
      TabKeysUnlabelled(first, keys[..|keys| - 1], tab);
    }
  }

  /** Adding a key changes no other tab. */
  lemma TabKeysOutside(first: Entity, keys: seq<Key>, tab: string)
    requires keys != [] && forall k :: k in keys ==> k in first.properties
    ensures forall l :: l != TabLabel(first, keys[|keys| - 1]) ==>
      TabKeys(first, keys, l) == TabKeys(first, keys[..|keys| - 1], l)
    ensures TabKeys(first, keys, TabLabel(first, keys[|keys| - 1]))
      == TabKeys(first, keys[..|keys| - 1], TabLabel(first, keys[|keys| - 1])) + [keys[|keys| - 1]]
  {
  }
}
