/**
 * The select box: a two-level tree of options (top-level options and optgroups
 * holding options) and one `selected` scalar.  Building the options marks them
 * by comparing each option's KEY with `selected`; `setValue` re-marks every
 * option by comparing its VALUE with the new selection; `resetValue` clears
 * the selection and every mark.
 */
module Selects {
  import opened PhpValues

  /** One `<option>`: the key it was configured under, its value, its attributes (null when none) and its mark. */
  datatype SelectOption = SelectOption(key: Value, value: Value, attributes: Value, selected: bool)

  /** A child of the select box: an option, or an optgroup with a label and its options. */
  datatype Child =
    | OptionChild(option: SelectOption)
    | Optgroup(groupLabel: Value, options: seq<SelectOption>)

  // ---------------------------------------------------------------------------
  // Building options from configuration
  // ---------------------------------------------------------------------------

  /** PHP's `$a[$key]` on a configuration array, null when the key is absent (so `isset` is `!= Null`). */
  function Lookup(entries: seq<(Value, Value)>, key: Value): (r: Value)
    ensures r != Null ==> exists i :: 0 <= i < |entries| && entries[i].0 == key && entries[i].1 == r
    ensures (forall i :: 0 <= i < |entries| ==> entries[i].0 != key) ==> r == Null
    ensures forall i :: 0 <= i < |entries| && entries[i].0 == key && (forall j :: 0 <= j < i ==> entries[j].0 != key) ==> r == entries[i].1
  {
    if entries == [] then Null
    else if entries[0].0 == key then entries[0].1
    else Lookup(entries[1..], key)
  }

  /** An array that sets both `value` and `attributes` describes one option rather than an optgroup. */
  predicate IsAttributed(v: Value) {
    v.Arr? && Lookup(v.entries, Str("value")) != Null && Lookup(v.entries, Str("attributes")) != Null
  }

  /** Whether building an option under `key` marks it: a selection exists and loosely equals the key. */
  predicate MarkedByKey(key: Value, selected: Value) {
    selected != Null && LooseEquals(key, selected)
  }

  /** The option built for one entry of an optgroup. */
  function GroupOption(ky: Value, vl: Value, selected: Value): SelectOption {
    if IsAttributed(vl) then
      SelectOption(ky, Lookup(vl.entries, Str("value")), Lookup(vl.entries, Str("attributes")), MarkedByKey(ky, selected))
    else
      SelectOption(ky, vl, Null, MarkedByKey(ky, selected))
  }

  /** The options built for the entries of an optgroup, in order. */
  function GroupOptions(entries: seq<(Value, Value)>, selected: Value): (os: seq<SelectOption>)
    ensures |os| == |entries|
  {
    if entries == [] then []
    else
      var last := entries[|entries| - 1];
      GroupOptions(entries[..|entries| - 1], selected) + [GroupOption(last.0, last.1, selected)]
  }

  /**
   * The child built for one top-level entry.  An attributed option at the top
   * level is never marked, whatever the selection.
   */
  function NewChild(k: Value, v: Value, selected: Value): Child {
    if v.Arr? then
      if IsAttributed(v) then
        OptionChild(SelectOption(k, Lookup(v.entries, Str("value")), Lookup(v.entries, Str("attributes")), false))
      else
        Optgroup(k, GroupOptions(v.entries, selected))
    else
      OptionChild(SelectOption(k, v, Null, MarkedByKey(k, selected)))
  }

  /** The children built for the top-level entries, one per entry, in order. */
  function NewChildren(values: seq<(Value, Value)>, selected: Value): (cs: seq<Child>)
    ensures |cs| == |values|
  {
    if values == [] then []
    else
      var last := values[|values| - 1];
      NewChildren(values[..|values| - 1], selected) + [NewChild(last.0, last.1, selected)]
  }

  // ---------------------------------------------------------------------------
  // Re-marking and clearing
  // ---------------------------------------------------------------------------

  /** The option marked exactly when its value loosely equals `v`. */
  function Reflagged(o: SelectOption, v: Value): (r: SelectOption)
    ensures r.key == o.key && r.value == o.value && r.attributes == o.attributes
    ensures r.selected <==> LooseEquals(o.value, v)
  {
    o.(selected := LooseEquals(o.value, v))
  }

  function ResyncOptions(os: seq<SelectOption>, v: Value): (r: seq<SelectOption>)
    ensures |r| == |os|
  {
    seq(|os|, j requires 0 <= j < |os| => Reflagged(os[j], v))
  }

  function ResyncChild(c: Child, v: Value): Child {
    match c
    case OptionChild(o) => OptionChild(Reflagged(o, v))
    case Optgroup(groupLabel, os) => Optgroup(groupLabel, ResyncOptions(os, v))
  }

  /** `setValue(v)` on the tree: every option, at either level, re-marked against `v`. */
  function Resync(cs: seq<Child>, v: Value): (r: seq<Child>)
    ensures |r| == |cs|
  {
    seq(|cs|, i requires 0 <= i < |cs| => ResyncChild(cs[i], v))
  }

  function ClearedOptions(os: seq<SelectOption>): (r: seq<SelectOption>)
    ensures |r| == |os|
  {
    seq(|os|, j requires 0 <= j < |os| => os[j].(selected := false))
  }

  function ClearedChild(c: Child): Child {
    match c
    case OptionChild(o) => OptionChild(o.(selected := false))
    case Optgroup(groupLabel, os) => Optgroup(groupLabel, ClearedOptions(os))
  }

  /** `resetValue` on the tree: every mark cleared.  Also the tree's shape, marks aside. */
  function Cleared(cs: seq<Child>): (r: seq<Child>)
    ensures |r| == |cs|
  {
    seq(|cs|, i requires 0 <= i < |cs| => ClearedChild(cs[i]))
  }

  // ---------------------------------------------------------------------------
  // Properties of the tree
  // ---------------------------------------------------------------------------

  /** Every option, top-level or grouped, is marked exactly when its value loosely equals `v`. */
  ghost predicate Synced(cs: seq<Child>, v: Value) {
    forall i :: 0 <= i < |cs| ==> ChildSynced(cs[i], v)
  }

  ghost predicate ChildSynced(c: Child, v: Value) {
    match c
    case OptionChild(o) => o.selected == LooseEquals(o.value, v)
    case Optgroup(_, os) => forall j :: 0 <= j < |os| ==> os[j].selected == LooseEquals(os[j].value, v)
  }

  /** No option anywhere in the tree is marked. */
  ghost predicate NoneSelected(cs: seq<Child>) {
    forall i :: 0 <= i < |cs| ==>
      match cs[i]
      case OptionChild(o) => !o.selected
      case Optgroup(_, os) => forall j :: 0 <= j < |os| ==> !os[j].selected
  }

  /**
   * The marks left by building: a top-level option with attributes is unmarked;
   * every other option is marked exactly when its key matches the selection.
   */
  ghost predicate MarkedByKeys(cs: seq<Child>, selected: Value) {
    forall i :: 0 <= i < |cs| ==> ChildMarkedByKey(cs[i], selected)
  }

  /** One child as `MarkedByKeys` wants it. */
  ghost predicate ChildMarkedByKey(c: Child, selected: Value) {
    match c
    case OptionChild(o) => o.selected == (o.attributes == Null && MarkedByKey(o.key, selected))
    case Optgroup(_, os) => forall j :: 0 <= j < |os| ==> os[j].selected == MarkedByKey(os[j].key, selected)
  }

  /** `setValue(v)` touches only the marks, and leaves the tree marked by value against `v`. */
  lemma ResyncSpec(cs: seq<Child>, v: Value)
    ensures Cleared(Resync(cs, v)) == Cleared(cs)
    ensures Synced(Resync(cs, v), v)
  {
    var r := Resync(cs, v);
    forall i | 0 <= i < |cs| ensures ClearedChild(r[i]) == ClearedChild(cs[i]) {
      match cs[i]
      case OptionChild(o) =>
      case Optgroup(groupLabel, os) =>
        assert ClearedOptions(ResyncOptions(os, v)) == ClearedOptions(os);
    }
  }

  /** Two trees of the same shape that are both marked by value against `v` are the same tree. */
  lemma SyncedUnique(a: seq<Child>, b: seq<Child>, v: Value)
    requires Cleared(a) == Cleared(b)
    requires Synced(a, v) && Synced(b, v)
    ensures a == b
  {
    assert |a| == |b|;
    forall i | 0 <= i < |a| ensures a[i] == b[i] {
      assert ClearedChild(a[i]) == ClearedChild(b[i]) by {
        assert Cleared(a)[i] == Cleared(b)[i];
      }
      assert ChildSynced(a[i], v) && ChildSynced(b[i], v);
      match a[i]
      case OptionChild(o) =>
      case Optgroup(groupLabel, os) =>
        var ps := b[i].options;
        assert ClearedOptions(os) == ClearedOptions(ps);
        forall j | 0 <= j < |os| ensures os[j] == ps[j] {
          assert ClearedOptions(os)[j] == ClearedOptions(ps)[j];
        }
    }
  }

  /** `setValue(v)` twice is `setValue(v)` once. */
  lemma ResyncIdempotent(cs: seq<Child>, v: Value)
    ensures Resync(Resync(cs, v), v) == Resync(cs, v)
  {
    ResyncSpec(cs, v);
    ResyncSpec(Resync(cs, v), v);
    SyncedUnique(Resync(Resync(cs, v), v), Resync(cs, v), v);
  }

  /** `resetValue` leaves nothing marked, keeps the shape, and twice is once. */
  lemma ClearedSpec(cs: seq<Child>)
    ensures NoneSelected(Cleared(cs))
    ensures Cleared(Cleared(cs)) == Cleared(cs)
  {
    var c := Cleared(cs);
    forall i | 0 <= i < |cs| ensures ClearedChild(c[i]) == c[i] {
      match cs[i]
      case OptionChild(o) =>
      case Optgroup(groupLabel, os) =>
        assert ClearedOptions(ClearedOptions(os)) == ClearedOptions(os);
    }
  }

  /** The marks before `setValue` do not matter: resetting first changes nothing. */
  lemma ResyncIgnoresOldMarks(cs: seq<Child>, v: Value)
    ensures Resync(Cleared(cs), v) == Resync(cs, v)
  {
    ResyncSpec(cs, v);
    ResyncSpec(Cleared(cs), v);
    ClearedSpec(cs);
    SyncedUnique(Resync(Cleared(cs), v), Resync(cs, v), v);
  }

  /** Building marks the options of an optgroup by key. */
  lemma {:induction false} GroupOptionsMarkedByKey(entries: seq<(Value, Value)>, selected: Value)
    ensures forall j :: 0 <= j < |entries| ==>
      GroupOptions(entries, selected)[j].key == entries[j].0 &&
      GroupOptions(entries, selected)[j].selected == MarkedByKey(entries[j].0, selected)
  {
    if entries != [] {
      var init := entries[..|entries| - 1];
      GroupOptionsMarkedByKey(init, selected);
      assert forall j :: 0 <= j < |init| ==> init[j] == entries[j];
    }
  }

  /**
   * Building gives one child per entry, in order: an array with both `value`
   * and `attributes` becomes one option, any other array an optgroup labelled
   * with its key and holding one option per inner entry, and anything else a
   * plain option with the entry's key and value.
   */
  lemma {:induction false} NewChildrenShape(values: seq<(Value, Value)>, selected: Value)
    ensures forall i :: 0 <= i < |values| ==>
      var c := NewChildren(values, selected)[i];
      && (c.Optgroup? <==> values[i].1.Arr? && !IsAttributed(values[i].1))
      && (c.Optgroup? ==> c.groupLabel == values[i].0 && |c.options| == |values[i].1.entries|)
      && (c.OptionChild? ==> c.option.key == values[i].0)
      && (c.OptionChild? && !values[i].1.Arr? ==> c.option.value == values[i].1)
  {
    if values != [] {
      var n := |values|;
      var init := values[..n - 1];
      NewChildrenShape(init, selected);
      var cs := NewChildren(values, selected);
      forall i | 0 <= i < n - 1 ensures cs[i] == NewChildren(init, selected)[i] && values[i] == init[i] { }
    }
  }

  /**
   * Building marks every option by key, except an attributed top-level option,
   * which is never marked.
   */
  lemma {:induction false} NewChildrenMarks(values: seq<(Value, Value)>, selected: Value)
    ensures MarkedByKeys(NewChildren(values, selected), selected)
  {
    if values != [] {
      var n := |values|;
      var init := values[..n - 1];
      NewChildrenMarks(init, selected);
      var last := values[n - 1];
      NewChildMarkedByKey(last.0, last.1, selected);
      var cs := NewChildren(values, selected);
      assert cs == NewChildren(init, selected) + [NewChild(last.0, last.1, selected)];
      forall i | 0 <= i < n ensures ChildMarkedByKey(cs[i], selected) {
        if i < n - 1 {
          assert cs[i] == NewChildren(init, selected)[i];
        }
      }
    }
  }

  /** One built child: an attributed option is unmarked, any other option or grouped option is marked by key. */
  lemma NewChildMarkedByKey(k: Value, v: Value, selected: Value)
    ensures ChildMarkedByKey(NewChild(k, v, selected), selected)
  {
    if v.Arr? && !IsAttributed(v) {
      GroupOptionsMarkedByKey(v.entries, selected);
    }
  }

  /** Every option of the tree was configured with its value as its key, and no top-level option has attributes. */
  ghost predicate KeysAreValues(cs: seq<Child>) {
    forall i :: 0 <= i < |cs| ==>
      match cs[i]
      case OptionChild(o) => o.key == o.value && o.attributes == Null
      case Optgroup(_, os) => forall j :: 0 <= j < |os| ==> os[j].key == os[j].value
  }

  /**
   * Building against a non-null selection and then calling `setValue` with that
   * same selection changes nothing, provided each option's key is its value.
   */
  lemma NewChildrenAlreadySynced(values: seq<(Value, Value)>, selected: Value)
    requires selected != Null
    requires KeysAreValues(NewChildren(values, selected))
    ensures Synced(NewChildren(values, selected), selected)
    ensures Resync(NewChildren(values, selected), selected) == NewChildren(values, selected)
  {
    var cs := NewChildren(values, selected);
    NewChildrenMarks(values, selected);
    forall i | 0 <= i < |cs| ensures ChildSynced(cs[i], selected) {
      match cs[i]
      case OptionChild(o) =>
      case Optgroup(_, os) =>
    }
    ResyncSpec(cs, selected);
    SyncedUnique(Resync(cs, selected), cs, selected);
  }

  // ---------------------------------------------------------------------------
  // The select element
  // ---------------------------------------------------------------------------

  class Select {
    const name: string
    /** The node attributes set at construction: `name` and `id`, both the element's name. */
    const attributes: map<string, string>
    /** The selection; `Null` when there is none. */
    var selected: Value
    var children: seq<Child>

    /** A non-null selection is stored before the options are built, so building marks by it. */
    constructor (name: string, values: seq<(Value, Value)>, selected: Value)
      ensures this.name == name && attributes == map["name" := name, "id" := name]
      ensures this.selected == selected
      ensures children == NewChildren(values, selected)
    {
      this.name := name;
      this.attributes := map["name" := name, "id" := name];
      this.selected := Null;
      this.children := [];
      new;
      if selected != Null {
        SetValue(selected);
      }
      SetValues(values);
    }

    /** Build one child per entry and append them; existing children stay. */
    method SetValues(values: seq<(Value, Value)>)
      modifies this`children
      ensures children == old(children) + NewChildren(values, selected)
    {
      var i := 0;
      while i < |values|
        invariant 0 <= i <= |values|
        invariant children == old(children) + NewChildren(values[..i], selected)
      {
        assert values[..i + 1][..i] == values[..i];
        var k := values[i].0;
        var v := values[i].1;
        var child;
        if v.Arr? {
          if IsAttributed(v) {
            child := OptionChild(SelectOption(k, Lookup(v.entries, Str("value")), Lookup(v.entries, Str("attributes")), false));
          } else {
            var group := BuildGroup(v.entries);
            child := Optgroup(k, group);
          }
        } else {
          var option := SelectOption(k, v, Null, false);
          if selected != Null && LooseEquals(k, selected) {
            option := option.(selected := true);
          }
          child := OptionChild(option);
        }
        assert child == NewChild(k, v, selected);
        children := children + [child];
        ghost var done := values[..i + 1];
        i := i + 1;
        assert values[..i] == done;
      }
      assert values[..|values|] == values;
    }

    /** The options of one optgroup, built from its entries in order and marked by key. */
    method BuildGroup(entries: seq<(Value, Value)>) returns (group: seq<SelectOption>)
      ensures group == GroupOptions(entries, selected)
    {
      group := [];
      var j := 0;
      while j < |entries|
        invariant 0 <= j <= |entries|
        invariant group == GroupOptions(entries[..j], selected)
      {
        assert entries[..j + 1][..j] == entries[..j];
        var ky := entries[j].0;
        var vl := entries[j].1;
        var option;
        if IsAttributed(vl) {
          option := SelectOption(ky, Lookup(vl.entries, Str("value")), Lookup(vl.entries, Str("attributes")), false);
        } else {
          option := SelectOption(ky, vl, Null, false);
        }
        if selected != Null && LooseEquals(ky, selected) {
          option := option.(selected := true);
        }
        group := group + [option];
        j := j + 1;
      }
      assert entries[..|entries|] == entries;
    }

    /** Store the selection, then re-mark every option, at both levels, by its value. */
    method SetValue(v: Value)
      modifies this`selected, this`children
      ensures selected == v
      ensures children == Resync(old(children), v)
    {
      selected := v;
      var i := 0;
      while i < |children|
        invariant 0 <= i <= |children| && |children| == |old(children)| && selected == v
        invariant forall j :: 0 <= j < i ==> children[j] == ResyncChild(old(children)[j], v)
        invariant forall j :: i <= j < |children| ==> children[j] == old(children)[j]
      {
        match children[i] {
        case OptionChild(o) =>
          children := children[i := OptionChild(o.(selected := LooseEquals(o.value, selected)))];
        case Optgroup(groupLabel, options) =>
          var opts := options;
          var j := 0;
          while j < |opts|
            invariant 0 <= j <= |opts| && |opts| == |options| && selected == v
            invariant forall l :: 0 <= l < j ==> opts[l] == Reflagged(options[l], v)
            invariant forall l :: j <= l < |opts| ==> opts[l] == options[l]
          {
            opts := opts[j := opts[j].(selected := LooseEquals(opts[j].value, selected))];
            j := j + 1;
          }
          children := children[i := Optgroup(groupLabel, opts)];
        }
        i := i + 1;
      }
    }

    /** Drop the selection and clear every mark. */
    method ResetValue()
      modifies this`selected, this`children
      ensures selected == Null
      ensures children == Cleared(old(children))
    {
      selected := Null;
      var i := 0;
      while i < |children|
        invariant 0 <= i <= |children| && |children| == |old(children)| && selected == Null
        invariant forall j :: 0 <= j < i ==> children[j] == ClearedChild(old(children)[j])
        invariant forall j :: i <= j < |children| ==> children[j] == old(children)[j]
      {
        match children[i] {
        case OptionChild(o) =>
          children := children[i := OptionChild(o.(selected := false))];
        case Optgroup(groupLabel, options) =>
          var opts := options;
          var j := 0;
          while j < |opts|
            invariant 0 <= j <= |opts| && |opts| == |options| && selected == Null
            invariant forall l :: 0 <= l < j ==> opts[l] == options[l].(selected := false)
            invariant forall l :: j <= l < |opts| ==> opts[l] == options[l]
          {
            opts := opts[j := opts[j].(selected := false)];
            j := j + 1;
          }
          children := children[i := Optgroup(groupLabel, opts)];
        }
        i := i + 1;
      }
    }
  }

  /** Options `a => 1` and `b => 2`, then `setValue(2)`: only the second option is marked. */
  method SelectByValue() returns (marks: seq<bool>)
    ensures marks == [false, true]
  {
    var select := new Select("number", [(Str("a"), Int(1)), (Str("b"), Int(2))], Null);
    select.SetValue(Int(2));
    marks := TopMarks(select.children);
  }

  /** The marks of a list of top-level options, in document order. */
  function TopMarks(cs: seq<Child>): seq<bool> {
    seq(|cs|, i requires 0 <= i < |cs| => cs[i].OptionChild? && cs[i].option.selected)
  }

  /**
   * A group `g => [x => 1, y => 2]` then `z => 2`, built with selection "y": the
   * grouped option with key "y" is marked by key; after `setValue(2)` the two
   * options whose value is 2 are marked, in the group and at the top level.
   */
  method GroupedSelection() returns (built: seq<bool>, resynced: seq<bool>)
    ensures built == [false, true, false]
    ensures resynced == [false, true, true]
  {
    var group := Arr([(Str("x"), Int(1)), (Str("y"), Int(2))]);
    var select := new Select("pick", [(Str("g"), group), (Str("z"), Int(2))], Str("y"));
    built := Marks(select.children);
    select.SetValue(Int(2));
    resynced := Marks(select.children);
  }

  /** The marks of a group followed by an option, in document order. */
  function Marks(cs: seq<Child>): seq<bool> {
    if |cs| == 2 && cs[0].Optgroup? && |cs[0].options| == 2 && cs[1].OptionChild? then
      [cs[0].options[0].selected, cs[0].options[1].selected, cs[1].option.selected]
    else []
  }
}
