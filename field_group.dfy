/** A form control as the collections see it. */
module Elements {
  import opened PhpValues

  /**
   * One form element: its name, its current value and the error messages its
   * validation has recorded.  Validators, attributes and rendering belong to the
   * element classes and are not part of this model.
   */
  datatype Element = Element(name: string, value: Value, errors: seq<string>)
  {
    /** `setValue`: the element with a new value and the same name and errors. */
    function WithValue(v: Value): (r: Element)
      ensures r.name == name && r.errors == errors && r.value == v
    {
      this.(value := v)
    }

    predicate HasErrors() {
      |errors| > 0
    }
  }
}

/**
 * FieldGroup: an ordered table from field name to element.  Adding an element
 * stores it under its own name (the last write wins and keeps the first
 * position); lookups of an absent name give null; writes to an absent name are
 * ignored.
 */
module FieldGroups {
  import opened Wrappers
  import opened PhpValues
  import opened Elements
  import opened OrderedMaps

  type Fields = OrderedMap<Element>

  /** A valid table whose every key is the name of the element stored under it. */
  ghost predicate WellKeyed(m: Fields) {
    m.Valid() && forall k :: k in m.entries ==> m.entries[k].name == k
  }

  /** `addFields`: `addField` applied to each element in list order. */
  function AddEach(m: Fields, es: seq<Element>): (r: Fields)
    requires WellKeyed(m)
    ensures WellKeyed(r)
  {
    if es == [] then m
    else
      var last := es[|es| - 1];
      Put(AddEach(m, es[..|es| - 1]), last.name, last)
  }

  /** `setFieldValue`: an absent name changes nothing; a present name changes that element's value only. */
  function SetValueAt(m: Fields, name: string, v: Value): (r: Fields)
    requires WellKeyed(m)
    ensures WellKeyed(r) && r.keys == m.keys
    ensures forall k :: k in r.entries <==> k in m.entries
    ensures forall k :: k in m.entries && k != name ==> r.entries[k] == m.entries[k]
    ensures name in m.entries ==> r.entries[name] == m.entries[name].WithValue(v)
    ensures name !in m.entries ==> r == m
  {
    if name in m.entries then Put(m, name, m.entries[name].WithValue(v)) else m
  }

  /** `setFieldValues`: `setFieldValue` applied to each name/value pair in order. */
  function SetEach(m: Fields, pairs: seq<(string, Value)>): (r: Fields)
    requires WellKeyed(m)
    ensures WellKeyed(r) && r.keys == m.keys
  {
    if pairs == [] then m
    else
      var last := pairs[|pairs| - 1];
      SetValueAt(SetEach(m, pairs[..|pairs| - 1]), last.0, last.1)
  }

  function Names(es: seq<Element>): (ns: seq<string>)
    ensures |ns| == |es| && forall i :: 0 <= i < |es| ==> ns[i] == es[i].name
  {
    seq(|es|, i requires 0 <= i < |es| => es[i].name)
  }

  /**
   * Adding elements with distinct names to an empty group lists exactly those
   * names, in the order added, so the group counts one field per element.
   */
  lemma {:induction false} AddEachDistinctNames(es: seq<Element>)
    requires Distinct(Names(es))
    ensures AddEach(Empty(), es).keys == Names(es)
    ensures |AddEach(Empty(), es).entries| == |es|
  {
    if es != [] {
      var init := es[..|es| - 1];
      var last := es[|es| - 1];
      var ns := Names(es);
      var front := Names(init);
      forall i | 0 <= i < |ns| ensures ns[i] == (front + [last.name])[i] {
        if i < |init| {
          assert front[i] == init[i].name;
        }
      }
      assert ns == front + [last.name];
      assert front == ns[..|es| - 1];
      DistinctInit(ns);
      AddEachDistinctNames(init);
    }
  }

  /** Adding the first element to an empty table, then the rest, is adding them all. */
  lemma AddEachFirst(es: seq<Element>)
    requires es != []
    ensures AddEach(Put(Empty(), es[0].name, es[0]), es[1..]) == AddEach(Empty(), es)
  {
    assert es == [es[0]] + es[1..];
    AddEachAppend(Empty(), [es[0]], es[1..]);
    assert AddEach(Empty(), [es[0]]) == Put(AddEach(Empty<Element>(), []), es[0].name, es[0]);
  }

  /** Adding two lists one after the other is adding their concatenation. */
  lemma {:induction false} AddEachAppend(m: Fields, a: seq<Element>, b: seq<Element>)
    requires WellKeyed(m)
    ensures AddEach(m, a + b) == AddEach(AddEach(m, a), b)
  {
    if b != [] {
      assert (a + b)[..|a + b| - 1] == a + b[..|b| - 1];
      AddEachAppend(m, a, b[..|b| - 1]);
    } else {
      assert a + b == a;
    }
  }

  /** The last write wins: an element not followed by another of the same name is the one stored. */
  lemma {:induction false} AddEachLastWins(m: Fields, es: seq<Element>, i: nat)
    requires WellKeyed(m)
    requires i < |es|
    requires forall j :: i < j < |es| ==> es[j].name != es[i].name
    ensures Get(AddEach(m, es), es[i].name) == Some(es[i])
  {
    if i < |es| - 1 {
      AddEachLastWins(m, es[..|es| - 1], i);
    }
  }

  /** Reading back a value just written to a present field gives that value; an absent field still reads null. */
  lemma SetThenGetValue(m: Fields, name: string, v: Value)
    requires WellKeyed(m)
    ensures name in m.entries ==> SetValueAt(m, name, v).entries[name].value == v
    ensures name !in m.entries ==> Get(SetValueAt(m, name, v), name) == None
  {
  }

  /** Writing a field's value just before removing it leaves no trace. */
  lemma RemoveAfterSet(m: Fields, name: string, v: Value)
    requires WellKeyed(m)
    ensures Remove(SetValueAt(m, name, v), name) == Remove(m, name)
  {
    if name in m.entries {
      assert SetValueAt(m, name, v).entries - {name} == m.entries - {name};
    }
  }

  class FieldGroup {
    var fields: Fields
    /** The legend of a fieldset (a FieldGroup rendered as a fieldset). */
    var legend: Option<string>
    /** Node attributes of a fieldset; the form sets `id` and `class`. */
    var attributes: map<string, string>

    ghost predicate Valid()
      reads this
    {
      WellKeyed(fields)
    }

    constructor (es: seq<Element>)
      ensures Valid() && fields == AddEach(Empty(), es)
      ensures legend == None && attributes == map[]
    {
      fields := Empty();
      legend := None;
      attributes := map[];
      new;
      AddFields(es);
    }

    method AddField(e: Element)
      requires Valid()
      modifies this`fields
      ensures Valid()
      ensures fields == Put(old(fields), e.name, e)
    {
      fields := Put(fields, e.name, e);
    }

    method AddFields(es: seq<Element>)
      requires Valid()
      modifies this`fields
      ensures Valid()
      ensures fields == AddEach(old(fields), es)
    {
      var i := 0;
      while i < |es|
        invariant 0 <= i <= |es|
        invariant Valid()
        invariant fields == AddEach(old(fields), es[..i])
      {
        assert es[..i + 1][..i] == es[..i];
        AddField(es[i]);
        ghost var done := es[..i + 1];
        i := i + 1;
        assert es[..i] == done;
      }
      assert es[..|es|] == es;
    }

    /** PHP's `count()`: the number of entries, which is also the number of names iteration visits. */
    function Count(): (n: nat)
      reads this
      requires Valid()
      ensures n == |fields.keys|
    {
      KeyCountIsSize(fields);
      |fields.entries|
    }

    /** Name to value, for every field, in insertion order. */
    method ToArray() returns (values: OrderedMap<Value>)
      requires Valid()
      ensures values.Valid() && values.keys == fields.keys
      ensures forall k :: k in fields.entries ==> k in values.entries && values.entries[k] == fields.entries[k].value
    {
      values := Empty();
      var i := 0;
      while i < |fields.keys|
        invariant 0 <= i <= |fields.keys|
        invariant values.Valid() && values.keys == fields.keys[..i]
        invariant forall k :: k in values.entries ==> k in fields.entries && values.entries[k] == fields.entries[k].value
      {
        var name := fields.keys[i];
        assert name !in values.entries by {
          forall j | 0 <= j < i ensures fields.keys[..i][j] != name {
            assert fields.keys[j] != fields.keys[i];
          }
        }
        values := Put(values, name, fields.entries[name].value);
        i := i + 1;
      }
      assert fields.keys[..i] == fields.keys;
    }

    /** The element stored under `name`, or null. */
    function GetField(name: string): (r: Option<Element>)
      reads this
      requires Valid()
      ensures r.Some? <==> name in fields.keys
      ensures r.Some? ==> r.value.name == name && r.value == fields.entries[name]
    {
      Get(fields, name)
    }

    function GetFields(): (r: Fields)
      reads this
      requires Valid()
      ensures WellKeyed(r)
    {
      fields
    }

    /** The value of the element stored under `name`, or null when there is none. */
    function GetFieldValue(name: string): (r: Value)
      reads this
      requires Valid()
      ensures name in fields.entries ==> r == fields.entries[name].value
      ensures name !in fields.entries ==> r == Null
    {
      match Get(fields, name)
      case Some(e) => e.value
      case None => Null
    }

    method SetFieldValue(name: string, v: Value)
      requires Valid()
      modifies this`fields
      ensures Valid()
      ensures fields == SetValueAt(old(fields), name, v)
    {
      if name in fields.entries {
        fields := Put(fields, name, fields.entries[name].WithValue(v));
      }
    }

    method SetFieldValues(pairs: seq<(string, Value)>)
      requires Valid()
      modifies this`fields
      ensures Valid()
      ensures fields == SetEach(old(fields), pairs)
    {
      var i := 0;
      while i < |pairs|
        invariant 0 <= i <= |pairs|
        invariant Valid()
        invariant fields == SetEach(old(fields), pairs[..i])
      {
        assert pairs[..i + 1][..i] == pairs[..i];
        SetFieldValue(pairs[i].0, pairs[i].1);
        ghost var done := pairs[..i + 1];
        i := i + 1;
        assert pairs[..i] == done;
      }
      assert pairs[..|pairs|] == pairs;
    }

    /** `__isset`: whether a field of that name is present, i.e. whether iteration visits it. */
    function Has(name: string): (r: bool)
      reads this
      requires Valid()
      ensures r <==> name in fields.keys
    {
      name in fields.entries
    }

    /** `__unset`: remove the field of that name, if any; the others keep their order. */
    method Delete(name: string)
      requires Valid()
      modifies this`fields
      ensures Valid()
      ensures fields == Remove(old(fields), name)
    {
      fields := Remove(fields, name);
    }

    method SetLegend(l: string)
      modifies this`legend
      ensures legend == Some(l)
    {
      legend := Some(l);
    }

    method SetAttribute(key: string, val: string)
      modifies this`attributes
      ensures attributes == old(attributes)[key := val]
    {
      attributes := attributes[key := val];
    }
  }
}
