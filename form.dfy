/**
 * Form: an ordered list of fieldsets with a `current` index.  Single-field reads
 * and writes go to the current fieldset only; count, getFields, toArray, isValid,
 * getAllErrors and reset span every fieldset in order.  The views that span all
 * fieldsets are built with `array_merge`, so when two fieldsets hold a field of
 * the same name the later one is the one seen, validated and reset.
 */
module Forms {
  import opened Wrappers
  import opened PhpValues
  import opened Elements
  import opened OrderedMaps
  import opened FieldGroups

  // ---------------------------------------------------------------------------
  // Specification functions over the fieldsets' tables
  // ---------------------------------------------------------------------------

  ghost predicate AllWellKeyed(ts: seq<Fields>) {
    forall i :: 0 <= i < |ts| ==> WellKeyed(ts[i])
  }

  /** Merging tables that store each element under its own name gives such a table. */
  lemma {:induction false} MergeAllWellKeyed(ts: seq<Fields>)
    requires AllWellKeyed(ts)
    ensures WellKeyed(MergeAll(ts))
  {
    if ts != [] {
      MergeAllWellKeyed(ts[..|ts| - 1]);
    }
  }

  /** The sum of the per-fieldset counts. */
  function TotalCount(ts: seq<Fields>): nat {
    if ts == [] then 0 else TotalCount(ts[..|ts| - 1]) + |ts[|ts| - 1].entries|
  }

  /** Replacing one fieldset's table changes the total by the difference of the two counts. */
  lemma {:induction false} TotalCountUpdate(ts: seq<Fields>, c: nat, t: Fields)
    requires c < |ts|
    ensures TotalCount(ts[c := t]) == TotalCount(ts) - |ts[c].entries| + |t.entries|
  {
    var n := |ts|;
    if c < n - 1 {
      assert ts[c := t][..n - 1] == ts[..n - 1][c := t];
      TotalCountUpdate(ts[..n - 1], c, t);
    } else {
      assert ts[c := t][..n - 1] == ts[..n - 1];
    }
  }

  /** The merged view never holds more fields than the fieldsets together. */
  lemma {:induction false} MergedCountAtMostTotal(ts: seq<Fields>)
    requires AllWellKeyed(ts)
    ensures |MergeAll(ts).entries| <= TotalCount(ts)
  {
    if ts != [] {
      var n := |ts|;
      MergedCountAtMostTotal(ts[..n - 1]);
      MergeCount(MergeAll(ts[..n - 1]), ts[n - 1]);
    }
  }

  /** When no name occurs in two fieldsets, the merged view holds exactly as many fields as they do together. */
  lemma {:induction false} MergedCountDisjoint(ts: seq<Fields>)
    requires AllWellKeyed(ts)
    requires forall i, j, k :: 0 <= i < j < |ts| && k in ts[i].entries ==> k !in ts[j].entries
    ensures |MergeAll(ts).entries| == TotalCount(ts)
  {
    if ts != [] {
      var n := |ts|;
      var init := ts[..n - 1];
      MergedCountDisjoint(init);
      var a := MergeAll(init);
      forall k | k in a.entries ensures k !in ts[n - 1].entries {
        MergeAllEntries(init, k);
      }
      MergeCount(a, ts[n - 1]);
    }
  }

  /** `array_merge` holds at most the entries of both sides, and exactly that many when their names are disjoint. */
  lemma MergeCount<V>(a: OrderedMap<V>, b: OrderedMap<V>)
    requires a.Valid() && b.Valid()
    ensures |Merge(a, b).entries| <= |a.entries| + |b.entries|
    ensures (forall k :: k in a.entries ==> k !in b.entries) ==> |Merge(a, b).entries| == |a.entries| + |b.entries|
  {
    var m := Merge(a, b);
    assert m.entries.Keys == a.entries.Keys + b.entries.Keys;
  }

  function ValueOf(e: Element): Value {
    e.value
  }

  /**
   * The tables after the fields named in `done` were each replaced by `f` of
   * themselves in the one fieldset that provides them to the merged view (the
   * last that holds the name); a field shadowed by a later fieldset is untouched.
   */
  function UpdateOwnedOn(ts: seq<Fields>, f: Element -> Element, done: set<string>): (us: seq<Fields>)
    requires AllWellKeyed(ts)
    requires forall e :: f(e).name == e.name
    ensures |us| == |ts| && AllWellKeyed(us)
    ensures forall i :: 0 <= i < |ts| ==> us[i].keys == ts[i].keys && us[i].entries.Keys == ts[i].entries.Keys
  {
    seq(|ts|, i requires 0 <= i < |ts| => UpdateTable(ts[i], f, OwnedBy(ts, i, done)))
  }

  /** The values of the first `i + 1` merged tables: the values so far, merged with the values of table `i`. */
  lemma ToArrayStep(ts: seq<Fields>, i: nat)
    requires AllWellKeyed(ts) && i < |ts|
    ensures MapValues(MergeAll(ts[..i + 1]), ValueOf)
         == Merge(MapValues(MergeAll(ts[..i]), ValueOf), MapValues(ts[i], ValueOf))
  {
    assert ts[..i + 1][..i] == ts[..i];
    MapValuesMerge(MergeAll(ts[..i]), ts[i], ValueOf);
  }

  /** The names listed in `ks`. */
  function KeySet(ks: seq<string>): set<string> {
    set k | k in ks
  }

  /** The names among `done` that table `i` provides to the merged view. */
  function OwnedBy(ts: seq<Fields>, i: nat, done: set<string>): set<string> {
    set k | k in done && LastOwner(ts, k) == i
  }

  /** The table with the fields named in `owned` replaced by `f` of themselves. */
  function UpdateTable(t: Fields, f: Element -> Element, owned: set<string>): (u: Fields)
    requires WellKeyed(t)
    requires forall e :: f(e).name == e.name
    ensures WellKeyed(u) && u.keys == t.keys && u.entries.Keys == t.entries.Keys
  {
    OrderedMap(t.keys, map k | k in t.entries :: if k in owned then f(t.entries[k]) else t.entries[k])
  }

  /** Adding a present name to the updated set rewrites just that entry. */
  lemma UpdateTableAdd(t: Fields, f: Element -> Element, owned: set<string>, k: string)
    requires WellKeyed(t)
    requires forall e :: f(e).name == e.name
    requires k in t.entries
    ensures UpdateTable(t, f, owned + {k}) == Put(UpdateTable(t, f, owned), k, f(t.entries[k]))
  {
    var u := UpdateTable(t, f, owned);
    var val := f(t.entries[k]);
    var left := map x | x in t.entries :: if x in owned + {k} then f(t.entries[x]) else t.entries[x];
    var right := u.entries[k := val];
    forall x | x in t.entries ensures x in right && left[x] == right[x] {
    }
    assert left.Keys == right.Keys;
    assert left == right;
  }

  lemma OwnedByStep(ts: seq<Fields>, i: nat, done: set<string>, k: string)
    ensures i == LastOwner(ts, k) ==> OwnedBy(ts, i, done + {k}) == OwnedBy(ts, i, done) + {k}
    ensures i != LastOwner(ts, k) ==> OwnedBy(ts, i, done + {k}) == OwnedBy(ts, i, done)
  {
  }

  /** Processing one more name changes exactly one entry: that name in its owning fieldset. */
  lemma UpdateOwnedStep(ts: seq<Fields>, f: Element -> Element, done: set<string>, k: string)
    requires AllWellKeyed(ts)
    requires forall e :: f(e).name == e.name
    requires k !in done && LastOwner(ts, k) >= 0
    ensures var us := UpdateOwnedOn(ts, f, done); var j := LastOwner(ts, k);
      UpdateOwnedOn(ts, f, done + {k}) == us[j := Put(us[j], k, f(ts[j].entries[k]))]
  {
    var us := UpdateOwnedOn(ts, f, done);
    var vs := UpdateOwnedOn(ts, f, done + {k});
    var j := LastOwner(ts, k);
    var ws := us[j := Put(us[j], k, f(ts[j].entries[k]))];
    forall i | 0 <= i < |ts| ensures vs[i] == ws[i] {
      OwnedByStep(ts, i, done, k);
      if i == j {
        UpdateTableAdd(ts[i], f, OwnedBy(ts, i, done), k);
      }
    }
  }

  /**
   * One turn of the walk: the `i`-th merged name is held by its last owner in the
   * tables as updated so far, and updating it there gives the tables with that
   * name done as well.
   */
  lemma VisitStep(ts0: seq<Fields>, ts: seq<Fields>, merged: Fields, i: nat, f: Element -> Element)
    requires AllWellKeyed(ts0) && merged == MergeAll(ts0) && i < |merged.keys|
    requires forall e :: f(e).name == e.name
    requires ts == UpdateOwnedOn(ts0, f, KeySet(merged.keys[..i]))
    ensures var k := merged.keys[i]; var j := LastOwner(ts, k);
      && 0 <= j < |ts| && k in ts[j].entries && f(merged.entries[k]).name == k
      && UpdateOwnedOn(ts0, f, KeySet(merged.keys[..i + 1])) == ts[j := Put(ts[j], k, f(merged.entries[k]))]
  {
    var k := merged.keys[i];
    KeySetStep(merged.keys, i);
    MergeAllEntries(ts0, k);
    UpdateOwnedStep(ts0, f, KeySet(merged.keys[..i]), k);
    LastOwnerSameKeys(ts, ts0, k);
  }

  /** Updating no names leaves every table as it was. */
  lemma UpdateOwnedNone(ts: seq<Fields>, f: Element -> Element)
    requires AllWellKeyed(ts)
    requires forall e :: f(e).name == e.name
    ensures UpdateOwnedOn(ts, f, {}) == ts
  {
    var us := UpdateOwnedOn(ts, f, {});
    forall i | 0 <= i < |ts| ensures us[i] == ts[i] {
      assert us[i].entries == ts[i].entries;
    }
  }

  /** The last owner of a name depends only on which tables hold it. */
  lemma {:induction false} LastOwnerSameKeys(ts: seq<Fields>, us: seq<Fields>, k: string)
    requires |ts| == |us|
    requires forall i :: 0 <= i < |ts| ==> ts[i].entries.Keys == us[i].entries.Keys
    ensures LastOwner(ts, k) == LastOwner(us, k)
  {
    if ts != [] {
      LastOwnerSameKeys(ts[..|ts| - 1], us[..|us| - 1], k);
    }
  }

  /**
   * After every field of the merged view was updated in its owning fieldset, the
   * merged view shows exactly the same names, each with `f` of its old element.
   */
  lemma MergeAllAfterUpdate(ts: seq<Fields>, f: Element -> Element, k: string)
    requires AllWellKeyed(ts)
    requires forall e :: f(e).name == e.name
    ensures var us := UpdateOwnedOn(ts, f, MergeAll(ts).entries.Keys);
      (k in MergeAll(us).entries <==> k in MergeAll(ts).entries) &&
      (k in MergeAll(ts).entries ==> MergeAll(us).entries[k] == f(MergeAll(ts).entries[k]))
  {
    var us := UpdateOwnedOn(ts, f, MergeAll(ts).entries.Keys);
    LastOwnerSameKeys(ts, us, k);
    MergeAllEntries(ts, k);
    MergeAllEntries(us, k);
  }

  /** `reset` then `toArray`: every field of the merged view reads the value its element's reset left. */
  lemma ResetThenToArray(ts: seq<Fields>, blank: Element -> Value, k: string)
    requires AllWellKeyed(ts)
    requires k in MergeAll(ts).entries
    ensures var us := UpdateOwnedOn(ts, Blanked(blank), MergeAll(ts).entries.Keys);
      k in MapValues(MergeAll(us), ValueOf).entries &&
      MapValues(MergeAll(us), ValueOf).entries[k] == blank(MergeAll(ts).entries[k])
  {
    MergeAllAfterUpdate(ts, Blanked(blank), k);
  }

  /** What `validate` leaves in an element: the error list the check reports. */
  function Validated(check: Element -> (bool, seq<string>)): (f: Element -> Element)
    ensures forall e :: f(e).name == e.name
  {
    (e: Element) => e.(errors := check(e).1)
  }

  function Passes(check: Element -> (bool, seq<string>)): Element -> bool {
    (e: Element) => check(e).0
  }

  /** What `resetValue` leaves in an element: the value the element's reset gives. */
  function Blanked(blank: Element -> Value): (f: Element -> Element)
    ensures forall e :: f(e).name == e.name
  {
    (e: Element) => e.(value := blank(e))
  }

  /** PHP's `str_replace('[]', '', $s)`: drop every "[]", scanning left to right. */
  function StripMarker(s: string): string {
    if |s| >= 2 && s[0] == '[' && s[1] == ']' then StripMarker(s[2..])
    else if s == [] then []
    else [s[0]] + StripMarker(s[1..])
  }

  /** The multi-value marker at the end of a field name does not show in its error key. */
  lemma {:induction false} StripMarkerSuffix(s: string)
    ensures StripMarker(s + "[]") == StripMarker(s)
  {
    if |s| >= 2 && s[0] == '[' && s[1] == ']' {
      assert (s + "[]")[2..] == s[2..] + "[]";
      StripMarkerSuffix(s[2..]);
    } else if s == [] {
      assert StripMarker("") == "";
    } else if |s| == 1 {
      assert (s + "[]")[1..] == "[]";
      assert StripMarker("[]") == StripMarker("") == "";
    } else {
      assert (s + "[]")[1..] == s[1..] + "[]";
      StripMarkerSuffix(s[1..]);
    }
  }

  /** A name without "[]" is its own error key. */
  lemma {:induction false} StripMarkerPlain(s: string)
    requires forall i :: 0 <= i < |s| - 1 ==> !(s[i] == '[' && s[i + 1] == ']')
    ensures StripMarker(s) == s
  {
    if s != [] {
      assert !(|s| >= 2 && s[0] == '[' && s[1] == ']');
      StripMarkerPlain(s[1..]);
    }
  }

  /** `getAllErrors` over the merged fields visited in the order `ks`. */
  function CollectErrors(m: Fields, ks: seq<string>): (r: OrderedMap<seq<string>>)
    requires forall k :: k in ks ==> k in m.entries
    ensures r.Valid()
  {
    if ks == [] then Empty()
    else
      var init := CollectErrors(m, ks[..|ks| - 1]);
      var e := m.entries[ks[|ks| - 1]];
      if e.HasErrors() then Put(init, StripMarker(e.name), e.errors) else init
  }

  /** Visiting one more field adds its errors under its stripped name, when it has any. */
  lemma CollectErrorsSnoc(m: Fields, ks: seq<string>, k: string)
    requires forall x :: x in ks + [k] ==> x in m.entries
    ensures forall x :: x in ks ==> x in m.entries
    ensures CollectErrors(m, ks + [k]) == if m.entries[k].HasErrors()
      then Put(CollectErrors(m, ks), StripMarker(m.entries[k].name), m.entries[k].errors)
      else CollectErrors(m, ks)
  {
    assert (ks + [k])[..|ks|] == ks;
  }

  /** The loop of `getAllErrors` over a merged table: visit every field in order and record the errors of those that have any. */
  method ReportErrors(m: Fields) returns (errs: OrderedMap<seq<string>>)
    requires m.Valid()
    ensures errs == CollectErrors(m, m.keys)
  {
    errs := Empty();
    var i := 0;
    while i < |m.keys|
      invariant 0 <= i <= |m.keys|
      invariant errs == CollectErrors(m, m.keys[..i])
    {
      assert m.keys[..i + 1] == m.keys[..i] + [m.keys[i]];
      CollectErrorsSnoc(m, m.keys[..i], m.keys[i]);
      var e := m.entries[m.keys[i]];
      if e.HasErrors() {
        errs := Put(errs, StripMarker(e.name), e.errors);
      }
      ghost var done := m.keys[..i + 1];
      i := i + 1;
      assert m.keys[..i] == done;
    }
    assert m.keys[..i] == m.keys;
  }

  /** The field `name` has errors, and they are reported under `key`. */
  predicate ReportsUnder(m: Fields, name: string, key: string)
    requires name in m.entries
  {
    m.entries[name].HasErrors() && StripMarker(m.entries[name].name) == key
  }

  /**
   * The error table has an entry for a key exactly when some visited field with
   * errors has that key as its name with "[]" removed.
   */
  lemma {:induction false} CollectErrorsKeys(m: Fields, ks: seq<string>, key: string)
    requires forall k :: k in ks ==> k in m.entries
    ensures key in CollectErrors(m, ks).entries <==> exists j :: 0 <= j < |ks| && ReportsUnder(m, ks[j], key)
  {
    if ks != [] {
      var n := |ks|;
      var init, last := ks[..n - 1], ks[n - 1];
      assert ks == init + [last];
      CollectErrorsSnoc(m, init, last);
      CollectErrorsKeys(m, init, key);
      if !ReportsUnder(m, last, key) {
        forall j | 0 <= j < n && ReportsUnder(m, ks[j], key) ensures j < n - 1 && ReportsUnder(m, init[j], key) {
          assert init[j] == ks[j];
        }
        forall j | 0 <= j < n - 1 && ReportsUnder(m, init[j], key) ensures ReportsUnder(m, ks[j], key) {
          assert init[j] == ks[j];
        }
      }
    }
  }

  /** The entry for a key holds the errors of the last visited field reported under it. */
  lemma {:induction false} CollectErrorsLast(m: Fields, ks: seq<string>, key: string, j: nat)
    requires forall k :: k in ks ==> k in m.entries
    requires j < |ks| && ReportsUnder(m, ks[j], key)
    requires forall l :: j < l < |ks| ==> !ReportsUnder(m, ks[l], key)
    ensures key in CollectErrors(m, ks).entries
    ensures CollectErrors(m, ks).entries[key] == m.entries[ks[j]].errors
  {
    var n := |ks|;
    var init, last := ks[..n - 1], ks[n - 1];
    assert ks == init + [last];
    CollectErrorsSnoc(m, init, last);
    if j < n - 1 {
      assert init[j] == ks[j];
      forall l | j < l < n - 1 ensures !ReportsUnder(m, init[l], key) {
        assert init[l] == ks[l];
      }
      CollectErrorsLast(m, init, key, j);
      assert !ReportsUnder(m, last, key);
    }
  }

  /** The form action as the constructor writes it: a given action is always replaced. */
  function ActionAsWritten(action: Option<string>, requestUri: Option<string>): string {
    if action.None? && requestUri.Some? then requestUri.value else "#"
  }

  /** The action the constructor evidently means: the given one, else the request URI, else "#". */
  function ResolveAction(action: Option<string>, requestUri: Option<string>): (r: string)
    ensures action.Some? ==> r == action.value
    ensures action.None? ==> r == ActionAsWritten(action, requestUri)
  {
    match action
    case Some(a) => a
    case None => if requestUri.Some? then requestUri.value else "#"
  }

  /** An action passed to the constructor never reaches the form as written. */
  lemma GivenActionDiscarded(a: string, requestUri: Option<string>)
    ensures ActionAsWritten(Some(a), requestUri) == "#"
    ensures a != "#" ==> ActionAsWritten(Some(a), requestUri) != ResolveAction(Some(a), requestUri)
  {
  }

  /** The node attributes `createFieldset` gives the fieldset numbered `n` (1-based) of a form with these attributes. */
  function NewFieldsetAttributes(formAttributes: map<string, string>, n: nat): map<string, string> {
    map["id" := FieldsetId(formAttributes, n), "class" := FieldsetClass(formAttributes)]
  }

  /** The id a new fieldset gets: `<form id>-fieldset-<n>`, or `pop-form-fieldset-<n>` without a form id. */
  function FieldsetId(formAttributes: map<string, string>, n: nat): string {
    if "id" in formAttributes then formAttributes["id"] + "-fieldset-" + DecimalString(n)
    else "pop-form-fieldset-" + DecimalString(n)
  }

  /**
   * The class a new fieldset gets.  The test is on the form's class but the text
   * comes from the form's id, which is empty when the form has no id.
   */
  function FieldsetClass(formAttributes: map<string, string>): string {
    if "class" in formAttributes then
      (if "id" in formAttributes then formAttributes["id"] else "") + "-fieldset"
    else "pop-form-fieldset"
  }

  /** Fieldsets created under the same form id with different sequence numbers get different ids. */
  lemma FieldsetIdsDistinct(formAttributes: map<string, string>, m: nat, n: nat)
    requires m != n
    ensures FieldsetId(formAttributes, m) != FieldsetId(formAttributes, n)
  {
    var p := if "id" in formAttributes then formAttributes["id"] + "-fieldset-" else "pop-form-fieldset-";
    assert FieldsetId(formAttributes, m) == p + DecimalString(m);
    assert FieldsetId(formAttributes, n) == p + DecimalString(n);
    if p + DecimalString(m) == p + DecimalString(n) {
      assert (p + DecimalString(m))[|p|..] == DecimalString(m);
      assert (p + DecimalString(n))[|p|..] == DecimalString(n);
      DecimalStringInjective(m, n);
    }
  }

  /** The form's class never shows in a fieldset's class. */
  lemma FieldsetClassIgnoresFormClass(formAttributes: map<string, string>, c: string)
    requires "class" in formAttributes
    ensures FieldsetClass(formAttributes[ "class" := c ]) == FieldsetClass(formAttributes)
    ensures "id" !in formAttributes ==> FieldsetClass(formAttributes) == "-fieldset"
  {
  }

  /** The list without its element at `i`, the rest in order. */
  function RemoveAt<T>(s: seq<T>, i: nat): (r: seq<T>)
    requires i < |s|
    ensures |r| == |s| - 1
    ensures forall j :: 0 <= j < i ==> r[j] == s[j]
    ensures forall j :: i <= j < |r| ==> r[j] == s[j + 1]
  {
    s[..i] + s[i + 1..]
  }

  /** One more `setFieldValue` on the current table extends the `setFieldValues` prefix by one pair. */
  lemma SetEachStep(ts: seq<Fields>, c: nat, pairs: seq<(string, Value)>, i: nat)
    requires c < |ts| && WellKeyed(ts[c]) && i < |pairs|
    ensures var prev := SetEach(ts[c], pairs[..i]);
      ts[c := prev][c := SetValueAt(prev, pairs[i].0, pairs[i].1)] == ts[c := SetEach(ts[c], pairs[..i + 1])]
  {
    assert pairs[..i + 1][..i] == pairs[..i];
  }

  /** Keep the index if it still exists, else fall back to the last index, or 0 for an empty list. */
  function Clamp(c: nat, n: nat): (r: nat)
    ensures n > 0 ==> r < n
    ensures n == 0 ==> r == 0
    ensures c < n ==> r == c
  {
    if c < n then c else if n > 0 then n - 1 else 0
  }

  /**
   * `current` keeps its number, not its fieldset: after removing a fieldset at or
   * before it, the index designates the fieldset that followed the old current one.
   */
  lemma RemoveBeforeCurrentShifts<T>(s: seq<T>, i: nat, c: nat)
    requires i <= c && c + 1 < |s|
    ensures RemoveAt(s, i)[Clamp(c, |s| - 1)] == s[c + 1]
  {
  }

  /** `p` holds for each of the first `n` fields of `m`, in key order. */
  ghost predicate AllPassUpTo(m: Fields, p: Element -> bool, n: nat)
    requires m.Valid() && n <= |m.keys|
  {
    forall j :: 0 <= j < n ==> p(m.entries[m.keys[j]])
  }

  /** One more field passes the first `n + 1` exactly when the first `n` pass and so does field `n`. */
  lemma AllPassUpToStep(m: Fields, p: Element -> bool, n: nat)
    requires m.Valid() && n < |m.keys|
    ensures AllPassUpTo(m, p, n + 1) <==> AllPassUpTo(m, p, n) && p(m.entries[m.keys[n]])
  {
  }

  /** Over all keys, passing in key order is passing for every field, and the keys listed are the keys held. */
  lemma AllPassAllKeys(m: Fields, p: Element -> bool)
    requires m.Valid()
    ensures AllPassUpTo(m, p, |m.keys|) <==> forall k :: k in m.entries ==> p(m.entries[k])
    ensures KeySet(m.keys) == m.entries.Keys
  {
    if AllPassUpTo(m, p, |m.keys|) {
      forall k | k in m.entries ensures p(m.entries[k]) {
        var j :| 0 <= j < |m.keys| && m.keys[j] == k;
      }
    }
  }

  /** Visiting the keys of a distinct list in order meets each key for the first time. */
  lemma KeySetStep(ks: seq<string>, i: nat)
    requires Distinct(ks) && i < |ks|
    ensures ks[i] !in KeySet(ks[..i])
    ensures KeySet(ks[..i + 1]) == KeySet(ks[..i]) + {ks[i]}
  {
    forall j | 0 <= j < i ensures ks[..i][j] != ks[i] {
      assert ks[j] != ks[i];
    }
    assert ks[..i + 1] == ks[..i] + [ks[i]];
  }

  // ---------------------------------------------------------------------------
  // The form
  // ---------------------------------------------------------------------------

  class Form {
    var fieldsets: seq<FieldGroup>
    var current: nat
    /** Node attributes: `action`, `method`, and optionally `id` and `class`. */
    var attributes: map<string, string>

    /** Every fieldset is valid, no fieldset is listed twice, and `current` designates one when any exists. */
    ghost predicate Valid()
      reads this, fieldsets
    {
      && (forall i :: 0 <= i < |fieldsets| ==> fieldsets[i].Valid())
      && (forall i, j :: 0 <= i < j < |fieldsets| ==> fieldsets[i] != fieldsets[j])
      && (if |fieldsets| == 0 then current == 0 else current < |fieldsets|)
    }

    /** The fieldsets' tables, in order. */
    ghost function Tables(): (ts: seq<Fields>)
      reads this, fieldsets
      ensures |ts| == |fieldsets|
      ensures forall i :: 0 <= i < |fieldsets| ==> ts[i] == fieldsets[i].fields
    {
      seq(|fieldsets|, i reads this, fieldsets requires 0 <= i < |fieldsets| => fieldsets[i].fields)
    }

    /** The action is given by the caller, else taken from the request URI, else "#"; no field makes no fieldset. */
    constructor (es: seq<Element>, action: Option<string>, httpMethod: string, requestUri: Option<string>)
      ensures Valid()
      ensures attributes == map["action" := ResolveAction(action, requestUri), "method" := httpMethod]
      ensures es == [] ==> fieldsets == []
      ensures es != [] ==> |fieldsets| == 1 && current == 0 && fresh(fieldsets[0])
      ensures es != [] ==> fieldsets[0].fields == AddEach(Empty(), es)
      ensures es != [] ==> fieldsets[0].legend == None && fieldsets[0].attributes == NewFieldsetAttributes(attributes, 1)
    {
      fieldsets := [];
      current := 0;
      attributes := map["action" := ResolveAction(action, requestUri), "method" := httpMethod];
      new;
      AddFields(es);
    }

    method SetAttribute(key: string, val: string)
      modifies this`attributes
      ensures attributes == old(attributes)[key := val]
    {
      attributes := attributes[key := val];
    }

    method AddFieldset(fs: FieldGroup)
      requires Valid() && fs.Valid()
      requires fs !in fieldsets
      modifies this`fieldsets, this`current
      ensures Valid()
      ensures fieldsets == old(fieldsets) + [fs]
      ensures current == |fieldsets| - 1
    {
      fieldsets := fieldsets + [fs];
      current := |fieldsets| - 1;
    }

    /** A new, empty fieldset is appended and made current; its id carries its 1-based number. */
    method CreateFieldset(legend: Option<string>) returns (fs: FieldGroup)
      requires Valid()
      modifies this`fieldsets, this`current
      ensures Valid() && fresh(fs)
      ensures fieldsets == old(fieldsets) + [fs] && current == |fieldsets| - 1
      ensures fs.fields == Empty() && fs.legend == legend
      ensures fs.attributes == NewFieldsetAttributes(attributes, |fieldsets|)
    {
      fs := new FieldGroup([]);
      if legend.Some? {
        fs.SetLegend(legend.value);
      }
      AddFieldset(fs);
      var id := FieldsetId(attributes, current + 1);
      var cls := FieldsetClass(attributes);
      fs.SetAttribute("id", id);
      fs.SetAttribute("class", cls);
    }

    /** Remove the fieldset at `i` if there is one, close the gap, and pull `current` back into range. */
    method RemoveFieldset(i: int)
      requires Valid()
      modifies this`fieldsets, this`current
      ensures Valid()
      ensures 0 <= i < |old(fieldsets)| ==> fieldsets == RemoveAt(old(fieldsets), i)
      ensures !(0 <= i < |old(fieldsets)|) ==> fieldsets == old(fieldsets)
      ensures current == Clamp(old(current), |fieldsets|)
    {
      if 0 <= i < |fieldsets| {
        fieldsets := fieldsets[..i] + fieldsets[i + 1..];
      }
      if current >= |fieldsets| {
        current := if |fieldsets| > 0 then |fieldsets| - 1 else 0;
      }
    }

    /** The current fieldset, or null when there is none. */
    function GetFieldset(): (r: FieldGroup?)
      reads this, fieldsets
      requires Valid()
      ensures r != null <==> |fieldsets| > 0
      ensures r != null ==> r == fieldsets[current]
    {
      if current < |fieldsets| then fieldsets[current] else null
    }

    /** The current index: a valid index whenever a fieldset exists, else 0. */
    function GetCurrent(): (c: nat)
      reads this, fieldsets
      requires Valid()
      ensures |fieldsets| > 0 ==> c < |fieldsets|
      ensures |fieldsets| == 0 ==> c == 0
    {
      current
    }

    /** Make fieldset `i` current; one past the end appends a new fieldset for it. */
    method SetCurrent(i: nat)
      requires Valid()
      requires i <= |fieldsets|
      modifies this`fieldsets, this`current
      ensures Valid() && current == i
      ensures i < old(|fieldsets|) ==> fieldsets == old(fieldsets)
      ensures i == old(|fieldsets|) ==>
        |fieldsets| == i + 1 && fieldsets[..i] == old(fieldsets) &&
        fresh(fieldsets[i]) && fieldsets[i].fields == Empty() &&
        fieldsets[i].legend == None && fieldsets[i].attributes == NewFieldsetAttributes(attributes, i + 1)
    {
      if i < |fieldsets| {
        current := i;
      } else {
        var fs := CreateFieldset(None);
      }
    }

    /** The legend of the current fieldset, or null. */
    function GetLegend(): (r: Option<string>)
      reads this, fieldsets
      requires Valid()
      ensures |fieldsets| == 0 ==> r == None
      ensures |fieldsets| > 0 ==> r == fieldsets[current].legend
    {
      if current < |fieldsets| then fieldsets[current].legend else None
    }

    method SetLegend(l: string)
      requires Valid()
      modifies fieldsets`legend
      ensures Valid()
      ensures forall i :: 0 <= i < |fieldsets| ==>
        fieldsets[i].legend == if i == current then Some(l) else old(fieldsets[i].legend)
      ensures Tables() == old(Tables())
    {
      if current < |fieldsets| {
        fieldsets[current].SetLegend(l);
      }
    }

    /** Add to the current fieldset, creating a first fieldset when there is none; no other fieldset changes. */
    method AddField(e: Element)
      requires Valid()
      modifies this`fieldsets, this`current, fieldsets`fields
      ensures Valid()
      ensures old(|fieldsets|) == 0 ==>
        |fieldsets| == 1 && current == 0 && fresh(fieldsets[0]) &&
        fieldsets[0].fields == Put(Empty(), e.name, e) &&
        fieldsets[0].legend == None && fieldsets[0].attributes == NewFieldsetAttributes(attributes, 1)
      ensures old(|fieldsets|) > 0 ==>
        fieldsets == old(fieldsets) && current == old(current) &&
        Tables() == old(Tables())[current := Put(old(Tables())[current], e.name, e)]
    {
      if |fieldsets| == 0 {
        var _ := CreateFieldset(None);
      }
      var fs := fieldsets[current];
      fs.AddField(e);
      assert forall i :: 0 <= i < |fieldsets| && i != current ==> fieldsets[i] != fs;
    }

    /** `addFields`: `addField` for each element in order; the first one creates a fieldset when there is none. */
    method AddFields(es: seq<Element>)
      requires Valid()
      modifies this`fieldsets, this`current, fieldsets`fields
      ensures Valid()
      ensures old(|fieldsets|) == 0 && es == [] ==> fieldsets == []
      ensures old(|fieldsets|) == 0 && es != [] ==>
        |fieldsets| == 1 && current == 0 && fresh(fieldsets[0]) &&
        fieldsets[0].fields == AddEach(Empty(), es) &&
        fieldsets[0].legend == None && fieldsets[0].attributes == NewFieldsetAttributes(attributes, 1)
      ensures old(|fieldsets|) > 0 ==>
        fieldsets == old(fieldsets) && current == old(current) &&
        Tables() == old(Tables())[current := AddEach(old(Tables())[current], es)]
    {
      if es != [] {
        if |fieldsets| == 0 {
          AddField(es[0]);
          ghost var first := fieldsets[0].fields;
          AddToCurrent(es[1..]);
          assert fieldsets[0].fields == Tables()[0] == AddEach(first, es[1..]);
          AddEachFirst(es);
        } else {
          AddToCurrent(es);
        }
      }
    }

    /** `addField` for each element in order, when a fieldset exists: they all go to the current one. */
    method AddToCurrent(es: seq<Element>)
      requires Valid() && |fieldsets| > 0
      modifies fieldsets`fields
      ensures Valid()
      ensures Tables() == old(Tables())[current := AddEach(old(Tables())[current], es)]
    {
      ghost var t0 := Tables();
      var i := 0;
      while i < |es|
        invariant 0 <= i <= |es|
        invariant Valid()
        invariant Tables() == t0[current := AddEach(t0[current], es[..i])]
      {
        assert es[..i + 1][..i] == es[..i];
        ghost var prev := AddEach(t0[current], es[..i]);
        assert AddEach(t0[current], es[..i + 1]) == Put(prev, es[i].name, es[i]);
        var fs := fieldsets[current];
        fs.AddField(es[i]);
        assert forall j :: 0 <= j < |fieldsets| && j != current ==> fieldsets[j] != fs;
        ghost var done := es[..i + 1];
        i := i + 1;
        assert es[..i] == done;
      }
      assert es[..|es|] == es;
    }

    /** The number of fields: the sum over all fieldsets. */
    method Count() returns (c: nat)
      requires Valid()
      ensures c == TotalCount(Tables())
    {
      c := 0;
      var i := 0;
      while i < |fieldsets|
        invariant 0 <= i <= |fieldsets|
        invariant c == TotalCount(Tables()[..i])
      {
        assert Tables()[..i + 1][..i] == Tables()[..i];
        KeyCountIsSize(fieldsets[i].fields);
        c := c + fieldsets[i].Count();
        i := i + 1;
      }
      assert Tables()[..i] == Tables();
    }

    /** All fields of all fieldsets, merged in order: a later fieldset's field hides an earlier one of the same name. */
    method GetFields() returns (all: Fields)
      requires Valid()
      ensures WellKeyed(all)
      ensures all == MergeAll(Tables())
    {
      ghost var ts := Tables();
      all := Empty();
      var i := 0;
      while i < |fieldsets|
        invariant 0 <= i <= |fieldsets|
        invariant all == MergeAll(ts[..i])
      {
        assert ts[..i + 1][..i] == ts[..i];
        all := Merge(all, fieldsets[i].GetFields());
        ghost var done := ts[..i + 1];
        i := i + 1;
        assert ts[..i] == done;
      }
      assert ts[..i] == ts;
      MergeAllWellKeyed(ts);
    }

    /** Name to value over the merged fields of all fieldsets. */
    method ToArray() returns (values: OrderedMap<Value>)
      requires Valid()
      ensures values == MapValues(MergeAll(Tables()), ValueOf)
    {
      ghost var ts := Tables();
      values := Empty();
      var i := 0;
      assert MapValues(MergeAll(ts[..0]), ValueOf).entries == map[];
      while i < |fieldsets|
        invariant 0 <= i <= |fieldsets|
        invariant values == MapValues(MergeAll(ts[..i]), ValueOf)
      {
        var part := fieldsets[i].ToArray();
        MapValuesUnique(ts[i], ValueOf, part);
        ToArrayStep(ts, i);
        values := Merge(values, part);
        ghost var done := ts[..i + 1];
        i := i + 1;
        assert ts[..i] == done;
      }
      assert ts[..i] == ts;
    }

    /** The field of that name in the current fieldset only, or null. */
    function GetField(name: string): (r: Option<Element>)
      reads this, fieldsets
      requires Valid()
      ensures |fieldsets| == 0 ==> r == None
      ensures |fieldsets| > 0 ==> r == Get(Tables()[current], name)
    {
      if current < |fieldsets| then fieldsets[current].GetField(name) else None
    }

    /** The value of that field in the current fieldset only, or null. */
    function GetFieldValue(name: string): (r: Value)
      reads this, fieldsets
      requires Valid()
      ensures |fieldsets| == 0 ==> r == Null
      ensures |fieldsets| > 0 && name in Tables()[current].entries ==> r == Tables()[current].entries[name].value
      ensures |fieldsets| > 0 && name !in Tables()[current].entries ==> r == Null
    {
      if current < |fieldsets| then fieldsets[current].GetFieldValue(name) else Null
    }

    /** Set a value in the current fieldset only; without a fieldset nothing happens. */
    method SetFieldValue(name: string, v: Value)
      requires Valid()
      modifies fieldsets`fields
      ensures Valid()
      ensures |fieldsets| == 0 ==> Tables() == old(Tables())
      ensures |fieldsets| > 0 ==> Tables() == old(Tables())[current := SetValueAt(old(Tables())[current], name, v)]
    {
      if current < |fieldsets| {
        var fs := fieldsets[current];
        fs.SetFieldValue(name, v);
        assert forall i :: 0 <= i < |fieldsets| && i != current ==> fieldsets[i] != fs;
      }
    }

    method SetFieldValues(pairs: seq<(string, Value)>)
      requires Valid()
      modifies fieldsets`fields
      ensures Valid()
      ensures |fieldsets| == 0 ==> Tables() == old(Tables())
      ensures |fieldsets| > 0 ==> Tables() == old(Tables())[current := SetEach(old(Tables())[current], pairs)]
    {
      ghost var t0 := Tables();
      var i := 0;
      while i < |pairs|
        invariant 0 <= i <= |pairs|
        invariant Valid()
        invariant |fieldsets| == 0 ==> Tables() == t0
        invariant |fieldsets| > 0 ==> Tables() == t0[current := SetEach(t0[current], pairs[..i])]
      {
        SetFieldValue(pairs[i].0, pairs[i].1);
        if |fieldsets| > 0 {
          SetEachStep(t0, current, pairs, i);
        }
        ghost var done := pairs[..i + 1];
        i := i + 1;
        assert pairs[..i] == done;
      }
      assert pairs[..|pairs|] == pairs;
    }

    /** `__isset`: the current fieldset holds the name with a non-null value (a field whose value is null reads as unset). */
    function Has(name: string): (r: bool)
      reads this, fieldsets
      requires Valid()
      ensures r <==> |fieldsets| > 0 && name in Tables()[current].entries && Tables()[current].entries[name].value != Null
    {
      current < |fieldsets| && GetFieldValue(name) != Null
    }

    /** `__unset`: null the field's value, then remove the field, in the current fieldset only. */
    method Delete(name: string)
      requires Valid()
      modifies fieldsets`fields
      ensures Valid()
      ensures |fieldsets| == 0 ==> Tables() == old(Tables())
      ensures |fieldsets| > 0 ==> Tables() == old(Tables())[current := Remove(old(Tables())[current], name)]
    {
      if current < |fieldsets| {
        var fs := fieldsets[current];
        fs.SetFieldValue(name, Null);
        fs.Delete(name);
        RemoveAfterSet(old(fs.fields), name, Null);
        assert forall i :: 0 <= i < |fieldsets| && i != current ==> fieldsets[i] != fs;
      }
    }

    /** The index of the last fieldset holding `k` among the first `n`, or -1. */
    function OwnerIndex(k: string, n: nat): (j: int)
      reads this, fieldsets
      requires n <= |fieldsets|
      ensures j == LastOwner(Tables()[..n], k)
    {
      if n == 0 then -1
      else if k in fieldsets[n - 1].fields.entries then
        assert Tables()[..n][n - 1] == fieldsets[n - 1].fields; n - 1
      else
        assert Tables()[..n][..n - 1] == Tables()[..n - 1]; OwnerIndex(k, n - 1)
    }

    /** The fieldset a merged field comes from: the last one holding its name, or -1. */
    function Owner(k: string): (j: int)
      reads this, fieldsets
      ensures j == LastOwner(Tables(), k)
    {
      assert Tables()[..|fieldsets|] == Tables();
      OwnerIndex(k, |fieldsets|)
    }

    /** The element in fieldset `j` is replaced, in place, by `e` of the same name. */
    method StoreAt(j: nat, e: Element)
      requires Valid() && j < |fieldsets| && e.name in fieldsets[j].fields.entries
      modifies fieldsets`fields
      ensures Valid()
      ensures Tables() == old(Tables())[j := Put(old(Tables())[j], e.name, e)]
    {
      var fs := fieldsets[j];
      fs.fields := Put(fs.fields, e.name, e);
      assert forall i :: 0 <= i < |fieldsets| && i != j ==> fieldsets[i] != fs;
    }

    /**
     * Visit every field of the merged view once, in order, replacing it by
     * `update` of itself where it lives, and report whether `passes` held for all
     * of them.  Every field is visited whatever the earlier ones gave.
     */
    method Walk(update: Element -> Element, passes: Element -> bool) returns (all: bool)
      requires Valid()
      requires forall e :: update(e).name == e.name
      modifies fieldsets`fields
      ensures Valid()
      ensures all <==> forall k :: k in MergeAll(old(Tables())).entries ==> passes(MergeAll(old(Tables())).entries[k])
      ensures Tables() == UpdateOwnedOn(old(Tables()), update, MergeAll(old(Tables())).entries.Keys)
    {
      var merged := GetFields();
      all := WalkKeys(merged, update, passes);
      AllPassAllKeys(merged, passes);
    }

    /** The loop of `Walk`, over the names of the merged view in order. */
    method WalkKeys(merged: Fields, update: Element -> Element, passes: Element -> bool) returns (all: bool)
      requires Valid() && merged == MergeAll(Tables())
      requires forall e :: update(e).name == e.name
      modifies fieldsets`fields
      ensures Valid()
      ensures all <==> AllPassUpTo(merged, passes, |merged.keys|)
      ensures Tables() == UpdateOwnedOn(old(Tables()), update, KeySet(merged.keys))
    {
      ghost var ts0 := Tables();
      assert AllWellKeyed(ts0);
      assert merged == MergeAll(ts0);
      UpdateOwnedNone(ts0, update);
      assert KeySet(merged.keys[..0]) == {};
      all := true;
      var i := 0;
      while i < |merged.keys|
        invariant 0 <= i <= |merged.keys|
        invariant Valid() && merged.Valid()
        invariant Tables() == UpdateOwnedOn(ts0, update, KeySet(merged.keys[..i]))
        invariant all <==> AllPassUpTo(merged, passes, i)
      {
        var ok := VisitOne(merged, i, update, passes, ts0);
        AllPassUpToStep(merged, passes, i);
        ghost var done := merged.keys[..i + 1];
        if !ok {
          all := false;
        }
        i := i + 1;
        assert merged.keys[..i] == done;
      }
      assert merged.keys[..i] == merged.keys;
    }

    /** One turn of the loop of `Walk`: the `i`-th field of the merged view is checked, then updated where it lives. */
    method VisitOne(merged: Fields, i: nat, update: Element -> Element, passes: Element -> bool, ghost ts0: seq<Fields>)
      returns (ok: bool)
      requires Valid() && AllWellKeyed(ts0) && merged == MergeAll(ts0) && i < |merged.keys|
      requires forall e :: update(e).name == e.name
      requires Tables() == UpdateOwnedOn(ts0, update, KeySet(merged.keys[..i]))
      modifies fieldsets`fields
      ensures Valid()
      ensures ok == passes(merged.entries[merged.keys[i]])
      ensures Tables() == UpdateOwnedOn(ts0, update, KeySet(merged.keys[..i + 1]))
    {
      var k := merged.keys[i];
      ok := passes(merged.entries[k]);
      ghost var ts := Tables();
      VisitStep(ts0, ts, merged, i, update);
      var owner := Owner(k);
      var e := update(merged.entries[k]);
      StoreAt(owner, e);
    }

    /**
     * Validate every field of the merged view, with no short-circuit, recording
     * each one's errors; the form is valid when every one of them passed.
     */
    method IsValid(check: Element -> (bool, seq<string>)) returns (valid: bool)
      requires Valid()
      modifies fieldsets`fields
      ensures Valid()
      ensures valid <==> forall k :: k in MergeAll(old(Tables())).entries ==> check(MergeAll(old(Tables())).entries[k]).0
      ensures Tables() == UpdateOwnedOn(old(Tables()), Validated(check), MergeAll(old(Tables())).entries.Keys)
    {
      valid := Walk(Validated(check), Passes(check));
    }

    /** The errors of that field in the current fieldset, or none. */
    function GetErrors(name: string): (r: seq<string>)
      reads this, fieldsets
      requires Valid()
      ensures GetField(name).Some? ==> r == GetField(name).value.errors
      ensures GetField(name).None? ==> r == []
    {
      match GetField(name)
      case Some(e) => e.errors
      case None => []
    }

    /** Errors of the merged fields that have any, keyed by field name with "[]" removed. */
    method GetAllErrors() returns (errs: OrderedMap<seq<string>>)
      requires Valid()
      ensures errs == CollectErrors(MergeAll(Tables()), MergeAll(Tables()).keys)
    {
      var merged := GetFields();
      errs := ReportErrors(merged);
    }

    /** Reset every field of the merged view to the value its element's reset gives; the fieldsets stay. */
    method Reset(blank: Element -> Value)
      requires Valid()
      modifies fieldsets`fields
      ensures Valid()
      ensures Tables() == UpdateOwnedOn(old(Tables()), Blanked(blank), MergeAll(old(Tables())).entries.Keys)
    {
      var _ := Walk(Blanked(blank), _ => true);
    }
  }

  /** With one fieldset, the merged view is that fieldset's table: the same names, values and order. */
  lemma MergeAllOne(t: Fields)
    requires t.Valid()
    ensures MergeAll([t]) == t
  {
    assert [t][..0] == [];
    MergeIntoEmpty(t);
  }

  /** Three elements with distinct names fill a new group with three fields, in the order given. */
  lemma ThreeDistinctFields(es: seq<Element>)
    requires |es| == 3
    requires es[0].name != es[1].name && es[0].name != es[2].name && es[1].name != es[2].name
    ensures AddEach(Empty(), es).keys == [es[0].name, es[1].name, es[2].name]
    ensures |AddEach(Empty(), es).entries| == 3
  {
    var ns := Names(es);
    assert ns == [es[0].name, es[1].name, es[2].name];
    forall i, j | 0 <= i < j < 3 ensures ns[i] != ns[j] {
      if i == 0 && j == 1 {
      } else if i == 0 {
        assert j == 2;
      } else {
        assert i == 1 && j == 2;
      }
    }
    AddEachDistinctNames(es);
  }

  /** A form built from three distinctly named fields has exactly those three fields in its merged view, in that order. */
  method ThreeFieldForm(es: seq<Element>) returns (n: nat, names: seq<string>)
    requires |es| == 3
    requires es[0].name != es[1].name && es[0].name != es[2].name && es[1].name != es[2].name
    ensures n == 3
    ensures names == [es[0].name, es[1].name, es[2].name]
  {
    ThreeDistinctFields(es);
    var form := new Form(es, None, "post", Some("/process"));
    ghost var t := form.fieldsets[0].fields;
    assert t == AddEach(Empty(), es);
    assert form.Tables() == [t];
    MergeAllOne(t);
    var all := form.GetFields();
    assert all == t;
    n := |all.entries|;
    names := all.keys;
  }
}
