/** A filled-in form on its way to the server: which documents arrive as entered, exactly. */
module FormSubmission {
  import opened Common
  import opened Sorting
  import opened Text
  import opened Documents
  import opened SchemaForm

  /** The document built from a flat object has exactly these values at exactly these paths. */
  ghost predicate SendsExactly(host: Host, flat: seq<(string, Value)>, leaves: seq<(string, Value)>) {
    var work := Build(host, SplitEntries(flat));
    work.Some? && HasExactly(work.value.doc, SplitEntries(leaves))
  }

  /** No field has an inherited name before its last key, or ends in `__proto__`. */
  ghost predicate FieldsClean(host: Host, fields: seq<string>) {
    forall x | x in fields :: Clean(host, Split(x, '.'))
  }

  /** Values collected from a form: some of its fields, each at most once, in any order. */
  ghost predicate FromForm(props: Properties, flat: seq<(string, Value)>) {
    && (forall i | 0 <= i < |flat| :: flat[i].0 in Fields(props, ""))
    && (forall i, j | 0 <= i < j < |flat| :: flat[i].0 != flat[j].0)
  }

  lemma MembersApart(fields: seq<string>, x: string, y: string)
    requires PathsApart(fields) && x in fields && y in fields && x != y
    ensures Apart(Split(x, '.'), Split(y, '.'))
  {
    var a :| 0 <= a < |fields| && fields[a] == x;
    var b :| 0 <= b < |fields| && fields[b] == y;
    if a < b {
      assert Apart(Split(fields[a], '.'), Split(fields[b], '.'));
    } else {
      assert Apart(Split(fields[b], '.'), Split(fields[a], '.'));
    }
  }

  ghost predicate EntriesApart(flat: seq<(string, Value)>) {
    forall i, j | 0 <= i < j < |flat| :: Apart(Split(flat[i].0, '.'), Split(flat[j].0, '.'))
  }

  ghost predicate EntriesClean(host: Host, flat: seq<(string, Value)>) {
    forall i | 0 <= i < |flat| :: Clean(host, Split(flat[i].0, '.'))
  }

  lemma ApartSendsExactly(host: Host, flat: seq<(string, Value)>)
    requires Sound(host) && EntriesApart(flat) && EntriesClean(host, flat)
    ensures SendsExactly(host, flat, flat) && Build(host, SplitEntries(flat)).value.strays == []
  {
    BuildPrefixFree(host, SplitEntries(flat));
  }

  lemma FormEntries(host: Host, props: Properties, flat: seq<(string, Value)>)
    requires GoodKeys(props) && FieldsClean(host, Fields(props, "")) && FromForm(props, flat)
    ensures EntriesApart(flat) && EntriesClean(host, flat)
  {
    FieldsDistinctAndPrefixFree(props);
    forall i, j | 0 <= i < j < |flat| ensures Apart(Split(flat[i].0, '.'), Split(flat[j].0, '.')) {
      MembersApart(Fields(props, ""), flat[i].0, flat[j].0);
    }
  }

  /** Whatever subset of a form's clean fields is filled in, and in whatever order the entries come,
      the document sent has exactly those values at exactly those paths. */
  lemma SubmittedDocumentExact(host: Host, props: Properties, flat: seq<(string, Value)>)
    requires Sound(host) && GoodKeys(props) && FieldsClean(host, Fields(props, "")) && FromForm(props, flat)
    ensures SendsExactly(host, flat, flat)
  {
    FormEntries(host, props, flat);
    ApartSendsExactly(host, flat);
  }

  /** The order of the collected entries does not change the document. */
  lemma SubmissionOrderIrrelevant(host: Host, props: Properties, a: seq<(string, Value)>, b: seq<(string, Value)>)
    requires Sound(host) && GoodKeys(props) && FieldsClean(host, Fields(props, ""))
    requires FromForm(props, a) && FromForm(props, b) && forall x :: x in a <==> x in b
    ensures Build(host, SplitEntries(a)) == Build(host, SplitEntries(b))
  {
    FormEntries(host, props, a);
    FormEntries(host, props, b);
    ApartSendsExactly(host, a);
    ApartSendsExactly(host, b);
    BuildSolid(host, SplitEntries(a));
    BuildSolid(host, SplitEntries(b));
    forall x ensures x in SplitEntries(a) <==> x in SplitEntries(b) {
      SplitEntryFrom(a, b, x);
      SplitEntryFrom(b, a, x);
    }
    SameLeavesSameDoc(Build(host, SplitEntries(a)).value.doc, Build(host, SplitEntries(b)).value.doc);
  }

  lemma SplitEntryFrom(a: seq<(string, Value)>, b: seq<(string, Value)>, x: (Path, Value))
    requires forall e :: e in a <==> e in b
    ensures x in SplitEntries(a) ==> x in SplitEntries(b)
  {
    if i :| 0 <= i < |a| && SplitEntries(a)[i] == x {
      assert a[i] in b;
      var j :| 0 <= j < |b| && b[j] == a[i];
      assert SplitEntries(b)[j] == x;
    }
  }

  // ---------- exactly which forms work ----------

  /** `values[path] = v` on an object whose entries keep the order of their first assignment; a
      `__proto__` makes no entry. */
  function SetEntry(flat: seq<(string, Value)>, path: string, v: Value): seq<(string, Value)> {
    if path == PROTO then flat
    else if flat == [] then [(path, v)]
    else if flat[0].0 == path then [(path, v)] + flat[1..]
    else [flat[0]] + SetEntry(flat[1..], path, v)
  }

  /** The object the page collects from the inputs; an input left empty is skipped. */
  function Collected(fields: seq<string>, inputs: seq<Option<Value>>): seq<(string, Value)>
    requires |inputs| == |fields|
  {
    if fields == [] then []
    else
      var n := |fields| - 1;
      var before := Collected(fields[..n], inputs[..n]);
      if inputs[n].Some? then SetEntry(before, fields[n], inputs[n].value) else before
  }

  method CollectValues(fields: seq<string>, inputs: seq<Option<Value>>) returns (flat: seq<(string, Value)>)
    requires |inputs| == |fields|
    ensures flat == Collected(fields, inputs)
  {
    flat := [];
    for i := 0 to |fields|
      invariant flat == Collected(fields[..i], inputs[..i])
    {
      assert fields[..i + 1][..i] == fields[..i] && inputs[..i + 1][..i] == inputs[..i];
      if inputs[i].Some? {
        flat := SetEntry(flat, fields[i], inputs[i].value);
      }
    }
    assert fields[..|fields|] == fields && inputs[..|fields|] == inputs;
  }

  ghost predicate DifferentNames(flat: seq<(string, Value)>) {
    forall i, j | 0 <= i < j < |flat| :: flat[i].0 != flat[j].0
  }

  predicate HasEntry(flat: seq<(string, Value)>, path: string) {
    exists i :: 0 <= i < |flat| && flat[i].0 == path
  }

  /** An assignment to a name in use gives it the value in its place; one to a new name goes to the end. */
  lemma {:induction false} SetEntryIs(flat: seq<(string, Value)>, path: string, v: Value)
    requires DifferentNames(flat) && path != PROTO
    ensures var r := SetEntry(flat, path, v);
            if HasEntry(flat, path) then
              && |r| == |flat|
              && forall i | 0 <= i < |flat| :: r[i] == (flat[i].0, if flat[i].0 == path then v else flat[i].1)
            else r == flat + [(path, v)]
  {
    if flat != [] {
      HasEntryCons(flat, path);
      if flat[0].0 != path {
        var rest := flat[1..];
        SetEntryIs(rest, path, v);
        assert forall i | 0 < i < |flat| :: flat[i] == rest[i - 1];
      }
    }
  }

  lemma HasEntryCons(flat: seq<(string, Value)>, path: string)
    requires flat != []
    ensures HasEntry(flat, path) <==> flat[0].0 == path || HasEntry(flat[1..], path)
  {
    if i :| 0 <= i < |flat| && flat[i].0 == path {
      assert i > 0 ==> flat[1..][i - 1].0 == path;
    }
    if i :| 0 <= i < |flat[1..]| && flat[1..][i].0 == path {
      assert flat[i + 1].0 == path;
    }
  }

  lemma SetEntryHas(flat: seq<(string, Value)>, path: string, v: Value, e: (string, Value))
    requires DifferentNames(flat)
    ensures DifferentNames(SetEntry(flat, path, v))
    ensures e in SetEntry(flat, path, v) <==>
            (path != PROTO && e == (path, v)) || (e in flat && (path == PROTO || e.0 != path))
  {
    if path != PROTO {
      SetEntryIs(flat, path, v);
      var r := SetEntry(flat, path, v);
      if HasEntry(flat, path) {
        var i :| 0 <= i < |flat| && flat[i].0 == path;
        assert r[i] == (path, v);
      }
      if i :| 0 <= i < |flat| && flat[i] == e && e.0 != path {
        assert r[i] == e;
      }
    }
  }

  /** The last input that was filled in for this path. */
  ghost predicate LastFilled(fields: seq<string>, inputs: seq<Option<Value>>, path: string, i: int)
    requires |inputs| == |fields|
  {
    && 0 <= i < |fields| && fields[i] == path && inputs[i].Some?
    && forall j | i < j < |fields| && fields[j] == path :: inputs[j].None?
  }

  /** That input holds this value. */
  ghost predicate FilledLast(fields: seq<string>, inputs: seq<Option<Value>>, path: string, v: Value)
    requires |inputs| == |fields|
  {
    exists i :: LastFilled(fields, inputs, path, i) && inputs[i] == Some(v)
  }

  /** The collected object has one entry per path, with the value of the last input filled in for it. */
  lemma {:induction false} CollectedIsLastFilled(fields: seq<string>, inputs: seq<Option<Value>>,
                                                 path: string, v: Value)
    requires |inputs| == |fields|
    ensures DifferentNames(Collected(fields, inputs))
    ensures (path, v) in Collected(fields, inputs) <==>
            path != "__proto__" && FilledLast(fields, inputs, path, v)
  {
    if fields != [] {
      var n := |fields| - 1;
      var init, filled := fields[..n], inputs[..n];
      CollectedIsLastFilled(init, filled, path, v);
      LastFilledSnoc(fields, inputs, path, v);
      if inputs[n].Some? {
        SetEntryHas(Collected(init, filled), fields[n], inputs[n].value, (path, v));
      }
    }
  }

  lemma LastFilledSnoc(fields: seq<string>, inputs: seq<Option<Value>>, path: string, v: Value)
    requires |inputs| == |fields| && fields != []
    ensures var n := |fields| - 1;
            FilledLast(fields, inputs, path, v)
            <==> if fields[n] == path && inputs[n].Some? then inputs[n] == Some(v)
                 else FilledLast(fields[..n], inputs[..n], path, v)
  {
    var n := |fields| - 1;
    if fields[n] == path && inputs[n].Some? {
      assert forall i :: LastFilled(fields, inputs, path, i) <==> i == n;
    } else {
      forall i ensures LastFilled(fields, inputs, path, i) <==> LastFilled(fields[..n], inputs[..n], path, i) {
      }
    }
  }

  /** How an object's entries are enumerated: some reordering of the order of assignment (integer-like
      names come first). */
  type Enumerate = seq<(string, Value)> -> seq<(string, Value)>

  ghost predicate Enumerates(order: Enumerate) {
    forall flat :: multiset(order(flat)) == multiset(flat)
  }

  /** What the user entered: each filled field with its value. */
  ghost function Entered(fields: seq<string>, inputs: seq<Option<Value>>): seq<(string, Value)>
    requires |inputs| == |fields|
  {
    if fields == [] then []
    else
      var n := |fields| - 1;
      Entered(fields[..n], inputs[..n]) + if inputs[n].Some? then [(fields[n], inputs[n].value)] else []
  }

  lemma {:induction false} EnteredHas(fields: seq<string>, inputs: seq<Option<Value>>, k: nat)
    requires |inputs| == |fields| && k < |fields| && inputs[k].Some?
    ensures (fields[k], inputs[k].value) in Entered(fields, inputs)
  {
    var n := |fields| - 1;
    if k < n {
      EnteredHas(fields[..n], inputs[..n], k);
    }
  }

  lemma {:induction false} EnteredFrom(fields: seq<string>, inputs: seq<Option<Value>>)
    requires |inputs| == |fields|
    ensures forall e | e in Entered(fields, inputs) :: e.0 in fields
  {
    if fields != [] {
      var n := |fields| - 1;
      EnteredFrom(fields[..n], inputs[..n]);
    }
  }

  lemma {:induction false} SetNewEntry(flat: seq<(string, Value)>, path: string, v: Value)
    requires path != PROTO && forall e | e in flat :: e.0 != path
    ensures SetEntry(flat, path, v) == flat + [(path, v)]
  {
    if flat != [] {
      assert flat[0] in flat;
      SetNewEntry(flat[1..], path, v);
    }
  }

  lemma CleanIsNotProto(host: Host, x: string)
    requires Clean(host, Split(x, '.'))
    ensures x != PROTO
  {
    if x == PROTO {
      assert forall i | 0 <= i < |PROTO| :: PROTO[i] != '.';
      SplitPlain(x, '.');
    }
  }

  lemma EntriesApartSnoc(before: seq<(string, Value)>, e: (string, Value))
    requires EntriesApart(before) && forall b | b in before :: Apart(Split(b.0, '.'), Split(e.0, '.'))
    ensures EntriesApart(before + [e])
  {
  }

  /** Fields apart and clean: nothing is overwritten or dropped, and the entries are apart. */
  lemma {:induction false} CollectedIsEntered(host: Host, fields: seq<string>, inputs: seq<Option<Value>>)
    requires |inputs| == |fields| && PathsApart(fields) && FieldsClean(host, fields)
    ensures Collected(fields, inputs) == Entered(fields, inputs) && EntriesApart(Entered(fields, inputs))
  {
    if fields != [] {
      var n := |fields| - 1;
      var before := Entered(fields[..n], inputs[..n]);
      CollectedIsEntered(host, fields[..n], inputs[..n]);
      EnteredFrom(fields[..n], inputs[..n]);
      forall e | e in before
        ensures e.0 != fields[n] && Apart(Split(e.0, '.'), Split(fields[n], '.'))
      {
        var k :| 0 <= k < n && fields[..n][k] == e.0;
        assert fields[k] == e.0;
      }
      if inputs[n].Some? {
        CleanIsNotProto(host, fields[n]);
        SetNewEntry(before, fields[n], inputs[n].value);
        EntriesApartSnoc(before, (fields[n], inputs[n].value));
      }
    }
  }

  lemma ReorderedApart(flat: seq<(string, Value)>, order: seq<(string, Value)>)
    requires EntriesApart(flat) && multiset(order) == multiset(flat)
    ensures EntriesApart(order)
  {
    SameElements(flat, order);
    EntriesDistinct(flat);
    ReorderedDistinct(flat, order);
    forall i, j | 0 <= i < j < |order| ensures Apart(Split(order[i].0, '.'), Split(order[j].0, '.')) {
      assert order[i] in flat && order[j] in flat && order[i] != order[j];
      var a :| 0 <= a < |flat| && flat[a] == order[i];
      var b :| 0 <= b < |flat| && flat[b] == order[j];
      assert a < b || b < a;
    }
  }

  /** In another order the same entries still build exactly themselves. */
  lemma EnumeratedSendsExactly(host: Host, flat: seq<(string, Value)>, order: seq<(string, Value)>)
    requires Sound(host) && EntriesApart(flat) && EntriesClean(host, flat) && multiset(order) == multiset(flat)
    ensures SendsExactly(host, order, flat)
  {
    SameElements(flat, order);
    ReorderedApart(flat, order);
    forall i | 0 <= i < |order| ensures Clean(host, Split(order[i].0, '.')) {
      assert order[i] in flat;
    }
    ApartSendsExactly(host, order);
    forall x ensures x in SplitEntries(order) <==> x in SplitEntries(flat) {
      SplitEntryFrom(flat, order, x);
      SplitEntryFrom(order, flat, x);
    }
  }

  lemma EntriesDistinct(flat: seq<(string, Value)>)
    requires EntriesApart(flat)
    ensures Distinct(flat)
  {
    forall i, j | 0 <= i < j < |flat| ensures flat[i] != flat[j] {
      assert Apart(Split(flat[i].0, '.'), Split(flat[j].0, '.'));
    }
  }

  lemma SplitEntryIn(flat: seq<(string, Value)>, e: (string, Value))
    requires e in flat
    ensures (Split(e.0, '.'), e.1) in SplitEntries(flat)
  {
    var i :| 0 <= i < |flat| && flat[i] == e;
    assert SplitEntries(flat)[i] == (Split(e.0, '.'), e.1);
  }

  /** No document has two different values at paths of which one is or extends the other. */
  lemma TangledFails(host: Host, flat: seq<(string, Value)>, leaves: seq<(string, Value)>,
                     x: (string, Value), y: (string, Value))
    requires x in leaves && y in leaves && x.1 != y.1
    requires !Apart(Split(x.0, '.'), Split(y.0, '.'))
    ensures !SendsExactly(host, flat, leaves)
  {
    var work := Build(host, SplitEntries(flat));
    var p, q := Split(x.0, '.'), Split(y.0, '.');
    if work.Some? && HasExactly(work.value.doc, SplitEntries(leaves)) {
      var doc := work.value.doc;
      SplitEntryIn(leaves, x);
      SplitEntryIn(leaves, y);
      assert LeafAt(doc, p, x.1) && LeafAt(doc, q, y.1);
      if p <= q { LeavesPrefixFree(doc, p, x.1, q, y.1); }
      if q <= p { LeavesPrefixFree(doc, q, y.1, p, x.1); }
    }
  }

  /** No value arrives at a path that is not clean. */
  lemma UncleanFails(host: Host, flat: seq<(string, Value)>, leaves: seq<(string, Value)>, x: (string, Value))
    requires Sound(host) && x in leaves && !Clean(host, Split(x.0, '.'))
    ensures !SendsExactly(host, flat, leaves)
  {
    var work := Build(host, SplitEntries(flat));
    if work.Some? && HasExactly(work.value.doc, SplitEntries(leaves)) {
      SplitEntryIn(leaves, x);
      assert LeafAt(work.value.doc, Split(x.0, '.'), x.1);
      OnlyCleanArrives(host, SplitEntries(flat));
    }
  }

  ghost predicate FillingWorks(host: Host, order: Enumerate, fields: seq<string>, inputs: seq<Option<Value>>)
    requires |inputs| == |fields|
  {
    SendsExactly(host, order(Collected(fields, inputs)), Entered(fields, inputs))
  }

  /** However the form is filled in, the document sent has exactly what was entered. */
  ghost predicate FormWorks(host: Host, order: Enumerate, props: Properties) {
    forall inputs | |inputs| == |Fields(props, "")| :: FillingWorks(host, order, Fields(props, ""), inputs)
  }

  /** Two inputs filled, all others left empty. */
  function TwoInputs(n: nat, i: nat, j: nat): (inputs: seq<Option<Value>>)
    requires i <= j < n
    ensures |inputs| == n && inputs[i] == Some(Number(0))
    ensures i < j ==> inputs[j] == Some(Number(1))
  {
    seq(n, k => if k == i then Some(Number(0)) else if k == j then Some(Number(1)) else None)
  }

  lemma ApartCleanWorks(host: Host, order: Enumerate, fields: seq<string>, inputs: seq<Option<Value>>)
    requires Sound(host) && Enumerates(order) && |inputs| == |fields|
    requires PathsApart(fields) && FieldsClean(host, fields)
    ensures FillingWorks(host, order, fields, inputs)
  {
    var entered := Entered(fields, inputs);
    CollectedIsEntered(host, fields, inputs);
    EnteredFrom(fields, inputs);
    forall i | 0 <= i < |entered| ensures Clean(host, Split(entered[i].0, '.')) {
      assert entered[i] in entered;
    }
    EnumeratedSendsExactly(host, entered, order(entered));
  }

  lemma TangledFieldsFail(host: Host, order: Enumerate, fields: seq<string>)
    requires !PathsApart(fields)
    ensures exists inputs :: |inputs| == |fields| && !FillingWorks(host, order, fields, inputs)
  {
    var i, j :| 0 <= i < j < |fields|
                && (fields[i] == fields[j] || !Apart(Split(fields[i], '.'), Split(fields[j], '.')));
    var inputs := TwoInputs(|fields|, i, j);
    EnteredHas(fields, inputs, i);
    EnteredHas(fields, inputs, j);
    TangledFails(host, order(Collected(fields, inputs)), Entered(fields, inputs),
                 (fields[i], Number(0)), (fields[j], Number(1)));
    assert !FillingWorks(host, order, fields, inputs);
  }

  lemma UncleanFieldFails(host: Host, order: Enumerate, fields: seq<string>)
    requires Sound(host) && !FieldsClean(host, fields)
    ensures exists inputs :: |inputs| == |fields| && !FillingWorks(host, order, fields, inputs)
  {
    var i :| 0 <= i < |fields| && !Clean(host, Split(fields[i], '.'));
    var inputs := TwoInputs(|fields|, i, i);
    EnteredHas(fields, inputs, i);
    UncleanFails(host, order(Collected(fields, inputs)), Entered(fields, inputs), (fields[i], Number(0)));
    assert !FillingWorks(host, order, fields, inputs);
  }

  /** For any schema at all: a form works exactly when its paths are pairwise different, none, split at
      its dots, extends another, and none runs through an inherited name or ends in `__proto__`. */
  lemma FormWorksIffApartAndClean(host: Host, order: Enumerate, props: Properties)
    requires Sound(host) && Enumerates(order)
    ensures FormWorks(host, order, props) <==>
            PathsApart(Fields(props, "")) && FieldsClean(host, Fields(props, ""))
  {
    var fields := Fields(props, "");
    if !PathsApart(fields) {
      TangledFieldsFail(host, order, fields);
    } else if !FieldsClean(host, fields) {
      UncleanFieldFails(host, order, fields);
    } else {
      forall inputs | |inputs| == |fields| ensures FillingWorks(host, order, fields, inputs) {
        ApartCleanWorks(host, order, fields, inputs);
      }
    }
  }

  /** Any two different fields split to paths of which neither extends the other. */
  ghost predicate DifferentApart(fields: seq<string>) {
    forall x, y | x in fields && y in fields && x != y :: Apart(Split(x, '.'), Split(y, '.'))
  }

  ghost predicate SubmitsExactly(host: Host, props: Properties) {
    forall flat | FromForm(props, flat) :: SendsExactly(host, flat, flat)
  }

  lemma DifferentApartSubmits(host: Host, props: Properties, flat: seq<(string, Value)>)
    requires Sound(host) && FieldsClean(host, Fields(props, ""))
    requires DifferentApart(Fields(props, "")) && FromForm(props, flat)
    ensures SendsExactly(host, flat, flat)
  {
    forall i, j | 0 <= i < j < |flat| ensures Apart(Split(flat[i].0, '.'), Split(flat[j].0, '.')) {
      assert flat[i].0 in Fields(props, "") && flat[j].0 in Fields(props, "");
    }
    ApartSendsExactly(host, flat);
  }

  lemma TangledSubmissionFails(host: Host, props: Properties, x: string, y: string)
    requires x in Fields(props, "") && y in Fields(props, "") && x != y && !Apart(Split(x, '.'), Split(y, '.'))
    ensures !SubmitsExactly(host, props)
  {
    var flat := [(x, Number(0)), (y, Number(1))];
    TangledFails(host, flat, flat, (x, Number(0)), (y, Number(1)));
    assert flat[0] == (x, Number(0)) && flat[1] == (y, Number(1));
    assert FromForm(props, flat);
  }

  lemma UncleanSubmissionFails(host: Host, props: Properties, x: string)
    requires Sound(host) && x in Fields(props, "") && !Clean(host, Split(x, '.'))
    ensures !SubmitsExactly(host, props)
  {
    var flat := [(x, Number(0))];
    UncleanFails(host, flat, flat, (x, Number(0)));
    assert flat[0] == (x, Number(0));
    assert FromForm(props, flat);
  }

  /** The same for flat objects: every subset of a form's fields with values builds exactly its leaves
      if and only if different fields never tangle and every field is clean. */
  lemma SubmittedExactIffApartAndClean(host: Host, props: Properties)
    requires Sound(host)
    ensures SubmitsExactly(host, props) <==>
            DifferentApart(Fields(props, "")) && FieldsClean(host, Fields(props, ""))
  {
    var fields := Fields(props, "");
    if x, y :| x in fields && y in fields && x != y && !Apart(Split(x, '.'), Split(y, '.')) {
      TangledSubmissionFails(host, props, x, y);
    } else if x :| x in fields && !Clean(host, Split(x, '.')) {
      UncleanSubmissionFails(host, props, x);
    } else {
      forall flat | FromForm(props, flat) ensures SendsExactly(host, flat, flat) {
        DifferentApartSubmits(host, props, flat);
      }
    }
  }

  // ---------- the condition on a schema's keys ----------

  /** The schema has at least one field. */
  predicate HasField(props: Properties) {
    exists i :: 0 <= i < |props| && (props[i].schema.Field? || HasField(props[i].schema.properties))
  }

  /** No object with fields below it has an inherited name, and no field is named `__proto__`. */
  ghost predicate CleanKeys(host: Host, props: Properties) {
    forall i | 0 <= i < |props| ::
      match props[i].schema
      case Field => props[i].key != PROTO
      case Group(sub) => HasField(sub) ==> props[i].key !in host.builtin && CleanKeys(host, sub)
  }

  ghost predicate PathsClean(host: Host, paths: seq<Path>) {
    forall k | 0 <= k < |paths| :: Clean(host, paths[k])
  }

  ghost predicate Plain(host: Host, prefix: Path) {
    forall i | 0 <= i < |prefix| :: prefix[i] !in host.builtin
  }

  /** Below a prefix without inherited names, every path is clean exactly when the keys are. */
  lemma {:induction false} PathsCleanIffKeys(host: Host, props: Properties, prefix: Path)
    requires Sound(host) && Plain(host, prefix)
    ensures PathsClean(host, KeyPaths(props, prefix)) <==> CleanKeys(host, props)
    decreases props
  {
    if props != [] {
      var p, rest := props[0], props[1..];
      var head := HeadPaths(p, prefix + [p.key]);
      PathsCleanIffKeys(host, rest, prefix);
      HeadCleanIffKey(host, p, prefix);
      PathsCleanAppend(host, head, KeyPaths(rest, prefix));
      CleanKeysCons(host, props);
    }
  }

  ghost predicate CleanKey(host: Host, p: Property) {
    match p.schema
    case Field => p.key != PROTO
    case Group(sub) => HasField(sub) ==> p.key !in host.builtin && CleanKeys(host, sub)
  }

  lemma CleanKeysCons(host: Host, props: Properties)
    requires props != []
    ensures CleanKeys(host, props) <==> CleanKey(host, props[0]) && CleanKeys(host, props[1..])
  {
    if CleanKey(host, props[0]) && CleanKeys(host, props[1..]) {
      forall i | 0 <= i < |props| ensures CleanKey(host, props[i]) {
        if i > 0 { assert props[i] == props[1..][i - 1]; }
      }
    }
    if CleanKeys(host, props) {
      forall i | 0 <= i < |props[1..]| ensures CleanKey(host, props[1..][i]) {
        assert props[1..][i] == props[i + 1];
      }
    }
  }

  lemma PathsCleanAppend(host: Host, a: seq<Path>, b: seq<Path>)
    ensures PathsClean(host, a + b) <==> PathsClean(host, a) && PathsClean(host, b)
  {
    forall k | 0 <= k < |b| ensures (a + b)[|a| + k] == b[k] {
    }
    forall k | 0 <= k < |a| ensures (a + b)[k] == a[k] {
    }
  }

  lemma {:induction false} HeadCleanIffKey(host: Host, p: Property, prefix: Path)
    requires Sound(host) && Plain(host, prefix)
    ensures PathsClean(host, HeadPaths(p, prefix + [p.key])) <==> CleanKey(host, p)
    decreases p
  {
    var path := prefix + [p.key];
    match p.schema
    case Field =>
      assert HeadPaths(p, path)[0] == path;
    case Group(sub) =>
      if p.key in host.builtin {
        BelowUnclean(host, sub, path, |prefix|);
        HasFieldHasPath(sub, path);
        assert KeyPaths(sub, path) != [] ==> !Clean(host, KeyPaths(sub, path)[0]);
      } else if HasField(sub) {
        PathsCleanIffKeys(host, sub, path);
      } else {
        HasFieldHasPath(sub, path);
      }
  }

  lemma {:induction false} HasFieldHasPath(props: Properties, prefix: Path)
    ensures HasField(props) <==> KeyPaths(props, prefix) != []
    decreases props
  {
    if props != [] {
      HasFieldHasPath(props[1..], prefix);
      if props[0].schema.Group? {
        HasFieldHasPath(props[0].schema.properties, prefix + [props[0].key]);
      }
      if HasField(props[1..]) {
        var i :| 0 <= i < |props[1..]| && (props[1..][i].schema.Field? || HasField(props[1..][i].schema.properties));
        assert props[i + 1] == props[1..][i];
      }
      if HasField(props) {
        var i :| 0 <= i < |props| && (props[i].schema.Field? || HasField(props[i].schema.properties));
        if i > 0 { assert props[1..][i - 1] == props[i]; }
      }
    }
  }

  /** Everything below an inherited name is unclean. */
  lemma {:induction false} BelowUnclean(host: Host, props: Properties, prefix: Path, i: nat)
    requires i < |prefix| && prefix[i] in host.builtin
    ensures forall k | 0 <= k < |KeyPaths(props, prefix)| :: !Clean(host, KeyPaths(props, prefix)[k])
    decreases props
  {
    if props != [] {
      var path := prefix + [props[0].key];
      BelowUnclean(host, props[1..], prefix, i);
      var head := HeadPaths(props[0], path);
      forall k | 0 <= k < |head| ensures !Clean(host, head[k]) {
        if props[0].schema.Group? {
          BelowUnclean(host, props[0].schema.properties, path, i);
        } else {
          assert path[i] == prefix[i];
        }
      }
      var all := KeyPaths(props, prefix);
      forall k | 0 <= k < |all| ensures !Clean(host, all[k]) {
        if k >= |head| { assert all[k] == KeyPaths(props[1..], prefix)[k - |head|]; }
      }
    }
  }

  /** With good keys the form works exactly when no object with fields below it has an inherited name
      and no field is named `__proto__`. */
  lemma GoodFormWorksIffCleanKeys(host: Host, order: Enumerate, props: Properties)
    requires Sound(host) && Enumerates(order) && GoodKeys(props)
    ensures FormWorks(host, order, props) <==> CleanKeys(host, props)
  {
    FieldsDistinctAndPrefixFree(props);
    FormWorksIffApartAndClean(host, order, props);
    FieldsSplitBack(props);
    PathsCleanIffKeys(host, props, []);
    var fields, paths := Fields(props, ""), KeyPaths(props, []);
    if FieldsClean(host, fields) {
      forall k | 0 <= k < |paths| ensures Clean(host, paths[k]) {
        assert fields[k] in fields;
      }
    }
    if PathsClean(host, paths) {
      forall x | x in fields ensures Clean(host, Split(x, '.')) {
        var k :| 0 <= k < |fields| && fields[k] == x;
        assert Clean(host, paths[k]);
      }
    }
  }

  /** An object named `constructor` with one field: its only path is good, and never arrives. */
  lemma ConstructorFormFails(host: Host, order: Enumerate)
    requires Sound(host) && Enumerates(order) && "constructor" in host.builtin
    ensures var props := [Property("constructor", Group([Property("x", Field)]))];
            GoodKeys(props) && !FormWorks(host, order, props)
  {
    var sub := [Property("x", Field)];
    var props := [Property("constructor", Group(sub))];
    assert sub[0].schema.Field?;
    assert HasField(sub);
    assert GoodKeys(sub);
    GoodFormWorksIffCleanKeys(host, order, props);
    assert props[0].key == "constructor";
  }

  /** Two schemas whose keys are not good, one for a dotted key and one for an empty key above another
      level, in each of which two fields share one path. */
  lemma BadKeysCollide(host: Host, order: Enumerate)
    requires Sound(host) && Enumerates(order)
    ensures Fields([Property("a.b", Field), Property("a", Group([Property("b", Field)]))], "") == ["a.b", "a.b"]
    ensures Fields([Property("", Group([Property("a", Field)])), Property("a", Field)], "") == ["a", "a"]
    ensures !FormWorks(host, order, [Property("a.b", Field), Property("a", Group([Property("b", Field)]))])
    ensures !FormWorks(host, order, [Property("", Group([Property("a", Field)])), Property("a", Field)])
  {
    OneField("b", "a");
    OneField("a", "");
    OneGroup("a", Property("b", Field));
    TwoFields(Property("a.b", Field), Property("a", Group([Property("b", Field)])));
    TwoFields(Property("", Group([Property("a", Field)])), Property("a", Field));
    OneGroup("", Property("a", Field));
    assert "a" + "." + "b" == "a.b";
    RepeatedFieldFails(host, order, [Property("a.b", Field), Property("a", Group([Property("b", Field)]))]);
    RepeatedFieldFails(host, order, [Property("", Group([Property("a", Field)])), Property("a", Field)]);
  }

  lemma RepeatedFieldFails(host: Host, order: Enumerate, props: Properties)
    requires Sound(host) && Enumerates(order)
    requires |Fields(props, "")| == 2 && Fields(props, "")[0] == Fields(props, "")[1]
    ensures !FormWorks(host, order, props)
  {
    FormWorksIffApartAndClean(host, order, props);
  }

  lemma OneField(key: string, prefix: string)
    ensures Fields([Property(key, Field)], prefix) == [if prefix != "" then prefix + "." + key else key]
  {
    assert Fields([], prefix) == [];
  }

  lemma OneGroup(key: string, p: Property)
    ensures Fields([Property(key, Group([p]))], "") == Fields([p], key)
  {
    assert Fields([], "") == [];
  }

  lemma TwoFields(p: Property, q: Property)
    ensures Fields([p, q], "") == Fields([p], "") + Fields([q], "")
  {
    assert [p, q][1..] == [q] && [p][1..] == [];
    assert Fields([], "") == [];
  }
}
