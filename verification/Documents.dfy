/** Nested documents and their leaves; rebuilding one from flat key paths. */
module Documents {
  import opened Common
  import opened Sorting

  /** What a form field yields. */
  datatype Value = Text(text: string) | Number(number: int) | Flag(flag: bool) | Items(items: seq<string>)

  /** A nested object; values are whatever the form puts in, and are never entered. */
  datatype Doc = Leaf(value: Value) | Node(fields: map<string, Doc>)

  type Path = seq<string>

  /** The document has the value v at the end of this path. */
  predicate LeafAt(doc: Doc, path: Path, v: Value) {
    if path == [] then doc == Leaf(v)
    else doc.Node? && path[0] in doc.fields && LeafAt(doc.fields[path[0]], path[1..], v)
  }

  /** A write that did not put its value at its path. */
  type Strays = seq<(Path, Value)>

  const PROTO := "__proto__"

  /** The page's objects outside the document, as arbitrary functions of the stray writes so far.
      `builtin`: the names every fresh object inherits. `inherits`: whether the object at a place, which has no
      field of its own of this name, finds one on its prototypes. `refuses`: whether a walk that leaves the
      document there ends in an exception. `enter`: what a walk through a value does to it; None is an
      exception. */
  datatype Host = Host(builtin: set<string>,
                       inherits: (Strays, Path, string) -> bool,
                       refuses: (Strays, Path, Path, Value) -> bool,
                       enter: (Strays, Value, Path, Value) -> Option<Value>)

  /** At first nothing but the built-in names is inherited, and those always are; only a list can be
      changed by entering it, and it stays a list. */
  ghost predicate Sound(host: Host) {
    && PROTO in host.builtin
    && (forall place, key :: host.inherits([], place, key) <==> key in host.builtin)
    && (forall h, place, key | key in host.builtin :: host.inherits(h, place, key))
    && (forall h, was, path, v | host.enter(h, was, path, v).Some? ::
          var w := host.enter(h, was, path, v).value;
          w == was || (w.Items? && was.Items?))
  }

  /** One round of the outer loop: an exception, the value set at its path, or a write that went to an
      object outside the document or into a value inside it. */
  datatype Round = Threw | Done(doc: Doc) | Astray(doc: Doc)

  function Wrap(fields: map<string, Doc>, key: string, r: Round): Round {
    match r
    case Threw => Threw
    case Done(sub) => Done(Node(fields[key := sub]))
    case Astray(sub) => Astray(Node(fields[key := sub]))
  }

  /** Walk down from the object at `place`, making objects where a name is neither owned nor inherited,
      and set the last key. Assigning `__proto__` never makes a field. */
  function Insert(host: Host, h: Strays, place: Path, doc: Doc, path: Path, v: Value): Round
    requires path != []
    decreases |path|
  {
    match doc
    case Leaf(was) =>
      (match host.enter(h, was, path, v)
       case None => Threw
       case Some(w) => Astray(Leaf(w)))
    case Node(fields) =>
      var key := path[0];
      if |path| == 1 && key != PROTO then Done(Node(fields[key := Leaf(v)]))
      else if |path| == 1 || (key !in fields && host.inherits(h, place, key)) then
        if host.refuses(h, place, path, v) then Threw else Astray(doc)
      else
        var child := if key in fields then fields[key] else Node(map[]);
        Wrap(fields, key, Insert(host, h, place + [key], child, path[1..], v))
  }

  /** The document under construction, and the writes that went astray on the way. */
  datatype Work = Work(doc: Doc, strays: Strays)

  function AfterRound(work: Work, path: Path, v: Value, r: Round): Option<Work> {
    match r
    case Threw => None
    case Done(doc) => Some(Work(doc, work.strays))
    case Astray(doc) => Some(Work(doc, work.strays + [(path, v)]))
  }

  /** All rounds, in order; an exception ends them. */
  function Build(host: Host, pairs: seq<(Path, Value)>): Option<Work>
    requires forall i | 0 <= i < |pairs| :: pairs[i].0 != []
  {
    if pairs == [] then Some(Work(Node(map[]), [])) else
      var n := |pairs| - 1;
      match Build(host, pairs[..n])
      case None => None
      case Some(work) =>
        AfterRound(work, pairs[n].0, pairs[n].1, Insert(host, work.strays, [], work.doc, pairs[n].0, pairs[n].1))
  }

  /** No inherited name before the last key, and the last key is not `__proto__`. */
  predicate Clean(host: Host, path: Path) {
    path != [] && path[|path| - 1] != PROTO && forall i | 0 <= i < |path| - 1 :: path[i] !in host.builtin
  }

  ghost predicate AllClean(host: Host, pairs: seq<(Path, Value)>) {
    forall i | 0 <= i < |pairs| :: Clean(host, pairs[i].0)
  }

  lemma PrefixTail(p: Path, q: Path)
    requires p != [] && q != []
    ensures p <= q <==> p[0] == q[0] && p[1..] <= q[1..]
  {
    if p <= q {
      assert p[1..] == q[1..][..|p| - 1];
    }
    if p[0] == q[0] && p[1..] <= q[1..] {
      assert p == [p[0]] + p[1..] && q == [q[0]] + q[1..];
    }
  }

  /** A round that sets its value replaces whatever was at or below the path, and nothing else. */
  lemma {:induction false} InsertLeaves(host: Host, h: Strays, place: Path, doc: Doc, path: Path, v: Value,
                                        p: Path, w: Value)
    requires path != [] && Insert(host, h, place, doc, path, v).Done?
    ensures LeafAt(Insert(host, h, place, doc, path, v).doc, p, w) <==>
            (p == path && w == v) || (LeafAt(doc, p, w) && !(path <= p))
    decreases |path|
  {
    if p != [] {
      PrefixTail(path, p);
      if p[0] == path[0] {
        assert p == [p[0]] + p[1..] && path == [path[0]] + path[1..];
        if |path| > 1 {
          var child := if path[0] in doc.fields then doc.fields[path[0]] else Node(map[]);
          InsertLeaves(host, h, place + [path[0]], child, path[1..], v, p[1..], w);
        }
      }
    }
  }

  /** A round that goes astray leaves every value at its path; only a list it walked into may have changed. */
  lemma {:induction false} AstrayLeaves(host: Host, h: Strays, place: Path, doc: Doc, path: Path, v: Value,
                                        p: Path, w: Value)
    requires Sound(host) && path != [] && Insert(host, h, place, doc, path, v).Astray?
    ensures LeafAt(Insert(host, h, place, doc, path, v).doc, p, w) ==>
            exists w0 :: LeafAt(doc, p, w0) && (w0 == w || (w0.Items? && w.Items? && p <= path && p != path))
    decreases |path|
  {
    if LeafAt(Insert(host, h, place, doc, path, v).doc, p, w) {
      if doc.Leaf? {
        assert LeafAt(doc, p, doc.value);
      } else if p != [] && p[0] == path[0] && |path| > 1
                && (path[0] in doc.fields || !host.inherits(h, place, path[0])) {
        PrefixTail(p, path);
        var child := if path[0] in doc.fields then doc.fields[path[0]] else Node(map[]);
        AstrayLeaves(host, h, place + [path[0]], child, path[1..], v, p[1..], w);
        var w0 :| LeafAt(child, p[1..], w0)
                  && (w0 == w || (w0.Items? && w.Items? && p[1..] <= path[1..] && p[1..] != path[1..]));
        assert p == [p[0]] + p[1..] && path == [path[0]] + path[1..];
        EmptyHasNoLeaf(p[1..], w0);
        assert LeafAt(doc, p, w0);
      } else {
        assert LeafAt(doc, p, w);
      }
    }
  }

  lemma EmptyHasNoLeaf(p: Path, w: Value)
    ensures !LeafAt(Node(map[]), p, w)
  {
  }

  /** Before anything went astray, a clean path is set unless a value sits on the way. */
  lemma {:induction false} InsertSucceeds(host: Host, place: Path, doc: Doc, path: Path, v: Value)
    requires Sound(host) && Clean(host, path)
    requires forall p, w | p <= path && p != path :: !LeafAt(doc, p, w)
    ensures Insert(host, [], place, doc, path, v).Done?
    decreases |path|
  {
    if doc.Leaf? {
      assert LeafAt(doc, [], doc.value);
    } else if |path| > 1 {
      var child := if path[0] in doc.fields then doc.fields[path[0]] else Node(map[]);
      forall p, w | p <= path[1..] && p != path[1..] ensures !LeafAt(child, p, w) {
        var longer := [path[0]] + p;
        assert longer[1..] == p;
        PrefixTail(longer, path);
        assert path == [path[0]] + path[1..];
        assert !LeafAt(doc, longer, w);
      }
      CleanTail(host, path);
      InsertSucceeds(host, place + [path[0]], child, path[1..], v);
    }
  }

  lemma CleanTail(host: Host, path: Path)
    requires Clean(host, path) && |path| > 1
    ensures Clean(host, path[1..])
  {
  }

  // ---------- a path that is not clean never arrives ----------

  /** No value is at a path that is not clean. */
  ghost predicate OnlyClean(host: Host, doc: Doc) {
    forall p, w | LeafAt(doc, p, w) && p != [] :: Clean(host, p)
  }

  /** No field of a document is named `__proto__`, and none with a built-in name is an object. */
  ghost predicate Owned(host: Host, doc: Doc) {
    doc.Node? ==> forall k | k in doc.fields ::
      && k != PROTO && (doc.fields[k].Node? ==> k !in host.builtin) && Owned(host, doc.fields[k])
  }

  lemma {:induction false} InsertOwned(host: Host, h: Strays, place: Path, doc: Doc, path: Path, v: Value)
    requires Sound(host) && path != [] && Owned(host, doc) && !Insert(host, h, place, doc, path, v).Threw?
    ensures Owned(host, Insert(host, h, place, doc, path, v).doc)
    ensures doc.Leaf? <==> Insert(host, h, place, doc, path, v).doc.Leaf?
    decreases |path|
  {
    if doc.Node? && |path| > 1 && (path[0] in doc.fields || !host.inherits(h, place, path[0])) {
      var child := if path[0] in doc.fields then doc.fields[path[0]] else Node(map[]);
      InsertOwned(host, h, place + [path[0]], child, path[1..], v);
    }
  }

  lemma {:induction false} BuildOwned(host: Host, pairs: seq<(Path, Value)>)
    requires forall i | 0 <= i < |pairs| :: pairs[i].0 != []
    requires Sound(host) && Build(host, pairs).Some?
    ensures Owned(host, Build(host, pairs).value.doc) && Build(host, pairs).value.doc.Node?
  {
    if pairs != [] {
      var n := |pairs| - 1;
      BuildOwned(host, pairs[..n]);
      var work := Build(host, pairs[..n]).value;
      InsertOwned(host, work.strays, [], work.doc, pairs[n].0, pairs[n].1);
    }
  }

  lemma {:induction false} OwnedIsClean(host: Host, doc: Doc, p: Path, w: Value)
    requires Owned(host, doc) && LeafAt(doc, p, w) && p != []
    ensures Clean(host, p)
    decreases |p|
  {
    var k := p[0];
    assert k in doc.fields;
    if |p| > 1 {
      OwnedIsClean(host, doc.fields[k], p[1..], w);
      assert p == [k] + p[1..];
      forall i | 0 <= i < |p| - 1 ensures p[i] !in host.builtin {
        if i > 0 { assert p[i] == p[1..][i - 1]; }
      }
    } else {
      assert p == [k];
    }
  }

  /** Whatever is built, a value only ever arrives at a clean path. */
  lemma OnlyCleanArrives(host: Host, pairs: seq<(Path, Value)>)
    requires forall i | 0 <= i < |pairs| :: pairs[i].0 != []
    requires Sound(host) && Build(host, pairs).Some?
    ensures OnlyClean(host, Build(host, pairs).value.doc)
  {
    BuildOwned(host, pairs);
    var doc := Build(host, pairs).value.doc;
    forall p, w | LeafAt(doc, p, w) && p != [] ensures Clean(host, p) {
      OwnedIsClean(host, doc, p, w);
    }
  }

  /** No document has values at two paths of which one extends the other. */
  lemma {:induction false} LeavesPrefixFree(doc: Doc, p: Path, v: Value, q: Path, w: Value)
    requires LeafAt(doc, p, v) && LeafAt(doc, q, w) && p <= q
    ensures p == q && v == w
    decreases |p|
  {
    if p != [] {
      PrefixTail(p, q);
      LeavesPrefixFree(doc.fields[p[0]], p[1..], v, q[1..], w);
      assert p == [p[0]] + p[1..] && q == [q[0]] + q[1..];
    }
  }

  /** Neither path extends the other (in particular they differ). */
  predicate Apart(p: Path, q: Path) { !(p <= q) && !(q <= p) }

  ghost predicate PrefixFree(pairs: seq<(Path, Value)>) {
    forall i, j | 0 <= i < j < |pairs| :: Apart(pairs[i].0, pairs[j].0)
  }

  ghost predicate DistinctPaths(pairs: seq<(Path, Value)>) {
    forall i, j | 0 <= i < j < |pairs| :: pairs[i].0 != pairs[j].0
  }

  /** The leaves of the document are exactly these pairs. */
  ghost predicate HasExactly(doc: Doc, pairs: seq<(Path, Value)>) {
    forall p, v :: LeafAt(doc, p, v) <==> (p, v) in pairs
  }

  /** The document built has exactly these leaves. */
  ghost predicate BuildsExactly(host: Host, pairs: seq<(Path, Value)>)
    requires forall i | 0 <= i < |pairs| :: pairs[i].0 != []
  {
    Build(host, pairs).Some? && HasExactly(Build(host, pairs).value.doc, pairs)
  }

  /** From clean paths none of which extends another, the document has exactly the given leaves, and
      nothing goes astray. */
  lemma {:induction false} BuildPrefixFree(host: Host, pairs: seq<(Path, Value)>)
    requires forall i | 0 <= i < |pairs| :: pairs[i].0 != []
    requires Sound(host) && PrefixFree(pairs) && AllClean(host, pairs)
    ensures BuildsExactly(host, pairs) && Build(host, pairs).value.strays == []
  {
    if pairs != [] {
      var n := |pairs| - 1;
      var before, last := pairs[..n], pairs[n];
      BuildPrefixFree(host, before);
      var doc := Build(host, before).value.doc;
      LastApart(pairs);
      InsertSucceeds(host, [], doc, last.0, last.1);
      var doc' := Build(host, pairs).value.doc;
      forall p, w ensures LeafAt(doc', p, w) <==> (p, w) in pairs {
        InsertLeaves(host, [], [], doc, last.0, last.1, p, w);
        assert pairs == before + [last];
      }
    }
  }

  lemma LastApart(pairs: seq<(Path, Value)>)
    requires pairs != [] && PrefixFree(pairs)
    ensures var n := |pairs| - 1; forall p, w | (p, w) in pairs[..n] :: Apart(p, pairs[n].0)
  {
    var n := |pairs| - 1;
    forall p, w | (p, w) in pairs[..n] ensures Apart(p, pairs[n].0) {
      var i :| 0 <= i < n && pairs[..n][i] == (p, w);
      assert Apart(pairs[i].0, pairs[n].0);
    }
  }

  lemma ExactIsPrefixFree(doc: Doc, pairs: seq<(Path, Value)>)
    requires DistinctPaths(pairs) && HasExactly(doc, pairs)
    ensures PrefixFree(pairs)
  {
    forall i, j | 0 <= i < j < |pairs| ensures Apart(pairs[i].0, pairs[j].0) {
      var (p, v) := pairs[i];
      var (q, w) := pairs[j];
      assert (p, v) in pairs && (q, w) in pairs;
      assert LeafAt(doc, p, v) && LeafAt(doc, q, w);
      if p <= q { LeavesPrefixFree(doc, p, v, q, w); }
      if q <= p { LeavesPrefixFree(doc, q, w, p, v); }
    }
  }

  /** For pairs with distinct paths, the rebuilt document has exactly those leaves if and only if no
      path extends another and every path is clean. */
  lemma BuildExactIffApartAndClean(host: Host, pairs: seq<(Path, Value)>)
    requires forall i | 0 <= i < |pairs| :: pairs[i].0 != []
    requires Sound(host) && DistinctPaths(pairs)
    ensures BuildsExactly(host, pairs) <==> PrefixFree(pairs) && AllClean(host, pairs)
  {
    if PrefixFree(pairs) && AllClean(host, pairs) {
      BuildPrefixFree(host, pairs);
    } else if BuildsExactly(host, pairs) {
      var doc := Build(host, pairs).value.doc;
      ExactIsPrefixFree(doc, pairs);
      OnlyCleanArrives(host, pairs);
      forall i | 0 <= i < |pairs| ensures Clean(host, pairs[i].0) {
        var (p, v) := pairs[i];
        assert (p, v) in pairs;
        assert LeafAt(doc, p, v);
      }
    }
  }

  // ---------- the document is determined by its leaves ----------

  /** No nested object is empty. */
  ghost predicate Solid(doc: Doc) {
    doc.Node? ==> forall k | k in doc.fields ::
      (doc.fields[k].Node? ==> doc.fields[k].fields != map[]) && Solid(doc.fields[k])
  }

  /** A non-empty solid document has a leaf. */
  lemma {:induction false} SolidHasLeaf(doc: Doc) returns (p: Path, v: Value)
    requires Solid(doc) && (doc.Node? ==> doc.fields != map[])
    ensures LeafAt(doc, p, v)
  {
    match doc
    case Leaf(value) => p, v := [], value;
    case Node(fields) =>
      var k :| k in fields;
      var sub, w := SolidHasLeaf(fields[k]);
      p, v := [k] + sub, w;
      assert p[1..] == sub;
  }

  /** Two solid documents with the same leaves are the same document. */
  lemma {:induction false} SameLeavesSameDoc(a: Doc, b: Doc)
    requires Solid(a) && Solid(b)
    requires a.Node? && b.Node?
    requires forall p, v :: LeafAt(a, p, v) <==> LeafAt(b, p, v)
    ensures a == b
  {
    forall k ensures k in a.fields <==> k in b.fields {
      if k in a.fields { FieldHasLeaf(a, b, k); }
      if k in b.fields { FieldHasLeaf(b, a, k); }
    }
    forall k | k in a.fields ensures a.fields[k] == b.fields[k] {
      FieldLeaves(a, b, k);
      var x, y := a.fields[k], b.fields[k];
      if x.Leaf? {
        assert LeafAt(x, [], x.value) && LeafAt(y, [], x.value);
      } else if y.Leaf? {
        assert LeafAt(y, [], y.value) && LeafAt(x, [], y.value);
      } else {
        SameLeavesSameDoc(x, y);
      }
    }
  }

  lemma FieldHasLeaf(a: Doc, b: Doc, k: string)
    requires a.Node? && b.Node? && Solid(a) && k in a.fields
    requires forall p, v :: LeafAt(a, p, v) <==> LeafAt(b, p, v)
    ensures k in b.fields
  {
    var p, v := SolidHasLeaf(a.fields[k]);
    assert ([k] + p)[1..] == p;
    assert LeafAt(a, [k] + p, v);
    assert LeafAt(b, [k] + p, v);
  }

  lemma FieldLeaves(a: Doc, b: Doc, k: string)
    requires a.Node? && b.Node? && k in a.fields && k in b.fields
    requires forall p, v :: LeafAt(a, p, v) <==> LeafAt(b, p, v)
    ensures forall p, v :: LeafAt(a.fields[k], p, v) <==> LeafAt(b.fields[k], p, v)
  {
    forall p, v ensures LeafAt(a.fields[k], p, v) <==> LeafAt(b.fields[k], p, v) {
      var longer := [k] + p;
      assert longer[1..] == p;
      assert LeafAt(a, longer, v) <==> LeafAt(b, longer, v);
    }
  }

  lemma {:induction false} InsertSolid(host: Host, h: Strays, place: Path, doc: Doc, path: Path, v: Value)
    requires path != [] && Solid(doc) && Insert(host, h, place, doc, path, v).Done?
    ensures Solid(Insert(host, h, place, doc, path, v).doc)
    ensures Insert(host, h, place, doc, path, v).doc.Node? && Insert(host, h, place, doc, path, v).doc.fields != map[]
    decreases |path|
  {
    var r := Insert(host, h, place, doc, path, v).doc;
    assert path[0] in r.fields;
    if |path| > 1 {
      var child := if path[0] in doc.fields then doc.fields[path[0]] else Node(map[]);
      InsertSolid(host, h, place + [path[0]], child, path[1..], v);
    }
  }

  /** Where nothing went astray no empty object is left behind. */
  lemma {:induction false} BuildSolid(host: Host, pairs: seq<(Path, Value)>)
    requires forall i | 0 <= i < |pairs| :: pairs[i].0 != []
    requires Build(host, pairs).Some? && Build(host, pairs).value.strays == []
    ensures Solid(Build(host, pairs).value.doc) && Build(host, pairs).value.doc.Node?
  {
    if pairs != [] {
      var n := |pairs| - 1;
      BuildSolid(host, pairs[..n]);
      var work := Build(host, pairs[..n]).value;
      InsertSolid(host, work.strays, [], work.doc, pairs[n].0, pairs[n].1);
    }
  }

  lemma ListedNonEmpty(doc: Doc, pairs: seq<(Path, Value)>)
    requires doc.Node? && HasExactly(doc, pairs)
    ensures forall i | 0 <= i < |pairs| :: pairs[i].0 != []
  {
    forall i | 0 <= i < |pairs| ensures pairs[i].0 != [] {
      var (p, v) := pairs[i];
      assert (p, v) in pairs;
      assert LeafAt(doc, p, v);
    }
  }

  /** Flattening and rebuilding undo each other exactly when the paths are clean: from any listing of the
      leaves of a solid document, in any order, the very same document comes back. */
  lemma RebuildIsIdentity(host: Host, doc: Doc, pairs: seq<(Path, Value)>)
    requires Sound(host) && doc.Node? && Solid(doc)
    requires DistinctPaths(pairs) && HasExactly(doc, pairs)
    ensures forall i | 0 <= i < |pairs| :: pairs[i].0 != []
    ensures Build(host, pairs) == Some(Work(doc, [])) <==> AllClean(host, pairs)
  {
    ListedNonEmpty(doc, pairs);
    BuildExactIffApartAndClean(host, pairs);
    if AllClean(host, pairs) {
      ExactIsPrefixFree(doc, pairs);
      BuildPrefixFree(host, pairs);
      BuildSolid(host, pairs);
      SameLeavesSameDoc(doc, Build(host, pairs).value.doc);
    }
  }

  /** Every order of the entries builds exactly them, and always the same document. */
  ghost predicate AnyOrderExact(host: Host, pairs: seq<(Path, Value)>)
    requires forall i | 0 <= i < |pairs| :: pairs[i].0 != []
  {
    exists doc :: HasExactly(doc, pairs) && AlwaysBuilds(host, pairs, doc)
  }

  ghost predicate AlwaysBuilds(host: Host, pairs: seq<(Path, Value)>, doc: Doc) {
    forall order: seq<(Path, Value)> | multiset(order) == multiset(pairs) && NoEmptyPath(order) ::
      Build(host, order) == Some(Work(doc, []))
  }

  ghost predicate NoEmptyPath(pairs: seq<(Path, Value)>) {
    forall i | 0 <= i < |pairs| :: pairs[i].0 != []
  }

  /** The order of insertion does not matter exactly when no path extends another and all are clean. */
  lemma AnyOrderIffApartAndClean(host: Host, pairs: seq<(Path, Value)>)
    requires NoEmptyPath(pairs) && Sound(host) && DistinctPaths(pairs)
    ensures AnyOrderExact(host, pairs) <==> PrefixFree(pairs) && AllClean(host, pairs)
  {
    BuildExactIffApartAndClean(host, pairs);
    if PrefixFree(pairs) && AllClean(host, pairs) {
      BuildPrefixFree(host, pairs);
      BuildSolid(host, pairs);
      var doc := Build(host, pairs).value.doc;
      forall order | multiset(order) == multiset(pairs) && NoEmptyPath(order)
        ensures Build(host, order) == Some(Work(doc, []))
      {
        Reordered(host, pairs, order, doc);
      }
      assert AlwaysBuilds(host, pairs, doc);
    }
  }

  lemma Reordered(host: Host, pairs: seq<(Path, Value)>, order: seq<(Path, Value)>, doc: Doc)
    requires Sound(host) && doc.Node? && Solid(doc) && HasExactly(doc, pairs)
    requires DistinctPaths(pairs) && AllClean(host, pairs)
    requires multiset(order) == multiset(pairs) && NoEmptyPath(order)
    ensures Build(host, order) == Some(Work(doc, []))
  {
    SameElements(pairs, order);
    assert Distinct(pairs);
    ReorderedDistinct(pairs, order);
    forall i, j | 0 <= i < j < |order| ensures order[i].0 != order[j].0 {
      assert order[i] in pairs && order[j] in pairs;
    }
    forall i | 0 <= i < |order| ensures Clean(host, order[i].0) {
      assert order[i] in pairs;
    }
    RebuildIsIdentity(host, doc, order);
  }
}
