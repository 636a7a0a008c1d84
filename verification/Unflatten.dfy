/** `unflatten` as the page runs it: objects on the heap, filled in place through a moving reference. */
module Unflatten {
  import opened Common
  import opened Text
  import opened Documents
  import opened SchemaForm

  datatype Cell = Scalar(value: Value) | Ref(obj: Obj)

  class Obj {
    var fields: map<string, Cell>

    constructor ()
      ensures fields == map[]
    {
      fields := map[];
    }
  }

  /** The part of a document at the end of a path. */
  function At(doc: Doc, path: Path): Option<Doc> {
    if path == [] then Some(doc)
    else if doc.Node? && path[0] in doc.fields then At(doc.fields[path[0]], path[1..])
    else None
  }

  predicate NodeAt(doc: Doc, path: Path) { At(doc, path).Some? && At(doc, path).value.Node? }

  /** The document with the field `key` of the node at `path` set to `x`. */
  function SetAt(doc: Doc, path: Path, key: string, x: Doc): Doc
    requires NodeAt(doc, path)
  {
    if path == [] then Node(doc.fields[key := x])
    else Node(doc.fields[path[0] := SetAt(doc.fields[path[0]], path[1..], key, x)])
  }

  // ---------- setting one field ----------

  lemma {:induction false} SetAtThere(doc: Doc, path: Path, key: string, x: Doc)
    requires NodeAt(doc, path)
    ensures At(SetAt(doc, path, key, x), path) == Some(Node(At(doc, path).value.fields[key := x]))
  {
    if path != [] {
      SetAtThere(doc.fields[path[0]], path[1..], key, x);
    }
  }

  /** A node on the way keeps its keys, and its other fields. */
  lemma {:induction false} SetAtAbove(doc: Doc, path: Path, key: string, x: Doc, q: Path)
    requires NodeAt(doc, path) && q <= path && q != path
    ensures NodeAt(doc, q) && NodeAt(SetAt(doc, path, key, x), q)
    ensures var f, f' := At(doc, q).value.fields, At(SetAt(doc, path, key, x), q).value.fields;
            && f'.Keys == f.Keys && path[|q|] in f && f[path[|q|]].Node? && f'[path[|q|]].Node?
            && forall k | k in f && k != path[|q|] :: f'[k] == f[k]
  {
    if q == [] {
      assert NodeAt(doc.fields[path[0]], path[1..]);
      NodeHere(doc.fields[path[0]], path[1..]);
    } else {
      PrefixTail(q, path);
      SetAtAbove(doc.fields[path[0]], path[1..], key, x, q[1..]);
    }
  }

  lemma NodeHere(doc: Doc, path: Path)
    requires NodeAt(doc, path)
    ensures doc.Node?
  {
  }

  /** Elsewhere nothing changes. */
  lemma {:induction false} SetAtElsewhere(doc: Doc, path: Path, key: string, x: Doc, q: Path)
    requires NodeAt(doc, path) && !(q <= path) && !(path + [key] <= q)
    ensures At(SetAt(doc, path, key, x), q) == At(doc, q)
  {
    if path == [] {
      assert [key] <= q <==> q[0] == key;
    } else if q[0] == path[0] {
      PrefixTail(q, path);
      PrefixTail(path + [key], q);
      assert (path + [key])[1..] == path[1..] + [key];
      SetAtElsewhere(doc.fields[path[0]], path[1..], key, x, q[1..]);
    }
  }

  // ---------- the walk and the specification ----------

  lemma Overwritten(fields: map<string, Doc>, key: string, first: Doc, r: Round)
    ensures Wrap(fields[key := first], key, r) == Wrap(fields, key, r)
  {
    if !r.Threw? {
      assert fields[key := first][key := r.doc] == fields[key := r.doc];
    }
  }

  lemma PlaceBelow(place: Path, keys: Path, i: nat)
    requires 0 < i <= |keys|
    ensures place + keys[..i] == place + [keys[0]] + keys[1..][..i - 1]
    ensures keys[..i][1..] == keys[1..][..i - 1] && keys[i..] == keys[1..][i - 1..]
  {
  }

  /** Making a missing object on the way does not change what the round will give. */
  lemma {:induction false} MakingKeepsInsert(host: Host, h: Strays, place: Path, doc: Doc, keys: Path, i: nat, v: Value)
    requires i + 1 < |keys| && NodeAt(doc, keys[..i]) && keys[i] !in At(doc, keys[..i]).value.fields
    requires !host.inherits(h, place + keys[..i], keys[i])
    ensures Insert(host, h, place, SetAt(doc, keys[..i], keys[i], Node(map[])), keys, v)
            == Insert(host, h, place, doc, keys, v)
    decreases i
  {
    if i == 0 {
      assert place + keys[..0] == place;
      Overwritten(doc.fields, keys[0], Node(map[]), Insert(host, h, place + [keys[0]], Node(map[]), keys[1..], v));
    } else {
      PlaceBelow(place, keys, i);
      var child := doc.fields[keys[0]];
      MakingKeepsInsert(host, h, place + [keys[0]], child, keys[1..], i - 1, v);
      Overwritten(doc.fields, keys[0], SetAt(child, keys[1..][..i - 1], keys[i], Node(map[])),
                  Insert(host, h, place + [keys[0]], child, keys[1..], v));
    }
  }

  /** Setting the last key is the round, unless the key is `__proto__`. */
  lemma {:induction false} LastSetIsInsert(host: Host, h: Strays, place: Path, doc: Doc, keys: Path, v: Value)
    requires keys != [] && NodeAt(doc, keys[..|keys| - 1]) && keys[|keys| - 1] != PROTO
    ensures Insert(host, h, place, doc, keys, v)
            == Done(SetAt(doc, keys[..|keys| - 1], keys[|keys| - 1], Leaf(v)))
    decreases |keys|
  {
    var n := |keys| - 1;
    if n > 0 {
      assert keys[..n][1..] == keys[1..][..n - 1];
      LastSetIsInsert(host, h, place + [keys[0]], doc.fields[keys[0]], keys[1..], v);
    }
  }

  /** Where the walk leaves the document, the round ends. */
  lemma {:induction false} LeavingEndsInsert(host: Host, h: Strays, place: Path, doc: Doc, keys: Path, i: nat, v: Value)
    requires i < |keys| && NodeAt(doc, keys[..i])
    requires if i + 1 == |keys| then keys[i] == PROTO
             else keys[i] !in At(doc, keys[..i]).value.fields && host.inherits(h, place + keys[..i], keys[i])
    ensures Insert(host, h, place, doc, keys, v)
            == if host.refuses(h, place + keys[..i], keys[i..], v) then Threw else Astray(doc)
    decreases i
  {
    if i == 0 {
      assert place + keys[..0] == place && keys[0..] == keys;
    } else {
      PlaceBelow(place, keys, i);
      var child := doc.fields[keys[0]];
      LeavingEndsInsert(host, h, place + [keys[0]], child, keys[1..], i - 1, v);
      assert doc.fields[keys[0] := child] == doc.fields;
    }
  }

  /** Where a value is on the way, the round does what entering it does. */
  lemma {:induction false} ValueEndsInsert(host: Host, h: Strays, place: Path, doc: Doc, keys: Path, i: nat, v: Value)
    requires i + 1 < |keys| && NodeAt(doc, keys[..i]) && keys[i] in At(doc, keys[..i]).value.fields
    requires At(doc, keys[..i]).value.fields[keys[i]].Leaf?
    ensures Insert(host, h, place, doc, keys, v)
            == match host.enter(h, At(doc, keys[..i]).value.fields[keys[i]].value, keys[i + 1..], v)
               case None => Threw
               case Some(w) => Astray(SetAt(doc, keys[..i], keys[i], Leaf(w)))
    decreases i
  {
    if i > 0 {
      PlaceBelow(place, keys, i);
      assert keys[i + 1..] == keys[1..][i..];
      ValueEndsInsert(host, h, place + [keys[0]], doc.fields[keys[0]], keys[1..], i - 1, v);
    }
  }

  // ---------- heap and document ----------

  /** Every object has one place in the document and no two share one, so nothing is aliased. */
  ghost predicate OnePlace(place: map<Obj, Path>) {
    forall a, b | a in place && b in place && place[a] == place[b] :: a == b
  }

  ghost predicate CellShows(cell: Cell, part: Doc, place: map<Obj, Path>, path: Path) {
    match cell
    case Scalar(v) => part == Leaf(v)
    case Ref(c) => part.Node? && c in place && place[c] == path
  }

  /** The object has exactly the fields of the node at its place. */
  ghost predicate ObjShows(o: Obj, doc: Doc, place: map<Obj, Path>)
    requires o in place
    reads o
  {
    && NodeAt(doc, place[o])
    && var f := At(doc, place[o]).value.fields;
       && f.Keys == o.fields.Keys
       && forall k | k in o.fields :: CellShows(o.fields[k], f[k], place, place[o] + [k])
  }

  ghost predicate Shows(doc: Doc, place: map<Obj, Path>)
    reads place.Keys
  {
    OnePlace(place) && forall o | o in place :: ObjShows(o, doc, place)
  }

  /** The objects that stay reachable when the field `path` is replaced. */
  ghost function Outside(place: map<Obj, Path>, path: Path): map<Obj, Path> {
    map o | o in place && !(path <= place[o]) :: place[o]
  }

  /** An object other than the one that was changed still shows its part of the document. */
  lemma OtherShows(o: Obj, doc: Doc, place: map<Obj, Path>, path: Path, key: string, x: Doc, place': map<Obj, Path>)
    requires o in place && o in place' && place'[o] == place[o] && place[o] != path && !(path + [key] <= place[o])
    requires ObjShows(o, doc, place) && NodeAt(doc, path)
    requires forall c | c in Outside(place, path + [key]) :: c in place' && place'[c] == place[c]
    ensures ObjShows(o, SetAt(doc, path, key, x), place')
  {
    var q := place[o];
    var doc' := SetAt(doc, path, key, x);
    if q <= path {
      SetAtAbove(doc, path, key, x, q);
    } else {
      SetAtElsewhere(doc, path, key, x, q);
    }
    var f, f' := At(doc, q).value.fields, At(doc', q).value.fields;
    forall k | k in o.fields ensures CellShows(o.fields[k], f'[k], place', q + [k]) {
      assert CellShows(o.fields[k], f[k], place, q + [k]);
      if o.fields[k].Ref? {
        if path + [key] <= q + [k] { UnderShorter(path, key, q, k); }
      }
    }
  }

  lemma UnderShorter(path: Path, key: string, q: Path, k: string)
    requires path + [key] <= q + [k] && q != path
    ensures path + [key] <= q
  {
    assert (q + [k])[..|q|] == q && (path + [key])[..|path|] == path;
  }

  lemma {:induction false} AtSnoc(doc: Doc, path: Path, key: string)
    requires NodeAt(doc, path)
    ensures At(doc, path + [key])
            == if key in At(doc, path).value.fields then Some(At(doc, path).value.fields[key]) else None
  {
    if path == [] {
      assert ([] + [key])[1..] == [];
    } else {
      assert (path + [key])[1..] == path[1..] + [key];
      AtSnoc(doc.fields[path[0]], path[1..], key);
    }
  }

  lemma {:induction false} NothingBelow(doc: Doc, path: Path, q: Path)
    requires At(doc, path).None? && path <= q
    ensures At(doc, q).None?
  {
    if path != [] && doc.Node? && path[0] in doc.fields {
      PrefixTail(path, q);
      NothingBelow(doc.fields[path[0]], path[1..], q[1..]);
    }
  }

  /** What the fields of one object showed before one of them was set. */
  ghost predicate FieldsShow(fields: map<string, Cell>, doc: Doc, place: map<Obj, Path>, path: Path) {
    && NodeAt(doc, path)
    && var f := At(doc, path).value.fields;
       && f.Keys == fields.Keys
       && forall k | k in fields :: CellShows(fields[k], f[k], place, path + [k])
  }

  /** The object that was changed shows the changed node. */
  lemma ChangedShows(o: Obj, fields: map<string, Cell>, doc: Doc, place: map<Obj, Path>, path: Path, key: string,
                     cell: Cell, x: Doc, place': map<Obj, Path>)
    requires FieldsShow(fields, doc, place, path) && o.fields == fields[key := cell]
    requires o in place' && place'[o] == path && CellShows(cell, x, place', path + [key])
    requires forall c | c in Outside(place, path + [key]) :: c in place' && place'[c] == place[c]
    ensures ObjShows(o, SetAt(doc, path, key, x), place')
  {
    SetAtThere(doc, path, key, x);
    var f := At(doc, path).value.fields;
    forall k | k in o.fields ensures CellShows(o.fields[k], f[key := x][k], place', path + [k]) {
      if k != key {
        assert CellShows(fields[k], f[k], place, path + [k]);
        assert (path + [k])[|path|] != (path + [key])[|path|];
      }
    }
  }

  /** One field of one object is set: the heap shows the document with that field set. */
  lemma SetShows(o: Obj, fields: map<string, Cell>, doc: Doc, place: map<Obj, Path>, path: Path, key: string,
                 cell: Cell, x: Doc, place': map<Obj, Path>)
    requires OnePlace(place) && OnePlace(place') && o in place && place[o] == path
    requires FieldsShow(fields, doc, place, path) && o.fields == fields[key := cell]
    requires forall b | b in place && b != o :: ObjShows(b, doc, place)
    requires CellShows(cell, x, place', path + [key])
    requires forall b | b in Outside(place, path + [key]) :: b in place' && place'[b] == place[b]
    requires forall b | b in place' && b !in Outside(place, path + [key]) ::
      ObjShows(b, SetAt(doc, path, key, x), place')
    ensures Shows(SetAt(doc, path, key, x), place')
  {
    assert o in Outside(place, path + [key]);
    ChangedShows(o, fields, doc, place, path, key, cell, x, place');
    forall b | b in place' ensures ObjShows(b, SetAt(doc, path, key, x), place') {
      if b in Outside(place, path + [key]) && b != o {
        OtherShows(b, doc, place, path, key, x, place');
      }
    }
  }

  /** A fresh empty object hung into a field that was missing. */
  lemma MakeShows(o: Obj, fields: map<string, Cell>, doc: Doc, place: map<Obj, Path>, path: Path, key: string,
                  child: Obj)
    requires OnePlace(place) && o in place && place[o] == path
    requires FieldsShow(fields, doc, place, path) && key !in fields && o.fields == fields[key := Ref(child)]
    requires forall b | b in place && b != o :: ObjShows(b, doc, place)
    requires child !in place && child.fields == map[]
    ensures Shows(SetAt(doc, path, key, Node(map[])), place[child := path + [key]])
  {
    var place' := place[child := path + [key]];
    AtSnoc(doc, path, key);
    forall b | b in place ensures !(path + [key] <= place[b]) {
      assert b != o ==> ObjShows(b, doc, place);
      if path + [key] <= place[b] {
        NothingBelow(doc, path + [key], place[b]);
      }
    }
    var doc' := SetAt(doc, path, key, Node(map[]));
    SetAtThere(doc, path, key, Node(map[]));
    AtSnoc(doc', path, key);
    assert ObjShows(child, doc', place');
    SetShows(o, fields, doc, place, path, key, Ref(child), Node(map[]), place');
  }

  /** A scalar set into a field: whatever hung there before is no longer part of the document. */
  lemma ScalarShows(o: Obj, fields: map<string, Cell>, doc: Doc, place: map<Obj, Path>, path: Path, key: string,
                    v: Value)
    requires OnePlace(place) && o in place && place[o] == path
    requires FieldsShow(fields, doc, place, path) && o.fields == fields[key := Scalar(v)]
    requires forall b | b in place && b != o :: ObjShows(b, doc, place)
    ensures Shows(SetAt(doc, path, key, Leaf(v)), Outside(place, path + [key]))
  {
    SetShows(o, fields, doc, place, path, key, Scalar(v), Leaf(v), Outside(place, path + [key]));
  }

  /** The object is the root of a heap that shows the document. */
  ghost predicate IsDocument(root: Obj, doc: Doc, place: map<Obj, Path>)
    reads place.Keys
  {
    root in place && place[root] == [] && Shows(doc, place)
  }

  /** A heap shows at most one document. */
  lemma ShownIsUnique(root: Obj, a: Doc, b: Doc, place: map<Obj, Path>)
    requires IsDocument(root, a, place) && IsDocument(root, b, place)
    ensures a == b
  {
    SamePart(root, a, a, b, place);
  }

  lemma {:induction false} SamePart(o: Obj, part: Doc, a: Doc, b: Doc, place: map<Obj, Path>)
    requires Shows(a, place) && Shows(b, place) && o in place && At(a, place[o]) == Some(part)
    ensures At(b, place[o]) == Some(part)
    decreases part
  {
    assert ObjShows(o, a, place) && ObjShows(o, b, place);
    var p := place[o];
    var f, g := At(a, p).value.fields, At(b, p).value.fields;
    forall k | k in o.fields ensures f[k] == g[k] {
      assert CellShows(o.fields[k], f[k], place, p + [k]) && CellShows(o.fields[k], g[k], place, p + [k]);
      match o.fields[k] {
        case Scalar(_) =>
        case Ref(c) =>
          AtSnoc(a, p, k);
          AtSnoc(b, p, k);
          SamePart(c, f[k], a, b, place);
      }
    }
    assert f == g;
  }

  // ---------- the page's loops ----------

  lemma FieldShows(o: Obj, key: string, doc: Doc, place: map<Obj, Path>)
    requires o in place && ObjShows(o, doc, place) && key in o.fields
    ensures NodeAt(doc, place[o]) && key in At(doc, place[o]).value.fields
    ensures CellShows(o.fields[key], At(doc, place[o]).value.fields[key], place, place[o] + [key])
  {
  }

  lemma OneKeyMore(keys: Path, i: nat)
    requires i < |keys|
    ensures keys[..i + 1] == keys[..i] + [keys[i]]
  {
  }

  /** `??= {}` where the name is neither owned nor inherited: a fresh empty object. */
  method MakeMissing(root: Obj, node: Obj, host: Host, h: Strays, keys: Path, i: nat, v: Value,
                     ghost doc: Doc, ghost place: map<Obj, Path>)
    returns (ghost doc': Doc, ghost place': map<Obj, Path>)
    requires i + 1 < |keys| && IsDocument(root, doc, place) && node in place && place[node] == keys[..i]
    requires keys[i] !in node.fields && !host.inherits(h, keys[..i], keys[i])
    modifies node
    ensures IsDocument(root, doc', place') && fresh(place'.Keys - place.Keys)
    ensures node in place' && place'[node] == keys[..i] && keys[i] in node.fields
    ensures Insert(host, h, [], doc', keys, v) == Insert(host, h, [], doc, keys, v)
  {
    ghost var fields := node.fields;
    assert ObjShows(node, doc, place);
    var child := new Obj();
    node.fields := node.fields[keys[i] := Ref(child)];
    doc', place' := SetAt(doc, keys[..i], keys[i], Node(map[])), place[child := keys[..i] + [keys[i]]];
    MakeShows(node, fields, doc, place, keys[..i], keys[i], child);
    assert [] + keys[..i] == keys[..i];
    MakingKeepsInsert(host, h, [], doc, keys, i, v);
  }

  /** Where one step of the walk leads: into the next object, or to the end of the round. */
  datatype Walk = Into(next: Obj) | Exception | Lost

  /** The key names a value: entering it throws, or changes at most the value itself. */
  method EnterValue(root: Obj, node: Obj, host: Host, h: Strays, keys: Path, i: nat, v: Value,
                    ghost doc: Doc, ghost place: map<Obj, Path>)
    returns (walk: Walk, ghost doc': Doc, ghost place': map<Obj, Path>)
    requires i + 1 < |keys| && IsDocument(root, doc, place) && node in place && place[node] == keys[..i]
    requires keys[i] in node.fields && node.fields[keys[i]].Scalar?
    modifies node
    ensures !walk.Into? && (walk.Exception? <==> Insert(host, h, [], doc, keys, v).Threw?)
    ensures walk.Lost? ==> Insert(host, h, [], doc, keys, v) == Astray(doc')
    ensures walk.Lost? ==> IsDocument(root, doc', place')
    ensures fresh(place'.Keys - place.Keys)
  {
    ghost var fields := node.fields;
    FieldShows(node, keys[i], doc, place);
    ValueEndsInsert(host, h, [], doc, keys, i, v);
    doc', place' := doc, place;
    match host.enter(h, node.fields[keys[i]].value, keys[i + 1..], v) {
      case None =>
        walk := Exception;
      case Some(w) =>
        node.fields := node.fields[keys[i] := Scalar(w)];
        ScalarShows(node, fields, doc, place, keys[..i], keys[i], w);
        doc', place' := SetAt(doc, keys[..i], keys[i], Leaf(w)), Outside(place, keys[..i] + [keys[i]]);
        assert root in place' by { RootOutside(root, place, keys[..i], keys[i]); }
        walk := Lost;
    }
  }

  lemma RootOutside(root: Obj, place: map<Obj, Path>, path: Path, key: string)
    requires root in place && place[root] == []
    ensures root in Outside(place, path + [key]) && Outside(place, path + [key])[root] == []
  {
  }

  /** `node = node[key] ??= {}` */
  method StepInto(root: Obj, node: Obj, host: Host, h: Strays, keys: Path, i: nat, v: Value,
                  ghost doc: Doc, ghost place: map<Obj, Path>)
    returns (walk: Walk, ghost doc': Doc, ghost place': map<Obj, Path>)
    requires i + 1 < |keys| && IsDocument(root, doc, place) && node in place && place[node] == keys[..i]
    modifies node
    ensures walk.Into? ==>
      && IsDocument(root, doc', place') && walk.next in place' && place'[walk.next] == keys[..i + 1]
      && Insert(host, h, [], doc', keys, v) == Insert(host, h, [], doc, keys, v)
    ensures walk.Exception? ==> Insert(host, h, [], doc, keys, v).Threw?
    ensures walk.Lost? ==> Insert(host, h, [], doc, keys, v) == Astray(doc') && IsDocument(root, doc', place')
    ensures fresh(place'.Keys - place.Keys)
  {
    doc', place' := doc, place;
    if keys[i] !in node.fields {
      if host.inherits(h, keys[..i], keys[i]) {
        walk := Leave(node, host, h, keys, i, v, doc, place);
        return;
      }
      doc', place' := MakeMissing(root, node, host, h, keys, i, v, doc, place);
    }
    OneKeyMore(keys, i);
    match node.fields[keys[i]] {
      case Ref(c) =>
        FieldShows(node, keys[i], doc', place');
        walk := Into(c);
      case Scalar(_) =>
        walk, doc', place' := EnterValue(root, node, host, h, keys, i, v, doc', place');
    }
  }

  /** The walk leaves the document: an inherited name on the way, or `__proto__` at the end. */
  method Leave(node: Obj, host: Host, h: Strays, keys: Path, i: nat, v: Value,
               ghost doc: Doc, ghost place: map<Obj, Path>)
    returns (walk: Walk)
    requires i < |keys| && Shows(doc, place) && node in place && place[node] == keys[..i]
    requires if i + 1 == |keys| then keys[i] == PROTO
             else keys[i] !in node.fields && host.inherits(h, keys[..i], keys[i])
    ensures !walk.Into? && (walk.Exception? <==> Insert(host, h, [], doc, keys, v).Threw?)
    ensures walk.Lost? ==> Insert(host, h, [], doc, keys, v) == Astray(doc)
  {
    assert ObjShows(node, doc, place);
    assert [] + keys[..i] == keys[..i];
    LeavingEndsInsert(host, h, [], doc, keys, i, v);
    walk := if host.refuses(h, keys[..i], keys[i..], v) then Exception else Lost;
  }

  /** The end of the walk: the value is set, or a `__proto__` goes elsewhere. */
  method SetLast(root: Obj, node: Obj, host: Host, h: Strays, keys: Path, v: Value,
                 ghost doc: Doc, ghost place: map<Obj, Path>)
    returns (ok: bool, astray: bool, ghost place': map<Obj, Path>)
    requires keys != [] && IsDocument(root, doc, place) && node in place && place[node] == keys[..|keys| - 1]
    modifies node
    ensures fresh(place'.Keys - place.Keys)
    ensures RoundShown(root, Insert(host, h, [], doc, keys, v), ok, astray, place')
  {
    var n := |keys| - 1;
    place' := place;
    if keys[n] == PROTO {
      var walk := Leave(node, host, h, keys, n, v, doc, place);
      return walk.Lost?, walk.Lost?, place;
    }
    ghost var fields := node.fields;
    assert ObjShows(node, doc, place);
    node.fields := node.fields[keys[n] := Scalar(v)];
    ScalarShows(node, fields, doc, place, keys[..n], keys[n], v);
    LastSetIsInsert(host, h, [], doc, keys, v);
    RootOutside(root, place, keys[..n], keys[n]);
    place' := Outside(place, keys[..n] + [keys[n]]);
    ok, astray := true, false;
  }

  /** The heap and the two flags say what the round says. */
  ghost predicate RoundShown(root: Obj, r: Round, ok: bool, astray: bool, place: map<Obj, Path>)
    reads place.Keys
  {
    match r
    case Threw => !ok
    case Done(doc) => ok && !astray && IsDocument(root, doc, place)
    case Astray(doc) => ok && astray && IsDocument(root, doc, place)
  }

  /** One round of the outer loop. */
  method SetPath(root: Obj, host: Host, h: Strays, keys: Path, v: Value, ghost doc: Doc, ghost place: map<Obj, Path>)
    returns (ok: bool, astray: bool, ghost place': map<Obj, Path>)
    requires keys != [] && IsDocument(root, doc, place)
    modifies place.Keys
    ensures fresh(place'.Keys - place.Keys)
    ensures RoundShown(root, Insert(host, h, [], doc, keys, v), ok, astray, place')
  {
    var node := root;
    ghost var doc' := doc;
    place' := place;
    for i := 0 to |keys| - 1
      invariant IsDocument(root, doc', place') && fresh(place'.Keys - place.Keys)
      invariant node in place' && place'[node] == keys[..i]
      invariant Insert(host, h, [], doc', keys, v) == Insert(host, h, [], doc, keys, v)
    {
      var walk;
      walk, doc', place' := StepInto(root, node, host, h, keys, i, v, doc', place');
      if !walk.Into? {
        return walk.Lost?, walk.Lost?, place';
      }
      node := walk.next;
    }
    ok, astray, place' := SetLast(root, node, host, h, keys, v, doc', place');
  }

  /** None stands for an exception. Otherwise the returned object is the root of a tree of objects, all of
      them the page's own, that shows exactly the document of the specification; `strays` are the writes
      that went to other objects or into values. */
  method Unflatten(host: Host, flat: seq<(string, Value)>)
    returns (out: Option<Obj>, strays: Strays, ghost place: map<Obj, Path>)
    ensures out.Some? <==> Build(host, SplitEntries(flat)).Some?
    ensures out.Some? ==> IsDocument(out.value, Build(host, SplitEntries(flat)).value.doc, place)
    ensures out.Some? ==> strays == Build(host, SplitEntries(flat)).value.strays
    ensures fresh(place.Keys)
  {
    var root := new Obj();
    place, strays := map[root := []], [];
    ghost var pairs, doc := SplitEntries(flat), Node(map[]);
    for i := 0 to |flat|
      invariant Build(host, pairs[..i]) == Some(Work(doc, strays))
      invariant IsDocument(root, doc, place) && fresh(place.Keys)
    {
      var keys := Split(flat[i].0, '.');
      BuildOneMore(host, pairs, i);
      var ok, astray;
      ok, astray, place := SetPath(root, host, strays, keys, flat[i].1, doc, place);
      if !ok {
        BuildStops(host, pairs, i + 1);
        return None, strays, place;
      }
      doc := Insert(host, strays, [], doc, keys, flat[i].1).doc;
      if astray {
        strays := strays + [(keys, flat[i].1)];
      }
    }
    BuildAll(host, pairs);
    out := Some(root);
  }

  lemma BuildAll(host: Host, pairs: seq<(Path, Value)>)
    requires forall j | 0 <= j < |pairs| :: pairs[j].0 != []
    ensures Build(host, pairs[..|pairs|]) == Build(host, pairs)
  {
    assert pairs[..|pairs|] == pairs;
  }

  lemma BuildOneMore(host: Host, pairs: seq<(Path, Value)>, i: nat)
    requires i < |pairs| && forall j | 0 <= j < |pairs| :: pairs[j].0 != []
    requires Build(host, pairs[..i]).Some?
    ensures var work := Build(host, pairs[..i]).value;
            Build(host, pairs[..i + 1])
            == AfterRound(work, pairs[i].0, pairs[i].1,
                          Insert(host, work.strays, [], work.doc, pairs[i].0, pairs[i].1))
  {
    assert pairs[..i + 1][..i] == pairs[..i];
  }

  /** An exception in one round ends the whole call. */
  lemma {:induction false} BuildStops(host: Host, pairs: seq<(Path, Value)>, k: nat)
    requires k <= |pairs| && forall i | 0 <= i < |pairs| :: pairs[i].0 != []
    requires Build(host, pairs[..k]).None?
    ensures Build(host, pairs).None?
  {
    if k == |pairs| {
      assert pairs[..k] == pairs;
    } else {
      var n := |pairs| - 1;
      assert pairs[..n][..k] == pairs[..k];
      BuildStops(host, pairs[..n], k);
    }
  }
}
