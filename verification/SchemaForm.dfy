/** The generated values form: its flat dot-paths and the document rebuilt from them. */
module SchemaForm {
  import opened Common
  import opened Text
  import opened Documents

  /** What a property of a JSON schema becomes: a form field, or an object with its own properties. */
  datatype Schema = Field | Group(properties: seq<Property>)

  datatype Property = Property(key: string, schema: Schema)

  /** `Object.entries(schema.properties)` */
  type Properties = seq<Property>

  /** The `data-schema-path` of every input `schemaFields` creates, in order. */
  function Fields(props: Properties, prefix: string): seq<string>
    decreases props
  {
    if props == [] then []
    else
      var key := props[0].key;
      var path := if prefix != "" then prefix + "." + key else key;
      (match props[0].schema
       case Field => [path]
       case Group(sub) => Fields(sub, path))
      + Fields(props[1..], prefix)
  }

  /** The same fields as lists of keys. */
  function KeyPaths(props: Properties, prefix: Path): seq<Path>
    decreases props
  {
    if props == [] then []
    else
      var path := prefix + [props[0].key];
      (match props[0].schema
       case Field => [path]
       case Group(sub) => KeyPaths(sub, path))
      + KeyPaths(props[1..], prefix)
  }

  predicate GoodKey(key: string) { key != "" && '.' !in key }

  /** Distinct keys at each level, none empty, none with a dot. */
  ghost predicate GoodKeys(props: Properties) {
    && (forall i | 0 <= i < |props| :: GoodKey(props[i].key))
    && (forall i, j | 0 <= i < j < |props| :: props[i].key != props[j].key)
    && (forall i | 0 <= i < |props| :: props[i].schema.Group? ==> GoodKeys(props[i].schema.properties))
  }

  lemma {:induction false} JoinNonEmpty(path: Path)
    requires path != [] && forall i | 0 <= i < |path| :: path[i] != ""
    ensures Join(path, '.') != ""
  {
  }

  /** The dot-path of one property is its key list joined. */
  lemma PathOf(prefix: Path, key: string)
    requires GoodPath(prefix)
    ensures Join(prefix + [key], '.')
            == var p := Join(prefix, '.'); if p != "" then p + "." + key else key
  {
    assert (prefix + [key])[..|prefix|] == prefix;
    if prefix != [] { JoinNonEmpty(prefix); }
  }

  lemma GoodTail(props: Properties)
    requires GoodKeys(props) && props != []
    ensures GoodKeys(props[1..])
  {
  }

  ghost predicate GoodPath(path: Path) { forall i | 0 <= i < |path| :: GoodKey(path[i]) }

  function Joined(paths: seq<Path>): (r: seq<string>)
    ensures |r| == |paths| && forall i | 0 <= i < |r| :: r[i] == Join(paths[i], '.')
  {
    seq(|paths|, i requires 0 <= i < |paths| => Join(paths[i], '.'))
  }

  lemma JoinedAppend(a: seq<Path>, b: seq<Path>)
    ensures Joined(a + b) == Joined(a) + Joined(b)
  {
  }

  /** What the first property contributes. */
  function HeadFields(p: Property, path: string): seq<string> {
    match p.schema
    case Field => [path]
    case Group(sub) => Fields(sub, path)
  }

  function HeadPaths(p: Property, path: Path): seq<Path> {
    match p.schema
    case Field => [path]
    case Group(sub) => KeyPaths(sub, path)
  }

  /** The string recursion emits the joined key lists. */
  lemma {:induction false} FieldsAreKeyPaths(props: Properties, prefix: Path, p: string)
    requires GoodKeys(props) && GoodPath(prefix) && p == Join(prefix, '.')
    ensures Fields(props, p) == Joined(KeyPaths(props, prefix))
    decreases props
  {
    if props != [] {
      var path := prefix + [props[0].key];
      var s := if p != "" then p + "." + props[0].key else props[0].key;
      PathOf(prefix, props[0].key);
      GoodTail(props);
      FieldsAreKeyPaths(props[1..], prefix, p);
      if props[0].schema.Group? {
        FieldsAreKeyPaths(props[0].schema.properties, path, s);
      }
      assert HeadFields(props[0], s) == Joined(HeadPaths(props[0], path));
      JoinedAppend(HeadPaths(props[0], path), KeyPaths(props[1..], prefix));
    }
  }

  /** Every emitted key list extends the prefix by a key of this level. */
  ghost predicate Below(path: Path, prefix: Path, props: Properties) {
    && prefix <= path && |prefix| < |path| && GoodPath(path)
    && exists i :: 0 <= i < |props| && props[i].key == path[|prefix|]
  }

  lemma {:induction false} KeyPathsBelow(props: Properties, prefix: Path)
    requires GoodKeys(props) && GoodPath(prefix)
    ensures forall k | 0 <= k < |KeyPaths(props, prefix)| :: Below(KeyPaths(props, prefix)[k], prefix, props)
    decreases props
  {
    if props != [] {
      var path := prefix + [props[0].key];
      var head := HeadPaths(props[0], path);
      GoodTail(props);
      KeyPathsBelow(props[1..], prefix);
      forall k | 0 <= k < |head| ensures Below(head[k], prefix, props) {
        assert props[0].key == path[|prefix|];
        if props[0].schema.Group? {
          KeyPathsBelow(props[0].schema.properties, path);
          assert path <= head[k];
          assert head[k][|prefix|] == path[|prefix|] && head[k][..|prefix|] == prefix;
        }
      }
      var rest := KeyPaths(props[1..], prefix);
      forall k | 0 <= k < |rest| ensures Below(rest[k], prefix, props) {
        var i :| 0 <= i < |props[1..]| && props[1..][i].key == rest[k][|prefix|];
        assert props[i + 1].key == rest[k][|prefix|];
      }
    }
  }

  /** The keys lead, property by property, to a field. */
  predicate LeadsToField(props: Properties, keys: Path)
    decreases props
  {
    keys != [] && exists i :: 0 <= i < |props| && HeadLeads(props[i], keys)
  }

  predicate HeadLeads(p: Property, keys: Path)
    requires keys != []
    decreases p
  {
    p.key == keys[0]
    && match p.schema
       case Field => |keys| == 1
       case Group(sub) => LeadsToField(sub, keys[1..])
  }

  lemma LeadsCons(props: Properties, keys: Path)
    requires props != [] && keys != []
    ensures LeadsToField(props, keys) <==> HeadLeads(props[0], keys) || LeadsToField(props[1..], keys)
  {
    if i :| 0 <= i < |props| && HeadLeads(props[i], keys) {
      assert i > 0 ==> props[1..][i - 1] == props[i];
    }
    if i :| 0 <= i < |props[1..]| && HeadLeads(props[1..][i], keys) {
      assert props[i + 1] == props[1..][i];
    }
  }

  /** The key lists are exactly those that lead to a field, whatever the keys are. */
  lemma {:induction false} KeyPathsLead(props: Properties, prefix: Path, path: Path)
    ensures path in KeyPaths(props, prefix) <==> prefix <= path && LeadsToField(props, path[|prefix|..])
    decreases props
  {
    if props != [] {
      KeyPathsLead(props[1..], prefix, path);
      HeadPathsLead(props[0], prefix, path);
      assert KeyPaths(props, prefix) == HeadPaths(props[0], prefix + [props[0].key]) + KeyPaths(props[1..], prefix);
      if prefix < path {
        LeadsCons(props, path[|prefix|..]);
      }
    }
  }

  lemma {:induction false} HeadPathsLead(p: Property, prefix: Path, path: Path)
    ensures path in HeadPaths(p, prefix + [p.key]) <==> prefix < path && HeadLeads(p, path[|prefix|..])
    decreases p
  {
    var longer := prefix + [p.key];
    if prefix < path {
      assert path[|prefix|..][1..] == path[|prefix| + 1..];
      assert longer <= path <==> path[|prefix|] == p.key;
    }
    match p.schema
    case Field =>
      if prefix < path && HeadLeads(p, path[|prefix|..]) {
        assert path == longer;
      }
    case Group(sub) => KeyPathsLead(sub, longer, path);
  }

  /** The fields of a form are exactly the dot-joined key lists that lead to a field of the schema. */
  lemma FieldsLead(props: Properties, s: string)
    requires GoodKeys(props)
    ensures s in Fields(props, "") <==> exists keys :: LeadsToField(props, keys) && Join(keys, '.') == s
  {
    var fields, paths := Fields(props, ""), KeyPaths(props, []);
    FieldsAreKeyPaths(props, [], "");
    if s in fields {
      var k :| 0 <= k < |fields| && fields[k] == s;
      assert paths[k] in paths;
      KeyPathsLead(props, [], paths[k]);
      assert paths[k][0..] == paths[k];
    }
    if keys :| LeadsToField(props, keys) && Join(keys, '.') == s {
      KeyPathsLead(props, [], keys);
      assert keys[0..] == keys;
      var k :| 0 <= k < |paths| && paths[k] == keys;
      assert fields[k] == s;
    }
  }

  ghost predicate PairwiseApart(paths: seq<Path>) {
    forall i, j | 0 <= i < j < |paths| :: Apart(paths[i], paths[j])
  }

  /** Paths that leave a common prefix by different keys are apart. */
  lemma DifferentKeyApart(p: Path, q: Path, n: nat)
    requires n < |p| && n < |q| && p[n] != q[n]
    ensures Apart(p, q)
  {
  }

  /** The emitted key lists are distinct and none extends another. */
  lemma {:induction false} KeyPathsApart(props: Properties, prefix: Path)
    requires GoodKeys(props) && GoodPath(prefix)
    ensures PairwiseApart(KeyPaths(props, prefix))
    decreases props
  {
    if props != [] {
      var path := prefix + [props[0].key];
      var head := HeadPaths(props[0], path);
      var rest := KeyPaths(props[1..], prefix);
      GoodTail(props);
      KeyPathsApart(props[1..], prefix);
      KeyPathsBelow(props[1..], prefix);
      if props[0].schema.Group? {
        KeyPathsApart(props[0].schema.properties, path);
        KeyPathsBelow(props[0].schema.properties, path);
      }
      forall a, b | 0 <= a < |head| && 0 <= b < |rest| ensures Apart(head[a], rest[b]) {
        assert path <= head[a];
        assert head[a][|prefix|] == path[|prefix|] == props[0].key;
        var i :| 0 <= i < |props[1..]| && props[1..][i].key == rest[b][|prefix|];
        assert props[i + 1].key == rest[b][|prefix|];
        DifferentKeyApart(head[a], rest[b], |prefix|);
      }
      var all := KeyPaths(props, prefix);
      forall i, j | 0 <= i < j < |all| ensures Apart(all[i], all[j]) {
        if j < |head| {
          assert Apart(head[i], head[j]);
        } else if i < |head| {
          assert Apart(head[i], rest[j - |head|]);
        } else {
          assert Apart(rest[i - |head|], rest[j - |head|]);
        }
      }
    }
  }

  ghost predicate PathsApart(fields: seq<string>) {
    forall i, j | 0 <= i < j < |fields| ::
      fields[i] != fields[j] && Apart(Split(fields[i], '.'), Split(fields[j], '.'))
  }

  /** The paths a form emits are pairwise different, and split back into key lists of which none
      extends another. */
  lemma FieldsDistinctAndPrefixFree(props: Properties)
    requires GoodKeys(props)
    ensures PathsApart(Fields(props, ""))
  {
    FieldsSplitBack(props);
    KeyPathsApart(props, []);
    var fields, paths := Fields(props, ""), KeyPaths(props, []);
    forall i, j | 0 <= i < j < |fields|
      ensures fields[i] != fields[j] && Apart(Split(fields[i], '.'), Split(fields[j], '.'))
    {
      assert Apart(paths[i], paths[j]);
    }
  }

  lemma FieldsSplitBack(props: Properties)
    requires GoodKeys(props)
    ensures |Fields(props, "")| == |KeyPaths(props, [])|
    ensures forall i | 0 <= i < |Fields(props, "")| :: Split(Fields(props, "")[i], '.') == KeyPaths(props, [])[i]
  {
    assert Join([], '.') == "";
    FieldsAreKeyPaths(props, [], "");
    KeyPathsBelow(props, []);
    var fields, paths := Fields(props, ""), KeyPaths(props, []);
    forall i | 0 <= i < |fields| ensures Split(fields[i], '.') == paths[i] {
      assert Below(paths[i], [], props);
      SplitJoin(paths[i], '.');
    }
  }

  /** The entries of a flat values object, with their keys split. */
  function SplitEntries(flat: seq<(string, Value)>): (r: seq<(Path, Value)>)
    ensures |r| == |flat|
    ensures forall i | 0 <= i < |r| :: r[i] == (Split(flat[i].0, '.'), flat[i].1) && r[i].0 != []
  {
    seq(|flat|, i requires 0 <= i < |flat| => (Split(flat[i].0, '.'), flat[i].1))
  }
}
