/** The schema flattener and value synthesiser of the mock server: a resolved OpenAPI
    schema is walked with an explicit work stack and turned into a flat table from dotted
    path keys to synthesised leaf values. */
module ObjectReferenceHandler {
  import opened Wrappers
  import opened JsonValues
  import opened PropertyValues

  // ---------------------------------------------------------------------------
  // Schemas
  // ---------------------------------------------------------------------------

  datatype SchemaType = Boolean | Integer | Number | String | Array | Object | Null

  /** A schema's `type`: one tag, or a list of tags (`[string, "null"]`). */
  datatype SchemaTypeSet = Single(tag: SchemaType) | Multiple(tags: seq<SchemaType>)

  predicate Contains(types: SchemaTypeSet, t: SchemaType) {
    match types
    case Single(s) => s == t
    case Multiple(ts) => t in ts
  }

  /** `array`, the one-entry list `[array]`, or a nullable array (`[array, "null"]` in
      either order). */
  predicate IsArrayOrNullableArray(types: SchemaTypeSet) {
    types == Single(Array) || types == Multiple([Array]) || types == Multiple([Array, Null]) || types == Multiple([Null, Array])
  }

  /** The name of a schema in the spec's table of schemas. */
  type Ref = string

  /** No name occurs twice in a list of (name, reference) pairs. */
  predicate DistinctNames(props: seq<(string, Ref)>) {
    forall i, j :: 0 <= i < |props| && 0 <= j < |props| && props[i].0 == props[j].0 ==> i == j
  }

  /** A schema's properties: a map from names to references, listed in iteration order. */
  type Properties = props: seq<(string, Ref)> | DistinctNames(props)

  /** A resolved schema fragment. Its properties are an ordered list of names with the
      reference of each property's own schema. */
  datatype SchemaNode = SchemaNode(
    schemaType: Option<SchemaTypeSet>,
    properties: Properties,
    required: set<string>,
    example: Option<Json>,
    enumValues: seq<string>,
    items: Option<Ref>)

  /** The spec, as far as the flattener uses it: the schema behind each reference. */
  type Spec = map<Ref, SchemaNode>

  /** Why the flattener stops where the source panics (and, for `OutOfFuel`, where the
      source would run on without bound). */
  datatype FlattenError =
    | UnresolvableReference(ref: Ref)
    | MissingTypeTag
    | UnsupportedType
    | EmptyEnumRange
    | OutOfFuel

  // ---------------------------------------------------------------------------
  // Value synthesis
  // ---------------------------------------------------------------------------

  /** `is_single_property`, on the schema's type set (the source unwraps the type first):
      a type that a leaf value is synthesised for never also sends the walk into array
      items, and every type with a canned value is one. */
  function IsSingleProperty(types: SchemaTypeSet): (r: bool)
    ensures r ==> !IsArrayOrNullableArray(types)
    ensures CannedDefault(types).Some? ==> r
  {
    Contains(types, String) || Contains(types, Integer) || Contains(types, Number) || Contains(types, Boolean)
  }

  /** What a `Box<dyn Any>` holds on its way from the synthesiser to `PropertyValue`. */
  datatype Boxed =
    | BoxedJson(j: Json)
    | BoxedString(s: string)
    | BoxedI32(i: I32)
    | BoxedF32(f32: Float)
    | BoxedF64(f64: Float)
    | BoxedBool(b: bool)

  /** The JSON a boxed value stands for. */
  function Rendered(b: Boxed): Json {
    match b
    case BoxedJson(j) => j
    case BoxedString(s) => JString(s)
    case BoxedI32(i) => JInt(i as int)
    case BoxedF32(f) => JFloat(f)
    case BoxedF64(f) => JFloat(f)
    case BoxedBool(v) => JBool(v)
  }

  /** The literal `1.2`, an `f64` in the source. */
  const DefaultNumber: Float := Float("1.2")

  /** The canned value per type, used when there is neither an example nor an enumeration. */
  function CannedDefault(types: SchemaTypeSet): Option<Boxed> {
    match types
    case Single(Boolean) => Some(BoxedBool(true))
    case Single(String) => Some(BoxedString("asd"))
    case Single(Number) => Some(BoxedF64(DefaultNumber))
    case Single(Integer) => Some(BoxedI32(1))
    case _ => None
  }

  /** `rng.gen_range(0..bound)`: `raw` is the random source's output, and every index in
      the range is the result for some `raw`. */
  function GenRange(bound: nat, raw: nat): (r: nat)
    requires bound > 0
    ensures r < bound
    ensures raw < bound ==> r == raw
  {
    raw % bound
  }

  datatype Synthesis = Synthesised(boxed: Boxed) | NoValue | EmptyRange

  /** True when some value is synthesised for a leaf (the enumeration may still fail). */
  predicate Yields(types: SchemaTypeSet, example: Option<Json>, enumValues: seq<string>) {
    example.Some? || enumValues != [] || CannedDefault(types).Some?
  }

  /** `get_values_from_property`: the example verbatim, else an enumeration entry drawn
      from `[0, len - 1)`, else the canned value for the type. `EmptyRange` is the panic
      of a one-entry enumeration, whose range is empty. */
  function GetValuesFromProperty(types: SchemaTypeSet, example: Option<Json>, enumValues: seq<string>, raw: nat): (r: Synthesis)
    ensures r.EmptyRange? <==> example.None? && |enumValues| == 1
    ensures r.NoValue? <==> !Yields(types, example, enumValues)
    ensures r.Synthesised? && example.Some? ==> r.boxed == BoxedJson(example.value)
    ensures r.Synthesised? && example.None? && enumValues != [] ==>
      r.boxed.BoxedString? && r.boxed.s in enumValues[..|enumValues| - 1]
    ensures r.Synthesised? && example.None? && enumValues == [] ==> Some(r.boxed) == CannedDefault(types)
  {
    if example.Some? then
      Synthesised(BoxedJson(example.value))
    else if enumValues != [] then
      if |enumValues| - 1 == 0 then EmptyRange
      else Synthesised(BoxedString(enumValues[GenRange(|enumValues| - 1, raw)]))
    else
      match CannedDefault(types)
      case Some(b) => Synthesised(b)
      case None => NoValue
  }

  /** Every entry but the last can be drawn: the draw `i` picks entry `i`. */
  lemma EveryEarlierEntryCanBeDrawn(types: SchemaTypeSet, enumValues: seq<string>, i: nat)
    requires i < |enumValues| - 1
    ensures GetValuesFromProperty(types, None, enumValues, i) == Synthesised(BoxedString(enumValues[i]))
  {
  }

  /** `get_property_value_object`: exactly one field is set, and it serialises to what the
      boxed value stands for; an `f64` is matched by no arm and becomes `"Unknown"`. */
  function GetPropertyValueObject(b: Boxed): (pv: PropertyValue)
    ensures |SetFields(pv)| == 1
    ensures !b.BoxedF64? ==> Serialize(pv) == Rendered(b)
    ensures b.BoxedF64? ==> pv == StringValue("Unknown")
  {
    match b
    case BoxedString(s) => StringValue(s)
    case BoxedI32(i) => IntValue(i)
    case BoxedF32(f) => NumberValue(f)
    case BoxedBool(v) => BoolValue(v)
    case BoxedJson(j) => JsonValue(j)
    case BoxedF64(_) => StringValue("Unknown")
  }

  /** The inputs a leaf's value is synthesised from. */
  datatype Leaf = Leaf(types: SchemaTypeSet, example: Option<Json>, enumValues: seq<string>)

  /** The values a leaf may receive, stated without the synthesiser: its example as
      arbitrary JSON; else any enumeration entry but the last, as a string; else the
      type's canned value, where a number's `1.2` arrives as the string `"Unknown"`. */
  predicate AdmissibleValue(leaf: Leaf, pv: PropertyValue) {
    match leaf.example
    case Some(e) => pv == JsonValue(e)
    case None =>
      if leaf.enumValues != [] then
        exists i :: 0 <= i < |leaf.enumValues| - 1 && pv == StringValue(leaf.enumValues[i])
      else
        match leaf.types
        case Single(Boolean) => pv == BoolValue(true)
        case Single(String) => pv == StringValue("asd")
        case Single(Number) => pv == StringValue("Unknown")
        case Single(Integer) => pv == IntValue(1)
        case _ => false
  }

  /** A synthesised and converted value is admissible for its leaf ... */
  lemma SynthesisedIsAdmissible(leaf: Leaf, raw: nat)
    requires GetValuesFromProperty(leaf.types, leaf.example, leaf.enumValues, raw).Synthesised?
    ensures AdmissibleValue(leaf, GetPropertyValueObject(GetValuesFromProperty(leaf.types, leaf.example, leaf.enumValues, raw).boxed))
  {
    var es := leaf.enumValues;
    if leaf.example.None? && es != [] {
      var k := GenRange(|es| - 1, raw);
      assert GetPropertyValueObject(GetValuesFromProperty(leaf.types, None, es, raw).boxed) == StringValue(es[k]);
    }
  }

  /** ... and every admissible value is synthesised for some draw. */
  lemma AdmissibleIsSynthesised(leaf: Leaf, pv: PropertyValue)
    requires AdmissibleValue(leaf, pv)
    ensures exists raw: nat ::
      (GetValuesFromProperty(leaf.types, leaf.example, leaf.enumValues, raw).Synthesised?
       && GetPropertyValueObject(GetValuesFromProperty(leaf.types, leaf.example, leaf.enumValues, raw).boxed) == pv)
  {
    var es := leaf.enumValues;
    if leaf.example.None? && es != [] {
      var i :| 0 <= i < |es| - 1 && pv == StringValue(es[i]);
      EveryEarlierEntryCanBeDrawn(leaf.types, es, i);
      assert GetValuesFromProperty(leaf.types, leaf.example, es, i).Synthesised?;
    } else {
      assert GetValuesFromProperty(leaf.types, leaf.example, es, 0).Synthesised?;
    }
  }

  // ---------------------------------------------------------------------------
  // Paths through a schema
  // ---------------------------------------------------------------------------

  /** One step of the walk: into a named property (with the reference it resolves), or
      into the items of an array. */
  datatype Step = Prop(name: string, ref: Ref) | Items

  type Path = seq<Step>

  /** The schema the walk pushes on its stack when it takes `step` from `node`: a required
      property whose schema is not a leaf, or the items of a property-less array. */
  function Child(spec: Spec, node: SchemaNode, step: Step): Option<SchemaNode> {
    match step
    case Prop(k, r) =>
      if node.properties != [] && (k, r) in node.properties && k in node.required && r in spec
         && spec[r].schemaType.Some? && !IsSingleProperty(spec[r].schemaType.value)
      then Some(spec[r]) else None
    case Items =>
      if node.properties == [] && node.schemaType.Some? && IsArrayOrNullableArray(node.schemaType.value)
         && node.items.Some? && node.items.value in spec
      then Some(spec[node.items.value]) else None
  }

  /** The schema the walk reaches along `p` from `root`, if it follows `p` at all. */
  function Reach(spec: Spec, root: SchemaNode, p: Path): Option<SchemaNode>
    decreases |p|
  {
    if p == [] then Some(root)
    else
      match Reach(spec, root, p[..|p| - 1])
      case None => None
      case Some(n) => Child(spec, n, p[|p| - 1])
  }

  /** A required property of `node` whose schema is a leaf that yields a value; its value
      is synthesised from its own type and example and from `node`'s enumeration. */
  function PropertyLeaf(spec: Spec, node: SchemaNode, step: Step): Option<Leaf> {
    match step
    case Prop(k, r) =>
      if node.properties != [] && (k, r) in node.properties && k in node.required && r in spec
         && spec[r].schemaType.Some? && IsSingleProperty(spec[r].schemaType.value)
         && Yields(spec[r].schemaType.value, spec[r].example, node.enumValues)
      then Some(Leaf(spec[r].schemaType.value, spec[r].example, node.enumValues)) else None
    case Items => None
  }

  /** The leaf the walk emits a value for at the end of `p`: either a reached schema with
      no properties and a leaf type (the root, or array items), or a leaf property of a
      reached schema. */
  function LeafAt(spec: Spec, root: SchemaNode, p: Path): Option<Leaf> {
    match Reach(spec, root, p)
    case Some(n) =>
      if n.properties == [] && n.schemaType.Some? && IsSingleProperty(n.schemaType.value)
      then Some(Leaf(n.schemaType.value, n.example, n.enumValues)) else None
    case None =>
      if p == [] then None
      else
        match Reach(spec, root, p[..|p| - 1])
        case None => None
        case Some(n) => PropertyLeaf(spec, n, p[|p| - 1])
  }

  /** The flat-table key of a path: property names joined with `.` (no dot after an
      empty prefix), and `$array` appended, without a dot, for each step into items. */
  function Key(p: Path): string
    decreases |p|
  {
    if p == [] then ""
    else
      var prefix := Key(p[..|p| - 1]);
      match p[|p| - 1]
      case Prop(k, _) => if prefix == "" then k else prefix + "." + k
      case Items => prefix + "$array"
  }

  /** Some path on the stack is a prefix of `p`. */
  predicate Covers(paths: seq<Path>, p: Path) {
    |paths| > 0 && (paths[|paths| - 1] <= p || Covers(paths[..|paths| - 1], p))
  }

  lemma ReachPrefix(spec: Spec, root: SchemaNode, p: Path, j: nat)
    requires Reach(spec, root, p).Some?
    requires j <= |p|
    ensures Reach(spec, root, p[..j]).Some?
    decreases |p|
  {
    if j < |p| {
      assert p[..|p| - 1][..j] == p[..j];
      ReachPrefix(spec, root, p[..|p| - 1], j);
    } else {
      assert p[..j] == p;
    }
  }

  /** A leaf path through a reached schema `n` at `q` ends at `n` itself, continues to a
      schema the walk pushes from `n`, or ends at a leaf property of `n`. */
  lemma {:induction false} LeafThrough(spec: Spec, root: SchemaNode, p: Path, q: Path, n: SchemaNode)
    requires LeafAt(spec, root, p).Some?
    requires Reach(spec, root, q) == Some(n)
    requires q <= p
    ensures p == q ==>
      (n.properties == [] && n.schemaType.Some? && IsSingleProperty(n.schemaType.value)
       && LeafAt(spec, root, p) == Some(Leaf(n.schemaType.value, n.example, n.enumValues)))
    ensures |q| < |p| ==> Child(spec, n, p[|q|]).Some? || (|p| == |q| + 1 && PropertyLeaf(spec, n, p[|q|]).Some?)
  {
    if |q| < |p| {
      var s := p[|q|];
      assert p[..|q| + 1][..|q|] == q;
      if Reach(spec, root, p).Some? {
        ReachPrefix(spec, root, p, |q| + 1);
      } else if |q| + 1 < |p| {
        ReachPrefix(spec, root, p[..|p| - 1], |q| + 1);
        assert p[..|p| - 1][..|q| + 1] == p[..|q| + 1];
      } else {
        assert p[..|p| - 1] == q;
      }
    }
  }

  /** The key of one more step, from the key of the path before it. */
  lemma KeyStep(p: Path, s: Step)
    ensures Key(p + [s]) == match s
      case Prop(k, _) => if Key(p) == "" then k else Key(p) + "." + k
      case Items => Key(p) + "$array"
  {
    assert (p + [s])[..|p|] == p;
  }

  lemma ReachStep(spec: Spec, root: SchemaNode, p: Path, s: Step)
    requires Reach(spec, root, p).Some?
    ensures Reach(spec, root, p + [s]) == Child(spec, Reach(spec, root, p).value, s)
  {
    assert (p + [s])[..|p|] == p;
  }

  // ---------------------------------------------------------------------------
  // The flattener's loop invariants
  // ---------------------------------------------------------------------------

  /** Each stack entry is a reached schema under the key of its path. */
  ghost predicate StackMatches(spec: Spec, root: SchemaNode, stack: seq<(string, SchemaNode)>, paths: seq<Path>) {
    |paths| == |stack|
    && forall i :: 0 <= i < |stack| ==> Reach(spec, root, paths[i]) == Some(stack[i].1) && Key(paths[i]) == stack[i].0
  }

  /** Each table entry is the key of a leaf path (recorded in `origin`) and holds an
      admissible value for that leaf. */
  ghost predicate TableSound(spec: Spec, root: SchemaNode, table: map<string, PropertyValue>, origin: map<string, Path>) {
    forall k :: k in table ==>
      k in origin && LeafAt(spec, root, origin[k]).Some? && Key(origin[k]) == k
      && AdmissibleValue(LeafAt(spec, root, origin[k]).value, table[k])
  }

  /** `p` goes through `q` and then into one of the (name, reference) pairs of `props`. */
  predicate PendingProperty(q: Path, props: seq<(string, Ref)>, p: Path) {
    q < p && p[|q|].Prop? && (p[|q|].name, p[|q|].ref) in props
  }

  /** Every leaf path has its key in the table, or is still to be walked: through a path
      on the stack, or through `q` and one of the properties in `pending`. */
  ghost predicate TableComplete(spec: Spec, root: SchemaNode, table: map<string, PropertyValue>, paths: seq<Path>,
                                q: Path, pending: seq<(string, Ref)>) {
    forall p :: LeafAt(spec, root, p).Some? ==> Key(p) in table || Covers(paths, p) || PendingProperty(q, pending, p)
  }

  lemma SoundInsert(spec: Spec, root: SchemaNode, table: map<string, PropertyValue>, origin: map<string, Path>,
                    p: Path, pv: PropertyValue)
    requires TableSound(spec, root, table, origin)
    requires LeafAt(spec, root, p).Some? && AdmissibleValue(LeafAt(spec, root, p).value, pv)
    ensures TableSound(spec, root, table[Key(p) := pv], origin[Key(p) := p])
  {
  }

  lemma StackPop(spec: Spec, root: SchemaNode, stack: seq<(string, SchemaNode)>, paths: seq<Path>)
    requires StackMatches(spec, root, stack, paths) && stack != []
    ensures StackMatches(spec, root, stack[..|stack| - 1], paths[..|paths| - 1])
    ensures Reach(spec, root, paths[|paths| - 1]) == Some(stack[|stack| - 1].1)
    ensures Key(paths[|paths| - 1]) == stack[|stack| - 1].0
    ensures paths == paths[..|paths| - 1] + [paths[|paths| - 1]]
  {
  }

  lemma StackPush(spec: Spec, root: SchemaNode, stack: seq<(string, SchemaNode)>, paths: seq<Path>, p: Path)
    requires StackMatches(spec, root, stack, paths)
    requires Reach(spec, root, p).Some?
    ensures StackMatches(spec, root, stack + [(Key(p), Reach(spec, root, p).value)], paths + [p])
  {
  }

  /** The walk starts complete: every path goes through the root's empty path. */
  lemma CompleteAtStart(spec: Spec, root: SchemaNode)
    ensures TableComplete(spec, root, map[], [[]], [], [])
  {
    forall p | LeafAt(spec, root, p).Some? ensures Covers([[]], p) {
      assert [[]][0] <= p;
    }
  }

  /** Popping a schema without properties: a leaf path through it ends at it (its key is
      now in the table) or continues into its array items (now on the stack). */
  lemma CompleteAfterLeafNode(spec: Spec, root: SchemaNode, before: map<string, PropertyValue>,
                              table: map<string, PropertyValue>, rest: seq<Path>, paths: seq<Path>, q: Path, n: SchemaNode)
    requires TableComplete(spec, root, before, rest + [q], [], [])
    requires Reach(spec, root, q) == Some(n) && n.properties == [] && n.schemaType.Some?
    requires before.Keys <= table.Keys
    requires IsSingleProperty(n.schemaType.value) ==> Key(q) in table
    requires Child(spec, n, Items).Some? ==> paths == rest + [q + [Items]]
    requires Child(spec, n, Items).None? ==> paths == rest
    ensures TableComplete(spec, root, table, paths, [], [])
  {
    forall p | LeafAt(spec, root, p).Some? ensures Key(p) in table || Covers(paths, p) {
      LeafNodePath(spec, root, before, table, rest, paths, q, n, p);
    }
  }

  lemma LeafNodePath(spec: Spec, root: SchemaNode, before: map<string, PropertyValue>,
                     table: map<string, PropertyValue>, rest: seq<Path>, paths: seq<Path>, q: Path, n: SchemaNode, p: Path)
    requires LeafAt(spec, root, p).Some?
    requires Key(p) in before || Covers(rest + [q], p)
    requires Reach(spec, root, q) == Some(n) && n.properties == [] && n.schemaType.Some?
    requires before.Keys <= table.Keys
    requires IsSingleProperty(n.schemaType.value) ==> Key(q) in table
    requires Child(spec, n, Items).Some? ==> paths == rest + [q + [Items]]
    requires Child(spec, n, Items).None? ==> paths == rest
    ensures Key(p) in table || Covers(paths, p)
  {
    if Key(p) in before {
    } else if Covers(rest, p) {
      if Child(spec, n, Items).Some? {
        CoversExtend(rest, q + [Items], p);
      }
    } else {
      CoversPop(rest + [q], p);
      assert (rest + [q])[..|rest|] == rest;
      assert q <= p;
      LeafThrough(spec, root, p, q, n);
      if |q| == |p| {
        assert p == q;
        assert Key(p) in table;
      } else {
        assert p[|q|] == Items;
        assert Child(spec, n, Items).Some?;
        assert p[..|q| + 1] == q + [Items];
        CoversExtend'(rest, q + [Items], p);
      }
    }
  }

  /** Popping a schema with properties: a leaf path through it goes on into one of its
      properties, all of which are still to be visited. */
  lemma CompleteBeforeProperties(spec: Spec, root: SchemaNode, table: map<string, PropertyValue>,
                                 rest: seq<Path>, q: Path, n: SchemaNode)
    requires TableComplete(spec, root, table, rest + [q], [], [])
    requires Reach(spec, root, q) == Some(n) && n.properties != []
    ensures TableComplete(spec, root, table, rest, q, n.properties)
  {
    forall p | LeafAt(spec, root, p).Some?
      ensures Key(p) in table || Covers(rest, p) || PendingProperty(q, n.properties, p)
    {
      CoversPop(rest + [q], p);
      assert (rest + [q])[..|rest|] == rest;
      if !(Key(p) in table) && !Covers(rest, p) {
        LeafThrough(spec, root, p, q, n);
      }
    }
  }

  /** Visiting property `(k, r)` of the schema at `q`: a leaf path through it now has its
      key in the table (a leaf property) or is covered by the stack (a pushed property);
      if `k` is not required, or the leaf yields no value, no leaf path goes through it. */
  lemma CompleteAfterProperty(spec: Spec, root: SchemaNode, before: map<string, PropertyValue>,
                              table: map<string, PropertyValue>, pathsBefore: seq<Path>, paths: seq<Path>,
                              q: Path, n: SchemaNode, i: nat)
    requires i < |n.properties|
    requires TableComplete(spec, root, before, pathsBefore, q, n.properties[i..])
    requires Reach(spec, root, q) == Some(n)
    requires before.Keys <= table.Keys
    requires var s := Prop(n.properties[i].0, n.properties[i].1);
      && (PropertyLeaf(spec, n, s).Some? ==> Key(q + [s]) in table && paths == pathsBefore)
      && (Child(spec, n, s).Some? ==> paths == pathsBefore + [q + [s]])
      && (Child(spec, n, s).None? && PropertyLeaf(spec, n, s).None? ==> paths == pathsBefore)
    ensures TableComplete(spec, root, table, paths, q, n.properties[i + 1..])
  {
    forall p | LeafAt(spec, root, p).Some?
      ensures Key(p) in table || Covers(paths, p) || PendingProperty(q, n.properties[i + 1..], p)
    {
      PropertyPath(spec, root, before, table, pathsBefore, paths, q, n, i, p);
    }
  }

  lemma PropertyPath(spec: Spec, root: SchemaNode, before: map<string, PropertyValue>,
                     table: map<string, PropertyValue>, pathsBefore: seq<Path>, paths: seq<Path>,
                     q: Path, n: SchemaNode, i: nat, p: Path)
    requires i < |n.properties|
    requires LeafAt(spec, root, p).Some?
    requires Key(p) in before || Covers(pathsBefore, p) || PendingProperty(q, n.properties[i..], p)
    requires Reach(spec, root, q) == Some(n)
    requires before.Keys <= table.Keys
    requires var s := Prop(n.properties[i].0, n.properties[i].1);
      && (PropertyLeaf(spec, n, s).Some? ==> Key(q + [s]) in table && paths == pathsBefore)
      && (Child(spec, n, s).Some? ==> paths == pathsBefore + [q + [s]])
      && (Child(spec, n, s).None? && PropertyLeaf(spec, n, s).None? ==> paths == pathsBefore)
    ensures Key(p) in table || Covers(paths, p) || PendingProperty(q, n.properties[i + 1..], p)
  {
    var s := Prop(n.properties[i].0, n.properties[i].1);
    if Key(p) in before {
    } else if Covers(pathsBefore, p) {
      if Child(spec, n, s).Some? {
        CoversExtend(pathsBefore, q + [s], p);
      }
    } else if !PendingProperty(q, n.properties[i + 1..], p) {
      PendingNext(q, n.properties, i, p);
      assert p[|q|] == s;
      LeafThrough(spec, root, p, q, n);
      if Child(spec, n, s).Some? {
        assert (q + [s]) <= p;
        CoversExtend'(pathsBefore, q + [s], p);
      } else {
        assert p == q + [s];
      }
    }
  }

  /** A pending property is the one being visited or one still to come. */
  lemma PendingNext(q: Path, props: seq<(string, Ref)>, i: nat, p: Path)
    requires i < |props|
    requires PendingProperty(q, props[i..], p) && !PendingProperty(q, props[i + 1..], p)
    ensures p[|q|] == Prop(props[i].0, props[i].1)
  {
    assert props[i..] == [props[i]] + props[i + 1..];
  }

  lemma CoversExtend(paths: seq<Path>, x: Path, p: Path)
    requires Covers(paths, p)
    ensures Covers(paths + [x], p)
  {
    assert (paths + [x])[..|paths|] == paths;
  }

  lemma CoversExtend'(paths: seq<Path>, x: Path, p: Path)
    requires x <= p
    ensures Covers(paths + [x], p)
  {
  }

  lemma CoversPop(paths: seq<Path>, p: Path)
    requires |paths| > 0
    ensures Covers(paths, p) == (paths[|paths| - 1] <= p || Covers(paths[..|paths| - 1], p))
  {
  }

  // ---------------------------------------------------------------------------
  // Where the walk fails
  // ---------------------------------------------------------------------------

  /** The fault a schema without properties shows when the walk pops it: no type tag
      (unwrapped by `is_single_property`); a leaf type with no value to draw (the
      `prop_value.unwrap()`) or with a one-entry enumeration and no example; an array
      whose items reference resolves to nothing. */
  predicate NodeFault(spec: Spec, n: SchemaNode, e: FlattenError) {
    n.properties == [] &&
    match e
    case MissingTypeTag => n.schemaType.None?
    case UnsupportedType =>
      n.schemaType.Some? && IsSingleProperty(n.schemaType.value) && !Yields(n.schemaType.value, n.example, n.enumValues)
    case EmptyEnumRange =>
      n.schemaType.Some? && IsSingleProperty(n.schemaType.value) && n.example.None? && |n.enumValues| == 1
    case UnresolvableReference(r) =>
      n.schemaType.Some? && IsArrayOrNullableArray(n.schemaType.value) && n.items == Some(r) && r !in spec
    case OutOfFuel => false
  }

  /** The fault property `j` of `n` shows when the walk visits it: its reference resolves
      to nothing (required or not); or it is required and its schema has no type tag, or
      is a leaf with no example while `n`'s enumeration has a single entry. */
  predicate PropertyFault(spec: Spec, n: SchemaNode, j: nat, e: FlattenError)
    requires j < |n.properties|
  {
    var (k, r) := n.properties[j];
    match e
    case UnresolvableReference(x) => x == r && r !in spec
    case MissingTypeTag => k in n.required && r in spec && spec[r].schemaType.None?
    case EmptyEnumRange =>
      k in n.required && r in spec && spec[r].schemaType.Some? && IsSingleProperty(spec[r].schemaType.value)
      && spec[r].example.None? && |n.enumValues| == 1
    case _ => false
  }

  /** None of the first `i` properties of `n` shows a fault. */
  ghost predicate FaultFreeBefore(spec: Spec, n: SchemaNode, i: nat)
    requires i <= |n.properties|
  {
    forall j, e :: 0 <= j < i ==> !PropertyFault(spec, n, j, e)
  }

  lemma FaultFreeStep(spec: Spec, n: SchemaNode, i: nat)
    requires i < |n.properties| && FaultFreeBefore(spec, n, i)
    requires forall e :: !PropertyFault(spec, n, i, e)
    ensures FaultFreeBefore(spec, n, i + 1)
  {
  }

  /** `n` shows fault `e` when popped. */
  predicate FaultAt(spec: Spec, n: SchemaNode, e: FlattenError) {
    NodeFault(spec, n, e) || exists j :: 0 <= j < |n.properties| && PropertyFault(spec, n, j, e)
  }

  /** Some schema reached from `root` shows fault `e`. */
  ghost predicate Faulty(spec: Spec, root: SchemaNode, e: FlattenError) {
    exists p :: Reach(spec, root, p).Some? && FaultAt(spec, Reach(spec, root, p).value, e)
  }

  /** No schema reached from `root` shows a fault. */
  ghost predicate Faultless(spec: Spec, root: SchemaNode) {
    forall e :: !Faulty(spec, root, e)
  }

  /** `fuel` covers the walk: no more than `fuel` different paths reach a schema. */
  ghost predicate FuelCovers(spec: Spec, root: SchemaNode, fuel: nat) {
    forall ps :: ReachedDistinct(spec, root, ps) ==> |ps| <= fuel
  }

  /** `ps` lists pairwise different paths, each reached from `root`. */
  ghost predicate ReachedDistinct(spec: Spec, root: SchemaNode, ps: seq<Path>) {
    && (forall i :: 0 <= i < |ps| ==> Reach(spec, root, ps[i]).Some?)
    && (forall i, j :: 0 <= i < j < |ps| ==> ps[i] != ps[j])
  }

  /** The popped paths `visited` and the stacked paths `paths` form a tree walked once:
      all different, and each one's parent already popped. */
  ghost predicate WalkTree(spec: Spec, root: SchemaNode, visited: seq<Path>, paths: seq<Path>) {
    && ReachedDistinct(spec, root, visited)
    && (forall i, j :: 0 <= i < j < |paths| ==> paths[i] != paths[j])
    && (forall i :: 0 <= i < |paths| ==> paths[i] !in visited)
    && (forall i :: 0 <= i < |visited| && visited[i] != [] ==> visited[i][..|visited[i]| - 1] in visited)
    && (forall i :: 0 <= i < |paths| && paths[i] != [] ==> paths[i][..|paths[i]| - 1] in visited)
  }

  /** `x` is one step below `q`. */
  predicate IsChild(q: Path, x: Path) {
    |x| == |q| + 1 && x[..|q|] == q
  }

  /** Step `s` is into a property whose name none of `later` carries. */
  predicate NamedOutside(s: Step, later: seq<(string, Ref)>) {
    s.Prop? && forall j :: 0 <= j < |later| ==> later[j].0 != s.name
  }

  /** Every child of `q` popped or stacked so far is a property not among `later`. */
  ghost predicate ChildrenBefore(q: Path, visited: seq<Path>, paths: seq<Path>, later: seq<(string, Ref)>) {
    && (forall i :: 0 <= i < |visited| && IsChild(q, visited[i]) ==> NamedOutside(visited[i][|q|], later))
    && (forall i :: 0 <= i < |paths| && IsChild(q, paths[i]) ==> NamedOutside(paths[i][|q|], later))
  }

  /** Popping `q`: it was not popped before, so nothing popped or stacked is its child. */
  lemma WalkPop(spec: Spec, root: SchemaNode, visited: seq<Path>, paths: seq<Path>, later: seq<(string, Ref)>)
    requires WalkTree(spec, root, visited, paths) && paths != []
    requires Reach(spec, root, paths[|paths| - 1]).Some?
    ensures WalkTree(spec, root, visited + [paths[|paths| - 1]], paths[..|paths| - 1])
    ensures ChildrenBefore(paths[|paths| - 1], visited + [paths[|paths| - 1]], paths[..|paths| - 1], later)
  {
    WalkMove(spec, root, visited, paths);
    PopChildless(visited, paths, later);
  }

  /** Moving the last stacked path to the popped ones keeps the walk a tree. */
  lemma WalkMove(spec: Spec, root: SchemaNode, visited: seq<Path>, paths: seq<Path>)
    requires WalkTree(spec, root, visited, paths) && paths != []
    requires Reach(spec, root, paths[|paths| - 1]).Some?
    ensures WalkTree(spec, root, visited + [paths[|paths| - 1]], paths[..|paths| - 1])
  {
    var q := paths[|paths| - 1];
    var v := visited + [q];
    var rest := paths[..|paths| - 1];
    forall i | 0 <= i < |v| ensures v[i] == if i < |visited| then visited[i] else q {
    }
    forall i | 0 <= i < |rest| ensures rest[i] == paths[i] && rest[i] != q {
    }
  }

  /** Nothing popped or stacked is a child of the path just popped, since every parent
      was popped before its children. */
  lemma PopChildless(visited: seq<Path>, paths: seq<Path>, later: seq<(string, Ref)>)
    requires paths != [] && paths[|paths| - 1] !in visited
    requires forall i, j :: 0 <= i < j < |paths| ==> paths[i] != paths[j]
    requires forall i :: 0 <= i < |visited| && visited[i] != [] ==> visited[i][..|visited[i]| - 1] in visited
    requires forall i :: 0 <= i < |paths| && paths[i] != [] ==> paths[i][..|paths[i]| - 1] in visited
    ensures ChildrenBefore(paths[|paths| - 1], visited + [paths[|paths| - 1]], paths[..|paths| - 1], later)
  {
    var q := paths[|paths| - 1];
    var v := visited + [q];
    var rest := paths[..|paths| - 1];
    forall i | 0 <= i < |v| ensures !IsChild(q, v[i]) {
      ChildParent(q, v[i]);
    }
    forall i | 0 <= i < |rest| ensures !IsChild(q, rest[i]) {
      assert rest[i] == paths[i];
      ChildParent(q, rest[i]);
    }
  }

  lemma ChildParent(q: Path, x: Path)
    ensures IsChild(q, x) ==> x != [] && x[..|x| - 1] == q
  {
  }

  /** Pushing the reached child `q + [s]` of the popped `q`, when no child popped or
      stacked so far takes step `s`. */
  lemma WalkPush(spec: Spec, root: SchemaNode, visited: seq<Path>, paths: seq<Path>, q: Path, s: Step,
                 later: seq<(string, Ref)>)
    requires WalkTree(spec, root, visited, paths) && q in visited
    requires ChildrenBefore(q, visited, paths, later)
    requires s.Items? || (|later| > 0 && later[0].0 == s.name && DistinctNames(later))
    ensures WalkTree(spec, root, visited, paths + [q + [s]])
    ensures s.Prop? ==> ChildrenBefore(q, visited, paths + [q + [s]], later[1..])
  {
    var c := q + [s];
    if s.Prop? {
      ChildrenBeforeNext(q, visited, paths, later);
      forall j | 0 <= j < |later[1..]| ensures later[1..][j].0 != s.name {
        assert later[1..][j] == later[j + 1];
      }
    }
    PushFresh(visited, paths, q, s, later);
    assert c[..|c| - 1] == q;
    WalkAppend(spec, root, visited, paths, c);
  }

  /** Stacking a path neither popped nor stacked yet, whose parent was popped. */
  lemma WalkAppend(spec: Spec, root: SchemaNode, visited: seq<Path>, paths: seq<Path>, c: Path)
    requires WalkTree(spec, root, visited, paths)
    requires c !in visited && (forall i :: 0 <= i < |paths| ==> paths[i] != c)
    requires c != [] ==> c[..|c| - 1] in visited
    ensures WalkTree(spec, root, visited, paths + [c])
  {
    var ps := paths + [c];
    forall i | 0 <= i < |ps| ensures ps[i] == if i < |paths| then paths[i] else c {
    }
  }

  /** The child `q + [s]` is neither popped nor stacked yet when every child popped or
      stacked so far is a property named outside `later`, and `s` is not. */
  lemma PushFresh(visited: seq<Path>, paths: seq<Path>, q: Path, s: Step, later: seq<(string, Ref)>)
    requires ChildrenBefore(q, visited, paths, later)
    requires s.Items? || (|later| > 0 && later[0].0 == s.name)
    ensures q + [s] !in visited
    ensures forall i :: 0 <= i < |paths| ==> paths[i] != q + [s]
  {
    var c := q + [s];
    assert IsChild(q, c) && c[|q|] == s;
    assert !NamedOutside(s, later);
  }

  /** The next property is visited: children named outside `later` are named outside its
      tail. */
  lemma ChildrenBeforeNext(q: Path, visited: seq<Path>, paths: seq<Path>, later: seq<(string, Ref)>)
    requires ChildrenBefore(q, visited, paths, later) && later != []
    ensures ChildrenBefore(q, visited, paths, later[1..])
  {
    forall s: Step, j | NamedOutside(s, later) && 0 <= j < |later[1..]| ensures later[1..][j].0 != s.name {
      assert later[1..][j] == later[j + 1];
    }
  }

  /** A fault of a reached schema is a fault of the walk from `root`. */
  lemma FaultReached(spec: Spec, root: SchemaNode, q: Path, n: SchemaNode, e: FlattenError)
    requires Reach(spec, root, q) == Some(n)
    requires NodeFault(spec, n, e) || exists j :: 0 <= j < |n.properties| && PropertyFault(spec, n, j, e)
    ensures Faulty(spec, root, e)
  {
    assert FaultAt(spec, Reach(spec, root, q).value, e);
  }

  /** Running out of fuel with `q` still stacked: `q` and every popped path are
      `fuel + 1` different reached paths. */
  lemma FuelWitness(spec: Spec, root: SchemaNode, visited: seq<Path>, paths: seq<Path>)
    requires WalkTree(spec, root, visited, paths) && paths != []
    requires Reach(spec, root, paths[|paths| - 1]).Some?
    ensures ReachedDistinct(spec, root, visited + [paths[|paths| - 1]])
  {
    var v := visited + [paths[|paths| - 1]];
    forall i | 0 <= i < |v| ensures Reach(spec, root, v[i]).Some? {
      if i < |visited| {
        assert v[i] == visited[i];
      }
    }
  }

  /** Every path in `before` is still in `after`. */
  ghost predicate Kept(before: seq<Path>, after: seq<Path>) {
    forall x :: x in before ==> x in after
  }

  /** Every schema the walk pushes from `n` (at `q`) is on the stack `paths`. */
  ghost predicate PushedChildren(spec: Spec, n: SchemaNode, q: Path, paths: seq<Path>) {
    forall s :: Child(spec, n, s).Some? ==> q + [s] in paths
  }

  /** The pushable children among the first `i` properties of `n` are on the stack. */
  ghost predicate PushedBefore(spec: Spec, n: SchemaNode, q: Path, paths: seq<Path>, i: nat)
    requires i <= |n.properties|
  {
    forall j :: 0 <= j < i && Child(spec, n, Prop(n.properties[j].0, n.properties[j].1)).Some? ==>
      q + [Prop(n.properties[j].0, n.properties[j].1)] in paths
  }

  /** What the walk has seen: the root is popped or stacked, every child of a popped
      schema is popped or stacked, and no popped schema shows a fault. */
  ghost predicate Seen(spec: Spec, root: SchemaNode, visited: seq<Path>, paths: seq<Path>) {
    && ([] in visited || [] in paths)
    && (forall x, s :: x in visited && Reach(spec, root, x).Some? && Child(spec, Reach(spec, root, x).value, s).Some? ==>
          x + [s] in visited || x + [s] in paths)
    && (forall x, e :: x in visited && Reach(spec, root, x).Some? ==> !FaultAt(spec, Reach(spec, root, x).value, e))
  }

  lemma SeenAtStart(spec: Spec, root: SchemaNode)
    ensures Seen(spec, root, [], [[]])
  {
  }

  /** Popping `q` and visiting its schema `n` without a fault, having pushed its children
      and kept the rest of the stack. */
  lemma SeenStep(spec: Spec, root: SchemaNode, visited: seq<Path>, rest: seq<Path>, q: Path, n: SchemaNode,
                 paths: seq<Path>)
    requires Seen(spec, root, visited, rest + [q])
    requires Reach(spec, root, q) == Some(n)
    requires Kept(rest, paths) && PushedChildren(spec, n, q, paths)
    requires n.properties == [] ==> forall e :: !NodeFault(spec, n, e)
    requires n.properties != [] ==> FaultFreeBefore(spec, n, |n.properties|)
    ensures Seen(spec, root, visited + [q], paths)
  {
    forall e ensures !FaultAt(spec, n, e) {
      if n.properties != [] {
        assert !NodeFault(spec, n, e);
      }
    }
  }

  /** Once the stack is empty, every reached path was popped. */
  lemma {:induction false} SeenAll(spec: Spec, root: SchemaNode, visited: seq<Path>, p: Path)
    requires Seen(spec, root, visited, [])
    requires Reach(spec, root, p).Some?
    ensures p in visited
    decreases |p|
  {
    if p != [] {
      var x := p[..|p| - 1];
      ReachPrefix(spec, root, p, |p| - 1);
      SeenAll(spec, root, visited, x);
      ReachStep(spec, root, x, p[|p| - 1]);
      assert x + [p[|p| - 1]] == p;
    }
  }

  /** A walk that popped every reached path without a fault: no reached schema shows one. */
  lemma SeenFaultless(spec: Spec, root: SchemaNode, visited: seq<Path>)
    requires Seen(spec, root, visited, [])
    ensures forall e :: !Faulty(spec, root, e)
  {
    forall e, p | Reach(spec, root, p).Some? ensures !FaultAt(spec, Reach(spec, root, p).value, e) {
      SeenAll(spec, root, visited, p);
    }
  }

  /** A schema without properties pushes at most its array items. */
  lemma PushedItems(spec: Spec, n: SchemaNode, q: Path, rest: seq<Path>, paths: seq<Path>)
    requires n.properties == []
    requires Child(spec, n, Items).Some? ==> paths == rest + [q + [Items]]
    requires Child(spec, n, Items).None? ==> paths == rest
    ensures Kept(rest, paths) && PushedChildren(spec, n, q, paths)
  {
  }

  /** Visiting property `i` keeps the earlier ones' children pushed and adds its own. */
  lemma PushedStep(spec: Spec, n: SchemaNode, q: Path, before: seq<Path>, paths: seq<Path>, i: nat)
    requires i < |n.properties|
    requires PushedBefore(spec, n, q, before, i) && Kept(before, paths)
    requires Child(spec, n, Prop(n.properties[i].0, n.properties[i].1)).Some? ==>
      q + [Prop(n.properties[i].0, n.properties[i].1)] in paths
    ensures PushedBefore(spec, n, q, paths, i + 1)
  {
  }

  /** After the last property, every child of a schema with properties is pushed. */
  lemma PushedAll(spec: Spec, n: SchemaNode, q: Path, paths: seq<Path>)
    requires n.properties != [] && PushedBefore(spec, n, q, paths, |n.properties|)
    ensures PushedChildren(spec, n, q, paths)
  {
    forall s | Child(spec, n, s).Some? ensures q + [s] in paths {
      var j :| 0 <= j < |n.properties| && n.properties[j] == (s.name, s.ref);
    }
  }

  // ---------------------------------------------------------------------------
  // The flattener
  // ---------------------------------------------------------------------------

  /** `table` is a flattening of the schema `root`: every key is the key of a leaf path
      and holds a value admissible for that leaf, and every leaf path has its key in the
      table. */
  ghost predicate Flattens(spec: Spec, root: SchemaNode, table: map<string, PropertyValue>) {
    && (forall k :: k in table ==>
          exists p :: LeafAt(spec, root, p).Some? && Key(p) == k && AdmissibleValue(LeafAt(spec, root, p).value, table[k]))
    && (forall p :: LeafAt(spec, root, p).Some? ==> Key(p) in table)
  }

  /** `get_body_by_object_schema`. Pops `(prefix, schema)` pairs off a work stack seeded
      with `("", root)`: a schema without properties gets a value at `prefix` when its
      type is a leaf type and pushes its array items under `prefix + "$array"`; a schema
      with properties, for each property in its own `required` set, inserts a value for a
      leaf property (drawn with the parent's enumeration; nothing when none is drawn) and
      pushes any other property. `rng(i)` is the random source's output for the `i`-th
      synthesis; `fuel` bounds the number of schemas popped.

      Result: on success, a flattening of `root` (`Flattens`). */
  method GetBodyByObjectSchema(spec: Spec, root: SchemaNode, rng: nat -> nat, fuel: nat)
    returns (r: Result<map<string, PropertyValue>, FlattenError>)
    ensures r.Ok? ==> Flattens(spec, root, r.value)
    ensures r.Err? && !r.error.OutOfFuel? ==> Faulty(spec, root, r.error)
    ensures r == Err(OutOfFuel) ==> exists ps :: |ps| == fuel + 1 && ReachedDistinct(spec, root, ps)
    ensures Faultless(spec, root) && FuelCovers(spec, root, fuel) ==> r.Ok?
    ensures r.Ok? ==> Faultless(spec, root)
    ensures !Faultless(spec, root) && FuelCovers(spec, root, fuel) ==> r.Err? && !r.error.OutOfFuel?
  {
    var table: map<string, PropertyValue> := map[];
    var stack: seq<(string, SchemaNode)> := [("", root)];
    ghost var paths: seq<Path> := [[]];
    ghost var visited: seq<Path> := [];
    ghost var origin: map<string, Path> := map[];
    var draws: nat := 0;
    var popped: nat := 0;
    CompleteAtStart(spec, root);
    SeenAtStart(spec, root);
    while stack != []
      invariant popped <= fuel && |visited| == popped
      invariant Seen(spec, root, visited, paths)
      invariant StackMatches(spec, root, stack, paths)
      invariant WalkTree(spec, root, visited, paths)
      invariant TableSound(spec, root, table, origin)
      invariant TableComplete(spec, root, table, paths, [], [])
      decreases fuel - popped
    {
      StackPop(spec, root, stack, paths);
      if popped == fuel {
        FuelWitness(spec, root, visited, paths);
        assert |visited + [paths[|paths| - 1]]| == fuel + 1;
        return Err(OutOfFuel);
      }
      popped := popped + 1;
      var (prefix, node) := stack[|stack| - 1];
      ghost var q := paths[|paths| - 1];
      WalkPop(spec, root, visited, paths, node.properties);
      ghost var before := visited;
      visited := visited + [q];
      stack := stack[..|stack| - 1];
      paths := paths[..|paths| - 1];
      ghost var rest := paths;
      var failure;
      if node.properties == [] {
        failure, table, stack, draws, paths, origin :=
          VisitPropertylessSchema(spec, root, rng, prefix, node, table, stack, draws, q, paths, origin, visited);
      } else {
        CompleteBeforeProperties(spec, root, table, rest, q, node);
        failure, table, stack, draws, paths, origin :=
          VisitProperties(spec, root, rng, prefix, node, table, stack, draws, q, paths, origin, visited);
      }
      if failure.Some? {
        FaultReached(spec, root, q, node, failure.value);
        return Err(failure.value);
      }
      SeenStep(spec, root, before, rest, q, node, paths);
    }
    SeenFaultless(spec, root, visited);
    forall k | k in table
      ensures exists p :: LeafAt(spec, root, p).Some? && Key(p) == k && AdmissibleValue(LeafAt(spec, root, p).value, table[k])
    {
      var p := origin[k];
      assert LeafAt(spec, root, p).Some? && Key(p) == k;
    }
    return Ok(table);
  }

  /** The branch of `get_body_by_object_schema` for a popped schema `node` without
      properties (at path `q`, under `prefix`): a leaf type gets its value at `prefix`,
      drawn with its own enumeration, and failing when none is drawn; an array type with
      items pushes the resolved items under `prefix + "$array"`. */
  method VisitPropertylessSchema(spec: Spec, root: SchemaNode, rng: nat -> nat, prefix: string, node: SchemaNode,
                                 table0: map<string, PropertyValue>, stack0: seq<(string, SchemaNode)>, draws0: nat,
                                 ghost q: Path, ghost rest: seq<Path>, ghost origin0: map<string, Path>,
                                 ghost visited: seq<Path>)
    returns (failure: Option<FlattenError>, table: map<string, PropertyValue>, stack: seq<(string, SchemaNode)>,
             draws: nat, ghost paths: seq<Path>, ghost origin: map<string, Path>)
    requires Reach(spec, root, q) == Some(node) && Key(q) == prefix && node.properties == []
    requires StackMatches(spec, root, stack0, rest)
    requires TableSound(spec, root, table0, origin0)
    requires TableComplete(spec, root, table0, rest + [q], [], [])
    requires WalkTree(spec, root, visited, rest) && q in visited && ChildrenBefore(q, visited, rest, [])
    ensures failure.None? ==>
      StackMatches(spec, root, stack, paths) && TableSound(spec, root, table, origin)
      && TableComplete(spec, root, table, paths, [], []) && WalkTree(spec, root, visited, paths)
    ensures failure.Some? ==> !failure.value.OutOfFuel? && NodeFault(spec, node, failure.value)
    ensures failure.None? ==> forall e :: !NodeFault(spec, node, e)
    ensures failure.None? ==> Kept(rest, paths) && PushedChildren(spec, node, q, paths)
  {
    table, stack, draws, paths, origin := table0, stack0, draws0, rest, origin0;
    if node.schemaType.None? {
      return Some(MissingTypeTag), table, stack, draws, paths, origin;
    }
    var types := node.schemaType.value;
    if IsSingleProperty(types) {
      var v := GetValuesFromProperty(types, node.example, node.enumValues, rng(draws));
      draws := draws + 1;
      match v {
        case NoValue => return Some(UnsupportedType), table, stack, draws, paths, origin;
        case EmptyRange => return Some(EmptyEnumRange), table, stack, draws, paths, origin;
        case Synthesised(b) =>
          SynthesisedIsAdmissible(Leaf(types, node.example, node.enumValues), rng(draws - 1));
          SoundInsert(spec, root, table, origin, q, GetPropertyValueObject(b));
          table := table[prefix := GetPropertyValueObject(b)];
          origin := origin[prefix := q];
      }
    }
    if IsArrayOrNullableArray(types) && node.items.Some? {
      var itemsRef := node.items.value;
      if itemsRef !in spec {
        return Some(UnresolvableReference(itemsRef)), table, stack, draws, paths, origin;
      }
      ReachStep(spec, root, q, Items);
      KeyStep(q, Items);
      StackPush(spec, root, stack, paths, q + [Items]);
      WalkPush(spec, root, visited, paths, q, Items, []);
      stack := stack + [(prefix + "$array", spec[itemsRef])];
      paths := paths + [q + [Items]];
    }
    CompleteAfterLeafNode(spec, root, table0, table, rest, paths, q, node);
    PushedItems(spec, node, q, rest, paths);
    failure := None;
  }

  /** The `for (k, v) in properties` loop of `get_body_by_object_schema`, for the schema
      `node` popped under `prefix` (at path `q`): visits each property in order. */
  method VisitProperties(spec: Spec, root: SchemaNode, rng: nat -> nat, prefix: string, node: SchemaNode,
                         table0: map<string, PropertyValue>, stack0: seq<(string, SchemaNode)>, draws0: nat,
                         ghost q: Path, ghost paths0: seq<Path>, ghost origin0: map<string, Path>,
                         ghost visited: seq<Path>)
    returns (failure: Option<FlattenError>, table: map<string, PropertyValue>, stack: seq<(string, SchemaNode)>,
             draws: nat, ghost paths: seq<Path>, ghost origin: map<string, Path>)
    requires Reach(spec, root, q) == Some(node) && Key(q) == prefix
    requires StackMatches(spec, root, stack0, paths0)
    requires TableSound(spec, root, table0, origin0)
    requires TableComplete(spec, root, table0, paths0, q, node.properties)
    requires WalkTree(spec, root, visited, paths0) && q in visited && ChildrenBefore(q, visited, paths0, node.properties)
    ensures failure.None? ==>
      StackMatches(spec, root, stack, paths) && TableSound(spec, root, table, origin)
      && TableComplete(spec, root, table, paths, [], []) && WalkTree(spec, root, visited, paths)
    ensures failure.Some? ==>
      !failure.value.OutOfFuel? && exists j :: 0 <= j < |node.properties| && PropertyFault(spec, node, j, failure.value)
    ensures failure.None? ==> FaultFreeBefore(spec, node, |node.properties|)
    ensures failure.None? ==> Kept(paths0, paths) && (node.properties != [] ==> PushedChildren(spec, node, q, paths))
  {
    table, stack, draws, paths, origin := table0, stack0, draws0, paths0, origin0;
    var i := 0;
    while i < |node.properties|
      invariant 0 <= i <= |node.properties|
      invariant StackMatches(spec, root, stack, paths)
      invariant TableSound(spec, root, table, origin)
      invariant TableComplete(spec, root, table, paths, q, node.properties[i..])
      invariant WalkTree(spec, root, visited, paths) && ChildrenBefore(q, visited, paths, node.properties[i..])
      invariant FaultFreeBefore(spec, node, i)
      invariant Kept(paths0, paths) && PushedBefore(spec, node, q, paths, i)
    {
      ghost var pathsBefore := paths;
      failure, table, stack, draws, paths, origin :=
        VisitProperty(spec, root, rng, prefix, node, i, table, stack, draws, q, paths, origin, visited);
      if failure.Some? {
        return;
      }
      FaultFreeStep(spec, node, i);
      PushedStep(spec, node, q, pathsBefore, paths, i);
      i := i + 1;
    }
    assert node.properties[i..] == [];
    if node.properties != [] {
      PushedAll(spec, node, q, paths);
    }
    failure := None;
  }

  /** One pass of that loop, for property `i` of `node`, named `k` with reference `ref`:
      fails when `ref` does not resolve, required or not; skips `k` when it is not in
      `node.required`; else fails on a schema without a type tag, inserts the value drawn
      for a leaf (with `node`'s enumeration; nothing when none is drawn) under the full
      key, and pushes any other schema under it. */
  method VisitProperty(spec: Spec, root: SchemaNode, rng: nat -> nat, prefix: string, node: SchemaNode, i: nat,
                       table0: map<string, PropertyValue>, stack0: seq<(string, SchemaNode)>, draws0: nat,
                       ghost q: Path, ghost paths0: seq<Path>, ghost origin0: map<string, Path>,
                       ghost visited: seq<Path>)
    returns (failure: Option<FlattenError>, table: map<string, PropertyValue>, stack: seq<(string, SchemaNode)>,
             draws: nat, ghost paths: seq<Path>, ghost origin: map<string, Path>)
    requires i < |node.properties|
    requires Reach(spec, root, q) == Some(node) && Key(q) == prefix
    requires StackMatches(spec, root, stack0, paths0)
    requires TableSound(spec, root, table0, origin0)
    requires TableComplete(spec, root, table0, paths0, q, node.properties[i..])
    requires WalkTree(spec, root, visited, paths0) && q in visited && ChildrenBefore(q, visited, paths0, node.properties[i..])
    ensures failure.None? ==>
      StackMatches(spec, root, stack, paths) && TableSound(spec, root, table, origin)
      && TableComplete(spec, root, table, paths, q, node.properties[i + 1..])
      && WalkTree(spec, root, visited, paths) && ChildrenBefore(q, visited, paths, node.properties[i + 1..])
    ensures failure.Some? ==> !failure.value.OutOfFuel? && PropertyFault(spec, node, i, failure.value)
    ensures failure.None? ==> forall e :: !PropertyFault(spec, node, i, e)
    ensures failure.None? ==> Kept(paths0, paths)
    ensures failure.None? && Child(spec, node, Prop(node.properties[i].0, node.properties[i].1)).Some? ==>
      q + [Prop(node.properties[i].0, node.properties[i].1)] in paths
  {
    table, stack, draws, paths, origin := table0, stack0, draws0, paths0, origin0;
    var (k, ref) := node.properties[i];
    if ref !in spec {
      return Some(UnresolvableReference(ref)), table, stack, draws, paths, origin;
    }
    var child := spec[ref];
    ghost var s := Prop(k, ref);
    if k in node.required {
      var fullKey := if prefix == "" then k else prefix + "." + k;
      KeyStep(q, s);
      if child.schemaType.None? {
        return Some(MissingTypeTag), table, stack, draws, paths, origin;
      }
      var types := child.schemaType.value;
      if IsSingleProperty(types) {
        var v := GetValuesFromProperty(types, child.example, node.enumValues, rng(draws));
        draws := draws + 1;
        match v {
          case NoValue =>
          case EmptyRange =>
            return Some(EmptyEnumRange), table, stack, draws, paths, origin;
          case Synthesised(b) =>
            SynthesisedIsAdmissible(Leaf(types, child.example, node.enumValues), rng(draws - 1));
            PropertyLeafAt(spec, root, q, node, s);
            SoundInsert(spec, root, table, origin, q + [s], GetPropertyValueObject(b));
            table := table[fullKey := GetPropertyValueObject(b)];
            origin := origin[fullKey := q + [s]];
        }
      } else {
        ReachStep(spec, root, q, s);
        StackPush(spec, root, stack, paths, q + [s]);
        SuffixDistinct(node.properties, i);
        WalkPush(spec, root, visited, paths, q, s, node.properties[i..]);
        stack := stack + [(fullKey, child)];
        paths := paths + [q + [s]];
      }
    }
    CompleteAfterProperty(spec, root, table0, table, paths0, paths, q, node, i);
    if paths == paths0 {
      ChildrenBeforeNext(q, visited, paths, node.properties[i..]);
    }
    assert node.properties[i..][1..] == node.properties[i + 1..];
    failure := None;
  }

  /** The names of a schema's later properties are distinct too. */
  lemma SuffixDistinct(props: Properties, i: nat)
    requires i <= |props|
    ensures DistinctNames(props[i..])
  {
    forall a, b | 0 <= a < |props[i..]| && 0 <= b < |props[i..]| && props[i..][a].0 == props[i..][b].0
      ensures a == b
    {
      assert props[i..][a] == props[i + a] && props[i..][b] == props[i + b];
    }
  }

  /** The leaf a required leaf property of a reached schema stands for. */
  lemma PropertyLeafAt(spec: Spec, root: SchemaNode, q: Path, n: SchemaNode, s: Step)
    requires Reach(spec, root, q) == Some(n)
    requires PropertyLeaf(spec, n, s).Some?
    ensures LeafAt(spec, root, q + [s]) == PropertyLeaf(spec, n, s)
  {
    ReachStep(spec, root, q, s);
    assert (q + [s])[..|q|] == q;
  }

  // ---------------------------------------------------------------------------
  // Plain schemas
  // ---------------------------------------------------------------------------

  /** A property name that reads back unambiguously from a flat key: not empty, and free
      of the separator `.` and of the `$` that starts the array marker. */
  predicate PlainName(k: string) {
    k != "" && '.' !in k && '$' !in k
  }

  /** A schema whose property names are plain. */
  predicate PlainNode(n: SchemaNode) {
    forall i :: 0 <= i < |n.properties| ==> PlainName(n.properties[i].0)
  }

  /** The root and every schema of the spec are plain. */
  predicate PlainSpec(spec: Spec, root: SchemaNode) {
    PlainNode(root) && forall r :: r in spec ==> PlainNode(spec[r])
  }

  /** Every property step of `p` has a plain name. */
  predicate PlainPath(p: Path) {
    forall i :: 0 <= i < |p| && p[i].Prop? ==> PlainName(p[i].name)
  }

  /** The length of the longest common prefix of two paths. */
  function CommonPrefix(a: Path, b: Path): (j: nat)
    ensures j <= |a| && j <= |b| && a[..j] == b[..j]
    ensures j < |a| && j < |b| ==> a[j] != b[j]
  {
    if a == [] || b == [] || a[0] != b[0] then 0
    else
      var j := 1 + CommonPrefix(a[1..], b[1..]);
      assert a[..j] == [a[0]] + a[1..][..j - 1];
      assert b[..j] == [b[0]] + b[1..][..j - 1];
      j
  }

  /** In a plain schema, a property name picks out one property. */
  lemma PlainProperty(n: SchemaNode, k: string, r1: Ref, r2: Ref)
    requires PlainNode(n)
    requires (k, r1) in n.properties && (k, r2) in n.properties
    ensures r1 == r2
  {
    var i1 :| 0 <= i1 < |n.properties| && n.properties[i1] == (k, r1);
    var i2 :| 0 <= i2 < |n.properties| && n.properties[i2] == (k, r2);
  }

  /** In a plain spec, every reached schema is plain, and so is the path to it. */
  lemma {:induction false} ReachPlain(spec: Spec, root: SchemaNode, p: Path)
    requires PlainSpec(spec, root)
    requires Reach(spec, root, p).Some?
    ensures PlainNode(Reach(spec, root, p).value) && PlainPath(p)
    decreases |p|
  {
    if p != [] {
      var q := p[..|p| - 1];
      ReachPlain(spec, root, q);
      var n := Reach(spec, root, q).value;
      var s := p[|p| - 1];
      if s.Prop? {
        var i :| 0 <= i < |n.properties| && n.properties[i] == (s.name, s.ref);
      }
      forall i | 0 <= i < |p| && p[i].Prop?
        ensures PlainName(p[i].name)
      {
        if i < |q| {
          assert p[i] == q[i];
        }
      }
    }
  }

  /** In a plain spec, every leaf path is plain. */
  lemma LeafPathPlain(spec: Spec, root: SchemaNode, p: Path)
    requires PlainSpec(spec, root)
    requires LeafAt(spec, root, p).Some?
    ensures PlainPath(p)
  {
    if Reach(spec, root, p).Some? {
      ReachPlain(spec, root, p);
    } else {
      var q := p[..|p| - 1];
      ReachPlain(spec, root, q);
      var n := Reach(spec, root, q).value;
      var s := p[|p| - 1];
      var i :| 0 <= i < |n.properties| && n.properties[i] == (s.name, s.ref);
      forall i | 0 <= i < |p| && p[i].Prop?
        ensures PlainName(p[i].name)
      {
        if i < |q| {
          assert p[i] == q[i];
        }
      }
    }
  }

  /** Every proper prefix of a leaf path is reached. */
  lemma LeafPrefixReached(spec: Spec, root: SchemaNode, p: Path, j: nat)
    requires LeafAt(spec, root, p).Some?
    requires j < |p|
    ensures Reach(spec, root, p[..j]).Some?
  {
    if Reach(spec, root, p).Some? {
      ReachPrefix(spec, root, p, j);
    } else {
      ReachPrefix(spec, root, p[..|p| - 1], j);
      assert p[..|p| - 1][..j] == p[..j];
    }
  }

  /** A leaf path ends the walk: no longer path through it is a leaf path. */
  lemma LeafEnds(spec: Spec, root: SchemaNode, p: Path, t: Path)
    requires LeafAt(spec, root, p).Some?
    requires |t| > 0
    ensures LeafAt(spec, root, p + t).None?
  {
    LeafNoStep(spec, root, p, t[0]);
    if |t| > 1 {
      LeafEndsBelow(spec, root, p + [t[0]], t[1..]);
      assert p + [t[0]] + t[1..] == p + t;
    } else {
      assert p + t == p + [t[0]];
    }
  }

  /** Below an unreached path there is no leaf path more than one step further. */
  lemma LeafEndsBelow(spec: Spec, root: SchemaNode, q: Path, u: Path)
    requires Reach(spec, root, q).None? && |u| > 0
    ensures LeafAt(spec, root, q + u).None?
  {
    var x := q + u;
    var y := x[..|x| - 1];
    assert x[..|q|] == q && y[..|q|] == q;
    ReachNoneExtends(spec, root, x, |q|);
    ReachNoneExtends(spec, root, y, |q|);
    LeafUnreached(spec, root, x);
  }

  /** A path whose schema and whose parent's schema are both unreached is no leaf path. */
  lemma LeafUnreached(spec: Spec, root: SchemaNode, x: Path)
    requires x != [] && Reach(spec, root, x).None? && Reach(spec, root, x[..|x| - 1]).None?
    ensures LeafAt(spec, root, x).None?
  {
  }

  /** No step from a leaf path is reached or is a leaf. */
  lemma LeafNoStep(spec: Spec, root: SchemaNode, p: Path, s: Step)
    requires LeafAt(spec, root, p).Some?
    ensures Reach(spec, root, p + [s]).None? && LeafAt(spec, root, p + [s]).None?
  {
    var x := p + [s];
    assert x[..|x| - 1] == p && x[|x| - 1] == s;
    if Reach(spec, root, p).Some? {
      var n := Reach(spec, root, p).value;
      assert n.properties == [] && n.schemaType.Some? && IsSingleProperty(n.schemaType.value);
      assert Child(spec, n, s).None? && PropertyLeaf(spec, n, s).None?;
    }
  }

  /** A path through an unreached prefix is unreached. */
  lemma ReachNoneExtends(spec: Spec, root: SchemaNode, x: Path, j: nat)
    requires j <= |x| && Reach(spec, root, x[..j]).None?
    ensures Reach(spec, root, x).None?
  {
    if Reach(spec, root, x).Some? {
      ReachPrefix(spec, root, x, j);
    }
  }

  /** Two different leaf paths of a plain spec part at a pair of property steps with
      different names. */
  lemma LeafPathsDiverge(spec: Spec, root: SchemaNode, p1: Path, p2: Path) returns (j: nat)
    requires PlainSpec(spec, root)
    requires LeafAt(spec, root, p1).Some? && LeafAt(spec, root, p2).Some? && p1 != p2
    ensures j < |p1| && j < |p2| && p1[..j] == p2[..j]
    ensures p1[j].Prop? && p2[j].Prop? && p1[j].name != p2[j].name
  {
    j := CommonPrefix(p1, p2);
    if j == |p1| {
      assert p2 == p1 + p2[j..];
      LeafEnds(spec, root, p1, p2[j..]);
    } else if j == |p2| {
      assert p1 == p2 + p1[j..];
      LeafEnds(spec, root, p2, p1[j..]);
    } else {
      var c := p1[..j];
      LeafPrefixReached(spec, root, p1, j);
      var n := Reach(spec, root, c).value;
      ReachPlain(spec, root, c);
      LeafThrough(spec, root, p1, c, n);
      LeafThrough(spec, root, p2, c, n);
      var s1, s2 := p1[j], p2[j];
      if s1.Prop? && s2.Prop? && s1.name == s2.name {
        PlainProperty(n, s1.name, s1.ref, s2.ref);
      }
    }
  }
}
