/** The document reconstructor: turning the flat table of the schema flattener back into
    a nested JSON object (`insert_nested_value`, `create_valid_json_from_hashmap`), and
    the request and response objects that carry the result. */
module CompositeObjects {
  import opened Wrappers
  import opened JsonValues
  import opened PropertyValues
  import opened Strings
  import ObjectReferenceHandler

  // ---------------------------------------------------------------------------
  // Key segments
  // ---------------------------------------------------------------------------

  /** One `.`-separated segment of a flat key: the object key it names, and whether it
      carried the `$array` marker. */
  datatype Segment = Segment(name: string, isArray: bool)

  /** A segment ending in `$array` names the text before its first `$`, as an array;
      any other segment names itself. */
  function Parse(segment: string): (s: Segment)
    ensures s.isArray <==> EndsWith(segment, "$array")
    ensures !s.isArray ==> s.name == segment
    ensures s.isArray ==> '$' !in s.name && s.name <= segment
    ensures s.isArray ==> |s.name| < |segment| && segment[|s.name|] == '$'
  {
    if EndsWith(segment, "$array") then
      var pieces := Split(segment, '$');
      MarkedSplits(segment);
      JoinFirst(pieces, '$');
      Segment(pieces[0], true)
    else Segment(segment, false)
  }

  /** A segment ending in `$array` holds a `$`, so it splits into two pieces or more. */
  lemma MarkedSplits(segment: string)
    requires EndsWith(segment, "$array")
    ensures |Split(segment, '$')| >= 2
  {
    assert segment[|segment| - 6] == '$';
  }

  /** A name free of `$` reads back from itself, and from itself with the marker. */
  lemma ParseMarked(name: string)
    requires '$' !in name
    ensures Parse(name + "$array") == Segment(name, true)
    ensures Parse(name) == Segment(name, false)
  {
    assert name + "$array" == name + ['$'] + "array";
    SplitAroundSeparator(name, "array", '$');
    SplitJoin([name], '$');
    assert (name + "$array")[|name + "$array"| - 6..] == "$array";
    if |name| >= 6 {
      var tail := name[|name| - 6..];
      assert tail[0] == name[|name| - 6] && name[|name| - 6] in name;
      assert tail != "$array";
    }
  }

  // ---------------------------------------------------------------------------
  // Inserting one entry
  // ---------------------------------------------------------------------------

  /** The panics of `insert_nested_value`: an `$array` segment whose existing value is
      not an array (`as_array_mut().unwrap()`), or is an empty array
      (`get_mut(0).unwrap()`). */
  datatype InsertError = NotAnArray(key: string) | EmptyArray(key: string)

  /** `insert_nested_value(root, keys, value)`, returning the updated map. The last
      segment stores the serialised value at its name (unwrapped, even for an `$array`
      segment). A plain segment descends into the object at its name, created empty when
      absent; an `$array` segment descends into element 0 of the array at its name,
      created as `[{}]` when absent. When the value met is not an object (or element 0
      is not), nothing is inserted and the map is unchanged.

      Result: only the first segment's name is touched; on an `$array` segment the
      array keeps its length, or has length 1 when it was just created. */
  function InsertNested(root: map<string, Json>, keys: seq<string>, value: PropertyValue)
    : (r: Result<map<string, Json>, InsertError>)
    requires |keys| >= 1
    ensures r.Ok? ==> r.value.Keys == root.Keys + {Parse(keys[0]).name}
    ensures r.Ok? ==> forall k :: k in root && k != Parse(keys[0]).name ==> r.value[k] == root[k]
    ensures r.Ok? && |keys| >= 2 && Parse(keys[0]).isArray ==>
      var name := Parse(keys[0]).name;
      && r.value[name].JArray?
      && (name in root ==> root[name].JArray? && |r.value[name].items| == |root[name].items|)
      && (name !in root ==> |r.value[name].items| == 1)
    ensures r.Err? ==> |keys| >= 2
    decreases |keys|
  {
    var segment := Parse(keys[0]);
    var name := segment.name;
    if |keys| == 1 then
      Ok(root[name := Serialize(value)])
    else if segment.isArray then
      var entry := if name in root then root[name] else JArray([JObject(map[])]);
      if !entry.JArray? then Err(NotAnArray(name))
      else if |entry.items| == 0 then Err(EmptyArray(name))
      else
        match entry.items[0]
        case JObject(nested) =>
          (match InsertNested(nested, keys[1..], value)
           case Ok(inserted) => Ok(root[name := JArray(entry.items[0 := JObject(inserted)])])
           case Err(e) => Err(e))
        case _ => Ok(root[name := entry])
    else
      var entry := if name in root then root[name] else JObject(map[]);
      match entry
      case JObject(nested) =>
        (match InsertNested(nested, keys[1..], value)
         case Ok(inserted) => Ok(root[name := JObject(inserted)])
         case Err(e) => Err(e))
      case _ => Ok(root[name := entry])
  }

  /** What is found at the segments `keys`: every segment but the last descends into the
      object at its name (element 0 of the array at its name for an `$array` segment);
      the last gives the value at its name. */
  function Lookup(doc: map<string, Json>, keys: seq<string>): Option<Json>
    requires |keys| >= 1
    decreases |keys|
  {
    var segment := Parse(keys[0]);
    if segment.name !in doc then None
    else if |keys| == 1 then Some(doc[segment.name])
    else
      var next := doc[segment.name];
      if segment.isArray then
        if next.JArray? && |next.items| > 0 && next.items[0].JObject? then Lookup(next.items[0].fields, keys[1..])
        else None
      else if next.JObject? then Lookup(next.fields, keys[1..])
      else None
  }

  /** Inserting at `keys` gets through: along every segment but the last, the value met
      is absent (to be created) or of the shape the segment descends into. */
  predicate Navigable(doc: map<string, Json>, keys: seq<string>)
    requires |keys| >= 1
    decreases |keys|
  {
    var segment := Parse(keys[0]);
    if |keys| == 1 || segment.name !in doc then true
    else
      var next := doc[segment.name];
      if segment.isArray then
        next.JArray? && |next.items| > 0 && next.items[0].JObject? && Navigable(next.items[0].fields, keys[1..])
      else next.JObject? && Navigable(next.fields, keys[1..])
  }

  /** Two keys that do not get in each other's way: they part at a segment name, after
      agreeing (name and marker) on every segment before it, neither ending first. */
  predicate Compatible(a: seq<string>, b: seq<string>)
    requires |a| >= 1 && |b| >= 1
    decreases |a|
  {
    Parse(a[0]).name != Parse(b[0]).name
    || (|a| >= 2 && |b| >= 2 && Parse(a[0]) == Parse(b[0]) && Compatible(a[1..], b[1..]))
  }

  lemma NavigableEmpty(keys: seq<string>)
    requires |keys| >= 1
    ensures Navigable(map[], keys)
  {
  }

  lemma LookupEmpty(keys: seq<string>)
    requires |keys| >= 1
    ensures Lookup(map[], keys) == None
  {
  }

  /** An insertion that gets through succeeds and stores the serialised value where
      `Lookup` finds it. */
  lemma {:induction false} InsertThenLookup(root: map<string, Json>, keys: seq<string>, value: PropertyValue)
    requires |keys| >= 1 && Navigable(root, keys)
    ensures InsertNested(root, keys, value).Ok?
    ensures Lookup(InsertNested(root, keys, value).value, keys) == Some(Serialize(value))
    decreases |keys|
  {
    var segment := Parse(keys[0]);
    var name := segment.name;
    if |keys| > 1 {
      if segment.isArray {
        var entry := if name in root then root[name] else JArray([JObject(map[])]);
        var nested := entry.items[0].fields;
        if name !in root {
          NavigableEmpty(keys[1..]);
        }
        InsertThenLookup(nested, keys[1..], value);
      } else {
        var entry := if name in root then root[name] else JObject(map[]);
        if name !in root {
          NavigableEmpty(keys[1..]);
        }
        InsertThenLookup(entry.fields, keys[1..], value);
      }
    }
  }

  /** The first `$array` segment (other than the last) that blocks an insertion at `keys`:
      its name holds something other than an array, or an empty array. None when the walk
      gets through, or stops first at a value that is not an object. */
  function Blocker(doc: map<string, Json>, keys: seq<string>): Option<InsertError>
    requires |keys| >= 1
    decreases |keys|
  {
    var segment := Parse(keys[0]);
    if |keys| == 1 || segment.name !in doc then None
    else
      var next := doc[segment.name];
      if segment.isArray then
        if !next.JArray? then Some(NotAnArray(segment.name))
        else if |next.items| == 0 then Some(EmptyArray(segment.name))
        else if next.items[0].JObject? then Blocker(next.items[0].fields, keys[1..])
        else None
      else if next.JObject? then Blocker(next.fields, keys[1..])
      else None
  }

  /** An insertion that does not get through fails with the panic of its first blocking
      `$array` segment, and without one (it stops at a value that is not an object)
      leaves the map as it was. */
  lemma {:induction false} InsertBlocked(root: map<string, Json>, keys: seq<string>, value: PropertyValue)
    requires |keys| >= 1 && !Navigable(root, keys)
    ensures Blocker(root, keys).Some? ==> InsertNested(root, keys, value) == Err(Blocker(root, keys).value)
    ensures Blocker(root, keys).None? ==> InsertNested(root, keys, value) == Ok(root)
    decreases |keys|
  {
    var name := Parse(keys[0]).name;
    assert |keys| >= 2 && name in root;
    var next := root[name];
    if Parse(keys[0]).isArray {
      if next.JArray? && |next.items| > 0 && next.items[0].JObject? {
        var nested := next.items[0].fields;
        InsertBlocked(nested, keys[1..], value);
        BlockedArrayStep(root, keys, value);
      } else if next.JArray? && |next.items| > 0 {
        assert root[name := next] == root;
      }
    } else if next.JObject? {
      InsertBlocked(next.fields, keys[1..], value);
      BlockedObjectStep(root, keys, value);
    } else {
      assert root[name := next] == root;
    }
  }

  /** An insertion through element 0 of an existing array fails as the insertion into
      that element fails, and leaves the map as it was when that one does. */
  lemma BlockedArrayStep(root: map<string, Json>, keys: seq<string>, value: PropertyValue)
    requires |keys| >= 2 && Parse(keys[0]).isArray && Parse(keys[0]).name in root
    requires var next := root[Parse(keys[0]).name]; next.JArray? && |next.items| > 0 && next.items[0].JObject?
    ensures var next := root[Parse(keys[0]).name];
      && Blocker(root, keys) == Blocker(next.items[0].fields, keys[1..])
      && (InsertNested(next.items[0].fields, keys[1..], value) == Ok(next.items[0].fields) ==>
            InsertNested(root, keys, value) == Ok(root))
      && (InsertNested(next.items[0].fields, keys[1..], value).Err? ==>
            InsertNested(root, keys, value) == Err(InsertNested(next.items[0].fields, keys[1..], value).error))
  {
    var name := Parse(keys[0]).name;
    var next := root[name];
    assert next.items[0 := JObject(next.items[0].fields)] == next.items;
    assert root[name := JArray(next.items)] == root;
  }

  /** The same through an existing object. */
  lemma BlockedObjectStep(root: map<string, Json>, keys: seq<string>, value: PropertyValue)
    requires |keys| >= 2 && !Parse(keys[0]).isArray && Parse(keys[0]).name in root
    requires root[Parse(keys[0]).name].JObject?
    ensures var next := root[Parse(keys[0]).name];
      && Blocker(root, keys) == Blocker(next.fields, keys[1..])
      && (InsertNested(next.fields, keys[1..], value) == Ok(next.fields) ==> InsertNested(root, keys, value) == Ok(root))
      && (InsertNested(next.fields, keys[1..], value).Err? ==>
            InsertNested(root, keys, value) == Err(InsertNested(next.fields, keys[1..], value).error))
  {
    var name := Parse(keys[0]).name;
    assert root[name := JObject(root[name].fields)] == root;
  }

  /** Inserting at `b` leaves what is found at a compatible `a`, and whether an insertion
      at `a` gets through, as they were. */
  lemma {:induction false} InsertKeepsCompatible(root: map<string, Json>, a: seq<string>, b: seq<string>,
                                                 value: PropertyValue)
    requires |a| >= 1 && |b| >= 1 && Compatible(a, b)
    requires InsertNested(root, b, value).Ok?
    ensures Lookup(InsertNested(root, b, value).value, a) == Lookup(root, a)
    ensures Navigable(root, a) ==> Navigable(InsertNested(root, b, value).value, a)
    decreases |b|, 1
  {
    var first := Parse(a[0]).name;
    if first != Parse(b[0]).name {
      var r := InsertNested(root, b, value).value;
      assert first in r <==> first in root;
      if first in root {
        assert r[first] == root[first];
      }
    } else if Parse(b[0]).isArray {
      KeepsCompatibleInArray(root, a, b, value);
    } else {
      KeepsCompatibleInObject(root, a, b, value);
    }
  }

  /** `InsertKeepsCompatible` past a shared first `$array` segment. */
  lemma {:induction false} KeepsCompatibleInArray(root: map<string, Json>, a: seq<string>, b: seq<string>,
                                                  value: PropertyValue)
    requires |a| >= 1 && |b| >= 1 && Compatible(a, b)
    requires Parse(a[0]).name == Parse(b[0]).name && Parse(b[0]).isArray
    requires InsertNested(root, b, value).Ok?
    ensures Lookup(InsertNested(root, b, value).value, a) == Lookup(root, a)
    ensures Navigable(root, a) ==> Navigable(InsertNested(root, b, value).value, a)
    decreases |b|, 0
  {
    var name := Parse(b[0]).name;
    var entry := if name in root then root[name] else JArray([JObject(map[])]);
    if entry.items[0].JObject? {
      InsertKeepsCompatible(entry.items[0].fields, a[1..], b[1..], value);
      if name !in root {
        LookupEmpty(a[1..]);
      }
    }
  }

  /** `InsertKeepsCompatible` past a shared first plain segment. */
  lemma {:induction false} KeepsCompatibleInObject(root: map<string, Json>, a: seq<string>, b: seq<string>,
                                                   value: PropertyValue)
    requires |a| >= 1 && |b| >= 1 && Compatible(a, b)
    requires Parse(a[0]).name == Parse(b[0]).name && !Parse(b[0]).isArray
    requires InsertNested(root, b, value).Ok?
    ensures Lookup(InsertNested(root, b, value).value, a) == Lookup(root, a)
    ensures Navigable(root, a) ==> Navigable(InsertNested(root, b, value).value, a)
    decreases |b|, 0
  {
    var name := Parse(b[0]).name;
    var entry := if name in root then root[name] else JObject(map[]);
    if entry.JObject? {
      InsertKeepsCompatible(entry.fields, a[1..], b[1..], value);
      if name !in root {
        LookupEmpty(a[1..]);
      }
    }
  }

  /** The names of `a`'s segments start the names of `b`'s segments. */
  predicate NamePrefix(a: seq<string>, b: seq<string>) {
    |a| <= |b| && forall i :: 0 <= i < |a| ==> Parse(a[i]).name == Parse(b[i]).name
  }

  /** `a` and `b` lie on one branch of a document: one's names start the other's. */
  predicate OnOneBranch(a: seq<string>, b: seq<string>) {
    NamePrefix(a, b) || NamePrefix(b, a)
  }

  lemma OnOneBranchCons(a: seq<string>, b: seq<string>)
    requires |a| >= 1 && |b| >= 1 && Parse(a[0]).name == Parse(b[0]).name
    requires OnOneBranch(a[1..], b[1..])
    ensures OnOneBranch(a, b)
  {
    forall i | 1 <= i < |a| && i < |b| ensures Parse(a[i]).name == Parse(b[i]).name || !OnOneBranch(a[1..], b[1..]) {
      assert a[i] == a[1..][i - 1] && b[i] == b[1..][i - 1];
    }
  }

  /** One level of an insertion at `b` through an `$array` segment, seen from a key `a`
      with the same first segment: where element 0 is an object, what is found at `a`
      before and after is what is found at the rest of `a` in that element before and
      after the insertion into it; otherwise nothing changes. */
  lemma DescendArray(root: map<string, Json>, b: seq<string>, value: PropertyValue, a: seq<string>)
    requires |a| >= 2 && |b| >= 2 && Parse(a[0]) == Parse(b[0]) && Parse(b[0]).isArray
    requires InsertNested(root, b, value).Ok?
    ensures var name := Parse(b[0]).name;
      var entry := if name in root then root[name] else JArray([JObject(map[])]);
      && entry.JArray? && |entry.items| > 0
      && (entry.items[0].JObject? ==>
            && InsertNested(entry.items[0].fields, b[1..], value).Ok?
            && Lookup(InsertNested(root, b, value).value, a) == Lookup(InsertNested(entry.items[0].fields, b[1..], value).value, a[1..])
            && Lookup(root, a) == Lookup(entry.items[0].fields, a[1..]))
      && (!entry.items[0].JObject? ==> InsertNested(root, b, value).value == root)
  {
    var name := Parse(b[0]).name;
    if name in root {
      assert root[name := root[name]] == root;
    }
  }

  /** The same through a plain segment. */
  lemma DescendObject(root: map<string, Json>, b: seq<string>, value: PropertyValue, a: seq<string>)
    requires |a| >= 2 && |b| >= 2 && Parse(a[0]) == Parse(b[0]) && !Parse(b[0]).isArray
    requires InsertNested(root, b, value).Ok?
    ensures var name := Parse(b[0]).name;
      var entry := if name in root then root[name] else JObject(map[]);
      && (entry.JObject? ==>
            && InsertNested(entry.fields, b[1..], value).Ok?
            && Lookup(InsertNested(root, b, value).value, a) == Lookup(InsertNested(entry.fields, b[1..], value).value, a[1..])
            && Lookup(root, a) == Lookup(entry.fields, a[1..]))
      && (!entry.JObject? ==> InsertNested(root, b, value).value == root)
  {
    var name := Parse(b[0]).name;
    if name in root {
      assert root[name := root[name]] == root;
    }
  }

  /** An insertion at `b` finds nothing new at a key `a` whose first segment has the same
      name but the other marker: it either leaves the map as it was or puts a value of the
      other shape at that name. */
  lemma MarkerMismatch(root: map<string, Json>, b: seq<string>, value: PropertyValue, a: seq<string>)
    requires |a| >= 2 && |b| >= 2 && Parse(a[0]).name == Parse(b[0]).name && Parse(a[0]).isArray != Parse(b[0]).isArray
    requires InsertNested(root, b, value).Ok?
    ensures Lookup(InsertNested(root, b, value).value, a).Some? ==> Lookup(root, a).Some?
  {
    var name := Parse(b[0]).name;
    if name in root {
      assert root[name := root[name]] == root;
    }
  }

  /** Keys with one segment lie on one branch with any key of the same first name. */
  lemma OnOneBranchHead(a: seq<string>, b: seq<string>)
    requires |a| >= 1 && |b| >= 1 && Parse(a[0]).name == Parse(b[0]).name
    requires |a| == 1 || |b| == 1
    ensures OnOneBranch(a, b)
  {
    assert NamePrefix(a, b) || NamePrefix(b, a);
  }

  /** Whatever is found after an insertion at `b` was found before, or lies on one branch
      with `b`: an insertion adds nothing beside its own path. */
  lemma {:induction false} InsertFound(root: map<string, Json>, b: seq<string>, value: PropertyValue, a: seq<string>)
    requires |a| >= 1 && |b| >= 1
    requires InsertNested(root, b, value).Ok?
    requires Lookup(InsertNested(root, b, value).value, a).Some?
    ensures Lookup(root, a).Some? || OnOneBranch(a, b)
    decreases |b|, 1
  {
    if Parse(a[0]).name != Parse(b[0]).name {
      InsertKeepsCompatible(root, a, b, value);
    } else if |a| == 1 || |b| == 1 {
      OnOneBranchHead(a, b);
    } else if Parse(a[0]) != Parse(b[0]) {
      MarkerMismatch(root, b, value, a);
    } else if Parse(b[0]).isArray {
      FoundInArray(root, b, value, a);
    } else {
      FoundInObject(root, b, value, a);
    }
  }

  /** `InsertFound` past a shared first `$array` segment. */
  lemma {:induction false} FoundInArray(root: map<string, Json>, b: seq<string>, value: PropertyValue, a: seq<string>)
    requires |a| >= 2 && |b| >= 2 && Parse(a[0]) == Parse(b[0]) && Parse(b[0]).isArray
    requires InsertNested(root, b, value).Ok?
    requires Lookup(InsertNested(root, b, value).value, a).Some?
    ensures Lookup(root, a).Some? || OnOneBranch(a, b)
    decreases |b|, 0
  {
    var name := Parse(b[0]).name;
    DescendArray(root, b, value, a);
    var entry := if name in root then root[name] else JArray([JObject(map[])]);
    if entry.items[0].JObject? {
      InsertFound(entry.items[0].fields, b[1..], value, a[1..]);
      if !Lookup(root, a).Some? {
        OnOneBranchCons(a, b);
      }
    }
  }

  /** `InsertFound` past a shared first plain segment. */
  lemma {:induction false} FoundInObject(root: map<string, Json>, b: seq<string>, value: PropertyValue, a: seq<string>)
    requires |a| >= 2 && |b| >= 2 && Parse(a[0]) == Parse(b[0]) && !Parse(b[0]).isArray
    requires InsertNested(root, b, value).Ok?
    requires Lookup(InsertNested(root, b, value).value, a).Some?
    ensures Lookup(root, a).Some? || OnOneBranch(a, b)
    decreases |b|, 0
  {
    var name := Parse(b[0]).name;
    DescendObject(root, b, value, a);
    var entry := if name in root then root[name] else JObject(map[]);
    if entry.JObject? {
      InsertFound(entry.fields, b[1..], value, a[1..]);
      if !Lookup(root, a).Some? {
        OnOneBranchCons(a, b);
      }
    }
  }

  /** What `Lookup` finds at `keys` is an array with exactly one element. */
  predicate SingleSample(doc: map<string, Json>, keys: seq<string>)
    requires |keys| >= 1
  {
    var found := Lookup(doc, keys);
    found.Some? && found.value.JArray? && |found.value.items| == 1
  }

  /** Where `Lookup` finds something, it finds something at every shorter prefix too. */
  lemma {:induction false} LookupPrefix(doc: map<string, Json>, keys: seq<string>, j: nat)
    requires 1 <= j <= |keys| && Lookup(doc, keys).Some?
    ensures Lookup(doc, keys[..j]).Some?
    decreases j
  {
    if j == |keys| {
      assert keys[..j] == keys;
    } else if j > 1 {
      var segment := Parse(keys[0]);
      var next := doc[segment.name];
      assert keys[..j][0] == keys[0] && keys[..j][1..] == keys[1..][..j - 1];
      if segment.isArray {
        LookupPrefix(next.items[0].fields, keys[1..], j - 1);
      } else {
        LookupPrefix(next.fields, keys[1..], j - 1);
      }
    }
  }

  /** An insertion at `b` keeps every `$array` segment (other than the last) of the same
      key, or of a compatible one, a one-element array where anything is found there: it
      either creates the array with one element, descends into element 0 of it, or does
      not reach it. */
  lemma {:induction false} InsertKeepsSingle(root: map<string, Json>, a: seq<string>, b: seq<string>,
                                             value: PropertyValue, i: nat)
    requires |a| >= 1 && |b| >= 1 && (a == b || Compatible(a, b))
    requires i < |a| - 1 && Parse(a[i]).isArray
    requires InsertNested(root, b, value).Ok?
    requires Lookup(root, a[..i + 1]).Some? ==> SingleSample(root, a[..i + 1])
    ensures Lookup(InsertNested(root, b, value).value, a[..i + 1]).Some? ==>
      SingleSample(InsertNested(root, b, value).value, a[..i + 1])
    decreases i, 1
  {
    var p := a[..i + 1];
    assert p[0] == a[0];
    if Parse(a[0]).name != Parse(b[0]).name {
      InsertKeepsCompatible(root, p, b, value);
    } else if i == 0 {
      assert p == [a[0]];
    } else if Parse(b[0]).isArray {
      KeepsSingleInArray(root, a, b, value, i);
    } else {
      KeepsSingleInObject(root, a, b, value, i);
    }
  }

  /** `InsertKeepsSingle` past a shared first `$array` segment. */
  lemma {:induction false} KeepsSingleInArray(root: map<string, Json>, a: seq<string>, b: seq<string>,
                                              value: PropertyValue, i: nat)
    requires |a| >= 1 && |b| >= 1 && (a == b || Compatible(a, b))
    requires 0 < i < |a| - 1 && Parse(a[i]).isArray && Parse(a[0]).name == Parse(b[0]).name && Parse(b[0]).isArray
    requires InsertNested(root, b, value).Ok?
    requires Lookup(root, a[..i + 1]).Some? ==> SingleSample(root, a[..i + 1])
    ensures Lookup(InsertNested(root, b, value).value, a[..i + 1]).Some? ==>
      SingleSample(InsertNested(root, b, value).value, a[..i + 1])
    decreases i, 0
  {
    var p := a[..i + 1];
    assert Parse(a[0]) == Parse(b[0]) && |b| >= 2 && (a[1..] == b[1..] || Compatible(a[1..], b[1..]));
    SliceTail(a, i);
    DescendArray(root, b, value, p);
    var entry := if Parse(b[0]).name in root then root[Parse(b[0]).name] else JArray([JObject(map[])]);
    if entry.items[0].JObject? {
      var inner := entry.items[0].fields;
      assert Lookup(root, p) == Lookup(inner, a[1..][..i]);
      assert SingleSample(root, p) == SingleSample(inner, a[1..][..i]);
      InsertKeepsSingle(inner, a[1..], b[1..], value, i - 1);
    }
  }

  /** Dropping the first segment of the prefix `a[..i + 1]` gives a prefix of `a[1..]`. */
  lemma SliceTail(a: seq<string>, i: nat)
    requires 0 < i < |a|
    ensures a[..i + 1][0] == a[0] && a[..i + 1][1..] == a[1..][..i] && a[1..][i - 1] == a[i]
  {
  }

  /** `InsertKeepsSingle` past a shared first plain segment. */
  lemma {:induction false} KeepsSingleInObject(root: map<string, Json>, a: seq<string>, b: seq<string>,
                                               value: PropertyValue, i: nat)
    requires |a| >= 1 && |b| >= 1 && (a == b || Compatible(a, b))
    requires 0 < i < |a| - 1 && Parse(a[i]).isArray && Parse(a[0]).name == Parse(b[0]).name && !Parse(b[0]).isArray
    requires InsertNested(root, b, value).Ok?
    requires Lookup(root, a[..i + 1]).Some? ==> SingleSample(root, a[..i + 1])
    ensures Lookup(InsertNested(root, b, value).value, a[..i + 1]).Some? ==>
      SingleSample(InsertNested(root, b, value).value, a[..i + 1])
    decreases i, 0
  {
    var p := a[..i + 1];
    assert Parse(a[0]) == Parse(b[0]) && |b| >= 2 && (a[1..] == b[1..] || Compatible(a[1..], b[1..]));
    SliceTail(a, i);
    DescendObject(root, b, value, p);
    var entry := if Parse(b[0]).name in root then root[Parse(b[0]).name] else JObject(map[]);
    if entry.JObject? {
      InsertKeepsSingle(entry.fields, a[1..], b[1..], value, i - 1);
    }
  }

  // ---------------------------------------------------------------------------
  // Rebuilding the whole document
  // ---------------------------------------------------------------------------

  /** The segments of a flat key. */
  function Segments(key: string): (keys: seq<string>)
    ensures |keys| >= 1
  {
    Split(key, '.')
  }

  /** The top-level name a flat key is inserted under. */
  function FirstName(key: string): string {
    Parse(Segments(key)[0]).name
  }

  /** Every two distinct keys of the table are compatible. */
  predicate KeysCompatible(table: map<string, PropertyValue>) {
    forall k1, k2 :: k1 in table && k2 in table && k1 != k2 ==> Compatible(Segments(k1), Segments(k2))
  }

  /** The `$array` segments of `key` other than the last meet one-element arrays in `doc`. */
  ghost predicate SingleSamplesAlong(doc: map<string, Json>, key: string) {
    forall i :: 0 <= i < |Segments(key)| - 1 && Parse(Segments(key)[i]).isArray ==> SingleSample(doc, Segments(key)[..i + 1])
  }

  /** `doc` is the document rebuilt from `table`: its top-level keys are the first
      segment names of the table's keys, and whatever is found in it lies on one branch
      with some key; when the keys are compatible, each entry's serialised value is found
      at its segments, and each `$array` segment on the way holds a one-element array. */
  ghost predicate Reconstructs(table: map<string, PropertyValue>, doc: map<string, Json>) {
    && doc.Keys == (set k | k in table :: FirstName(k))
    && (forall keys :: |keys| >= 1 && Lookup(doc, keys).Some? ==> exists k :: k in table && OnOneBranch(keys, Segments(k)))
    && (KeysCompatible(table) ==>
         forall k :: k in table ==> Lookup(doc, Segments(k)) == Some(Serialize(table[k])) && SingleSamplesAlong(doc, k))
  }

  /** `create_valid_json_from_hashmap`: inserts every entry of the table, in the map's
      own iteration order (any order), into one shared root.

      Result: the rebuilt document; with compatible keys the insertions never fail. */
  method BuildDocument(table: map<string, PropertyValue>) returns (r: Result<map<string, Json>, InsertError>)
    ensures r.Ok? ==> Reconstructs(table, r.value)
    ensures KeysCompatible(table) ==> r.Ok?
  {
    var root: map<string, Json> := map[];
    var remaining := table.Keys;
    ghost var done: set<string> := {};
    BuiltAtStart(table);
    while remaining != {}
      invariant Built(table, root, done, remaining)
      decreases remaining
    {
      var key :| key in remaining;
      var next := InsertNested(root, Segments(key), table[key]);
      BuiltInsertOk(table, root, done, remaining, key);
      if next.Err? {
        return Err(next.error);
      }
      BuiltStep(table, root, next.value, done, remaining, key);
      root := next.value;
      remaining := remaining - {key};
      done := done + {key};
    }
    BuiltAtEnd(table, root, done);
    return Ok(root);
  }

  /** The state of `BuildDocument` after inserting the keys `done` into `root`, with the
      keys `remaining` still to come. */
  ghost predicate Built(table: map<string, PropertyValue>, root: map<string, Json>, done: set<string>, remaining: set<string>) {
    && remaining + done == table.Keys && remaining !! done
    && NamesOf(root, done)
    && FoundOnBranch(root, done)
    && (KeysCompatible(table) ==> BuiltCompatible(table, root, done, remaining))
  }

  /** The top-level keys of `doc` are the first segment names of the keys `done`. */
  ghost predicate NamesOf(doc: map<string, Json>, done: set<string>) {
    doc.Keys == (set k | k in done :: FirstName(k))
  }

  /** Whatever is found in `doc` lies on one branch with one of the keys `done`. */
  ghost predicate FoundOnBranch(doc: map<string, Json>, done: set<string>) {
    forall keys :: |keys| >= 1 && Lookup(doc, keys).Some? ==> exists k :: k in done && OnOneBranch(keys, Segments(k))
  }

  /** With compatible keys: what is inserted is found, what remains is insertable, and the
      `$array` segments met hold one-element arrays. */
  ghost predicate BuiltCompatible(table: map<string, PropertyValue>, root: map<string, Json>, done: set<string>,
                                  remaining: set<string>)
    requires remaining + done == table.Keys
  {
    && (forall k :: k in done ==> Lookup(root, Segments(k)) == Some(Serialize(table[k])))
    && (forall k :: k in remaining ==> Navigable(root, Segments(k)))
    && (forall k :: k in table ==> SamplesWhereFound(root, k))
  }

  lemma BuiltAtStart(table: map<string, PropertyValue>)
    ensures Built(table, map[], {}, table.Keys)
  {
    forall k | k in table ensures Navigable(map[], Segments(k)) {
      NavigableEmpty(Segments(k));
    }
    forall keys | |keys| >= 1 ensures Lookup(map[], keys).None? {
      LookupEmpty(keys);
    }
  }

  /** With compatible keys the next insertion gets through. */
  lemma BuiltInsertOk(table: map<string, PropertyValue>, root: map<string, Json>, done: set<string>,
                      remaining: set<string>, key: string)
    requires Built(table, root, done, remaining) && key in remaining
    ensures KeysCompatible(table) ==> InsertNested(root, Segments(key), table[key]).Ok?
  {
    if KeysCompatible(table) {
      InsertThenLookup(root, Segments(key), table[key]);
    }
  }

  lemma BuiltStep(table: map<string, PropertyValue>, root: map<string, Json>, next: map<string, Json>,
                  done: set<string>, remaining: set<string>, key: string)
    requires Built(table, root, done, remaining) && key in remaining
    requires InsertNested(root, Segments(key), table[key]) == Ok(next)
    ensures Built(table, next, done + {key}, remaining - {key})
  {
    FirstNamesStep(root, next, done, key);
    MoveKey(remaining, done, key, table.Keys);
    FoundStep(root, next, key, table[key], done);
    if KeysCompatible(table) {
      InsertCompatibleStep(table, root, next, key, done, remaining);
    }
  }

  lemma BuiltAtEnd(table: map<string, PropertyValue>, root: map<string, Json>, done: set<string>)
    requires Built(table, root, done, {})
    ensures Reconstructs(table, root)
  {
    assert done == table.Keys;
    assert root.Keys == (set k | k in table :: FirstName(k));
    if KeysCompatible(table) {
      forall k | k in table ensures SingleSamplesAlong(root, k) {
        SamplesAlong(root, k);
      }
    }
  }

  /** Along `key`, each `$array` segment other than the last meets a one-element array
      wherever anything is found there. */
  ghost predicate SamplesWhereFound(doc: map<string, Json>, key: string) {
    forall i :: 0 <= i < |Segments(key)| - 1 && Parse(Segments(key)[i]).isArray && Lookup(doc, Segments(key)[..i + 1]).Some?
      ==> SingleSample(doc, Segments(key)[..i + 1])
  }

  /** Once the whole key is found, something is found at each of its prefixes. */
  lemma SamplesAlong(doc: map<string, Json>, key: string)
    requires SamplesWhereFound(doc, key) && Lookup(doc, Segments(key)).Some?
    ensures SingleSamplesAlong(doc, key)
  {
    forall i | 0 <= i < |Segments(key)| - 1 && Parse(Segments(key)[i]).isArray
      ensures SingleSample(doc, Segments(key)[..i + 1])
    {
      LookupPrefix(doc, Segments(key), i + 1);
    }
  }

  /** One insertion of `BuildDocument` finds nothing new beside the inserted key's path. */
  lemma FoundStep(root: map<string, Json>, next: map<string, Json>, key: string, value: PropertyValue, done: set<string>)
    requires InsertNested(root, Segments(key), value) == Ok(next)
    requires FoundOnBranch(root, done)
    ensures FoundOnBranch(next, done + {key})
  {
    forall keys | |keys| >= 1 && Lookup(next, keys).Some?
      ensures exists k :: k in done + {key} && OnOneBranch(keys, Segments(k))
    {
      InsertFound(root, Segments(key), value, keys);
      if !Lookup(root, keys).Some? {
        assert key in done + {key};
      }
    }
  }

  /** With compatible keys, one insertion of `BuildDocument` keeps the `$array` segments of
      every key one-element arrays where anything is found there. */
  lemma SamplesStep(table: map<string, PropertyValue>, root: map<string, Json>, next: map<string, Json>, key: string)
    requires KeysCompatible(table) && key in table
    requires InsertNested(root, Segments(key), table[key]) == Ok(next)
    requires forall k :: k in table ==> SamplesWhereFound(root, k)
    ensures forall k :: k in table ==> SamplesWhereFound(next, k)
  {
    forall k, i | k in table && 0 <= i < |Segments(k)| - 1 && Parse(Segments(k)[i]).isArray
                  && Lookup(next, Segments(k)[..i + 1]).Some?
      ensures SingleSample(next, Segments(k)[..i + 1])
    {
      InsertKeepsSingle(root, Segments(k), Segments(key), table[key], i);
    }
  }

  /** Moving one key from the keys still to come to those inserted keeps them a partition. */
  lemma MoveKey(remaining: set<string>, done: set<string>, key: string, keys: set<string>)
    requires remaining + done == keys && remaining !! done && key in remaining
    ensures (remaining - {key}) + (done + {key}) == keys && (remaining - {key}) !! (done + {key})
  {
  }

  /** One more inserted key adds its first segment name to the top-level keys. */
  lemma FirstNamesStep(root: map<string, Json>, next: map<string, Json>, done: set<string>, key: string)
    requires NamesOf(root, done)
    requires next.Keys == root.Keys + {FirstName(key)}
    ensures NamesOf(next, done + {key})
  {
    var before := set k | k in done :: FirstName(k);
    var after := set k | k in done + {key} :: FirstName(k);
    forall x | x in before
      ensures x in after
    {
      var k :| k in done && FirstName(k) == x;
      assert k in done + {key};
    }
    assert after == before + {FirstName(key)};
  }

  /** With compatible keys, one insertion of `BuildDocument` keeps every entry inserted
      so far where `Lookup` finds it, every entry still to come insertable, and the
      one-element arrays where they were. */
  lemma InsertCompatibleStep(table: map<string, PropertyValue>, root: map<string, Json>, next: map<string, Json>,
                             key: string, done: set<string>, remaining: set<string>)
    requires KeysCompatible(table)
    requires remaining + done == table.Keys && remaining !! done && key in remaining
    requires InsertNested(root, Segments(key), table[key]) == Ok(next)
    requires BuiltCompatible(table, root, done, remaining)
    ensures BuiltCompatible(table, next, done + {key}, remaining - {key})
  {
    InsertThenLookup(root, Segments(key), table[key]);
    forall k | k in done
      ensures Lookup(next, Segments(k)) == Some(Serialize(table[k]))
    {
      InsertKeepsCompatible(root, Segments(k), Segments(key), table[key]);
    }
    forall k | k in remaining - {key}
      ensures Navigable(next, Segments(k))
    {
      InsertKeepsCompatible(root, Segments(k), Segments(key), table[key]);
    }
    SamplesStep(table, root, next, key);
  }

  // ---------------------------------------------------------------------------
  // Mock bodies of plain schemas
  // ---------------------------------------------------------------------------

  /** The segments of a path's flat key, step by step: a property step opens a segment
      (the first one takes the place of the empty key), an items step marks the last. */
  function PathSegments(p: ObjectReferenceHandler.Path): (segs: seq<string>)
    ensures |segs| >= 1
    decreases |p|
  {
    if p == [] then [""]
    else
      var q := p[..|p| - 1];
      match p[|p| - 1]
      case Prop(k, _) => if q == [] then [k] else PathSegments(q) + [k]
      case Items => var s := PathSegments(q); s[..|s| - 1] + [s[|s| - 1] + "$array"]
  }

  /** Along a plain path, splitting the flat key at `.` gives the path's segments. */
  lemma {:induction false} KeySegments(p: ObjectReferenceHandler.Path)
    requires ObjectReferenceHandler.PlainPath(p)
    ensures Segments(ObjectReferenceHandler.Key(p)) == PathSegments(p)
    ensures p != [] ==> ObjectReferenceHandler.Key(p) != ""
    decreases |p|
  {
    if p != [] {
      var q := p[..|p| - 1];
      forall i | 0 <= i < |q| && q[i].Prop?
        ensures ObjectReferenceHandler.PlainName(q[i].name)
      {
        assert q[i] == p[i];
      }
      KeySegments(q);
      var key := ObjectReferenceHandler.Key(q);
      match p[|p| - 1]
      case Prop(k, _) =>
        SplitJoin([k], '.');
        if q != [] {
          assert key + "." + k == key + ['.'] + k;
          SplitAroundSeparator(key, k, '.');
        }
      case Items =>
        SplitExtendLast(key, "$array", '.');
    }
  }

  /** What follows a segment's name: nothing, or one or more `$array` markers. */
  predicate Marked(t: string) {
    t == "" || (t[0] == '$' && EndsWith(t, "$array"))
  }

  /** A name free of `$`, followed by markers, reads back as the name. */
  lemma ParseMarkedName(name: string, t: string)
    requires '$' !in name && Marked(t)
    ensures Parse(name + t).name == name
  {
    ParseMarked(name);
    if t != "" {
      var u := name + t;
      assert u[|u| - 6..] == t[|t| - 6..];
      assert u == name + ['$'] + t[1..];
      SplitAroundSeparator(name, t[1..], '$');
      SplitJoin([name], '$');
    } else {
      assert name + t == name;
    }
  }

  /** The segments of `p` before its step `j` are those of `p[..j]` (none when `j` is 0),
      and the next one holds the name of that step followed by the markers `t`. */
  predicate SegmentAt(p: ObjectReferenceHandler.Path, j: nat, t: string)
    requires j < |p| && p[j].Prop?
  {
    var segs, m := PathSegments(p), if j == 0 then 0 else |PathSegments(p[..j])|;
    && m < |segs|
    && segs[..m] == (if j == 0 then [] else PathSegments(p[..j]))
    && segs[m] == p[j].name + t && Marked(t)
  }

  /** Every property step of a path starts a segment of its own. */
  lemma {:induction false} PathSegmentsAfter(p: ObjectReferenceHandler.Path, j: nat) returns (t: string)
    requires j < |p| && p[j].Prop?
    ensures SegmentAt(p, j, t)
    decreases |p|
  {
    if j == |p| - 1 {
      t := PathSegmentsAt(p, j);
    } else {
      var q := p[..|p| - 1];
      assert q[j] == p[j];
      var t0 := PathSegmentsAfter(q, j);
      t := SegmentAtStep(p, j, t0);
    }
  }

  /** `PathSegmentsAfter` for the last step of a path. */
  lemma PathSegmentsAt(p: ObjectReferenceHandler.Path, j: nat) returns (t: string)
    requires j == |p| - 1 && p[j].Prop?
    ensures SegmentAt(p, j, t)
  {
    assert p[..|p| - 1] == p[..j];
    t := "";
    assert p[j].name + t == p[j].name;
  }

  /** One more step after `p[..|p| - 1]` keeps the segment that its step `j` starts. */
  lemma SegmentAtStep(p: ObjectReferenceHandler.Path, j: nat, t: string) returns (t': string)
    requires j < |p| - 1 && p[j].Prop? && p[..|p| - 1][j] == p[j]
    requires SegmentAt(p[..|p| - 1], j, t)
    ensures SegmentAt(p, j, t')
  {
    var q, x := p[..|p| - 1], p[|p| - 1];
    SplitLast(p, j);
    var m := if j == 0 then 0 else |PathSegments(q[..j])|;
    PathSegmentsStep(q, x);
    t' := SegmentKept(PathSegments(q), PathSegments(p), m, q[j].name, t);
  }

  /** A path is its prefix without the last step, plus that step. */
  lemma SplitLast(p: ObjectReferenceHandler.Path, j: nat)
    requires j < |p|
    ensures p == p[..|p| - 1] + [p[|p| - 1]] && p[..j] == p[..|p| - 1][..j]
  {
  }

  /** A new last segment, or a marker added to the last one, keeps the segments before
      `m`, and keeps segment `m` a name followed by markers. */
  lemma SegmentKept(before: seq<string>, after: seq<string>, m: nat, name: string, t: string) returns (t': string)
    requires m < |before| && before[m] == name + t && Marked(t)
    requires || (|after| == |before| + 1 && after[..|before|] == before)
             || (|after| == |before| && after[..|before| - 1] == before[..|before| - 1]
                 && after[|before| - 1] == before[|before| - 1] + "$array")
    ensures m < |after| && after[..m] == before[..m]
    ensures after[m] == name + t' && Marked(t')
  {
    if |after| == |before| + 1 {
      assert after[..m] == after[..|before|][..m];
      assert after[m] == after[..|before|][m];
      t' := t;
    } else if m == |before| - 1 {
      MarkedMore(t);
      t' := t + "$array";
    } else {
      assert after[..m] == after[..|before| - 1][..m];
      assert after[m] == after[..|before| - 1][m];
      t' := t;
    }
  }

  /** The segments of a path one step longer. */
  lemma PathSegmentsStep(q: ObjectReferenceHandler.Path, x: ObjectReferenceHandler.Step)
    ensures x.Prop? ==> PathSegments(q + [x]) == if q == [] then [x.name] else PathSegments(q) + [x.name]
    ensures x.Items? ==>
      PathSegments(q + [x]) == PathSegments(q)[..|PathSegments(q)| - 1] + [PathSegments(q)[|PathSegments(q)| - 1] + "$array"]
  {
    assert (q + [x])[..|q|] == q;
  }

  /** One more marker keeps a suffix of markers. */
  lemma MarkedMore(t: string)
    requires Marked(t)
    ensures Marked(t + "$array")
  {
    assert (t + "$array")[|t + "$array"| - 6..] == "$array";
  }

  /** Two keys are compatible when they agree on the segments before `m` and name
      different keys at `m`. */
  lemma {:induction false} CompatibleAt(a: seq<string>, b: seq<string>, m: nat)
    requires m < |a| && m < |b| && a[..m] == b[..m]
    requires Parse(a[m]).name != Parse(b[m]).name
    ensures Compatible(a, b)
    decreases m
  {
    if m > 0 {
      assert a[0] == a[..m][0] && b[0] == b[..m][0];
      assert a[1..][..m - 1] == a[..m][1..] && b[1..][..m - 1] == b[..m][1..];
      CompatibleAt(a[1..], b[1..], m - 1);
    }
  }

  /** Compatible keys differ. */
  lemma {:induction false} CompatibleDiffer(a: seq<string>, b: seq<string>)
    requires |a| >= 1 && |b| >= 1 && Compatible(a, b)
    ensures a != b
    decreases |a|
  {
    if Parse(a[0]).name == Parse(b[0]).name {
      CompatibleDiffer(a[1..], b[1..]);
    }
  }

  /** In a plain spec, the keys of two different leaf paths are compatible. */
  lemma LeafKeysCompatible(spec: ObjectReferenceHandler.Spec, root: ObjectReferenceHandler.SchemaNode,
                           p1: ObjectReferenceHandler.Path, p2: ObjectReferenceHandler.Path)
    requires ObjectReferenceHandler.PlainSpec(spec, root)
    requires ObjectReferenceHandler.LeafAt(spec, root, p1).Some? && ObjectReferenceHandler.LeafAt(spec, root, p2).Some?
    requires p1 != p2
    ensures Compatible(Segments(ObjectReferenceHandler.Key(p1)), Segments(ObjectReferenceHandler.Key(p2)))
  {
    var j := ObjectReferenceHandler.LeafPathsDiverge(spec, root, p1, p2);
    ObjectReferenceHandler.LeafPathPlain(spec, root, p1);
    ObjectReferenceHandler.LeafPathPlain(spec, root, p2);
    KeySegments(p1);
    KeySegments(p2);
    DivergentPathsCompatible(p1, p2, j);
  }

  /** Plain paths that share their first `j` steps and then name different properties
      have compatible segments. */
  lemma DivergentPathsCompatible(p1: ObjectReferenceHandler.Path, p2: ObjectReferenceHandler.Path, j: nat)
    requires ObjectReferenceHandler.PlainPath(p1) && ObjectReferenceHandler.PlainPath(p2)
    requires j < |p1| && j < |p2| && p1[..j] == p2[..j]
    requires p1[j].Prop? && p2[j].Prop? && p1[j].name != p2[j].name
    ensures Compatible(PathSegments(p1), PathSegments(p2))
  {
    var t1 := PathSegmentsAfter(p1, j);
    var t2 := PathSegmentsAfter(p2, j);
    var m := if j == 0 then 0 else |PathSegments(p1[..j])|;
    var a, b := PathSegments(p1), PathSegments(p2);
    ParseMarkedName(p1[j].name, t1);
    ParseMarkedName(p2[j].name, t2);
    CompatibleAt(a, b, m);
  }

  /** A flattening of a plain spec has compatible keys, so rebuilding it never fails. */
  lemma FlattenedKeysCompatible(spec: ObjectReferenceHandler.Spec, root: ObjectReferenceHandler.SchemaNode,
                                table: map<string, PropertyValue>)
    requires ObjectReferenceHandler.PlainSpec(spec, root)
    requires ObjectReferenceHandler.Flattens(spec, root, table)
    ensures KeysCompatible(table)
  {
    forall k1, k2 | k1 in table && k2 in table && k1 != k2
      ensures Compatible(Segments(k1), Segments(k2))
    {
      var p1 :| ObjectReferenceHandler.LeafAt(spec, root, p1).Some? && ObjectReferenceHandler.Key(p1) == k1;
      var p2 :| ObjectReferenceHandler.LeafAt(spec, root, p2).Some? && ObjectReferenceHandler.Key(p2) == k2;
      LeafKeysCompatible(spec, root, p1, p2);
    }
  }

  /** `doc` is a mock body for `root`: every leaf path's key finds an admissible value,
      every top-level key starts a leaf path's key, and nothing else is found. */
  ghost predicate MocksEveryLeaf(spec: ObjectReferenceHandler.Spec, root: ObjectReferenceHandler.SchemaNode,
                                 doc: map<string, Json>) {
    LeavesMocked(spec, root, doc) && NamesFromLeaves(spec, root, doc) && FoundOnLeaves(spec, root, doc)
  }

  /** At the segments of every leaf path's key `doc` holds the serialised form of a value
      admissible for that leaf, with a one-element array at each `$array` segment on the way. */
  ghost predicate LeavesMocked(spec: ObjectReferenceHandler.Spec, root: ObjectReferenceHandler.SchemaNode,
                               doc: map<string, Json>) {
    forall p :: ObjectReferenceHandler.LeafAt(spec, root, p).Some? ==>
      && (exists v :: ObjectReferenceHandler.AdmissibleValue(ObjectReferenceHandler.LeafAt(spec, root, p).value, v)
                      && Lookup(doc, Segments(ObjectReferenceHandler.Key(p))) == Some(Serialize(v)))
      && SingleSamplesAlong(doc, ObjectReferenceHandler.Key(p))
  }

  /** Each top-level key of `doc` starts some leaf path's key. */
  ghost predicate NamesFromLeaves(spec: ObjectReferenceHandler.Spec, root: ObjectReferenceHandler.SchemaNode,
                                  doc: map<string, Json>) {
    forall name :: name in doc ==>
      exists p :: ObjectReferenceHandler.LeafAt(spec, root, p).Some? && FirstName(ObjectReferenceHandler.Key(p)) == name
  }

  /** Whatever is found in `doc` lies on one branch with some leaf path's key. */
  ghost predicate FoundOnLeaves(spec: ObjectReferenceHandler.Spec, root: ObjectReferenceHandler.SchemaNode,
                                doc: map<string, Json>) {
    forall keys :: |keys| >= 1 && Lookup(doc, keys).Some? ==>
      exists p :: ObjectReferenceHandler.LeafAt(spec, root, p).Some? && OnOneBranch(keys, Segments(ObjectReferenceHandler.Key(p)))
  }

  /** The document rebuilt from a flattening of a plain spec mocks every leaf. */
  lemma PlainMockBody(spec: ObjectReferenceHandler.Spec, root: ObjectReferenceHandler.SchemaNode,
                      table: map<string, PropertyValue>, doc: map<string, Json>)
    requires ObjectReferenceHandler.PlainSpec(spec, root)
    requires ObjectReferenceHandler.Flattens(spec, root, table)
    requires Reconstructs(table, doc)
    ensures MocksEveryLeaf(spec, root, doc)
  {
    LeavesInDocument(spec, root, table, doc);
    DocumentNamesFromLeaves(spec, root, table, doc);
    DocumentFoundOnLeaves(spec, root, table, doc);
  }

  /** In the document rebuilt from a flattening of a plain spec, each leaf path's key
      finds an admissible value through one-element arrays. */
  lemma LeavesInDocument(spec: ObjectReferenceHandler.Spec, root: ObjectReferenceHandler.SchemaNode,
                         table: map<string, PropertyValue>, doc: map<string, Json>)
    requires ObjectReferenceHandler.PlainSpec(spec, root)
    requires ObjectReferenceHandler.Flattens(spec, root, table)
    requires Reconstructs(table, doc)
    ensures LeavesMocked(spec, root, doc)
  {
    FlattenedKeysCompatible(spec, root, table);
    forall p | ObjectReferenceHandler.LeafAt(spec, root, p).Some?
      ensures exists v :: ObjectReferenceHandler.AdmissibleValue(ObjectReferenceHandler.LeafAt(spec, root, p).value, v)
                          && Lookup(doc, Segments(ObjectReferenceHandler.Key(p))) == Some(Serialize(v))
      ensures SingleSamplesAlong(doc, ObjectReferenceHandler.Key(p))
    {
      LeafValueAtKey(spec, root, table, p);
    }
  }

  /** Whatever is found in the document rebuilt from a flattening lies on one branch with
      the key of some leaf path. */
  lemma DocumentFoundOnLeaves(spec: ObjectReferenceHandler.Spec, root: ObjectReferenceHandler.SchemaNode,
                              table: map<string, PropertyValue>, doc: map<string, Json>)
    requires ObjectReferenceHandler.Flattens(spec, root, table)
    requires Reconstructs(table, doc)
    ensures FoundOnLeaves(spec, root, doc)
  {
    forall keys | |keys| >= 1 && Lookup(doc, keys).Some?
      ensures exists p :: ObjectReferenceHandler.LeafAt(spec, root, p).Some? && OnOneBranch(keys, Segments(ObjectReferenceHandler.Key(p)))
    {
      var k :| k in table && OnOneBranch(keys, Segments(k));
      var p :| ObjectReferenceHandler.LeafAt(spec, root, p).Some? && ObjectReferenceHandler.Key(p) == k;
    }
  }

  /** Each top-level key of the document rebuilt from a flattening starts the key of some
      leaf path. */
  lemma DocumentNamesFromLeaves(spec: ObjectReferenceHandler.Spec, root: ObjectReferenceHandler.SchemaNode,
                                table: map<string, PropertyValue>, doc: map<string, Json>)
    requires ObjectReferenceHandler.Flattens(spec, root, table)
    requires Reconstructs(table, doc)
    ensures NamesFromLeaves(spec, root, doc)
  {
    forall name | name in doc
      ensures exists p :: ObjectReferenceHandler.LeafAt(spec, root, p).Some? && FirstName(ObjectReferenceHandler.Key(p)) == name
    {
      var k :| k in table && FirstName(k) == name;
      var p :| ObjectReferenceHandler.LeafAt(spec, root, p).Some? && ObjectReferenceHandler.Key(p) == k;
    }
  }

  /** In a flattening of a plain spec, the value at a leaf path's key is admissible for
      that very leaf: no other leaf path shares its key. */
  lemma LeafValueAtKey(spec: ObjectReferenceHandler.Spec, root: ObjectReferenceHandler.SchemaNode,
                       table: map<string, PropertyValue>, p: ObjectReferenceHandler.Path)
    requires ObjectReferenceHandler.PlainSpec(spec, root)
    requires ObjectReferenceHandler.Flattens(spec, root, table)
    requires ObjectReferenceHandler.LeafAt(spec, root, p).Some?
    ensures ObjectReferenceHandler.Key(p) in table
    ensures ObjectReferenceHandler.AdmissibleValue(ObjectReferenceHandler.LeafAt(spec, root, p).value,
                                                   table[ObjectReferenceHandler.Key(p)])
  {
    var k := ObjectReferenceHandler.Key(p);
    var origin :| ObjectReferenceHandler.LeafAt(spec, root, origin).Some? && ObjectReferenceHandler.Key(origin) == k
                  && ObjectReferenceHandler.AdmissibleValue(ObjectReferenceHandler.LeafAt(spec, root, origin).value, table[k]);
    if origin != p {
      LeafKeysCompatible(spec, root, origin, p);
      CompatibleDiffer(Segments(k), Segments(k));
    }
  }

  // ---------------------------------------------------------------------------
  // Request and response objects
  // ---------------------------------------------------------------------------

  /** A request a path expects: headers, query parameters and the mock body (a JSON
      object; its text form is not modelled). */
  datatype RequestObject = RequestObject(headers: seq<string>, queryParams: map<string, string>, body: Option<Json>)

  /** The mock response of a path: its body and status code. */
  datatype ResponseObject = ResponseObject(response: Option<Json>, statusCode: Option<int>)

  /** Why building a mock body panics: in the flattener, or in the reconstructor. */
  datatype BuildError = FlattenFailed(flatten: ObjectReferenceHandler.FlattenError) | InsertFailed(insert: InsertError)

  /** `RequestObject::init`: no headers, no query parameters, no body. */
  function Init(): (r: RequestObject)
    ensures r.headers == [] && r.queryParams == map[] && r.body == None
  {
    RequestObject([], map[], None)
  }

  /** The mock body for a schema: flatten it, then rebuild the document.

      Result: the document rebuilt from some flattening of the schema. */
  method MockBody(spec: ObjectReferenceHandler.Spec, schema: ObjectReferenceHandler.SchemaNode, rng: nat -> nat, fuel: nat)
    returns (r: Result<map<string, Json>, BuildError>)
    ensures r.Ok? ==> exists table ::
      ObjectReferenceHandler.Flattens(spec, schema, table) && Reconstructs(table, r.value)
    ensures ObjectReferenceHandler.PlainSpec(spec, schema) && r.Err? ==> r.error.FlattenFailed?
    ensures ObjectReferenceHandler.PlainSpec(spec, schema) && r.Ok? ==> MocksEveryLeaf(spec, schema, r.value)
    ensures r.Err? && r.error.FlattenFailed? && !r.error.flatten.OutOfFuel? ==>
      ObjectReferenceHandler.Faulty(spec, schema, r.error.flatten)
    ensures r == Err(FlattenFailed(ObjectReferenceHandler.OutOfFuel)) ==>
      exists ps :: |ps| == fuel + 1 && ObjectReferenceHandler.ReachedDistinct(spec, schema, ps)
    ensures !ObjectReferenceHandler.Faultless(spec, schema) && ObjectReferenceHandler.FuelCovers(spec, schema, fuel) ==>
      r.Err? && r.error.FlattenFailed? && !r.error.flatten.OutOfFuel?
    ensures (&& ObjectReferenceHandler.PlainSpec(spec, schema) && ObjectReferenceHandler.Faultless(spec, schema)
             && ObjectReferenceHandler.FuelCovers(spec, schema, fuel)) ==> r.Ok?
  {
    var flat := ObjectReferenceHandler.GetBodyByObjectSchema(spec, schema, rng, fuel);
    if flat.Err? {
      return Err(FlattenFailed(flat.error));
    }
    if ObjectReferenceHandler.PlainSpec(spec, schema) {
      FlattenedKeysCompatible(spec, schema, flat.value);
    }
    var doc := BuildDocument(flat.value);
    if doc.Err? {
      return Err(InsertFailed(doc.error));
    }
    if ObjectReferenceHandler.PlainSpec(spec, schema) {
      PlainMockBody(spec, schema, flat.value, doc.value);
    }
    return Ok(doc.value);
  }

  /** `RequestObject::create_request_object_by_object_schema`: with a schema, no headers,
      no query parameters and the mock body; without one, `Init()`. */
  method CreateRequestObject(spec: ObjectReferenceHandler.Spec, schema: Option<ObjectReferenceHandler.SchemaNode>,
                             rng: nat -> nat, fuel: nat)
    returns (r: Result<RequestObject, BuildError>)
    ensures schema.None? ==> r == Ok(Init())
    ensures schema.Some? && r.Ok? ==>
      && r.value.headers == [] && r.value.queryParams == map[]
      && r.value.body.Some? && r.value.body.value.JObject?
      && exists table :: ObjectReferenceHandler.Flattens(spec, schema.value, table)
                          && Reconstructs(table, r.value.body.value.fields)
    ensures schema.Some? && ObjectReferenceHandler.PlainSpec(spec, schema.value) ==>
      (r.Err? ==> r.error.FlattenFailed?) && (r.Ok? ==> MocksEveryLeaf(spec, schema.value, r.value.body.value.fields))
    ensures schema.Some? && r.Err? && r.error.FlattenFailed? && !r.error.flatten.OutOfFuel? ==>
      ObjectReferenceHandler.Faulty(spec, schema.value, r.error.flatten)
    ensures schema.Some? && r == Err(FlattenFailed(ObjectReferenceHandler.OutOfFuel)) ==>
      exists ps :: |ps| == fuel + 1 && ObjectReferenceHandler.ReachedDistinct(spec, schema.value, ps)
    ensures (&& schema.Some? && !ObjectReferenceHandler.Faultless(spec, schema.value)
             && ObjectReferenceHandler.FuelCovers(spec, schema.value, fuel)) ==>
      r.Err? && r.error.FlattenFailed? && !r.error.flatten.OutOfFuel?
    ensures (&& schema.Some? && ObjectReferenceHandler.PlainSpec(spec, schema.value)
             && ObjectReferenceHandler.Faultless(spec, schema.value)
             && ObjectReferenceHandler.FuelCovers(spec, schema.value, fuel)) ==> r.Ok?
  {
    if schema.None? {
      return Ok(Init());
    }
    var body := MockBody(spec, schema.value, rng, fuel);
    if body.Err? {
      return Err(body.error);
    }
    return Ok(RequestObject([], map[], Some(JObject(body.value))));
  }

  /** `ResponseObject::create_response_object_by_object_schema`: with a schema, the mock
      body and status 200; without one, neither. */
  method CreateResponseObject(spec: ObjectReferenceHandler.Spec, schema: Option<ObjectReferenceHandler.SchemaNode>,
                              rng: nat -> nat, fuel: nat)
    returns (r: Result<ResponseObject, BuildError>)
    ensures schema.None? ==> r == Ok(ResponseObject(None, None))
    ensures schema.Some? && r.Ok? ==>
      && r.value.statusCode == Some(200)
      && r.value.response.Some? && r.value.response.value.JObject?
      && exists table :: ObjectReferenceHandler.Flattens(spec, schema.value, table)
                          && Reconstructs(table, r.value.response.value.fields)
    ensures schema.Some? && ObjectReferenceHandler.PlainSpec(spec, schema.value) ==>
      (r.Err? ==> r.error.FlattenFailed?) && (r.Ok? ==> MocksEveryLeaf(spec, schema.value, r.value.response.value.fields))
    ensures schema.Some? && r.Err? && r.error.FlattenFailed? && !r.error.flatten.OutOfFuel? ==>
      ObjectReferenceHandler.Faulty(spec, schema.value, r.error.flatten)
    ensures schema.Some? && r == Err(FlattenFailed(ObjectReferenceHandler.OutOfFuel)) ==>
      exists ps :: |ps| == fuel + 1 && ObjectReferenceHandler.ReachedDistinct(spec, schema.value, ps)
    ensures (&& schema.Some? && !ObjectReferenceHandler.Faultless(spec, schema.value)
             && ObjectReferenceHandler.FuelCovers(spec, schema.value, fuel)) ==>
      r.Err? && r.error.FlattenFailed? && !r.error.flatten.OutOfFuel?
    ensures (&& schema.Some? && ObjectReferenceHandler.PlainSpec(spec, schema.value)
             && ObjectReferenceHandler.Faultless(spec, schema.value)
             && ObjectReferenceHandler.FuelCovers(spec, schema.value, fuel)) ==> r.Ok?
  {
    if schema.None? {
      return Ok(ResponseObject(None, None));
    }
    var body := MockBody(spec, schema.value, rng, fuel);
    if body.Err? {
      return Err(body.error);
    }
    return Ok(ResponseObject(Some(JObject(body.value)), Some(200)));
  }
}
