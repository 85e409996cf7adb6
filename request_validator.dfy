/** The body validator: comparing the body a client sent with the mock body a path
    expects, and reporting the keys the client left out. */
module RequestValidator {
  import opened Wrappers
  import opened JsonValues
  import opened Strings
  import opened CompositeObjects

  datatype ValidationError = ValidationError(errorMessage: string)

  /** `p` is the path of a key the actual body misses: its last key is in the expected
      object and not in the actual one, and every key before it is in both, holding
      objects on the two sides. */
  predicate Missing(expected: map<string, Json>, actual: map<string, Json>, p: seq<string>)
    decreases |p|
  {
    && |p| >= 1
    && p[0] in expected
    && if p[0] !in actual then |p| == 1
       else
         && |p| >= 2
         && expected[p[0]].JObject? && actual[p[0]].JObject?
         && Missing(expected[p[0]].fields, actual[p[0]].fields, p[1..])
  }

  function Last(p: seq<string>): string
    requires |p| >= 1
  {
    p[|p| - 1]
  }

  /** `names` reports the missing keys, one per path of `paths`: each path is missing,
      each name is the last key of its path (no ancestors), and every missing path is
      listed exactly once. */
  ghost predicate ListsMissing(expected: map<string, Json>, actual: map<string, Json>,
                               names: seq<string>, paths: seq<seq<string>>) {
    && |names| == |paths|
    && (forall i :: 0 <= i < |paths| ==> Missing(expected, actual, paths[i]) && names[i] == Last(paths[i]))
    && (forall p :: Missing(expected, actual, p) ==> p in paths)
    && (forall i, j :: 0 <= i < j < |paths| ==> paths[i] != paths[j])
  }

  /** The paths `ps`, each under the key `key`. */
  function Under(key: string, ps: seq<seq<string>>): (r: seq<seq<string>>)
    ensures |r| == |ps|
    ensures forall i :: 0 <= i < |ps| ==> r[i] == [key] + ps[i]
  {
    seq(|ps|, i requires 0 <= i < |ps| => [key] + ps[i])
  }

  /** `check_difference`: for each key of the expected object (in any order), a key
      absent from the actual object is appended to `missingKeys`, and a key holding
      differing objects on both sides is checked recursively; any other difference
      (arrays, scalars, a change of kind) is passed over.

      Result: `missingKeys` followed by the names of all missing keys, each once. */
  method CheckDifference(expected: map<string, Json>, actual: map<string, Json>, missingKeys: seq<string>)
    returns (out: seq<string>, ghost paths: seq<seq<string>>)
    ensures |out| >= |missingKeys| && out[..|missingKeys|] == missingKeys
    ensures ListsMissing(expected, actual, out[|missingKeys|..], paths)
    decreases JObject(expected), 1
  {
    out := missingKeys;
    paths := [];
    ghost var names: seq<string> := [];
    var keys := expected.Keys;
    ghost var done: set<string> := {};
    while keys != {}
      invariant keys + done == expected.Keys && keys !! done
      invariant out == missingKeys + names
      invariant ListsMissingWithin(expected, actual, names, paths, done)
      decreases keys
    {
      var key :| key in keys;
      ghost var found;
      ghost var before := out;
      out, found := CheckEntry(expected, actual, key, out);
      ghost var more := out[|before|..];
      assert out == before + more;
      assert out == missingKeys + (names + more);
      ListsMissingStep(expected, actual, names, paths, done, key, more, found);
      names, paths := names + more, paths + found;
      keys := keys - {key};
      done := done + {key};
    }
    assert out[..|missingKeys|] == missingKeys && out[|missingKeys|..] == names;
    ListsMissingDone(expected, actual, names, paths, done);
  }

  /** The body of `check_difference`'s loop for one expected key: a key absent from the
      actual object is appended, differing objects are checked recursively, and
      anything else is passed over.

      Result: `missingKeys` followed by the names of the missing keys under `key`. */
  method CheckEntry(expected: map<string, Json>, actual: map<string, Json>, key: string, missingKeys: seq<string>)
    returns (out: seq<string>, ghost found: seq<seq<string>>)
    requires key in expected
    ensures |out| >= |missingKeys| && out[..|missingKeys|] == missingKeys
    ensures ListsMissingWithin(expected, actual, out[|missingKeys|..], found, {key})
    decreases JObject(expected), 0
  {
    if key !in actual {
      found := [[key]];
      MissingAbsentKey(expected, actual, key);
      out := missingKeys + [key];
      assert out[|missingKeys|..] == [key];
    } else if expected[key].JObject? && actual[key].JObject? && expected[key] != actual[key] {
      ghost var nestedPaths;
      out, nestedPaths := CheckDifference(expected[key].fields, actual[key].fields, missingKeys);
      MissingUnder(expected, actual, key, out[|missingKeys|..], nestedPaths);
      found := Under(key, nestedPaths);
    } else {
      found := [];
      MissingNowhere(expected, actual, key);
      out := missingKeys;
      assert out[|missingKeys|..] == [];
    }
  }

  /** `names` and `paths` list the missing paths that start with a key of `done`, as
      `ListsMissing` lists all of them. */
  ghost predicate ListsMissingWithin(expected: map<string, Json>, actual: map<string, Json>,
                                     names: seq<string>, paths: seq<seq<string>>, done: set<string>) {
    && |names| == |paths|
    && (forall i :: 0 <= i < |paths| ==>
          Missing(expected, actual, paths[i]) && names[i] == Last(paths[i]) && paths[i][0] in done)
    && (forall p :: Missing(expected, actual, p) && p[0] in done ==> p in paths)
    && (forall i, j :: 0 <= i < j < |paths| ==> paths[i] != paths[j])
  }

  /** Appending the listing of the missing paths under one more key. */
  lemma {:induction false} ListsMissingStep(expected: map<string, Json>, actual: map<string, Json>,
                         names: seq<string>, paths: seq<seq<string>>, done: set<string>,
                         key: string, more: seq<string>, found: seq<seq<string>>)
    requires ListsMissingWithin(expected, actual, names, paths, done) && key !in done
    requires ListsMissingWithin(expected, actual, more, found, {key})
    ensures ListsMissingWithin(expected, actual, names + more, paths + found, done + {key})
  {
    var all := paths + found;
    forall i, j | 0 <= i < j < |all|
      ensures all[i] != all[j]
    {
      if i < |paths| && j >= |paths| {
        assert all[i][0] in done && all[j][0] == key;
      }
    }
  }

  /** Once every key is done, the listing is complete. */
  lemma ListsMissingDone(expected: map<string, Json>, actual: map<string, Json>,
                         names: seq<string>, paths: seq<seq<string>>, done: set<string>)
    requires done == expected.Keys
    requires ListsMissingWithin(expected, actual, names, paths, done)
    ensures ListsMissing(expected, actual, names, paths)
  {
  }

  /** Under a key absent from the actual object, the one missing path is the key. */
  lemma MissingAbsentKey(expected: map<string, Json>, actual: map<string, Json>, key: string)
    requires key in expected && key !in actual
    ensures ListsMissingWithin(expected, actual, [key], [[key]], {key})
  {
    forall p | Missing(expected, actual, p) && p[0] in {key}
      ensures p in [[key]]
    {
      assert p == [key];
    }
  }

  /** Under a key holding differing objects, the missing paths are those of the two
      objects, each under the key. */
  lemma {:induction false} MissingUnder(expected: map<string, Json>, actual: map<string, Json>, key: string,
                     names: seq<string>, paths: seq<seq<string>>)
    requires key in expected && key in actual
    requires expected[key].JObject? && actual[key].JObject? && expected[key] != actual[key]
    requires ListsMissing(expected[key].fields, actual[key].fields, names, paths)
    ensures ListsMissingWithin(expected, actual, names, Under(key, paths), {key})
  {
    UnderListed(expected, actual, key, names, paths);
    UnderComplete(expected, actual, key, names, paths);
    UnderDistinct(key, paths);
  }

  /** Each missing path of the two objects, put under the key, is missing. */
  lemma {:induction false} UnderListed(expected: map<string, Json>, actual: map<string, Json>, key: string,
                     names: seq<string>, paths: seq<seq<string>>)
    requires key in expected && key in actual
    requires expected[key].JObject? && actual[key].JObject?
    requires ListsMissing(expected[key].fields, actual[key].fields, names, paths)
    ensures forall i :: 0 <= i < |paths| ==>
      Missing(expected, actual, Under(key, paths)[i]) && Last(Under(key, paths)[i]) == names[i]
  {
    var under := Under(key, paths);
    forall i | 0 <= i < |paths|
      ensures Missing(expected, actual, under[i]) && Last(under[i]) == names[i]
    {
      MissingStepDown(expected, actual, key, paths[i]);
    }
  }

  /** Every missing path that starts with the key is one of the listed paths under it. */
  lemma {:induction false} UnderComplete(expected: map<string, Json>, actual: map<string, Json>, key: string,
                     names: seq<string>, paths: seq<seq<string>>)
    requires key in expected && key in actual
    requires expected[key].JObject? && actual[key].JObject?
    requires ListsMissing(expected[key].fields, actual[key].fields, names, paths)
    ensures forall p :: Missing(expected, actual, p) && p[0] in {key} ==> p in Under(key, paths)
  {
    var under := Under(key, paths);
    forall p | Missing(expected, actual, p) && p[0] in {key}
      ensures p in under
    {
      assert p == [key] + p[1..];
      MissingStepDown(expected, actual, key, p[1..]);
      var i :| 0 <= i < |paths| && paths[i] == p[1..];
      assert p == under[i];
    }
  }

  /** Distinct paths stay distinct under the key. */
  lemma UnderDistinct(key: string, paths: seq<seq<string>>)
    requires forall i, j :: 0 <= i < j < |paths| ==> paths[i] != paths[j]
    ensures forall i, j :: 0 <= i < j < |paths| ==> Under(key, paths)[i] != Under(key, paths)[j]
  {
    var under := Under(key, paths);
    forall i, j | 0 <= i < j < |paths|
      ensures under[i] != under[j]
    {
      assert under[i][1..] == paths[i];
      assert under[j][1..] == paths[j];
    }
  }

  /** A path under a key holding differing objects is missing exactly when the rest of
      it is missing between the two objects. */
  lemma {:induction false} MissingStepDown(expected: map<string, Json>, actual: map<string, Json>, key: string, p: seq<string>)
    requires key in expected && key in actual
    requires expected[key].JObject? && actual[key].JObject?
    ensures Missing(expected, actual, [key] + p) <==> Missing(expected[key].fields, actual[key].fields, p)
    ensures |p| >= 1 ==> Last([key] + p) == Last(p)
  {
    assert ([key] + p)[1..] == p;
  }

  /** Under a key that is in both objects without holding differing objects, nothing is
      missing. */
  lemma MissingNowhere(expected: map<string, Json>, actual: map<string, Json>, key: string)
    requires key in expected && key in actual
    requires !(expected[key].JObject? && actual[key].JObject? && expected[key] != actual[key])
    ensures ListsMissingWithin(expected, actual, [], [], {key})
  {
    if expected[key].JObject? && actual[key].JObject? {
      IdenticalBodies(expected[key].fields);
      forall p | |p| >= 2 && p[0] == key
        ensures !Missing(expected, actual, p)
      {
        assert !Missing(expected[key].fields, expected[key].fields, p[1..]);
      }
    }
  }

  /** `validate_request`: the actual body (required to be a JSON object) is compared
      with the expected body of the request (required to be present and a JSON object);
      equal bodies give no difference at all.

      Result: `Ok(true)` exactly when no key is missing, and otherwise the message
      `"Missing keys: "` followed by the missing names joined with `", "`. */
  method ValidateRequest(request: RequestObject, body: Json) returns (r: Result<bool, ValidationError>)
    requires body.JObject?
    requires request.body.Some? && request.body.value.JObject?
    ensures r.Ok? ==> r.value
    ensures r.Ok? ==> forall p :: !Missing(request.body.value.fields, body.fields, p)
    ensures r.Err? ==> exists p :: Missing(request.body.value.fields, body.fields, p)
    ensures body.fields == request.body.value.fields ==> r == Ok(true)
    ensures r.Err? ==> exists names, paths ::
      && ListsMissing(request.body.value.fields, body.fields, names, paths)
      && |names| > 0
      && r.error.errorMessage == "Missing keys: " + JoinWith(names, ", ")
  {
    var actual := body.fields;
    var expected := request.body.value.fields;
    if actual != expected {
      var missingKeys;
      ghost var paths;
      missingKeys, paths := CheckDifference(expected, actual, []);
      assert missingKeys[0..] == missingKeys;
      if |missingKeys| > 0 {
        assert Missing(request.body.value.fields, body.fields, paths[0]);
        return Err(ValidationError("Missing keys: " + JoinWith(missingKeys, ", ")));
      }
    } else {
      IdenticalBodies(expected);
    }
    return Ok(true);
  }

  /** Identical bodies miss nothing. */
  lemma {:induction false} IdenticalBodies(body: map<string, Json>)
    ensures forall p :: !Missing(body, body, p)
    decreases JObject(body)
  {
    forall p
      ensures !Missing(body, body, p)
    {
      if |p| >= 2 && p[0] in body && body[p[0]].JObject? {
        IdenticalBodies(body[p[0]].fields);
      }
    }
  }

  // ---------------------------------------------------------------------------
  // Missing keys, stated on the bodies themselves
  // ---------------------------------------------------------------------------

  /** The body has a key at path `p`: each key but the last holds an object. */
  predicate Has(body: map<string, Json>, p: seq<string>)
    decreases |p|
  {
    && |p| >= 1
    && p[0] in body
    && (|p| == 1 || (body[p[0]].JObject? && Has(body[p[0]].fields, p[1..])))
  }

  /** The body has an object at each key along `p`. */
  predicate ObjectsAlong(body: map<string, Json>, p: seq<string>)
    decreases |p|
  {
    |p| == 0 || (p[0] in body && body[p[0]].JObject? && ObjectsAlong(body[p[0]].fields, p[1..]))
  }

  /** A missing path is in the expected body and not in the actual one, which holds
      objects all along the path's parent: a key present only in the actual body is never
      reported. */
  lemma {:induction false} MissingIsAbsent(expected: map<string, Json>, actual: map<string, Json>, p: seq<string>)
    requires Missing(expected, actual, p)
    ensures Has(expected, p) && !Has(actual, p)
    ensures ObjectsAlong(actual, p[..|p| - 1])
    decreases |p|
  {
    if p[0] in actual {
      MissingIsAbsent(expected[p[0]].fields, actual[p[0]].fields, p[1..]);
      assert p[1..][..|p[1..]| - 1] == p[..|p| - 1][1..];
    }
  }

  /** Conversely, a key of the expected body whose parent is an object in the actual
      body too, but which the actual body lacks, is missing. */
  lemma {:induction false} AbsentIsMissing(expected: map<string, Json>, actual: map<string, Json>, p: seq<string>)
    requires Has(expected, p) && !Has(actual, p) && ObjectsAlong(actual, p[..|p| - 1])
    ensures Missing(expected, actual, p)
    decreases |p|
  {
    if p[0] in actual {
      assert |p| >= 2;
      assert p[1..][..|p[1..]| - 1] == p[..|p| - 1][1..];
      AbsentIsMissing(expected[p[0]].fields, actual[p[0]].fields, p[1..]);
    }
  }
}
