/** The few string operations the mock server uses on flat-table keys: Rust's
    `str::split` on a single character, its inverse (joining with the separator) and
    `str::ends_with`. */
module Strings {

  /** The pieces of `s` between occurrences of `sep`, as Rust's `s.split(sep)` yields them:
      always at least one piece, empty pieces kept, and joining them back gives `s`. */
  function Split(s: string, sep: char): (parts: seq<string>)
    ensures |parts| >= 1
    ensures forall i :: 0 <= i < |parts| ==> sep !in parts[i]
    ensures Join(parts, sep) == s
    decreases |s|
  {
    if |s| == 0 then [""]
    else
      var rest := Split(s[1..], sep);
      if s[0] == sep then
        [""] + rest
      else
        JoinPrepend([s[0]], rest, sep);
        [[s[0]] + rest[0]] + rest[1..]
  }

  /** The pieces separated by `sep`: `Join(["a", "b"], '.') == "a.b"`. */
  function Join(parts: seq<string>, sep: char): string
    requires |parts| >= 1
  {
    if |parts| == 1 then parts[0] else parts[0] + [sep] + Join(parts[1..], sep)
  }

  /** Rust's `join` on a list of strings: the pieces with `sep` between each two, and
      the empty string for no pieces. With a one-character separator it is `Join`, so
      `Split` reads the pieces back when none holds the separator. */
  function JoinWith(parts: seq<string>, sep: string): (r: string)
    ensures |parts| == 0 ==> r == ""
    ensures |parts| == 1 ==> r == parts[0]
    ensures |parts| >= 2 ==> parts[0] + sep <= r
    ensures |parts| >= 1 && |sep| == 1 ==> r == Join(parts, sep[0])
  {
    if |parts| == 0 then ""
    else if |parts| == 1 then parts[0]
    else parts[0] + sep + JoinWith(parts[1..], sep)
  }

  /** `str::ends_with`. */
  predicate EndsWith(s: string, suffix: string) {
    |suffix| <= |s| && s[|s| - |suffix|..] == suffix
  }

  /** `s` ends with `suffix` exactly when it is some text followed by `suffix`. */
  lemma EndsWithSuffix(s: string, suffix: string)
    ensures EndsWith(s, suffix) <==> exists prefix :: s == prefix + suffix
  {
    if EndsWith(s, suffix) {
      assert s == s[..|s| - |suffix|] + suffix;
    }
  }

  /** Text placed in front of the first piece is placed in front of the joined string. */
  lemma JoinPrepend(x: string, parts: seq<string>, sep: char)
    requires |parts| >= 1
    ensures Join([x + parts[0]] + parts[1..], sep) == x + Join(parts, sep)
  {
    if |parts| > 1 {
      assert ([x + parts[0]] + parts[1..])[1..] == parts[1..];
    }
  }

  /** The first piece starts the joined string, followed by the separator when there
      are more pieces. */
  lemma JoinFirst(parts: seq<string>, sep: char)
    requires |parts| >= 1
    ensures parts[0] <= Join(parts, sep)
    ensures |parts| >= 2 ==> parts[0] + [sep] <= Join(parts, sep)
  {
  }

  /** Splitting undoes joining, provided no piece holds the separator. */
  lemma {:induction false} SplitJoin(parts: seq<string>, sep: char)
    requires |parts| >= 1
    requires forall i :: 0 <= i < |parts| ==> sep !in parts[i]
    ensures Split(Join(parts, sep), sep) == parts
    decreases |parts|, |parts[0]|
  {
    var p := parts[0];
    if |p| == 0 {
      if |parts| > 1 {
        var tail := Join(parts[1..], sep);
        assert Join(parts, sep) == [sep] + tail;
        assert ([sep] + tail)[1..] == tail;
        SplitJoin(parts[1..], sep);
      }
    } else {
      var shorter := [p[1..]] + parts[1..];
      assert [p[0]] + p[1..] == p && shorter[1..] == parts[1..];
      JoinPrepend([p[0]], shorter, sep);
      assert [[p[0]] + shorter[0]] + shorter[1..] == parts;
      var s := Join(parts, sep);
      assert s == [p[0]] + Join(shorter, sep);
      assert s[1..] == Join(shorter, sep);
      SplitJoin(shorter, sep);
    }
  }

  /** Joining two strings with the separator joins their pieces. */
  lemma SplitAroundSeparator(s: string, t: string, sep: char)
    ensures Split(s + [sep] + t, sep) == Split(s, sep) + Split(t, sep)
  {
    var a, b := Split(s, sep), Split(t, sep);
    JoinAppend(a, b, sep);
    SplitJoin(a + b, sep);
  }

  /** Joining two lists of pieces joins their joined strings with the separator. */
  lemma {:induction false} JoinAppend(a: seq<string>, b: seq<string>, sep: char)
    requires |a| >= 1 && |b| >= 1
    ensures Join(a + b, sep) == Join(a, sep) + [sep] + Join(b, sep)
    decreases |a|
  {
    assert (a + b)[0] == a[0];
    if |a| == 1 {
      assert (a + b)[1..] == b;
    } else {
      assert (a + b)[1..] == a[1..] + b;
      JoinAppend(a[1..], b, sep);
    }
  }

  /** Text added at the end of the last piece is added at the end of the joined string. */
  lemma {:induction false} JoinExtendLast(parts: seq<string>, t: string, sep: char)
    requires |parts| >= 1
    ensures Join(parts[..|parts| - 1] + [parts[|parts| - 1] + t], sep) == Join(parts, sep) + t
    decreases |parts|
  {
    var extended := parts[..|parts| - 1] + [parts[|parts| - 1] + t];
    if |parts| > 1 {
      var tail := parts[1..];
      assert extended[0] == parts[0];
      assert extended[1..] == tail[..|tail| - 1] + [tail[|tail| - 1] + t];
      JoinExtendLast(tail, t, sep);
    } else {
      assert extended == [parts[0] + t];
    }
  }

  /** Appending text free of the separator extends the last piece. */
  lemma SplitExtendLast(s: string, t: string, sep: char)
    requires sep !in t
    ensures Split(s + t, sep) == Split(s, sep)[..|Split(s, sep)| - 1] + [Split(s, sep)[|Split(s, sep)| - 1] + t]
  {
    var parts := Split(s, sep);
    var extended := parts[..|parts| - 1] + [parts[|parts| - 1] + t];
    JoinExtendLast(parts, t, sep);
    forall i | 0 <= i < |extended|
      ensures sep !in extended[i]
    {
      if i == |parts| - 1 {
        assert extended[i] == parts[i] + t;
      } else {
        assert extended[i] == parts[i];
      }
    }
    SplitJoin(extended, sep);
  }
}
