/** The two string operations the bearer-token gate relies on, with the semantics of
    Python's `str.startswith` and `str.split(sep)` for a one-character separator. */
module Strings {

  /** `s.startswith(prefix)`: exact, case-sensitive comparison of the leading characters. */
  predicate StartsWith(s: string, prefix: string)
  {
    |prefix| <= |s| && s[..|prefix|] == prefix
  }

  /** Glues fields back together with one separator between neighbours: `sep.join(parts)`. */
  function Join(parts: seq<string>, sep: char): (joined: string)
    requires |parts| >= 1
    decreases |parts|
  {
    if |parts| == 1 then parts[0] else parts[0] + [sep] + Join(parts[1..], sep)
  }

  /** `s.split(sep)`: cuts at every occurrence of `sep`, keeping empty fields, so that
      the empty string gives one empty field and `n` separators give `n + 1` fields. */
  function Split(s: string, sep: char): (parts: seq<string>)
    ensures |parts| >= 1
    ensures forall i :: 0 <= i < |parts| ==> sep !in parts[i]
    ensures Join(parts, sep) == s
    decreases |s|
  {
    if |s| == 0 then [""]
    else if s[0] == sep then [""] + Split(s[1..], sep)
    else
      var rest := Split(s[1..], sep);
      [[s[0]] + rest[0]] + rest[1..]
  }

  /** The longest prefix of `s` that holds no `sep`: everything before the first separator. */
  function FirstField(s: string, sep: char): (f: string)
    ensures StartsWith(s, f)
    ensures sep !in f
    ensures |f| < |s| ==> s[|f|] == sep
    decreases |s|
  {
    if |s| == 0 || s[0] == sep then "" else [s[0]] + FirstField(s[1..], sep)
  }

  /** A field free of the separator, followed by the separator, is split off as a whole. */
  lemma {:induction false} SplitAfterField(field: string, sep: char, rest: string)
    requires sep !in field
    ensures Split(field + [sep] + rest, sep) == [field] + Split(rest, sep)
    decreases |field|
  {
    var s := field + [sep] + rest;
    if |field| == 0 {
      assert s[0] == sep && s[1..] == rest;
    } else {
      var tail := field[1..];
      assert s[0] == field[0] && s[0] != sep;
      assert s[1..] == tail + [sep] + rest;
      SplitAfterField(tail, sep, rest);
      assert [field[0]] + tail == field;
    }
  }

  /** A string free of the separator splits into itself alone. */
  lemma {:induction false} SplitWithoutSeparator(s: string, sep: char)
    requires sep !in s
    ensures Split(s, sep) == [s]
    decreases |s|
  {
    if |s| > 0 {
      assert s[0] != sep && sep !in s[1..];
      SplitWithoutSeparator(s[1..], sep);
      assert [s[0]] + s[1..] == s;
    }
  }

  /** Split undoes Join whenever no field holds the separator: with Split's own
      `Join(Split(s)) == s`, the two are inverse bijections. */
  lemma {:induction false} SplitJoin(parts: seq<string>, sep: char)
    requires |parts| >= 1
    requires forall i :: 0 <= i < |parts| ==> sep !in parts[i]
    ensures Split(Join(parts, sep), sep) == parts
    decreases |parts|
  {
    if |parts| == 1 {
      SplitWithoutSeparator(parts[0], sep);
    } else {
      var tail := parts[1..];
      assert forall i :: 0 <= i < |tail| ==> sep !in tail[i] by {
        forall i | 0 <= i < |tail| ensures sep !in tail[i] {
          assert tail[i] == parts[i + 1];
        }
      }
      SplitJoin(tail, sep);
      assert sep !in parts[0];
      SplitAfterField(parts[0], sep, Join(tail, sep));
      assert [parts[0]] + tail == parts;
    }
  }

  /** The first field of a split is the text before the first separator. */
  lemma {:induction false} SplitHead(s: string, sep: char)
    ensures Split(s, sep)[0] == FirstField(s, sep)
    decreases |s|
  {
    if |s| > 0 && s[0] != sep {
      SplitHead(s[1..], sep);
    }
  }

  /** Whatever follows the first separator is irrelevant to the first field. */
  lemma {:induction false} FirstFieldStopsAtSeparator(field: string, sep: char, rest: string)
    requires sep !in field
    ensures FirstField(field + [sep] + rest, sep) == field
    decreases |field|
  {
    var s := field + [sep] + rest;
    if |field| > 0 {
      assert s[0] == field[0] && s[0] != sep;
      assert s[1..] == field[1..] + [sep] + rest;
      FirstFieldStopsAtSeparator(field[1..], sep, rest);
      assert [field[0]] + field[1..] == field;
    }
  }

  /** A string without the separator is its own first field. */
  lemma {:induction false} FirstFieldWhole(s: string, sep: char)
    requires sep !in s
    ensures FirstField(s, sep) == s
    decreases |s|
  {
    if |s| > 0 {
      assert s[0] != sep && sep !in s[1..];
      FirstFieldWhole(s[1..], sep);
      assert [s[0]] + s[1..] == s;
    }
  }
}
