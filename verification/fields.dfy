/**
 * Python's `str.split(sep)` with an explicit one-character separator, as
 * the monitor applies it to each serial line, and its inverse `sep.join`.
 */
module Fields {
  import opened Wrappers

  /** Occurrences of `c` in `s`. */
  function Count(s: string, c: char): nat {
    if |s| == 0 then 0 else (if s[0] == c then 1 else 0) + Count(s[1..], c)
  }

  /** `s.split(sep)`: the maximal separator-free pieces between separators.
      There is always at least one field, even for the empty string. */
  function Split(s: string, sep: char): (fields: seq<string>)
    ensures |fields| == Count(s, sep) + 1
    ensures forall i :: 0 <= i < |fields| ==> sep !in fields[i]
  {
    if |s| == 0 then [""]
    else
      var rest := Split(s[1..], sep);
      if s[0] == sep then [""] + rest
      else [[s[0]] + rest[0]] + rest[1..]
  }

  /** `sep.join(fields)`. */
  function Join(fields: seq<string>, sep: char): string
    requires |fields| >= 1
  {
    if |fields| == 1 then fields[0] else fields[0] + [sep] + Join(fields[1..], sep)
  }

  /** Splitting loses nothing: joining the fields restores the line. */
  lemma {:induction false} JoinSplit(s: string, sep: char)
    ensures Join(Split(s, sep), sep) == s
  {
    if |s| > 0 {
      JoinSplit(s[1..], sep);
      var rest := Split(s[1..], sep);
      if s[0] != sep {
        var fields := Split(s, sep);
        if |rest| == 1 {
          assert fields == [[s[0]] + rest[0]];
        } else {
          assert fields[1..] == rest[1..];
        }
      }
    }
  }

  /** Joining separator-free fields and splitting again gives them back. */
  lemma {:induction false} SplitJoin(fields: seq<string>, sep: char)
    requires |fields| >= 1
    requires forall i :: 0 <= i < |fields| ==> sep !in fields[i]
    ensures Split(Join(fields, sep), sep) == fields
  {
    if |fields| == 1 {
      SplitFieldless(fields[0], sep);
    } else {
      SplitJoin(fields[1..], sep);
      SplitPrefix(fields[0], Join(fields[1..], sep), sep);
    }
  }

  /** A separator-free string is one field. */
  lemma {:induction false} SplitFieldless(s: string, sep: char)
    requires sep !in s
    ensures Split(s, sep) == [s]
  {
    if |s| > 0 {
      assert s[0] in s && [s[0]] + s[1..] == s;
      SplitFieldless(s[1..], sep);
    }
  }

  /** Splitting `a + sep + b` with `a` separator-free puts `a` in front. */
  lemma {:induction false} SplitPrefix(a: string, b: string, sep: char)
    requires sep !in a
    ensures Split(a + [sep] + b, sep) == [a] + Split(b, sep)
  {
    if |a| > 0 {
      SplitPrefix(a[1..], b, sep);
      assert a[0] in a && [a[0]] + a[1..] == a;
      assert (a + [sep] + b)[0] == a[0];
      assert (a + [sep] + b)[1..] == a[1..] + [sep] + b;
    } else {
      assert a + [sep] + b == [sep] + b;
      assert ([sep] + b)[1..] == b;
    }
  }

  /** `line.split(sep)[2]`, or `None` where Python raises `IndexError`. */
  function ThirdField(line: string, sep: char): (f: Option<string>)
    ensures f.Some? <==> Count(line, sep) >= 2
    ensures f.Some? ==> f.value == Split(line, sep)[2]
    ensures f.Some? ==> sep !in f.value
  {
    var fields := Split(line, sep);
    if |fields| >= 3 then Some(fields[2]) else None
  }
}
