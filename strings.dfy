/** Two string facilities the core relies on: the lexicographic order in
    which the store sorts text timestamps, and JavaScript's
    `String.prototype.split` on a one-character separator. */
module Strings {

  /** `a` sorts at or before `b`, character by character, a proper prefix first. */
  predicate LexLe(a: string, b: string)
    decreases |a|
  {
    |a| == 0 || (|b| > 0 && (a[0] < b[0] || (a[0] == b[0] && LexLe(a[1..], b[1..]))))
  }

  lemma {:induction false} LexLeReflexive(a: string)
    ensures LexLe(a, a)
    decreases |a|
  {
    if |a| > 0 {
      LexLeReflexive(a[1..]);
    }
  }

  lemma {:induction false} LexLeTotal(a: string, b: string)
    ensures LexLe(a, b) || LexLe(b, a)
    decreases |a|
  {
    if |a| > 0 && |b| > 0 && a[0] == b[0] {
      LexLeTotal(a[1..], b[1..]);
    }
  }

  lemma {:induction false} LexLeTransitive(a: string, b: string, c: string)
    requires LexLe(a, b) && LexLe(b, c)
    ensures LexLe(a, c)
    decreases |a|
  {
    if |a| > 0 && a[0] == b[0] && b[0] == c[0] {
      LexLeTransitive(a[1..], b[1..], c[1..]);
    }
  }

  lemma {:induction false} LexLeAntisymmetric(a: string, b: string)
    requires LexLe(a, b) && LexLe(b, a)
    ensures a == b
    decreases |a|
  {
    if |a| > 0 {
      LexLeAntisymmetric(a[1..], b[1..]);
      assert a == [a[0]] + a[1..] && b == [b[0]] + b[1..];
    }
  }

  /** The fields joined back with the separator between them. */
  function Join(fields: seq<string>, sep: char): string
    requires |fields| > 0
  {
    if |fields| == 1 then fields[0] else fields[0] + [sep] + Join(fields[1..], sep)
  }

  /** `s.split(sep)`: the maximal separator-free pieces of `s`, in order,
      including empty pieces around adjacent or outer separators. */
  function Split(s: string, sep: char): (fields: seq<string>)
    ensures |fields| > 0
    ensures forall i :: 0 <= i < |fields| ==> sep !in fields[i]
    ensures Join(fields, sep) == s
    decreases |s|
  {
    if |s| == 0 then [""]
    else
      var rest := Split(s[1..], sep);
      if s[0] == sep then
        assert s == [] + [sep] + s[1..];
        [""] + rest
      else
        var fields := [[s[0]] + rest[0]] + rest[1..];
        assert fields[1..] == rest[1..];
        assert s == [s[0]] + s[1..];
        fields
  }

  lemma {:induction false} SplitNoSeparator(f: string, sep: char)
    requires sep !in f
    ensures Split(f, sep) == [f]
    decreases |f|
  {
    if |f| > 0 {
      SplitNoSeparator(f[1..], sep);
      assert f == [f[0]] + f[1..];
    }
  }

  lemma {:induction false} SplitAfterField(f: string, sep: char, t: string)
    requires sep !in f
    ensures Split(f + [sep] + t, sep) == [f] + Split(t, sep)
    decreases |f|
  {
    var s := f + [sep] + t;
    if |f| == 0 {
      assert s[1..] == t;
    } else {
      assert s[1..] == f[1..] + [sep] + t;
      SplitAfterField(f[1..], sep, t);
      assert [s[0]] + f[1..] == f;
    }
  }

  /** Splitting undoes joining separator-free fields. */
  lemma {:induction false} SplitJoin(fields: seq<string>, sep: char)
    requires |fields| > 0
    requires forall i :: 0 <= i < |fields| ==> sep !in fields[i]
    ensures Split(Join(fields, sep), sep) == fields
    decreases |fields|
  {
    if |fields| == 1 {
      SplitNoSeparator(fields[0], sep);
    } else {
      SplitJoin(fields[1..], sep);
      SplitAfterField(fields[0], sep, Join(fields[1..], sep));
      assert fields == [fields[0]] + fields[1..];
    }
  }
}
