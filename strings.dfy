/**
 * JavaScript's `String.prototype.split` and `Array.prototype.join` for a
 * one-character separator, as used on type-name keys ("fire-grass").
 */
module Strings {

  /** True when `part` can sit between separators without being cut by `split`. */
  predicate NoSeparator(part: string, sep: char) {
    sep !in part
  }

  /**
   * `s.split(sep)`: the pieces between occurrences of `sep`. Like JavaScript it never
   * returns an empty list ("".split("-") is [""]) and keeps empty pieces ("a--b").
   */
  function Split(s: string, sep: char): (parts: seq<string>)
    ensures |parts| >= 1
    ensures forall i :: 0 <= i < |parts| ==> NoSeparator(parts[i], sep)
  {
    if |s| == 0 then [""]
    else
      var rest := Split(s[1..], sep);
      if s[0] == sep then [""] + rest
      else [[s[0]] + rest[0]] + rest[1..]
  }

  /**
   * `parts.join(sep)`: "" for no parts, the single part itself for one; the separator
   * shows up in the result whenever two or more parts are joined.
   */
  function Join(parts: seq<string>, sep: char): (s: string)
    ensures |parts| == 1 ==> s == parts[0]
    ensures |parts| >= 2 ==> !NoSeparator(s, sep)
  {
    if |parts| == 0 then ""
    else if |parts| == 1 then parts[0]
    else parts[0] + [sep] + Join(parts[1..], sep)
  }

  /** Splitting a string with no separator in front of `t` extends the first piece of `t`. */
  lemma {:induction false} SplitPrefix(a: string, t: string, sep: char)
    requires NoSeparator(a, sep)
    ensures Split(a + t, sep) == [a + Split(t, sep)[0]] + Split(t, sep)[1..]
  {
    if |a| > 0 {
      SplitPrefix(a[1..], t, sep);
      assert (a + t)[1..] == a[1..] + t;
      assert (a + t)[0] == a[0] && a[0] != sep;
      assert [a[0]] + (a[1..] + Split(t, sep)[0]) == a + Split(t, sep)[0];
    } else {
      var parts := Split(t, sep);
      assert a + t == t && a + parts[0] == parts[0];
      assert parts == [parts[0]] + parts[1..];
    }
  }

  /** Joining and splitting again gives the parts back, when no part holds the separator. */
  lemma {:induction false} SplitJoin(parts: seq<string>, sep: char)
    requires |parts| >= 1
    requires forall i :: 0 <= i < |parts| ==> NoSeparator(parts[i], sep)
    ensures Split(Join(parts, sep), sep) == parts
  {
    if |parts| == 1 {
      SplitPrefix(parts[0], "", sep);
      assert parts[0] + "" == parts[0];
    } else {
      var tail := Join(parts[1..], sep);
      SplitJoin(parts[1..], sep);
      assert Split([sep] + tail, sep) == [""] + parts[1..];
      assert Join(parts, sep) == parts[0] + ([sep] + tail);
      SplitPrefix(parts[0], [sep] + tail, sep);
      assert parts[0] + "" == parts[0];
    }
  }

  /** Splitting and joining again gives the string back, whatever it holds. */
  lemma {:induction false} JoinSplit(s: string, sep: char)
    ensures Join(Split(s, sep), sep) == s
  {
    if |s| > 0 {
      var rest := Split(s[1..], sep);
      JoinSplit(s[1..], sep);
      if s[0] == sep {
        assert Join([""] + rest, sep) == "" + [sep] + Join(rest, sep) by {
          assert ([""] + rest)[1..] == rest;
        }
        assert s == [s[0]] + s[1..];
      } else {
        var parts := [[s[0]] + rest[0]] + rest[1..];
        if |rest| == 1 {
          assert s == [s[0]] + s[1..];
        } else {
          assert parts[1..] == rest[1..];
          assert Join(rest, sep) == rest[0] + [sep] + Join(rest[1..], sep);
          assert s == [s[0]] + s[1..];
        }
      }
    }
  }

  /** Joining is injective on non-empty parts free of the separator. */
  lemma JoinInjective(a: seq<string>, b: seq<string>, sep: char)
    requires forall i :: 0 <= i < |a| ==> a[i] != "" && NoSeparator(a[i], sep)
    requires forall i :: 0 <= i < |b| ==> b[i] != "" && NoSeparator(b[i], sep)
    requires Join(a, sep) == Join(b, sep)
    ensures a == b
  {
    JoinEmpty(a, sep);
    JoinEmpty(b, sep);
    if |a| > 0 && |b| > 0 {
      SplitJoin(a, sep);
      SplitJoin(b, sep);
    }
  }

  /** A join of non-empty parts is empty only when there are no parts. */
  lemma {:induction false} JoinEmpty(parts: seq<string>, sep: char)
    requires forall i :: 0 <= i < |parts| ==> parts[i] != ""
    ensures Join(parts, sep) == "" <==> |parts| == 0
  {
    if |parts| > 1 {
      assert |Join(parts, sep)| >= |parts[0]| + 1;
    } else if |parts| == 1 {
      assert parts[0] != "";
    }
  }
}
