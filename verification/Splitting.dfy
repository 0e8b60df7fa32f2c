/** Splitting a text at a separator and joining it again. */
module Splitting {

  /** The parts between the separators. */
  function Split(sep: char, s: string): (parts: seq<string>)
    ensures parts != []
  {
    if s == "" then [""] else Extend(sep, Split(sep, s[..|s| - 1]), s[|s| - 1])
  }

  /** A separator starts a new part, any other character extends the last one. */
  function Extend(sep: char, parts: seq<string>, c: char): (r: seq<string>)
    requires parts != []
    ensures r != []
  {
    var m := |parts| - 1;
    if c == sep then parts + [""] else parts[..m] + [parts[m] + [c]]
  }

  function Join(sep: char, parts: seq<string>): string
    requires parts != []
  {
    if |parts| == 1 then parts[0] else Join(sep, parts[..|parts| - 1]) + [sep] + parts[|parts| - 1]
  }

  predicate Free(sep: char, s: string) {
    sep !in s
  }

  lemma {:induction false} SplitJoins(sep: char, s: string)
    ensures Join(sep, Split(sep, s)) == s
    ensures forall i :: 0 <= i < |Split(sep, s)| ==> Free(sep, Split(sep, s)[i])
    decreases |s|
  {
    hide Join, Extend;
    if s == "" {
      assert Join(sep, [""]) == "" by { JoinOne(sep, ""); }
    } else {
      var n := |s| - 1;
      SplitJoins(sep, s[..n]);
      JoinExtend(sep, Split(sep, s[..n]), s[n]);
      ExtendFree(sep, Split(sep, s[..n]), s[n]);
      assert s == s[..n] + [s[n]];
    }
  }

  lemma JoinOne(sep: char, part: string)
    ensures Join(sep, [part]) == part
  {}

  lemma ExtendFree(sep: char, parts: seq<string>, c: char)
    requires parts != [] && forall i :: 0 <= i < |parts| ==> Free(sep, parts[i])
    ensures forall i :: 0 <= i < |Extend(sep, parts, c)| ==> Free(sep, Extend(sep, parts, c)[i])
  {
    var m := |parts| - 1;
    forall i | 0 <= i < |Extend(sep, parts, c)|
      ensures Free(sep, Extend(sep, parts, c)[i])
    {
      assert i < m ==> Extend(sep, parts, c)[i] == parts[i];
      assert i == m && c != sep ==> Extend(sep, parts, c)[i] == parts[m] + [c];
    }
  }

  lemma JoinExtend(sep: char, parts: seq<string>, c: char)
    requires parts != []
    ensures Join(sep, Extend(sep, parts, c)) == Join(sep, parts) + [c]
  {
    var m := |parts| - 1;
    if c == sep {
      assert (parts + [""])[..m + 1] == parts;
      assert Join(sep, parts) + [sep] + "" == Join(sep, parts) + [sep];
    } else {
      assert (parts[..m] + [parts[m] + [c]])[..m] == parts[..m];
    }
  }

  lemma SplitAppend(sep: char, s: string, c: char)
    ensures Split(sep, s + [c]) == Extend(sep, Split(sep, s), c)
  {
    assert (s + [c])[..|s|] == s;
  }

  /** Characters other than the separator extend the last part. */
  lemma {:induction false} SplitExtends(sep: char, s: string, t: string)
    requires Free(sep, t)
    ensures Split(sep, s + t) == Longer(Split(sep, s), t)
    decreases |t|
  {
    hide Split;
    if t == "" {
      assert s + t == s;
      LongerBy(sep, Split(sep, s), "", ' ');
    } else {
      var n := |t| - 1;
      assert t[n] in t;
      SplitExtends(sep, s, t[..n]);
      SplitAppend(sep, s + t[..n], t[n]);
      assert s + t[..n] + [t[n]] == s + t;
      LongerBy(sep, Split(sep, s), t[..n], t[n]);
      assert t[..n] + [t[n]] == t;
    }
  }

  ghost function Longer(parts: seq<string>, t: string): seq<string>
    requires parts != []
  {
    parts[..|parts| - 1] + [parts[|parts| - 1] + t]
  }

  lemma LongerBy(sep: char, parts: seq<string>, t: string, c: char)
    requires parts != []
    ensures c != sep ==> Extend(sep, Longer(parts, t), c) == Longer(parts, t + [c])
    ensures Longer(parts, "") == parts
  {
    var m := |parts| - 1;
    assert Longer(parts, t)[..m] == parts[..m];
    assert parts[m] + t + [c] == parts[m] + (t + [c]);
    assert parts[m] + "" == parts[m];
  }

  lemma {:induction false} JoinSplits(sep: char, parts: seq<string>)
    requires parts != [] && forall i :: 0 <= i < |parts| ==> Free(sep, parts[i])
    ensures Split(sep, Join(sep, parts)) == parts
    decreases |parts|
  {
    hide Split;
    var n := |parts| - 1;
    if n == 0 {
      SplitExtends(sep, "", parts[0]);
      SplitEmpty(sep);
      assert "" + parts[0] == parts[0] && Longer([""], parts[0]) == [parts[0]];
    } else {
      JoinSplits(sep, parts[..n]);
      var s := Join(sep, parts[..n]) + [sep];
      SplitAppend(sep, Join(sep, parts[..n]), sep);
      SplitExtends(sep, s, parts[n]);
      assert Longer(parts[..n] + [""], parts[n]) == parts by {
        assert (parts[..n] + [""])[..n] == parts[..n] && "" + parts[n] == parts[n];
      }
    }
  }

  lemma SplitEmpty(sep: char)
    ensures Split(sep, "") == [""]
  {}
}
