/**
 * String helpers the event pipeline relies on: Python's `sep.join(parts)`,
 * `s.split("; ")`, `s.replace("Z", "+00:00")` and `list(set(xs))`.
 */
module Text {

  /** `sep.join(parts)`. */
  function Join(sep: string, parts: seq<string>): (r: string)
    ensures |parts| >= 1 ==> |r| >= |parts[0]| && r[..|parts[0]|] == parts[0]
    ensures |parts| >= 2 ==> |r| >= |parts[0]| + |sep| && r[|parts[0]|..|parts[0]| + |sep|] == sep
  {
    if |parts| == 0 then ""
    else if |parts| == 1 then parts[0]
    else parts[0] + sep + Join(sep, parts[1..])
  }

  /** The separator the row builder joins lists with and the summary splits on. */
  const ListSep: string := "; "

  /** True when `"; "` occurs somewhere in `s`. */
  predicate HasListSep(s: string)
  {
    exists i :: 0 <= i < |s| - 1 && s[i] == ';' && s[i + 1] == ' '
  }

  /**
   * Python's `s.split("; ")`: cut at every occurrence of the separator, scanning
   * left to right; the empty string splits to `[""]`.
   */
  function SplitList(s: string): (parts: seq<string>)
    ensures |parts| >= 1
    decreases |s|
  {
    if |s| == 0 then [""]
    else if |s| >= 2 && s[0] == ';' && s[1] == ' ' then [""] + SplitList(s[2..])
    else
      var rest := SplitList(s[1..]);
      [[s[0]] + rest[0]] + rest[1..]
  }

  /** A string with no separator in it splits to itself alone. */
  lemma {:induction false} SplitListNoSep(p: string)
    requires !HasListSep(p)
    ensures SplitList(p) == [p]
  {
    if |p| > 0 {
      assert !HasListSep(p[1..]) by {
        forall i | 0 <= i < |p[1..]| - 1 ensures !(p[1..][i] == ';' && p[1..][i + 1] == ' ') {
          assert p[1..][i] == p[i + 1] && p[1..][i + 1] == p[i + 2];
        }
      }
      SplitListNoSep(p[1..]);
      assert [p[0]] + p[1..] == p;
    }
  }

  /** A separator-free piece followed by the separator is cut off exactly there. */
  lemma {:induction false} SplitListAfterPiece(p: string, t: string)
    requires !HasListSep(p)
    ensures SplitList(p + ListSep + t) == [p] + SplitList(t)
  {
    var s := p + ListSep + t;
    if |p| == 0 {
      assert s == ListSep + t;
      assert s[2..] == t;
    } else {
      assert !HasListSep(p[1..]) by {
        forall i | 0 <= i < |p[1..]| - 1 ensures !(p[1..][i] == ';' && p[1..][i + 1] == ' ') {
          assert p[1..][i] == p[i + 1] && p[1..][i + 1] == p[i + 2];
        }
      }
      assert !(s[0] == ';' && s[1] == ' ') by {
        if |p| >= 2 {
          assert s[0] == p[0] && s[1] == p[1];
        } else {
          assert s[1] == ';';
        }
      }
      assert s[1..] == p[1..] + ListSep + t;
      SplitListAfterPiece(p[1..], t);
      assert [p[0]] + p[1..] == p;
    }
  }

  /**
   * Round trip: splitting a `"; "`-joined list gives the list back, provided no
   * element itself contains the separator.
   */
  lemma {:induction false} SplitJoin(parts: seq<string>)
    requires |parts| >= 1
    requires forall k :: 0 <= k < |parts| ==> !HasListSep(parts[k])
    ensures SplitList(Join(ListSep, parts)) == parts
  {
    if |parts| == 1 {
      SplitListNoSep(parts[0]);
    } else {
      SplitJoin(parts[1..]);
      SplitListAfterPiece(parts[0], Join(ListSep, parts[1..]));
      assert [parts[0]] + parts[1..] == parts;
    }
  }

  /** A joined list is empty exactly when the list is empty or is the one empty string. */
  lemma JoinEmpty(sep: string, parts: seq<string>)
    requires |sep| > 0
    ensures Join(sep, parts) == "" <==> parts == [] || parts == [""]
  {
    if |parts| >= 2 {
      assert |Join(sep, parts)| >= |sep|;
    }
  }

  /** Python's `s.replace("Z", "+00:00")`: every `Z` becomes a zero UTC offset. */
  function ReplaceZ(s: string): (r: string)
    ensures 'Z' !in r
    ensures 'Z' !in s ==> r == s
    decreases |s|
  {
    if |s| == 0 then ""
    else (if s[0] == 'Z' then "+00:00" else [s[0]]) + ReplaceZ(s[1..])
  }

  /** Replacing in a concatenation replaces in each part. */
  lemma {:induction false} ReplaceZAppend(a: string, b: string)
    ensures ReplaceZ(a + b) == ReplaceZ(a) + ReplaceZ(b)
  {
    if |a| > 0 {
      assert (a + b)[1..] == a[1..] + b;
      ReplaceZAppend(a[1..], b);
    } else {
      assert a + b == b;
    }
  }

  /** No element occurs twice. */
  predicate Distinct(xs: seq<string>)
  {
    forall i, j :: 0 <= i < j < |xs| ==> xs[i] != xs[j]
  }

  /**
   * `list(set(xs))`. Python leaves the order to the set's hashing; this model
   * fixes first-occurrence order, and every property stated about it is about
   * membership and distinctness only.
   */
  function Dedup(xs: seq<string>): (r: seq<string>)
    ensures forall x :: x in r <==> x in xs
    ensures Distinct(r)
    ensures |r| <= |xs|
    decreases |xs|
  {
    if xs == [] then []
    else
      var prior := Dedup(xs[..|xs| - 1]);
      var x := xs[|xs| - 1];
      assert forall y :: y in xs <==> y in xs[..|xs| - 1] || y == x;
      if x in prior then prior else prior + [x]
  }
}
