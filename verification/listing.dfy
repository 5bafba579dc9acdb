/** Listing saved responses: the names in a directory that match the glob
    `response_*.json`, in ascending string order. */
module Listing {
  import opened Text

  /** The directory responses are saved in and listed from by default. */
  const SavedResponsesDir := "saved_responses"

  const ResponsePrefix := "response_"
  const ResponseSuffix := ".json"

  /** A file name matches `response_*.json`: the literal prefix, then any
      text, then the literal suffix, the two not overlapping. */
  predicate MatchesResponseGlob(name: string) {
    && |name| >= |ResponsePrefix| + |ResponseSuffix|
    && name[..|ResponsePrefix|] == ResponsePrefix
    && name[|name| - |ResponseSuffix|..] == ResponseSuffix
  }

  /** Python's `a <= b` on strings: lexicographic by code point, a proper
      prefix sorting first. */
  predicate LexLe(a: string, b: string)
    decreases |a|
  {
    |a| == 0 || (|b| > 0 && (a[0] < b[0] || (a[0] == b[0] && LexLe(a[1..], b[1..]))))
  }

  lemma {:induction false} LexLeTotal(a: string, b: string)
    ensures LexLe(a, b) || LexLe(b, a)
    decreases |a|
  {
    if |a| > 0 && |b| > 0 && a[0] == b[0] {
      LexLeTotal(a[1..], b[1..]);
    }
  }

  lemma {:induction false} LexLeTransitive(a: string, b: string, c: string)
    requires LexLe(a, b) && LexLe(b, c)
    ensures LexLe(a, c)
    decreases |a|
  {
    if |a| > 0 && a[0] == b[0] && b[0] == c[0] {
      LexLeTransitive(a[1..], b[1..], c[1..]);
    }
  }

  lemma {:induction false} LexLeAntisymmetric(a: string, b: string)
    requires LexLe(a, b) && LexLe(b, a)
    ensures a == b
    decreases |a|
  {
    if |a| > 0 {
      LexLeAntisymmetric(a[1..], b[1..]);
      assert a == [a[0]] + a[1..] && b == [b[0]] + b[1..];
    }
  }

  predicate Sorted(s: seq<string>) {
    forall i, j :: 0 <= i < j < |s| ==> LexLe(s[i], s[j])
  }

  lemma SortedTail(s: seq<string>)
    requires Sorted(s) && |s| > 0
    ensures Sorted(s[1..])
  {
    forall i, j | 0 <= i < j < |s| - 1
      ensures LexLe(s[1..][i], s[1..][j])
    {
      assert s[1..][i] == s[i + 1] && s[1..][j] == s[j + 1];
    }
  }

  /** A lower bound of the first element of a sorted sequence bounds all of it. */
  lemma BelowSorted(x: string, s: seq<string>)
    requires Sorted(s) && |s| > 0 && LexLe(x, s[0])
    ensures forall j :: 0 <= j < |s| ==> LexLe(x, s[j])
  {
    forall j | 0 <= j < |s|
      ensures LexLe(x, s[j])
    {
      if j > 0 {
        LexLeTransitive(x, s[0], s[j]);
      }
    }
  }

  /** `x` placed into sorted `s` before the first element it does not exceed. */
  function Insert(x: string, s: seq<string>): (r: seq<string>)
    requires Sorted(s)
    ensures Sorted(r)
    ensures multiset(r) == multiset(s) + multiset{x}
    decreases |s|
  {
    if |s| == 0 then [x]
    else if LexLe(x, s[0]) then
      BelowSorted(x, s);
      [x] + s
    else
      assert s == [s[0]] + s[1..];
      var tail := Insert(x, s[1..]);
      LexLeTotal(x, s[0]);
      InsertKeepsLowerBound(s[0], x, s[1..], tail);
      [s[0]] + tail
  }

  lemma InsertKeepsLowerBound(lo: string, x: string, s: seq<string>, tail: seq<string>)
    requires LexLe(lo, x)
    requires forall j :: 0 <= j < |s| ==> LexLe(lo, s[j])
    requires multiset(tail) == multiset(s) + multiset{x}
    requires Sorted(tail)
    ensures Sorted([lo] + tail)
  {
    forall k | 0 <= k < |tail|
      ensures LexLe(lo, tail[k])
    {
      assert tail[k] in multiset(tail);
      if tail[k] != x {
        assert tail[k] in multiset(s);
        var j :| 0 <= j < |s| && s[j] == tail[k];
      }
    }
  }

  /** The names in ascending order, as Python's `sorted`. */
  function Sort(xs: seq<string>): (r: seq<string>)
    ensures Sorted(r)
    ensures multiset(r) == multiset(xs)
    decreases |xs|
  {
    if |xs| == 0 then []
    else
      assert xs == [xs[0]] + xs[1..];
      Insert(xs[0], Sort(xs[1..]))
  }

  /** Two sorted arrangements of the same names start alike. */
  lemma SameHead(a: seq<string>, b: seq<string>)
    requires Sorted(a) && Sorted(b) && multiset(a) == multiset(b) && |a| > 0
    ensures |b| > 0 && a[0] == b[0]
  {
    assert a[0] in multiset(b);
    var j :| 0 <= j < |b| && b[j] == a[0];
    assert b[0] in multiset(a);
    var i :| 0 <= i < |a| && a[i] == b[0];
    if i > 0 && j > 0 {
      LexLeAntisymmetric(a[0], b[0]);
    }
  }

  lemma DropHead(a: seq<string>, b: seq<string>)
    requires multiset(a) == multiset(b) && |a| > 0 && |b| > 0 && a[0] == b[0]
    ensures multiset(a[1..]) == multiset(b[1..])
  {
    assert a == [a[0]] + a[1..] && b == [b[0]] + b[1..];
    calc {
      multiset(a[1..]);
      multiset(a) - multiset{a[0]};
      multiset(b) - multiset{b[0]};
      multiset(b[1..]);
    }
  }

  /** Two sorted arrangements of the same names are the same sequence. */
  lemma {:induction false} SortedUnique(a: seq<string>, b: seq<string>)
    requires Sorted(a) && Sorted(b) && multiset(a) == multiset(b)
    ensures a == b
    decreases |a|
  {
    if |a| == 0 {
      assert |multiset(b)| == 0;
    } else {
      SameHead(a, b);
      DropHead(a, b);
      SortedTail(a);
      SortedTail(b);
      SortedUnique(a[1..], b[1..]);
      assert a == [a[0]] + a[1..] && b == [b[0]] + b[1..];
    }
  }

  /** The names matching the glob, in the order given. */
  function MatchingNames(names: seq<string>): (r: seq<string>)
    ensures forall n :: multiset(r)[n] == if MatchesResponseGlob(n) then multiset(names)[n] else 0
    decreases |names|
  {
    if |names| == 0 then []
    else
      assert names == [names[0]] + names[1..];
      (if MatchesResponseGlob(names[0]) then [names[0]] else []) + MatchingNames(names[1..])
  }

  /** The saved responses in a directory: none when the directory does not
      exist, otherwise exactly the matching names, each as often as the
      directory lists it, in ascending order. `entries` is the directory's
      listing in whatever order the file system enumerates it. */
  function ListSavedResponses(entries: Option<seq<string>>): (r: seq<string>)
    ensures entries.None? ==> r == []
    ensures entries.Some? ==> Sorted(r)
    ensures entries.Some? ==>
      forall n :: multiset(r)[n] == (if MatchesResponseGlob(n) then multiset(entries.value)[n] else 0)
  {
    match entries
    case None => []
    case Some(names) => Sort(MatchingNames(names))
  }

  /** The listing depends on which names the directory holds, not on the
      order the file system enumerates them in. */
  lemma ListingIgnoresEnumerationOrder(a: seq<string>, b: seq<string>)
    requires multiset(a) == multiset(b)
    ensures ListSavedResponses(Some(a)) == ListSavedResponses(Some(b))
  {
    var ra, rb := ListSavedResponses(Some(a)), ListSavedResponses(Some(b));
    assert multiset(ra) == multiset(rb) by {
      forall n
        ensures multiset(ra)[n] == multiset(rb)[n]
      {
      }
    }
    SortedUnique(ra, rb);
  }

  /** Every matching name in the directory is listed; no other name is. */
  lemma ListsExactlyMatching(names: seq<string>, n: string)
    ensures n in ListSavedResponses(Some(names)) <==> n in names && MatchesResponseGlob(n)
  {
    var r := ListSavedResponses(Some(names));
    assert n in r <==> multiset(r)[n] > 0;
    assert n in names <==> multiset(names)[n] > 0;
  }
}
