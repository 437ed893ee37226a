/**
 * The server's result listing (`list_classified_files` in app.py): keep the
 * directory entries whose name ends in `.csv`, then sort them in place in
 * reverse string order ("latest first", since the names carry a timestamp).
 */
module AppListing {
  import opened Text

  /** Python's `a < b` on `str`: code point by code point, a proper prefix first. */
  predicate StrLess(a: string, b: string)
    decreases |a|
  {
    if |a| == 0 then |b| > 0
    else if |b| == 0 then false
    else if a[0] != b[0] then a[0] < b[0]
    else StrLess(a[1..], b[1..])
  }

  /** Exactly one of `a < b`, `a == b`, `b < a` holds. */
  lemma {:induction false} StrLessTrichotomy(a: string, b: string)
    ensures StrLess(a, b) ==> !StrLess(b, a) && a != b
    ensures !StrLess(a, b) && !StrLess(b, a) ==> a == b
    decreases |a|
  {
    if |a| > 0 && |b| > 0 && a[0] == b[0] {
      StrLessTrichotomy(a[1..], b[1..]);
      if a[1..] == b[1..] {
        assert a == [a[0]] + a[1..] && b == [b[0]] + b[1..];
      }
    }
  }

  /** `<` on strings is transitive. */
  lemma {:induction false} StrLessTransitive(a: string, b: string, c: string)
    requires StrLess(a, b) && StrLess(b, c)
    ensures StrLess(a, c)
    decreases |a|
  {
    if |a| > 0 && a[0] == b[0] && b[0] == c[0] {
      StrLessTransitive(a[1..], b[1..], c[1..]);
    }
  }

  /** "Not below": `b <= a` in Python, the order `sort(reverse=True)` leaves neighbours in. */
  predicate NotBelow(a: string, b: string) { !StrLess(a, b) }

  lemma NotBelowTransitive(a: string, b: string, c: string)
    requires NotBelow(a, b) && NotBelow(b, c)
    ensures NotBelow(a, c)
  {
    if StrLess(a, c) {
      StrLessTrichotomy(a, b);
      if a != b {
        StrLessTransitive(b, a, c);
      }
    }
  }

  /** Each entry is at least its successor. */
  predicate AdjacentNonIncreasing(s: seq<string>)
  {
    forall k :: 0 < k < |s| ==> NotBelow(s[k - 1], s[k])
  }

  /** Every entry is at least every later entry. */
  predicate NonIncreasing(s: seq<string>)
  {
    forall i, j :: 0 <= i < j < |s| ==> NotBelow(s[i], s[j])
  }

  lemma {:induction false} AdjacentToPairwise(s: seq<string>)
    requires AdjacentNonIncreasing(s)
    ensures NonIncreasing(s)
    decreases |s|
  {
    if |s| > 1 {
      var t := s[..|s| - 1];
      assert AdjacentNonIncreasing(t);
      AdjacentToPairwise(t);
      forall i | 0 <= i < |s| - 1
        ensures NotBelow(s[i], s[|s| - 1])
      {
        if i < |s| - 2 {
          assert NotBelow(t[i], t[|s| - 2]);
          NotBelowTransitive(s[i], s[|s| - 2], s[|s| - 1]);
        }
      }
    }
  }

  /** The names that end in `.csv`, in their original order. */
  function CsvNames(names: seq<string>): (r: seq<string>)
    ensures |r| <= |names|
    ensures forall x :: x in r <==> x in names && EndsWith(x, ".csv")
  {
    if names == [] then []
    else
      var last := names[|names| - 1];
      var prefix := names[..|names| - 1];
      assert names == prefix + [last];
      CsvNames(prefix) + (if EndsWith(last, ".csv") then [last] else [])
  }

  /** Swap two entries of the list. */
  method Swap(a: array<string>, i: nat, j: nat)
    requires i < a.Length && j < a.Length
    modifies a
    ensures a[..] == old(a[..])[i := old(a[j])][j := old(a[i])]
    ensures multiset(a[..]) == old(multiset(a[..]))
  {
    a[i], a[j] := a[j], a[i];
  }

  /** `files.sort(reverse=True)`: an in-place insertion sort into non-increasing order. */
  method SortDescending(a: array<string>)
    modifies a
    ensures NonIncreasing(a[..])
    ensures multiset(a[..]) == old(multiset(a[..]))
  {
    var i := 0;
    while i < a.Length
      invariant 0 <= i <= a.Length
      invariant forall k :: 0 < k < i ==> NotBelow(a[k - 1], a[k])
      invariant multiset(a[..]) == old(multiset(a[..]))
    {
      var j := i;
      while j > 0 && StrLess(a[j - 1], a[j])
        invariant 0 <= j <= i
        invariant forall k :: 0 < k <= i && k != j ==> NotBelow(a[k - 1], a[k])
        invariant 0 < j < i ==> NotBelow(a[j - 1], a[j + 1])
        invariant multiset(a[..]) == old(multiset(a[..]))
      {
        StrLessTrichotomy(a[j - 1], a[j]);
        Swap(a, j - 1, j);
        j := j - 1;
      }
      i := i + 1;
    }
    AdjacentToPairwise(a[..]);
  }

  /** `list_classified_files`: the `.csv` names among `names`, each as often as listed, latest (greatest) first. */
  method ListClassifiedFiles(names: seq<string>) returns (files: seq<string>)
    ensures multiset(files) == multiset(CsvNames(names))
    ensures forall x :: x in files <==> x in names && EndsWith(x, ".csv")
    ensures NonIncreasing(files)
  {
    var found: seq<string> := [];
    for k := 0 to |names|
      invariant found == CsvNames(names[..k])
    {
      assert names[..k + 1][..k] == names[..k];
      if EndsWith(names[k], ".csv") {
        found := found + [names[k]];
      }
    }
    assert names[..|names|] == names;

    var a := new string[|found|](i requires 0 <= i < |found| => found[i]);
    assert a[..] == found;
    SortDescending(a);
    files := a[..];
    assert forall x :: x in files <==> x in multiset(files);
    assert forall x :: x in found <==> x in multiset(found);
  }
}
