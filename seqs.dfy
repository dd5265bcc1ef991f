/**
 * Sequence operations the contact book is built from: the first-match scan
 * that `Record` repeats for every phone operation, the in-place removal of
 * the first match (`list.remove`), and `str.join`.
 */
module Seqs {
  import opened Wrappers

  /** The index the scan `for p in xs: if p == x: break` stops at, or `None` when it runs off the end. */
  function FirstIndexOf<T(==)>(s: seq<T>, x: T): (r: Option<nat>)
    ensures r.Some? <==> x in s
    ensures r.Some? ==> r.value < |s| && s[r.value] == x && x !in s[..r.value]
  {
    if s == [] then None
    else if s[0] == x then Some(0)
    else
      match FirstIndexOf(s[1..], x)
      case None => None
      case Some(i) =>
        assert s[..i + 1] == [s[0]] + s[1..][..i];
        Some(i + 1)
  }

  /** The three facts of FirstIndexOf's contract determine the index. */
  lemma FirstIndexUnique<T>(s: seq<T>, x: T, i: nat)
    requires i < |s| && s[i] == x && x !in s[..i]
    ensures FirstIndexOf(s, x) == Some(i)
  {
  }

  /** Appending never moves an existing first match; a new element is found only if it is the first of its kind. */
  lemma FirstIndexOfAppend<T>(s: seq<T>, y: T, x: T)
    ensures FirstIndexOf(s + [y], x) ==
      if x in s then FirstIndexOf(s, x) else if y == x then Some(|s|) else None
  {
    var t := s + [y];
    if x in s {
      var i := FirstIndexOf(s, x).value;
      assert t[..i] == s[..i];
      FirstIndexUnique(t, x, i);
    } else if y == x {
      assert t[..|s|] == s;
      FirstIndexUnique(t, x, |s|);
    } else {
      assert x !in t;
    }
  }

  /** `xs.remove(x)` after the scan: the first element equal to `x` is deleted. */
  function RemoveFirst<T(==)>(s: seq<T>, x: T): seq<T>
  {
    match FirstIndexOf(s, x)
    case None => s
    case Some(i) => s[..i] + s[i + 1..]
  }

  /**
   * Removing the first occurrence: the old sequence is the new one with `x`
   * put back at the first-match index, and nothing before that index equals
   * `x`; so every other element, later duplicates of `x` included, keeps its
   * relative order. Without an occurrence nothing changes.
   */
  lemma RemoveFirstShape<T>(s: seq<T>, x: T)
    ensures x !in s ==> RemoveFirst(s, x) == s
    ensures x in s ==>
      var i, r := FirstIndexOf(s, x).value, RemoveFirst(s, x);
      |r| == |s| - 1 && s == r[..i] + [x] + r[i..] && x !in r[..i]
  {
    if x in s {
      var i := FirstIndexOf(s, x).value;
      var r := RemoveFirst(s, x);
      assert r == s[..i] + s[i + 1..];
      assert r[..i] == s[..i];
      assert r[i..] == s[i + 1..];
      assert s == s[..i] + [x] + s[i + 1..];
    }
  }

  /** No element occurs twice. */
  ghost predicate Distinct<T>(s: seq<T>)
  {
    forall i, j :: 0 <= i < j < |s| ==> s[i] != s[j]
  }

  /** Appending an element not yet present keeps a sequence free of duplicates. */
  lemma DistinctAppend<T>(s: seq<T>, x: T)
    requires Distinct(s) && x !in s
    ensures Distinct(s + [x])
  {
  }

  /** In a sequence without duplicates, removing the first `x` removes every `x` and nothing else. */
  lemma RemoveFirstDistinct<T>(s: seq<T>, x: T)
    requires Distinct(s)
    ensures Distinct(RemoveFirst(s, x))
    ensures forall y :: y in RemoveFirst(s, x) <==> y in s && y != x
  {
    if x in s {
      var i := FirstIndexOf(s, x).value;
      var r := RemoveFirst(s, x);
      assert r == s[..i] + s[i + 1..];
      assert forall k :: 0 <= k < |r| ==> r[k] == if k < i then s[k] else s[k + 1];
      forall y
        ensures y in r <==> y in s && y != x
      {
        if y in s && y != x {
          var k :| 0 <= k < |s| && s[k] == y;
          assert r[if k < i then k else k - 1] == y;
        }
      }
    }
  }

  /** Removing the first occurrence takes exactly one copy of `x` out; `x` remains iff it was there twice. */
  lemma RemoveFirstCount<T>(s: seq<T>, x: T)
    ensures multiset(RemoveFirst(s, x)) == multiset(s) - multiset{x}
    ensures x in RemoveFirst(s, x) <==> multiset(s)[x] >= 2
  {
    var r := RemoveFirst(s, x);
    if x in s {
      var i := FirstIndexOf(s, x).value;
      assert s == s[..i] + [x] + s[i + 1..];
      assert multiset(s) == multiset(s[..i]) + multiset{x} + multiset(s[i + 1..]);
      assert multiset(r) == multiset(s[..i]) + multiset(s[i + 1..]);
      assert x in r <==> multiset(r)[x] >= 1;
    } else {
      assert multiset(s)[x] == 0;
    }
  }

  /**
   * Rewriting the first occurrence of `o` to `n` keeps the length and every
   * other position; `n` is then found no later than that index, and `o` is
   * still found exactly when `s` held it twice or more.
   */
  lemma {:induction false} ReplaceFirstSpec<T>(s: seq<T>, o: T, n: T)
    requires o in s && o != n
    ensures var i := FirstIndexOf(s, o).value; var t := s[i := n];
      |t| == |s| && t[i] == n &&
      FirstIndexOf(t, n).Some? && FirstIndexOf(t, n).value <= i &&
      multiset(t) == multiset(s) - multiset{o} + multiset{n} &&
      (o in t <==> multiset(s)[o] >= 2)
  {
    var i := FirstIndexOf(s, o).value;
    var t := s[i := n];
    assert t == s[..i] + [n] + s[i + 1..];
    assert s == s[..i] + [o] + s[i + 1..];
    assert multiset(t) == multiset(s[..i]) + multiset{n} + multiset(s[i + 1..]);
    assert multiset(s) == multiset(s[..i]) + multiset{o} + multiset(s[i + 1..]);
    assert multiset(t)[o] == multiset(s)[o] - 1;
    assert o in t <==> multiset(t)[o] >= 1;
  }

  /** `sep.join(parts)`. */
  function Join<T>(parts: seq<seq<T>>, sep: seq<T>): seq<T>
  {
    if |parts| == 0 then []
    else if |parts| == 1 then parts[0]
    else parts[0] + sep + Join(parts[1..], sep)
  }

  /** Joining one more part adds the separator and that part at the end. */
  lemma {:induction false} JoinAppend<T>(parts: seq<seq<T>>, last: seq<T>, sep: seq<T>)
    requires parts != []
    ensures Join(parts + [last], sep) == Join(parts, sep) + sep + last
  {
    if |parts| > 1 {
      assert (parts + [last])[1..] == parts[1..] + [last];
      JoinAppend(parts[1..], last, sep);
    }
  }

  /** A non-empty join starts with its first part. */
  lemma {:induction false} JoinStartsWithFirst<T>(parts: seq<seq<T>>, sep: seq<T>)
    requires parts != []
    ensures |parts[0]| <= |Join(parts, sep)| && Join(parts, sep)[..|parts[0]|] == parts[0]
  {
  }

  /** Cuts `s` into pieces of `width` elements, skipping `gap` elements after each piece. */
  function Chunks<T>(s: seq<T>, width: nat, gap: nat): seq<seq<T>>
    requires width > 0
    decreases |s|
  {
    if s == [] then []
    else if |s| <= width + gap then [s[..if |s| < width then |s| else width]]
    else [s[..width]] + Chunks(s[width + gap..], width, gap)
  }

  /** Parts of one fixed width can be recovered from their join, whatever the separator. */
  lemma {:induction false} ChunksOfJoin<T>(parts: seq<seq<T>>, sep: seq<T>, width: nat)
    requires width > 0
    requires forall i :: 0 <= i < |parts| ==> |parts[i]| == width
    ensures Chunks(Join(parts, sep), width, |sep|) == parts
  {
    if |parts| == 1 {
      assert parts[0][..width] == parts[0];
    } else if |parts| > 1 {
      var s := Join(parts, sep);
      var rest := Join(parts[1..], sep);
      assert s == parts[0] + sep + rest;
      ChunksOfJoin(parts[1..], sep, width);
      assert rest != [] by { JoinStartsWithFirst(parts[1..], sep); }
      assert s[..width] == parts[0];
      assert s[width + |sep|..] == rest;
      assert parts == [parts[0]] + parts[1..];
    }
  }
}
