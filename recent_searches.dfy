/**
  The recent-search list: the most-recent-first update applied after a
  successful search, and the initial list read back from storage.
 */
module RecentSearches {

  /** `MAX_RECENT`: the update keeps at most this many entries. */
  const MaxRecent: nat := 3

  /** The storage key under which the list is persisted. */
  const StorageKey: string := "recentSearches"

  /** No entry occurs twice. */
  predicate Distinct(s: seq<string>) {
    forall i, j :: 0 <= i < j < |s| ==> s[i] != s[j]
  }

  /** `a` is `b` with some entries dropped and the rest kept in order. */
  predicate IsSubsequence(a: seq<string>, b: seq<string>)
    decreases |b|
  {
    a == [] ||
    (b != [] &&
      ((a[0] == b[0] && IsSubsequence(a[1..], b[1..])) || IsSubsequence(a, b[1..])))
  }

  /** `s.filter(e => e !== x)`: every occurrence of `x` removed, the rest in order. */
  function Without(x: string, s: seq<string>): (r: seq<string>)
    ensures |r| <= |s|
    ensures forall y :: y in r <==> y in s && y != x
    ensures multiset(r) == multiset(s)[x := 0]
    ensures x !in s ==> r == s
  {
    if s == [] then []
    else
      assert s == [s[0]] + s[1..];
      if s[0] == x then Without(x, s[1..])
      else [s[0]] + Without(x, s[1..])
  }

  /** `s.slice(0, n)`: the first `n` entries, or all of them when there are fewer. */
  function Take(s: seq<string>, n: nat): (r: seq<string>)
    ensures r <= s && |r| == if |s| <= n then |s| else n
  {
    if |s| <= n then s else s[..n]
  }

  /** `[q, ...prev.filter(e => e !== q)].slice(0, MAX_RECENT)` */
  function UpdateRecent(q: string, prev: seq<string>): (r: seq<string>)
    ensures 1 <= |r| <= MaxRecent
    ensures r[0] == q
    ensures forall i :: 1 <= i < |r| ==> r[i] != q
    ensures forall y :: y in r ==> y == q || y in prev
    // the entries kept are the most recent ones: truncation drops the oldest
    ensures r[1..] <= Without(q, prev)
    ensures |r| == if 1 + |Without(q, prev)| <= MaxRecent then 1 + |Without(q, prev)| else MaxRecent
  {
    Take([q] + Without(q, prev), MaxRecent)
  }

  lemma {:induction false} WithoutIsSubsequence(x: string, s: seq<string>)
    ensures IsSubsequence(Without(x, s), s)
  {
    if s != [] {
      WithoutIsSubsequence(x, s[1..]);
      if s[0] != x {
        assert ([s[0]] + Without(x, s[1..]))[1..] == Without(x, s[1..]);
      }
    }
  }

  lemma {:induction false} PrefixIsSubsequence(a: seq<string>, b: seq<string>, k: nat)
    requires IsSubsequence(a, b) && k <= |a|
    ensures IsSubsequence(a[..k], b)
    decreases |b|
  {
    if k > 0 {
      if a[0] == b[0] && IsSubsequence(a[1..], b[1..]) {
        PrefixIsSubsequence(a[1..], b[1..], k - 1);
        assert a[..k][1..] == a[1..][..k - 1];
      } else {
        PrefixIsSubsequence(a, b[1..], k);
      }
    }
  }

  /**
    The query occurs exactly once in the updated list, and every other entry
    comes from `prev`, in the order it had there.
   */
  lemma UpdateRecentKeepsOrder(q: string, prev: seq<string>)
    ensures multiset(UpdateRecent(q, prev))[q] == 1
    ensures IsSubsequence(UpdateRecent(q, prev)[1..], prev)
  {
    var r := UpdateRecent(q, prev);
    assert r == [q] + r[1..];
    assert q !in r[1..];
    assert multiset(r) == multiset{q} + multiset(r[1..]);
    var w := Without(q, prev);
    WithoutIsSubsequence(q, prev);
    assert r[1..] == w[..|r| - 1];
    PrefixIsSubsequence(w, prev, |r| - 1);
  }

  /** An entry of `prev` other than the query is dropped only when the list is full. */
  lemma UpdateRecentEvictsOnlyWhenFull(q: string, prev: seq<string>, x: string)
    requires x in prev && x != q && x !in UpdateRecent(q, prev)
    ensures |UpdateRecent(q, prev)| == MaxRecent
  {
  }

  lemma {:induction false} WithoutDistinct(x: string, s: seq<string>)
    requires Distinct(s)
    ensures Distinct(Without(x, s))
  {
    if s != [] {
      assert Distinct(s[1..]);
      WithoutDistinct(x, s[1..]);
      if s[0] != x {
        var w := [s[0]] + Without(x, s[1..]);
        assert s[0] !in s[1..];
        forall i, j | 0 <= i < j < |w| ensures w[i] != w[j] {
          if i == 0 {
            assert w[j] in Without(x, s[1..]);
          } else {
            assert w[i] == Without(x, s[1..])[i - 1] && w[j] == Without(x, s[1..])[j - 1];
          }
        }
      }
    }
  }

  /** A list without duplicates stays without duplicates. */
  lemma UpdateRecentDistinct(q: string, prev: seq<string>)
    requires Distinct(prev)
    ensures Distinct(UpdateRecent(q, prev))
  {
    var r := UpdateRecent(q, prev);
    var w := Without(q, prev);
    WithoutDistinct(q, prev);
    assert r[1..] <= w;
    forall i, j | 0 <= i < j < |r| ensures r[i] != r[j] {
      if i > 0 {
        assert r[i] == w[i - 1] && r[j] == w[j - 1];
      }
    }
  }

  lemma {:induction false} WithoutAt(x: string, s: seq<string>, i: nat)
    requires i < |s| && s[i] == x && x !in s[..i] && x !in s[i + 1..]
    ensures Without(x, s) == s[..i] + s[i + 1..]
  {
    if i == 0 {
      assert s[1..] == s[i + 1..];
    } else {
      assert s[0] in s[..i];
      assert s[1..][..i - 1] == s[1..i];
      assert s[1..][i..] == s[i + 1..];
      WithoutAt(x, s[1..], i - 1);
      assert s[..i] == [s[0]] + s[1..][..i - 1];
    }
  }

  /**
    Searching again for an entry held once in a list of at most `MaxRecent`
    entries moves it to the front and changes nothing else, so the length
    stays the same. Other entries may repeat.
   */
  lemma UpdateRecentMovesToFront(q: string, prev: seq<string>, i: nat)
    requires multiset(prev)[q] == 1 && |prev| <= MaxRecent
    requires i < |prev| && prev[i] == q
    ensures UpdateRecent(q, prev) == [q] + prev[..i] + prev[i + 1..]
    ensures |UpdateRecent(q, prev)| == |prev|
  {
    assert prev == prev[..i] + [q] + prev[i + 1..];
    assert multiset(prev) == multiset(prev[..i]) + multiset{q} + multiset(prev[i + 1..]);
    assert q !in multiset(prev[..i]) && q !in multiset(prev[i + 1..]);
    WithoutAt(q, prev, i);
  }

  lemma {:induction false} WithoutShrinks(x: string, s: seq<string>)
    requires x in s
    ensures |Without(x, s)| < |s|
  {
    if s[0] != x {
      WithoutShrinks(x, s[1..]);
    }
  }

  /**
    Searching for an entry already in the list never makes the list longer,
    whatever the stored list holds (duplicates, more than `MaxRecent` entries).
   */
  lemma UpdateRecentNeverLengthens(q: string, prev: seq<string>)
    requires q in prev
    ensures |UpdateRecent(q, prev)| <= |prev|
  {
    WithoutShrinks(q, prev);
  }

  /** The move-to-front example with a repeated entry: `[b, b, q]` becomes `[q, b, b]`. */
  lemma UpdateRecentKeepsOtherRepeats()
    ensures UpdateRecent("q", ["b", "b", "q"]) == ["q", "b", "b"]
  {
    UpdateRecentMovesToFront("q", ["b", "b", "q"], 2);
  }

  /** With duplicates in storage the list can shrink: `[a, a]` becomes `[a]`. */
  lemma UpdateRecentCollapsesDuplicates()
    ensures UpdateRecent("a", ["a", "a"]) == ["a"]
  {
  }

  /** A full list loses its oldest entry: `[a, b, c]` searched with `d` becomes `[d, a, b]`. */
  lemma UpdateRecentDropsOldest()
    ensures UpdateRecent("d", ["a", "b", "c"]) == ["d", "a", "b"]
  {
  }

  /** Repeating the same successful search changes nothing further. */
  lemma UpdateRecentIdempotent(q: string, prev: seq<string>)
    ensures UpdateRecent(q, UpdateRecent(q, prev)) == UpdateRecent(q, prev)
  {
  }

  /** The result of parsing the stored text, with the JSON parser left abstract. */
  datatype Parsed = ParseFailed | NotArray | Array(items: seq<string>)

  /**
    The initial list: the parsed array when the key holds a non-empty value
    that parses to an array, the empty list in every other case.
   */
  function InitRecent(storage: map<string, string>, parse: string -> Parsed): (r: seq<string>)
    ensures r != [] ==>
      StorageKey in storage && storage[StorageKey] != "" && parse(storage[StorageKey]) == Array(r)
    ensures StorageKey in storage && storage[StorageKey] != "" && parse(storage[StorageKey]).Array?
      ==> r == parse(storage[StorageKey]).items
  {
    if StorageKey in storage && storage[StorageKey] != "" then
      match parse(storage[StorageKey])
      case Array(items) => items
      case _ => []
    else []
  }

  /**
    Writing a list with an encoder that the parser inverts, and initialising
    from the new storage, gives back that list.
   */
  lemma InitAfterPersist(storage: map<string, string>, list: seq<string>,
                         parse: string -> Parsed, encode: seq<string> -> string)
    requires encode(list) != "" && parse(encode(list)) == Array(list)
    ensures InitRecent(storage[StorageKey := encode(list)], parse) == list
  {
  }
}
