/** Bounded-sequence operations shared by the caches, histories and logs. */
module Sequences {

  datatype Option<+T> = None | Some(value: T)

  /** The last `n` elements, or all of them when there are fewer. */
  function LastN<T>(s: seq<T>, n: nat): (r: seq<T>)
    ensures |r| == if |s| <= n then |s| else n
  {
    if |s| <= n then s else s[|s| - n..]
  }

  /** Appending to a deque that keeps at most `n` elements. */
  function Append<T>(s: seq<T>, x: T, n: nat): (r: seq<T>) {
    LastN(s + [x], n)
  }

  lemma LastNOfAppend<T>(s: seq<T>, x: T, n: nat)
    requires n >= 1
    ensures Append(LastN(s, n), x, n) == LastN(s + [x], n)
  {
  }

  /** Where the survivors of an append come from. */
  lemma AppendShift<T>(s: seq<T>, x: T, n: nat)
    requires n >= 1
    ensures var before, r := LastN(s, n), LastN(s + [x], n);
            var lost := if |before| < n then 0 else 1;
            && |r| == |before| + 1 - lost && r[|r| - 1] == x
            && forall i :: 0 <= i < |r| - 1 ==> r[i] == before[i + lost]
  {
  }

  lemma LastNEndsAlike<T>(s: seq<T>, n: nat)
    requires n >= 1 && s != []
    ensures LastN(s, n)[|LastN(s, n)| - 1] == s[|s| - 1]
  {
  }

  lemma LastNOfUpdate<T>(s: seq<T>, i: nat, x: T, n: nat)
    requires i < |s|
    ensures var lost := |s| - |LastN(s, n)|;
            LastN(s[i := x], n) == if i < lost then LastN(s, n) else LastN(s, n)[i - lost := x]
  {
  }

  lemma LastNOfLastN<T>(s: seq<T>, k: nat, n: nat)
    requires k <= n
    ensures LastN(LastN(s, n), k) == LastN(s, k)
  {
  }

  predicate Distinct<T(==)>(s: seq<T>) {
    forall i, j :: 0 <= i < j < |s| ==> s[i] != s[j]
  }

  function Members<T(==)>(xs: seq<T>): set<T> {
    set x | x in xs
  }

  /** `xs` lists the members of `members`, each once. */
  ghost predicate Enumerates<T(!new)>(xs: seq<T>, members: set<T>) {
    (forall i, j :: 0 <= i < j < |xs| ==> xs[i] != xs[j]) && (forall x :: x in xs <==> x in members)
  }

  lemma SomeMember(s: set<int>)
    ensures s == {} || exists k: int :: k in s
  {
    if forall k: int :: k !in s {
      assert s == {};
    }
  }

  function InsertBy<T>(sorted: seq<T>, x: T, key: T -> int): (r: seq<T>)
    ensures |r| == |sorted| + 1
  {
    if sorted != [] && key(sorted[|sorted| - 1]) > key(x) then
      InsertBy(sorted[..|sorted| - 1], x, key) + [sorted[|sorted| - 1]]
    else sorted + [x]
  }

  /** Stable sort by an integer key. */
  function SortBy<T>(s: seq<T>, key: T -> int): (r: seq<T>)
    ensures |r| == |s|
  {
    if s == [] then [] else InsertBy(SortBy(s[..|s| - 1], key), s[|s| - 1], key)
  }

  lemma {:induction false} SortSorted<T>(s: seq<T>, key: T -> int)
    requires forall i, j :: 0 <= i < j < |s| ==> key(s[i]) <= key(s[j])
    ensures SortBy(s, key) == s
  {
    if s == [] {
    } else {
      SortSorted(s[..|s| - 1], key);
    }
  }
}
