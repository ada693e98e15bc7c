/** Sequences without repetition and the sets they list. */
module Sequences {

  ghost predicate NoDuplicates<T(!new)>(s: seq<T>)
  {
    forall i, j | 0 <= i < j < |s| :: s[i] != s[j]
  }

  /** The first `i` members of a list, as a set. */
  ghost function Prefix<T(!new)>(s: seq<T>, i: nat): set<T>
    requires i <= |s|
  {
    set j | 0 <= j < i :: s[j]
  }

  lemma PrefixStep<T(!new)>(s: seq<T>, i: nat)
    requires i < |s|
    ensures Prefix(s, i + 1) == Prefix(s, i) + {s[i]}
    ensures NoDuplicates(s) ==> s[i] !in Prefix(s, i)
  {
  }

  lemma PrefixTail<T(!new)>(s: seq<T>, i: nat)
    requires i < |s|
    ensures Prefix(s, i + 1) == {s[0]} + Prefix(s[1..], i)
  {
    forall x | x in {s[0]} + Prefix(s[1..], i) ensures x in Prefix(s, i + 1) {
      if x != s[0] {
        var j :| 0 <= j < i && s[1..][j] == x;
        assert s[j + 1] == x;
      }
    }
  }

  lemma PrefixAll<T(!new)>(s: seq<T>)
    ensures Prefix(s, |s|) == set n | n in s
  {
  }

  /** `s` lists the members of `S`, once each. */
  ghost predicate Lists<T(!new)>(s: seq<T>, S: set<T>)
  {
    NoDuplicates(s) && forall n :: n in s <==> n in S
  }

  lemma ListsAdd<T(!new)>(s: seq<T>, S: set<T>, n: T)
    requires Lists(s, S) && n !in S
    ensures Lists(s + [n], S + {n})
  {
    assert n !in s;
  }

  lemma ListsTail<T(!new)>(s: seq<T>, S: set<T>)
    requires Lists(s, S) && s != []
    ensures Lists(s[1..], S - {s[0]}) && s[0] in S
  {
    assert s == [s[0]] + s[1..];
  }

  lemma ListsOneMore<T(!new)>(s: seq<T>, K: set<T>, R: set<T>, n: T)
    requires Lists(s, K - R) && n in R && R <= K
    ensures Lists(s + [n], K - (R - {n}))
  {
    assert n !in s;
  }

  lemma ListedKeys<T(!new)>(s: seq<T>, S: set<T>)
    requires Lists(s, S)
    ensures (set n | n in s) == S
  {
  }

  /** All members of a list, as a set. */
  ghost function Members<T(!new)>(s: seq<T>): set<T>
  {
    set x | x in s
  }

  lemma MembersAppend<T(!new)>(s: seq<T>, x: T)
    ensures Members(s + [x]) == Members(s) + {x}
  {
  }

  function Init<T>(s: seq<T>): seq<T>
    requires s != []
  {
    s[..|s| - 1]
  }

  function Last<T>(s: seq<T>): T
    requires s != []
  {
    s[|s| - 1]
  }

  function Without<T(==)>(s: seq<T>, x: T): seq<T>
  {
    if s == [] then [] else (if s[0] == x then [] else [s[0]]) + Without(s[1..], x)
  }

  lemma {:induction false} WithoutMember<T(!new)>(s: seq<T>, x: T)
    requires NoDuplicates(s)
    ensures forall y :: y in Without(s, x) <==> y in s && y != x
    ensures NoDuplicates(Without(s, x)) && |Without(s, x)| == |s| - if x in s then 1 else 0
  {
    if s != [] {
      WithoutMember(s[1..], x);
      forall i, j | 0 <= i < j < |Without(s, x)| ensures Without(s, x)[i] != Without(s, x)[j] {
        if i == 0 && s[0] != x {
          assert Without(s, x)[j] in Without(s[1..], x);
        }
      }
    }
  }

  lemma {:induction false} WithoutLast<T>(s: seq<T>, x: T)
    requires x !in s
    ensures Without(s + [x], x) == s
  {
    if s != [] {
      WithoutLast(s[1..], x);
      assert (s + [x])[1..] == s[1..] + [x];
    }
  }

  lemma {:induction false} ListLength<T(!new)>(s: seq<T>, S: set<T>)
    requires Lists(s, S)
    ensures |s| == |S|
    decreases |s|
  {
    if s == [] {
      assert S == {};
    } else {
      ListsTail(s, S);
      ListLength(s[1..], S - {s[0]});
    }
  }

  lemma SubsetSize<T>(A: set<T>, B: set<T>)
    requires A <= B
    ensures |A| <= |B|
  {
    assert B == A + (B - A);
  }

  /** A family of different names. */
  function Name(i: nat): string
  {
    seq(i, _ => 'k')
  }

  function Names(n: nat): (names: seq<string>)
    ensures |names| == n
  {
    if n == 0 then [] else Names(n - 1) + [Name(n - 1)]
  }

  lemma {:induction false} NamesDiffer(n: nat)
    ensures forall i | 0 <= i < n :: Names(n)[i] == Name(i)
    ensures NoDuplicates(Names(n)) && Name(n) !in Names(n)
  {
    if n > 0 {
      NamesDiffer(n - 1);
    }
    forall i, j | 0 <= i < j <= n ensures Name(i) != Name(j) {
      assert |Name(i)| == i && |Name(j)| == j;
    }
  }
}
