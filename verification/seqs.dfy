/** Sequence helpers standing for the array methods the game uses (`filter`, `some`, `find`, `flat`). */
module Seqs {
  import opened Wrappers

  /** `s.filter(f)`: the elements of `s` that satisfy `f`, in their original order. */
  function Filter<T(!new)>(s: seq<T>, f: T -> bool): (r: seq<T>)
    ensures |r| <= |s|
    ensures forall x :: x in r <==> x in s && f(x)
    ensures forall i :: 0 <= i < |r| ==> f(r[i])
  {
    if s == [] then [] else (if f(s[0]) then [s[0]] else []) + Filter(s[1..], f)
  }

  lemma {:induction false} FilterAppend<T(!new)>(a: seq<T>, b: seq<T>, f: T -> bool)
    ensures Filter(a + b, f) == Filter(a, f) + Filter(b, f)
  {
    if a == [] {
      assert a + b == b;
    } else {
      assert (a + b)[1..] == a[1..] + b;
      FilterAppend(a[1..], b, f);
    }
  }

  /** A filter keeps every element at most as often as the sequence holds it. */
  lemma {:induction false} FilterMultiset<T(!new)>(s: seq<T>, f: T -> bool)
    ensures multiset(Filter(s, f)) <= multiset(s)
  {
    if s != [] {
      FilterMultiset(s[1..], f);
      assert s == [s[0]] + s[1..];
    }
  }

  /** A sequence drawn from `s` that holds `x` and nothing else, where `s` holds `x` once, is `[x]`. */
  lemma OnlyElement<T>(r: seq<T>, s: seq<T>, x: T)
    requires multiset(r) <= multiset(s) && multiset(s)[x] == 1
    requires x in r && forall y :: y in r ==> y == x
    ensures r == [x]
  {
    assert multiset(r) == multiset{x} by {
      forall y
        ensures multiset(r)[y] == multiset{x}[y]
      {
        if y != x {
          assert y !in r;
        }
      }
    }
    assert |r| == |multiset(r)| == 1;
    assert r[0] in r;
  }

  /** A filter that keeps nothing of a sequence none of whose elements qualifies. */
  lemma {:induction false} FilterNone<T(!new)>(s: seq<T>, f: T -> bool)
    requires forall x :: x in s ==> !f(x)
    ensures Filter(s, f) == []
  {
    if s != [] {
      assert forall x :: x in s[1..] ==> x in s;
      FilterNone(s[1..], f);
    }
  }

  /** Two predicates that agree on every element of `s` filter it alike. */
  lemma {:induction false} FilterExt<T(!new)>(s: seq<T>, f: T -> bool, g: T -> bool)
    requires forall x :: x in s ==> f(x) == g(x)
    ensures Filter(s, f) == Filter(s, g)
  {
    if s != [] {
      assert forall x :: x in s[1..] ==> x in s;
      FilterExt(s[1..], f, g);
    }
  }

  /** A predicate that holds whenever another does keeps at least as many elements. */
  lemma {:induction false} FilterMono<T(!new)>(s: seq<T>, f: T -> bool, g: T -> bool)
    requires forall x :: x in s && f(x) ==> g(x)
    ensures |Filter(s, f)| <= |Filter(s, g)|
  {
    if s != [] {
      assert forall x :: x in s[1..] ==> x in s;
      FilterMono(s[1..], f, g);
    }
  }

  /** The elements kept and the elements dropped add up to the whole sequence. */
  lemma {:induction false} FilterComplement<T(!new)>(s: seq<T>, f: T -> bool, g: T -> bool)
    requires forall x :: x in s ==> g(x) == !f(x)
    ensures |Filter(s, f)| + |Filter(s, g)| == |s|
  {
    if s != [] {
      assert forall x :: x in s[1..] ==> x in s;
      FilterComplement(s[1..], f, g);
    }
  }

  /** A filter keeps everything exactly when every element satisfies the predicate. */
  lemma {:induction false} FilterAll<T(!new)>(s: seq<T>, f: T -> bool)
    requires forall x :: x in s ==> f(x)
    ensures Filter(s, f) == s
  {
    if s != [] {
      assert forall x :: x in s[1..] ==> x in s;
      FilterAll(s[1..], f);
    }
  }

  /** Two predicates that never hold together keep at most the whole sequence between them. */
  lemma {:induction false} FilterDisjoint<T(!new)>(s: seq<T>, f: T -> bool, g: T -> bool)
    requires forall x :: x in s ==> !(f(x) && g(x))
    ensures |Filter(s, f)| + |Filter(s, g)| <= |s|
  {
    if s != [] {
      assert forall x :: x in s[1..] ==> x in s;
      FilterDisjoint(s[1..], f, g);
    }
  }

  /** A filter that keeps as many elements as there are keeps all of them. */
  lemma {:induction false} FilterFull<T(!new)>(s: seq<T>, f: T -> bool)
    requires |Filter(s, f)| == |s|
    ensures forall x :: x in s ==> f(x)
  {
    if s != [] {
      assert |Filter(s[1..], f)| <= |s[1..]|;
      FilterFull(s[1..], f);
      assert forall x :: x in s ==> x == s[0] || x in s[1..];
    }
  }

  /** Two sequences whose elements pass their filters at the same positions keep equally many. */
  lemma {:induction false} FilterLengthPointwise<T(!new), U(!new)>(a: seq<T>, f: T -> bool, b: seq<U>, g: U -> bool)
    requires |a| == |b|
    requires forall i :: 0 <= i < |a| ==> f(a[i]) == g(b[i])
    ensures |Filter(a, f)| == |Filter(b, g)|
  {
    if a != [] {
      assert f(a[0]) == g(b[0]);
      FilterLengthPointwise(a[1..], f, b[1..], g);
    }
  }

  /** `s.findIndex(f)` as an option: the first position whose element satisfies `f`. */
  function FindIndex<T(!new)>(s: seq<T>, f: T -> bool): (r: Option<nat>)
    ensures r.None? <==> forall x :: x in s ==> !f(x)
    ensures r.Some? ==> r.value < |s| && f(s[r.value]) && forall j :: 0 <= j < r.value ==> !f(s[j])
  {
    if s == [] then None
    else if f(s[0]) then Some(0)
    else
      assert forall x :: x in s ==> x == s[0] || x in s[1..];
      match FindIndex(s[1..], f)
      case None => None
      case Some(i) => Some(i + 1)
  }

  /** `s.find(f)`: the first element that satisfies `f`, if any. */
  function Find<T(!new)>(s: seq<T>, f: T -> bool): (r: Option<T>)
    ensures r.None? <==> forall x :: x in s ==> !f(x)
    ensures r.Some? ==> r.value in s && f(r.value)
  {
    match FindIndex(s, f)
    case None => None
    case Some(i) => Some(s[i])
  }

  /** A first element that fails the test does not change what `find` finds. */
  lemma FindSkip<T(!new)>(t: seq<T>, g: T -> bool)
    requires t != [] && !g(t[0])
    ensures Find(t, g) == Find(t[1..], g)
  {
  }

  /** Filtering drops a first element that fails the filter and keeps one that passes it. */
  lemma FilterHead<T(!new)>(s: seq<T>, f: T -> bool)
    requires s != []
    ensures !f(s[0]) ==> Filter(s, f) == Filter(s[1..], f)
    ensures f(s[0]) ==> Filter(s, f) != [] && Filter(s, f)[0] == s[0] && Filter(s, f)[1..] == Filter(s[1..], f)
  {
  }

  /** `x` is the first element of `s` that passes both tests. */
  ghost predicate FirstBoth<T>(s: seq<T>, f: T -> bool, g: T -> bool, x: T) {
    exists k :: 0 <= k < |s| && s[k] == x && f(s[k]) && g(s[k]) && forall j :: 0 <= j < k ==> !(f(s[j]) && g(s[j]))
  }

  /** Searching the kept elements finds the first element of `s` that passes both tests. */
  lemma {:induction false} FindFiltered<T(!new)>(s: seq<T>, f: T -> bool, g: T -> bool)
    ensures Find(Filter(s, f), g).Some? ==> FirstBoth(s, f, g, Find(Filter(s, f), g).value)
  {
    if s != [] && Find(Filter(s, f), g).Some? {
      var r := Find(Filter(s, f), g).value;
      FilterHead(s, f);
      if f(s[0]) && g(s[0]) {
        assert Find(Filter(s, f), g) == Some(s[0]);
        assert FirstBoth(s, f, g, r) by {
          assert s[0] == r && f(s[0]) && g(s[0]);
        }
      } else {
        if f(s[0]) {
          FindSkip(Filter(s, f), g);
        }
        assert Find(Filter(s, f), g) == Find(Filter(s[1..], f), g);
        FindFiltered(s[1..], f, g);
        ShiftFirst(s, f, g, r);
      }
    }
  }

  /** The first element passing both tests in `s[1..]` is the first in `s` when `s[0]` fails them. */
  lemma ShiftFirst<T>(s: seq<T>, f: T -> bool, g: T -> bool, x: T)
    requires s != [] && !(f(s[0]) && g(s[0]))
    requires FirstBoth(s[1..], f, g, x)
    ensures FirstBoth(s, f, g, x)
  {
    var k :| 0 <= k < |s[1..]| && s[1..][k] == x && f(s[1..][k]) && g(s[1..][k])
      && forall j :: 0 <= j < k ==> !(f(s[1..][j]) && g(s[1..][j]));
    assert s[k + 1] == s[1..][k];
    forall j | 0 <= j < k + 1
      ensures !(f(s[j]) && g(s[j]))
    {
      if j > 0 {
        assert s[j] == s[1..][j - 1];
      }
    }
  }

  /** The indices `0 .. n-1` in increasing order. */
  function Range(n: nat): (r: seq<nat>)
    ensures |r| == n
    ensures forall i :: 0 <= i < n ==> r[i] == i
    ensures forall i: nat :: i in r <==> i < n
  {
    if n == 0 then [] else Range(n - 1) + [n - 1]
  }

  /** `s.flat()` for a sequence of rows. */
  function Flatten<T>(rows: seq<seq<T>>): (r: seq<T>)
    ensures |r| == SumLengths(rows)
  {
    if rows == [] then [] else rows[0] + Flatten(rows[1..])
  }

  function SumLengths<T>(rows: seq<seq<T>>): nat {
    if rows == [] then 0 else |rows[0]| + SumLengths(rows[1..])
  }

  /** The index in `Flatten(rows)` where row `r` starts. */
  function Offset<T>(rows: seq<seq<T>>, r: nat): nat
    requires r <= |rows|
  {
    if r == 0 then 0 else |rows[0]| + Offset(rows[1..], r - 1)
  }

  /** Element `c` of row `r` sits at `Offset(rows, r) + c` of the flattened sequence. */
  lemma {:induction false} FlattenAt<T>(rows: seq<seq<T>>, r: nat, c: nat)
    requires r < |rows| && c < |rows[r]|
    ensures Offset(rows, r) + c < |Flatten(rows)|
    ensures Flatten(rows)[Offset(rows, r) + c] == rows[r][c]
  {
    if r == 0 {
    } else {
      FlattenAt(rows[1..], r - 1, c);
    }
  }

  /** Every element of the flattened sequence comes from some row. */
  lemma {:induction false} FlattenMember<T>(rows: seq<seq<T>>, x: T)
    requires x in Flatten(rows)
    ensures exists r :: 0 <= r < |rows| && x in rows[r]
  {
    if x !in rows[0] {
      FlattenMember(rows[1..], x);
      var r :| 0 <= r < |rows[1..]| && x in rows[1..][r];
      assert rows[1..][r] == rows[r + 1];
    }
  }

  /** Cuts `all` into consecutive pieces as long as the rows of `like`: the inverse of `Flatten`. */
  function Regroup<T, U>(all: seq<T>, like: seq<seq<U>>): (r: seq<seq<T>>)
    requires |all| == SumLengths(like)
    ensures |r| == |like|
    ensures forall i :: 0 <= i < |r| ==> |r[i]| == |like[i]|
    ensures Flatten(r) == all
  {
    if like == [] then []
    else
      var rest := Regroup(all[|like[0]|..], like[1..]);
      assert all[..|like[0]|] + all[|like[0]|..] == all;
      [all[..|like[0]|]] + rest
  }

  /** Row offsets depend only on the row lengths. */
  lemma {:induction false} OffsetByLengths<T, U>(a: seq<seq<T>>, b: seq<seq<U>>, r: nat)
    requires |a| == |b| && r <= |a|
    requires forall i :: 0 <= i < |a| ==> |a[i]| == |b[i]|
    ensures Offset(a, r) == Offset(b, r)
  {
    if r > 0 {
      OffsetByLengths(a[1..], b[1..], r - 1);
    }
  }

  /** Number of elements of `s` that satisfy `f`. */
  function Count<T(!new)>(s: seq<T>, f: T -> bool): nat {
    |Filter(s, f)|
  }
}
