/**
 * Tables as sequences in insertion order: SELECT ... WHERE, UPDATE ... and SUM,
 * with the laws that let one request's rows be followed through a whole-table update.
 */
module Tables {
  /** The rows among the first `n` satisfying `p`, in table order. */
  function SelectFirst<T(!new)>(t: seq<T>, n: nat, p: T -> bool): (r: seq<T>)
    requires n <= |t|
    ensures |r| <= n
    ensures forall x {:trigger x in r} :: x in r ==> x in t && p(x)
    ensures forall i {:trigger t[i]} :: 0 <= i < n && p(t[i]) ==> t[i] in r
  {
    if n == 0 then []
    else
      var r := SelectFirst(t, n - 1, p);
      if p(t[n - 1]) then r + [t[n - 1]] else r
  }

  /** The rows satisfying `p`, in table order. */
  function Select<T(!new)>(t: seq<T>, p: T -> bool): (r: seq<T>)
    ensures |r| <= |t|
    ensures forall x {:trigger x in r} :: x in r <==> x in t && p(x)
  {
    SelectFirst(t, |t|, p)
  }

  /** Every row replaced by its image under `f`. */
  function Update<T, U>(t: seq<T>, f: T -> U): (r: seq<U>)
    ensures |r| == |t|
    ensures forall i :: 0 <= i < |t| ==> r[i] == f(t[i])
  {
    seq(|t|, i requires 0 <= i < |t| => f(t[i]))
  }

  function SumFirst<T>(t: seq<T>, n: nat, f: T -> int): int
    requires n <= |t|
  {
    if n == 0 then 0 else SumFirst(t, n - 1, f) + f(t[n - 1])
  }

  function Sum<T>(t: seq<T>, f: T -> int): int { SumFirst(t, |t|, f) }

  /** The sum of `f(i)` for i below `n`. */
  function SumTo(n: nat, f: nat -> int): int {
    if n == 0 then 0 else SumTo(n - 1, f) + f(n - 1)
  }

  // ---- Selecting and updating ----------------------------------------------

  lemma {:induction false} SelectPrefix<T(!new)>(t: seq<T>, t': seq<T>, n: nat, p: T -> bool)
    requires n <= |t| && n <= |t'| && forall i :: 0 <= i < n ==> t[i] == t'[i]
    ensures SelectFirst(t, n, p) == SelectFirst(t', n, p)
  {
    if n == 0 {
    } else {
      SelectPrefix(t, t', n - 1, p);
    }
  }

  /** A selected row comes after as many others as were selected before it. */
  lemma {:induction false} SelectPosition<T(!new)>(t: seq<T>, n: nat, at: nat, p: T -> bool)
    requires at < n <= |t| && p(t[at])
    ensures |SelectFirst(t, at, p)| < |SelectFirst(t, n, p)|
    ensures SelectFirst(t, n, p)[|SelectFirst(t, at, p)|] == t[at]
  {
    if n == at + 1 {
    } else {
      SelectPosition(t, n - 1, at, p);
    }
  }

  lemma SelectAppend<T(!new)>(t: seq<T>, x: T, p: T -> bool)
    ensures Select(t + [x], p) == if p(x) then Select(t, p) + [x] else Select(t, p)
  {
    SelectPrefix(t, t + [x], |t|, p);
  }

  /** An update that never moves a row in or out of a selection commutes with the selection. */
  lemma {:induction false} SelectUpdateFirst<T(!new)>(t: seq<T>, n: nat, f: T -> T, p: T -> bool)
    requires n <= |t| && forall x :: x in t ==> p(f(x)) == p(x)
    ensures SelectFirst(Update(t, f), n, p) == Update(SelectFirst(t, n, p), f)
  {
    if n == 0 {
    } else {
      SelectUpdateFirst(t, n - 1, f, p);
      assert t[n - 1] in t;
    }
  }

  lemma SelectUpdate<T(!new)>(t: seq<T>, f: T -> T, p: T -> bool)
    requires forall x :: x in t ==> p(f(x)) == p(x)
    ensures Select(Update(t, f), p) == Update(Select(t, p), f)
  {
    SelectUpdateFirst(t, |t|, f, p);
  }

  lemma UpdateIdentity<T>(t: seq<T>, f: T -> T)
    requires forall x :: x in t ==> f(x) == x
    ensures Update(t, f) == t
  {
  }

  lemma {:induction false} SelectNoneFirst<T(!new)>(t: seq<T>, n: nat, p: T -> bool)
    requires n <= |t| && forall x :: x in t ==> !p(x)
    ensures SelectFirst(t, n, p) == []
  {
    if n == 0 {
    } else {
      SelectNoneFirst(t, n - 1, p);
      assert t[n - 1] in t;
    }
  }

  lemma SelectNone<T(!new)>(t: seq<T>, p: T -> bool)
    requires forall x :: x in t ==> !p(x)
    ensures Select(t, p) == []
  {
    SelectNoneFirst(t, |t|, p);
  }

  /** A selection met by exactly one row. */
  lemma {:induction false} SelectOnlyFirst<T(!new)>(t: seq<T>, n: nat, p: T -> bool, at: nat)
    requires n <= |t| && at < |t| && p(t[at])
    requires forall i :: 0 <= i < |t| && i != at ==> !p(t[i])
    ensures SelectFirst(t, n, p) == if at < n then [t[at]] else []
  {
    if n == 0 {
    } else {
      SelectOnlyFirst(t, n - 1, p, at);
    }
  }

  lemma SelectOnly<T(!new)>(t: seq<T>, p: T -> bool, at: nat)
    requires at < |t| && p(t[at])
    requires forall i :: 0 <= i < |t| && i != at ==> !p(t[i])
    ensures Select(t, p) == [t[at]]
  {
    SelectOnlyFirst(t, |t|, p, at);
  }

  /** An update that leaves the selected rows alone leaves the selection alone. */
  lemma SelectUntouched<T(!new)>(t: seq<T>, f: T -> T, p: T -> bool)
    requires forall x :: x in t ==> p(f(x)) == p(x)
    requires forall x :: x in t && p(x) ==> f(x) == x
    ensures Select(Update(t, f), p) == Select(t, p)
  {
    SelectUpdate(t, f, p);
    UpdateIdentity(Select(t, p), f);
  }

  lemma UpdateAppend<T, U>(t: seq<T>, x: T, f: T -> U)
    ensures Update(t + [x], f) == Update(t, f) + [f(x)]
  {
  }

  /** Strictly increasing row numbers stay increasing under a selection. */
  lemma {:induction false} SelectOrderedFirst<T(!new)>(t: seq<T>, n: nat, p: T -> bool, id: T -> nat)
    requires n <= |t| && forall i, j :: 0 <= i < j < |t| ==> id(t[i]) < id(t[j])
    ensures forall x :: x in SelectFirst(t, n, p) ==> exists m :: 0 <= m < n && t[m] == x
    ensures forall i, j :: 0 <= i < j < |SelectFirst(t, n, p)| ==>
      id(SelectFirst(t, n, p)[i]) < id(SelectFirst(t, n, p)[j])
  {
    if n == 0 {
    } else {
      SelectOrderedFirst(t, n - 1, p, id);
      var s := SelectFirst(t, n - 1, p);
      forall i | 0 <= i < |s| ensures id(s[i]) < id(t[n - 1]) {
        assert s[i] in s;
        var m :| 0 <= m < n - 1 && t[m] == s[i];
      }
    }
  }

  lemma SelectOrdered<T(!new)>(t: seq<T>, p: T -> bool, id: T -> nat)
    requires forall i, j :: 0 <= i < j < |t| ==> id(t[i]) < id(t[j])
    ensures forall i, j :: 0 <= i < j < |Select(t, p)| ==> id(Select(t, p)[i]) < id(Select(t, p)[j])
  {
    SelectOrderedFirst(t, |t|, p, id);
  }

  // ---- Sums over rows ------------------------------------------------------

  lemma {:induction false} SumPrefix<T>(t: seq<T>, t': seq<T>, n: nat, f: T -> int)
    requires n <= |t| && n <= |t'| && forall i :: 0 <= i < n ==> t[i] == t'[i]
    ensures SumFirst(t, n, f) == SumFirst(t', n, f)
  {
    if n == 0 {
    } else {
      SumPrefix(t, t', n - 1, f);
    }
  }

  lemma SumAppend<T>(t: seq<T>, x: T, f: T -> int)
    ensures Sum(t + [x], f) == Sum(t, f) + f(x)
  {
    SumPrefix(t, t + [x], |t|, f);
  }

  /** Two complementary selections split a sum. */
  lemma {:induction false} SumPartitionFirst<T(!new)>(t: seq<T>, n: nat, p: T -> bool, q: T -> bool, f: T -> int)
    requires n <= |t| && forall x :: x in t ==> p(x) != q(x)
    ensures Sum(SelectFirst(t, n, p), f) + Sum(SelectFirst(t, n, q), f) == SumFirst(t, n, f)
  {
    if n == 0 {
    } else {
      SumPartitionFirst(t, n - 1, p, q, f);
      assert t[n - 1] in t;
      if p(t[n - 1]) {
        SumAppend(SelectFirst(t, n - 1, p), t[n - 1], f);
      } else {
        SumAppend(SelectFirst(t, n - 1, q), t[n - 1], f);
      }
    }
  }

  lemma SumPartition<T(!new)>(t: seq<T>, p: T -> bool, q: T -> bool, f: T -> int)
    requires forall x :: x in t ==> p(x) != q(x)
    ensures Sum(Select(t, p), f) + Sum(Select(t, q), f) == Sum(t, f)
  {
    SumPartitionFirst(t, |t|, p, q, f);
  }

  /** An update that keeps every summand keeps the sum. */
  lemma {:induction false} SumUpdateFirst<T, U>(t: seq<T>, n: nat, f: T -> U, g: U -> int, g0: T -> int)
    requires n <= |t| && forall x :: x in t ==> g(f(x)) == g0(x)
    ensures SumFirst(Update(t, f), n, g) == SumFirst(t, n, g0)
  {
    if n == 0 {
    } else {
      SumUpdateFirst(t, n - 1, f, g, g0);
      assert t[n - 1] in t;
    }
  }

  lemma SumUpdate<T, U>(t: seq<T>, f: T -> U, g: U -> int, g0: T -> int)
    requires forall x :: x in t ==> g(f(x)) == g0(x)
    ensures Sum(Update(t, f), g) == Sum(t, g0)
  {
    SumUpdateFirst(t, |t|, f, g, g0);
  }

  // ---- Sums over requests --------------------------------------------------

  lemma {:induction false} SumSame(n: nat, f: nat -> int, g: nat -> int)
    requires forall i: nat :: i < n ==> f(i) == g(i)
    ensures SumTo(n, f) == SumTo(n, g)
  {
    if n == 0 {
    } else {
      SumSame(n - 1, f, g);
    }
  }

  lemma {:induction false} SumBelow(n: nat, f: nat -> int, g: nat -> int)
    requires forall i: nat :: i < n ==> f(i) <= g(i)
    ensures SumTo(n, f) <= SumTo(n, g)
  {
    if n == 0 {
    } else {
      SumBelow(n - 1, f, g);
    }
  }

  lemma {:induction false} SumStrictlyBelow(n: nat, f: nat -> int, g: nat -> int, at: nat)
    requires at < n && f(at) < g(at)
    requires forall i: nat :: i < n ==> f(i) <= g(i)
    ensures SumTo(n, f) < SumTo(n, g)
  {
    if at == n - 1 { SumBelow(n - 1, f, g); } else { SumStrictlyBelow(n - 1, f, g, at); }
  }

  /** Two summands that differ at one index only. */
  lemma {:induction false} SumChange(n: nat, f: nat -> int, g: nat -> int, at: nat)
    requires at < n
    requires forall i: nat :: i < n && i != at ==> f(i) == g(i)
    ensures SumTo(n, g) == SumTo(n, f) + g(at) - f(at)
  {
    if at == n - 1 { SumSame(n - 1, f, g); } else { SumChange(n - 1, f, g, at); }
  }

  lemma {:induction false} SumPlus(n: nat, f: nat -> int, g: nat -> int, h: nat -> int)
    requires forall i: nat :: i < n ==> h(i) == f(i) + g(i)
    ensures SumTo(n, h) == SumTo(n, f) + SumTo(n, g)
  {
    if n == 0 {
    } else {
      SumPlus(n - 1, f, g, h);
    }
  }

  lemma {:induction false} SumZero(n: nat, f: nat -> int)
    requires forall i: nat :: i < n ==> f(i) == 0
    ensures SumTo(n, f) == 0
  {
    if n == 0 {
    } else {
      SumZero(n - 1, f);
    }
  }

  lemma {:induction false} SumNonNegative(n: nat, f: nat -> int)
    requires forall i: nat :: i < n ==> f(i) >= 0
    ensures SumTo(n, f) >= 0
  {
    if n == 0 {
    } else {
      SumNonNegative(n - 1, f);
    }
  }
}
