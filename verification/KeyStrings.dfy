/**
 * Locks and HCM rows are keyed by the employee and location joined by a bar. The rest of this
 * project keys them by the pair; here is when that is the same.
 */
module KeyStrings {
  import opened Domain

  function Joined(k: Key): string { k.employee + "|" + k.location }

  /** The employee of `b` continues that of `a` past a bar. */
  predicate Overlaps(a: Key, b: Key, mid: string) {
    b.employee == a.employee + "|" + mid && a.location == mid + "|" + b.location
  }

  lemma OverlappingJoinsAgree(a: Key, b: Key, mid: string)
    requires Overlaps(a, b, mid)
    ensures Joined(a) == Joined(b) && a != b
  {
  }

  lemma LongerEmployeeOverlaps(a: Key, b: Key) returns (mid: string)
    requires Joined(a) == Joined(b) && |a.employee| < |b.employee|
    ensures Overlaps(a, b, mid)
  {
    var s, n, m := Joined(a), |a.employee|, |b.employee|;
    mid := s[n + 1..m];
    assert a.employee == s[..n] && s[n] == '|' && a.location == s[n + 1..];
    assert b.employee == Joined(b)[..m] && Joined(b)[m] == '|' && b.location == Joined(b)[m + 1..];
    assert s[..m] == s[..n] + "|" + s[n + 1..m];
    assert s[n + 1..] == s[n + 1..m] + "|" + s[m + 1..];
  }

  lemma EqualLengthsSeparate(a: Key, b: Key)
    requires Joined(a) == Joined(b) && |a.employee| == |b.employee|
    ensures a == b
  {
    assert a.employee == Joined(a)[..|a.employee|] && b.employee == Joined(b)[..|b.employee|];
    assert a.location == Joined(a)[|a.employee| + 1..] && b.location == Joined(b)[|b.employee| + 1..];
  }

  /** Two balances share a joined key exactly when one employee id continues the other past a bar. */
  lemma JoinsCollideExactly(a: Key, b: Key)
    ensures (Joined(a) == Joined(b) && a != b) <==> exists mid :: Overlaps(a, b, mid) || Overlaps(b, a, mid)
  {
    if Joined(a) == Joined(b) && a != b {
      if |a.employee| < |b.employee| {
        var mid := LongerEmployeeOverlaps(a, b);
      } else if |b.employee| < |a.employee| {
        var mid := LongerEmployeeOverlaps(b, a);
      } else {
        EqualLengthsSeparate(a, b);
      }
    }
    forall mid | Overlaps(a, b, mid) ensures Joined(a) == Joined(b) && a != b { OverlappingJoinsAgree(a, b, mid); }
    forall mid | Overlaps(b, a, mid) ensures Joined(a) == Joined(b) && a != b { OverlappingJoinsAgree(b, a, mid); }
  }

  /** Employee ids without a bar never collide, whatever the locations. */
  lemma BarlessEmployeesNeverCollide(a: Key, b: Key)
    requires '|' !in a.employee && '|' !in b.employee
    ensures Joined(a) == Joined(b) <==> a == b
  {
    JoinsCollideExactly(a, b);
    forall mid ensures !Overlaps(a, b, mid) && !Overlaps(b, a, mid) {
      assert (a.employee + "|" + mid)[|a.employee|] == '|' && (b.employee + "|" + mid)[|b.employee|] == '|';
    }
  }
}
