/** The balance-consistency check shared by the POST, PUT and DELETE
    handlers of src/routes/transactions.router.js: sort a bucket by date
    with a stable sort, then fold the signed quantities and reject as soon
    as the running total is negative. */
module Balance {
  import opened Decimals
  import opened LedgerTypes

  // ---------------------------------------------------------------------
  // Running total

  /** A buy adds its quantity, a sell subtracts it. */
  function Delta(t: Transaction): real
  {
    if t.isBuy then Value(t.quantity) else -Value(t.quantity)
  }

  /** The position after the transactions of `s`, taken in order. */
  function Total(s: seq<Transaction>): real
  {
    if s == [] then 0.0 else Total(s[..|s| - 1]) + Delta(s[|s| - 1])
  }

  /** The position is never negative at any prefix of `s`. */
  predicate NonNegativePrefixes(s: seq<Transaction>)
  {
    forall k :: 0 <= k <= |s| ==> Total(s[..k]) >= 0.0
  }

  /** The fold in the handlers: `total = total.plus(quantity)` for a buy,
      `total.minus(quantity)` for a sell, and a rejection as soon as the
      sign of `total` is negative. A total of exactly zero is accepted. */
  method CheckBalance(s: seq<Transaction>) returns (ok: bool)
    ensures ok == NonNegativePrefixes(s)
  {
    var total := 0.0;
    var i := 0;
    while i < |s|
      invariant 0 <= i <= |s|
      invariant total == Total(s[..i])
      invariant forall k :: 0 <= k <= i ==> Total(s[..k]) >= 0.0
    {
      assert s[..i + 1][..i] == s[..i];
      if s[i].isBuy {
        total := total + Value(s[i].quantity);
      } else {
        total := total - Value(s[i].quantity);
      }
      if total < 0.0 {
        assert Total(s[..i + 1]) < 0.0;
        return false;
      }
      i := i + 1;
    }
    assert s[..|s|] == s;
    return true;
  }

  // ---------------------------------------------------------------------
  // Stable sort by date

  /** Ascending by date (the comparator `trans1.date - trans2.date`). */
  predicate SortedByDate(s: seq<Transaction>)
  {
    forall i, j :: 0 <= i < j < |s| ==> s[i].date <= s[j].date
  }

  /** Inserts `x` after every element, scanning from the back, whose date
      is not later than `x.date`: one step of a stable insertion sort. */
  function InsertByDate(t: seq<Transaction>, x: Transaction): (r: seq<Transaction>)
    ensures |r| == |t| + 1
  {
    if t == [] || t[|t| - 1].date <= x.date then t + [x]
    else InsertByDate(t[..|t| - 1], x) + [t[|t| - 1]]
  }

  /** The order `Array.prototype.sort` produces with the date comparator:
      sorted by date, equal dates kept in their original order. */
  function StableSort(s: seq<Transaction>): (r: seq<Transaction>)
    ensures |r| == |s|
  {
    if s == [] then []
    else InsertByDate(StableSort(s[..|s| - 1]), s[|s| - 1])
  }

  /** The check a handler runs on a bucket. */
  predicate Passes(bucket: seq<Transaction>)
  {
    NonNegativePrefixes(StableSort(bucket))
  }

  /** Where `InsertByDate` puts `x`: after the elements `t[..j]`, before
      the trailing run `t[j..]` of strictly later elements. */
  lemma {:induction false} InsertByDateShape(t: seq<Transaction>, x: Transaction) returns (j: nat)
    ensures j <= |t|
    ensures InsertByDate(t, x) == t[..j] + [x] + t[j..]
    ensures forall k :: j <= k < |t| ==> t[k].date > x.date
    ensures j == 0 || t[j - 1].date <= x.date
  {
    if t == [] || t[|t| - 1].date <= x.date {
      j := |t|;
      assert t[..j] == t && t[j..] == [];
    } else {
      var init, last := t[..|t| - 1], t[|t| - 1];
      j := InsertByDateShape(init, x);
      calc {
        InsertByDate(t, x);
        InsertByDate(init, x) + [last];
        init[..j] + [x] + init[j..] + [last];
        { assert init[..j] == t[..j]; assert init[j..] + [last] == t[j..]; }
        t[..j] + [x] + t[j..];
      }
    }
  }

  /** The sort is a permutation of the bucket. */
  lemma {:induction false} StableSortPermutes(s: seq<Transaction>)
    ensures multiset(StableSort(s)) == multiset(s)
  {
    if s != [] {
      var init, x := s[..|s| - 1], s[|s| - 1];
      StableSortPermutes(init);
      InsertByDatePermutes(StableSort(init), x);
      assert s == init + [x];
    }
  }

  lemma InsertByDatePermutes(u: seq<Transaction>, x: Transaction)
    ensures multiset(InsertByDate(u, x)) == multiset(u) + multiset{x}
  {
    var j := InsertByDateShape(u, x);
    assert u == u[..j] + u[j..];
  }

  lemma InsertByDateSorted(t: seq<Transaction>, x: Transaction)
    requires SortedByDate(t)
    ensures SortedByDate(InsertByDate(t, x))
  {
    var j := InsertByDateShape(t, x);
    var r := InsertByDate(t, x);
    forall a, b | 0 <= a < b < |r|
      ensures r[a].date <= r[b].date
    {
      if a < j && b == j {
        assert r[a] == t[a] && t[a].date <= t[j - 1].date;
      } else if a < j && b > j {
        assert r[a] == t[a] && r[b] == t[b - 1];
      } else if a == j {
        assert r[b] == t[b - 1];
      } else if a > j {
        assert r[a] == t[a - 1] && r[b] == t[b - 1];
      } else {
        assert r[a] == t[a] && r[b] == t[b];
      }
    }
  }

  /** The sorted bucket really is sorted. */
  lemma {:induction false} StableSortSorted(s: seq<Transaction>)
    ensures SortedByDate(StableSort(s))
  {
    if s != [] {
      StableSortSorted(s[..|s| - 1]);
      InsertByDateSorted(StableSort(s[..|s| - 1]), s[|s| - 1]);
    }
  }

  // ---------------------------------------------------------------------
  // Stability: the transactions of any one date keep their relative order

  /** The transactions of `s` dated `d`, in their order in `s`. */
  function OfDate(s: seq<Transaction>, d: int): seq<Transaction>
  {
    if s == [] then []
    else OfDate(s[..|s| - 1], d) + (if s[|s| - 1].date == d then [s[|s| - 1]] else [])
  }

  lemma {:induction false} OfDateConcat(a: seq<Transaction>, b: seq<Transaction>, d: int)
    ensures OfDate(a + b, d) == OfDate(a, d) + OfDate(b, d)
  {
    if b == [] {
      assert a + b == a;
    } else {
      assert (a + b)[..|a + b| - 1] == a + b[..|b| - 1];
      OfDateConcat(a, b[..|b| - 1], d);
    }
  }

  lemma {:induction false} OfDateNone(s: seq<Transaction>, d: int)
    requires forall k :: 0 <= k < |s| ==> s[k].date != d
    ensures OfDate(s, d) == []
  {
    if s != [] {
      OfDateNone(s[..|s| - 1], d);
    }
  }

  lemma {:induction false} OfDateMember(s: seq<Transaction>, d: int, z: Transaction)
    requires z in OfDate(s, d)
    ensures z in s && z.date == d
  {
    if s != [] {
      if z in OfDate(s[..|s| - 1], d) {
        OfDateMember(s[..|s| - 1], d, z);
      }
    }
  }

  lemma {:induction false} OfDateInsert(u: seq<Transaction>, x: Transaction, d: int)
    ensures OfDate(InsertByDate(u, x), d) == OfDate(u, d) + (if x.date == d then [x] else [])
  {
    if u == [] || u[|u| - 1].date <= x.date {
      assert (u + [x])[..|u|] == u;
    } else {
      var u', y := u[..|u| - 1], u[|u| - 1];
      var r := InsertByDate(u', x);
      OfDateInsert(u', x, d);
      assert (r + [y])[..|r|] == r;
      var ex, ey := (if x.date == d then [x] else []), (if y.date == d then [y] else []);
      assert ex == [] || ey == [];
      assert OfDate(r + [y], d) == OfDate(u', d) + ex + ey;
      assert OfDate(u, d) == OfDate(u', d) + ey;
      assert ex + ey == ey + ex;
    }
  }

  /** Stability of the sort: for every date, the transactions of that date
      appear in the sorted bucket in the order they had before sorting. */
  lemma {:induction false} StableSortKeepsTies(s: seq<Transaction>, d: int)
    ensures OfDate(StableSort(s), d) == OfDate(s, d)
  {
    if s != [] {
      StableSortKeepsTies(s[..|s| - 1], d);
      OfDateInsert(StableSort(s[..|s| - 1]), s[|s| - 1], d);
    }
  }

  /** A non-empty sequence has a transaction on the date of its last one. */
  lemma OfDateLast(s: seq<Transaction>)
    requires s != []
    ensures OfDate(s, s[|s| - 1].date) != []
  {
  }

  /** Two date-sorted, non-empty sequences that agree on the transactions
      of every date end with the same transaction. */
  lemma SortedTiesLast(u: seq<Transaction>, v: seq<Transaction>)
    requires u != [] && v != [] && SortedByDate(u) && SortedByDate(v)
    requires forall d :: OfDate(u, d) == OfDate(v, d)
    ensures u[|u| - 1] == v[|v| - 1]
  {
    SortedTiesLastDate(u, v);
    var d := u[|u| - 1].date;
    assert OfDate(u, d) == OfDate(v, d);
    LastOfSameDate(u, v);
  }

  /** ... and in particular end with the same date. */
  lemma SortedTiesLastDate(u: seq<Transaction>, v: seq<Transaction>)
    requires u != [] && v != [] && SortedByDate(u) && SortedByDate(v)
    requires forall d :: OfDate(u, d) == OfDate(v, d)
    ensures u[|u| - 1].date == v[|v| - 1].date
  {
    var x, y := u[|u| - 1], v[|v| - 1];
    var k := LastOfDateIn(u, v, x.date);
    var k' := LastOfDateIn(v, u, y.date);
    assert k == |v| - 1 || v[k].date <= y.date;
    assert k' == |u| - 1 || u[k'].date <= x.date;
  }

  /** Sequences ending on the same date and agreeing on that date end with
      the same transaction. */
  lemma LastOfSameDate(u: seq<Transaction>, v: seq<Transaction>)
    requires u != [] && v != [] && u[|u| - 1].date == v[|v| - 1].date
    requires OfDate(u, u[|u| - 1].date) == OfDate(v, u[|u| - 1].date)
    ensures u[|u| - 1] == v[|v| - 1]
  {
    var d := u[|u| - 1].date;
    assert OfDate(u, d) == OfDate(u[..|u| - 1], d) + [u[|u| - 1]];
    assert OfDate(v, d) == OfDate(v[..|v| - 1], d) + [v[|v| - 1]];
  }

  /** The last transaction of `u` occurs in `v` when both agree on its date. */
  lemma LastOfDateIn(u: seq<Transaction>, v: seq<Transaction>, d: int) returns (k: nat)
    requires u != [] && d == u[|u| - 1].date && OfDate(u, d) == OfDate(v, d)
    ensures k < |v| && v[k] == u[|u| - 1]
  {
    var x := u[|u| - 1];
    assert OfDate(u, d) == OfDate(u[..|u| - 1], d) + [x];
    assert x in OfDate(v, d);
    OfDateMember(v, d, x);
    k :| 0 <= k < |v| && v[k] == x;
  }

  /** Dropping the same last transaction keeps the agreement on every date. */
  lemma TiesWithoutLast(u': seq<Transaction>, v': seq<Transaction>, x: Transaction)
    requires forall d :: OfDate(u' + [x], d) == OfDate(v' + [x], d)
    ensures forall d :: OfDate(u', d) == OfDate(v', d)
  {
    forall d
      ensures OfDate(u', d) == OfDate(v', d)
    {
      assert (u' + [x])[..|u'|] == u' && (v' + [x])[..|v'|] == v';
      assert OfDate(u' + [x], d) == OfDate(u', d) + (if x.date == d then [x] else []);
      assert OfDate(v' + [x], d) == OfDate(v', d) + (if x.date == d then [x] else []);
      if d == x.date {
        var a', b' := OfDate(u', d), OfDate(v', d);
        assert a' + [x] == b' + [x];
        assert a' == (a' + [x])[..|a'|];
        assert b' == (b' + [x])[..|b'|];
      } else {
        assert OfDate(u', d) + [] == OfDate(u', d);
        assert OfDate(v', d) + [] == OfDate(v', d);
      }
    }
  }

  /** Two date-sorted sequences that agree on the transactions of every
      date are equal. */
  lemma {:induction false} SortedTiesDetermine(u: seq<Transaction>, v: seq<Transaction>)
    requires SortedByDate(u) && SortedByDate(v)
    requires forall d :: OfDate(u, d) == OfDate(v, d)
    ensures u == v
    decreases |u| + |v|
  {
    if u == [] && v == [] {
    } else if u == [] {
      // v's last transaction has a date for which u has none
      OfDateLast(v);
      assert false;
    } else if v == [] {
      OfDateLast(u);
      assert false;
    } else {
      SortedTiesLast(u, v);
      var u', v', x := u[..|u| - 1], v[..|v| - 1], u[|u| - 1];
      assert u == u' + [x] && v == v' + [x];
      TiesWithoutLast(u', v', x);
      SortedTiesDetermine(u', v');
    }
  }

  /** Whatever stable sort the runtime uses, its result is `StableSort`:
      a date-sorted rearrangement keeping the order of equal dates is unique. */
  lemma StableSortUnique(s: seq<Transaction>, r: seq<Transaction>)
    requires SortedByDate(r)
    requires forall d :: OfDate(r, d) == OfDate(s, d)
    ensures r == StableSort(s)
  {
    StableSortSorted(s);
    forall d
      ensures OfDate(r, d) == OfDate(StableSort(s), d)
    {
      StableSortKeepsTies(s, d);
    }
    SortedTiesDetermine(r, StableSort(s));
  }

  /** Sorting an already sorted bucket leaves it as it is. */
  lemma StableSortOfSorted(s: seq<Transaction>)
    requires SortedByDate(s)
    ensures StableSort(s) == s
  {
    StableSortUnique(s, s);
  }

  // ---------------------------------------------------------------------
  // What the sort does not change: the final position and the number of
  // transactions on either side of a date

  lemma {:induction false} TotalConcat(a: seq<Transaction>, b: seq<Transaction>)
    ensures Total(a + b) == Total(a) + Total(b)
  {
    if b == [] {
      assert a + b == a;
    } else {
      assert (a + b)[..|a + b| - 1] == a + b[..|b| - 1];
      TotalConcat(a, b[..|b| - 1]);
    }
  }

  lemma InsertKeepsTotal(u: seq<Transaction>, x: Transaction)
    ensures Total(InsertByDate(u, x)) == Total(u) + Delta(x)
  {
    var j := InsertByDateShape(u, x);
    var before, after := u[..j], u[j..];
    TotalConcat(before + [x], after);
    TotalConcat(before, [x]);
    TotalConcat(before, after);
    assert before + after == u;
    assert [x][..0] == [];
  }

  /** Sorting does not change the position the whole bucket adds up to. */
  lemma {:induction false} StableSortKeepsTotal(s: seq<Transaction>)
    ensures Total(StableSort(s)) == Total(s)
  {
    if s != [] {
      var init, x := s[..|s| - 1], s[|s| - 1];
      StableSortKeepsTotal(init);
      InsertKeepsTotal(StableSort(init), x);
    }
  }

  /** A bucket that passes the check ends with a non-negative position,
      whatever order it is stored in. */
  lemma PassesFinalPosition(b: seq<Transaction>)
    ensures Passes(b) ==> Total(b) >= 0.0
  {
    StableSortKeepsTotal(b);
    assert StableSort(b)[..|b|] == StableSort(b);
  }

  /** `x` is dated strictly after `d` (when `after`) or strictly before it. */
  predicate Beyond(x: Transaction, d: int, after: bool)
  {
    if after then x.date > d else x.date < d
  }

  /** How many transactions of `s` are dated strictly after (or before) `d`. */
  function CountBeyond(s: seq<Transaction>, d: int, after: bool): (n: nat)
    ensures n <= |s|
  {
    if s == [] then 0
    else CountBeyond(s[..|s| - 1], d, after) + (if Beyond(s[|s| - 1], d, after) then 1 else 0)
  }

  lemma {:induction false} CountBeyondConcat(a: seq<Transaction>, b: seq<Transaction>, d: int, after: bool)
    ensures CountBeyond(a + b, d, after) == CountBeyond(a, d, after) + CountBeyond(b, d, after)
  {
    if b == [] {
      assert a + b == a;
    } else {
      assert (a + b)[..|a + b| - 1] == a + b[..|b| - 1];
      CountBeyondConcat(a, b[..|b| - 1], d, after);
    }
  }

  lemma {:induction false} CountBeyondAll(s: seq<Transaction>, d: int, after: bool)
    requires forall k :: 0 <= k < |s| ==> Beyond(s[k], d, after)
    ensures CountBeyond(s, d, after) == |s|
  {
    if s != [] {
      CountBeyondAll(s[..|s| - 1], d, after);
    }
  }

  lemma {:induction false} CountBeyondNone(s: seq<Transaction>, d: int, after: bool)
    requires forall k :: 0 <= k < |s| ==> !Beyond(s[k], d, after)
    ensures CountBeyond(s, d, after) == 0
  {
    if s != [] {
      CountBeyondNone(s[..|s| - 1], d, after);
    }
  }

  lemma InsertKeepsCount(u: seq<Transaction>, x: Transaction, d: int, after: bool)
    ensures CountBeyond(InsertByDate(u, x), d, after) ==
              CountBeyond(u, d, after) + (if Beyond(x, d, after) then 1 else 0)
  {
    var j := InsertByDateShape(u, x);
    var front, back := u[..j], u[j..];
    CountBeyondConcat(front + [x], back, d, after);
    CountBeyondConcat(front, [x], d, after);
    CountBeyondConcat(front, back, d, after);
    assert front + back == u;
    assert [x][..0] == [];
  }

  /** Sorting keeps the number of transactions dated after (or before) `d`. */
  lemma {:induction false} StableSortKeepsCount(s: seq<Transaction>, d: int, after: bool)
    ensures CountBeyond(StableSort(s), d, after) == CountBeyond(s, d, after)
  {
    if s != [] {
      var init, x := s[..|s| - 1], s[|s| - 1];
      StableSortKeepsCount(init, d, after);
      InsertKeepsCount(StableSort(init), x, d, after);
    }
  }

  // ---------------------------------------------------------------------
  // The in-place sort

  /** `bucket.sort((a, b) => a.date - b.date)` on an array: a stable
      insertion sort. */
  method SortByDate(a: array<Transaction>)
    modifies a
    ensures a[..] == StableSort(old(a[..]))
  {
    ghost var input := a[..];
    var i := 0;
    while i < a.Length
      invariant 0 <= i <= a.Length
      invariant a[..i] == StableSort(input[..i])
      invariant a[i..] == input[i..]
    {
      assert input[..i + 1][..i] == input[..i];
      assert a[i] == input[i];
      ghost var rest := a[i + 1..];
      InsertNext(a, i);
      assert a[..i + 1] == StableSort(input[..i + 1]);
      assert a[i + 1..] == rest == input[i + 1..];
      i := i + 1;
    }
    assert a[..] == a[..a.Length] && input[..a.Length] == input;
  }

  /** Moves `a[i]` left past the strictly later elements of `a[..i]`. */
  method InsertNext(a: array<Transaction>, i: nat)
    requires i < a.Length
    modifies a
    ensures a[..i + 1] == InsertByDate(old(a[..i]), old(a[i]))
    ensures a[i + 1..] == old(a[i + 1..])
  {
    var x := a[i];
    ghost var whole := a[..];
    ghost var t := whole[..i];
    var j := ShiftLater(a, i, x);
    ghost var shifted := a[..];
    assert forall m :: i < m < a.Length ==> shifted[m] == whole[m];
    a[j] := x;
    InsertByDateAt(t, x, j);
    ghost var r := t[..j] + [x] + t[j..];
    forall k | 0 <= k <= i
      ensures a[k] == r[k]
    {
      if k > j {
        assert r[k] == t[k - 1];
      }
    }
    assert a[..i + 1] == r;
    assert forall m :: i < m < a.Length ==> a[m] == shifted[m];
    TailUnchanged(whole, a[..], i);
  }

  lemma TailUnchanged(before: seq<Transaction>, after: seq<Transaction>, i: nat)
    requires |before| == |after| && i < |before|
    requires forall m :: i < m < |before| ==> after[m] == before[m]
    ensures after[i + 1..] == before[i + 1..]
  {
    var ta, tb := after[i + 1..], before[i + 1..];
    forall k | 0 <= k < |ta|
      ensures ta[k] == tb[k]
    {
      assert ta[k] == after[i + 1 + k] && tb[k] == before[i + 1 + k];
    }
  }

  /** Shifts right by one the run of elements before `a[i]` dated later
      than `x`, and returns where that run began. */
  method ShiftLater(a: array<Transaction>, i: nat, x: Transaction) returns (j: nat)
    requires i < a.Length
    modifies a
    ensures j <= i
    ensures forall k :: 0 <= k < j ==> a[k] == old(a[k])
    ensures forall k :: j < k <= i ==> a[k] == old(a[k - 1])
    ensures forall k :: i < k < a.Length ==> a[k] == old(a[k])
    ensures forall k :: j <= k < i ==> old(a[k]).date > x.date
    ensures j == 0 || old(a[j - 1]).date <= x.date
  {
    j := i;
    while j > 0 && a[j - 1].date > x.date
      invariant 0 <= j <= i
      invariant forall k :: 0 <= k < j ==> a[k] == old(a[k])
      invariant forall k :: j < k <= i ==> a[k] == old(a[k - 1])
      invariant forall k :: i < k < a.Length ==> a[k] == old(a[k])
      invariant forall k :: j <= k < i ==> old(a[k]).date > x.date
    {
      a[j] := a[j - 1];
      j := j - 1;
    }
  }

  lemma InsertByDateAt(t: seq<Transaction>, x: Transaction, j: nat)
    requires j <= |t|
    requires forall k :: j <= k < |t| ==> t[k].date > x.date
    requires j == 0 || t[j - 1].date <= x.date
    ensures InsertByDate(t, x) == t[..j] + [x] + t[j..]
  {
    var j' := InsertByDateShape(t, x);
  }

  /** Copies a bucket into an array, sorts it in place and reads it back. */
  method SortedCopy(s: seq<Transaction>) returns (r: seq<Transaction>)
    ensures r == StableSort(s)
  {
    var a := new Transaction[|s|](i requires 0 <= i < |s| => s[i]);
    assert a[..] == s;
    SortByDate(a);
    r := a[..];
  }
}
