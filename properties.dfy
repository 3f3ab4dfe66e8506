/** What the POST, PUT and DELETE handlers of
    src/routes/transactions.router.js do to the ledger: which requests they
    accept, what the accepted ones store, which id they answer with, and
    the consistency every saved ledger keeps. */
module HandlerProperties {
  import opened Wrappers
  import opened Decimals
  import opened LedgerTypes
  import opened Balance
  import opened TransactionHelper
  import opened TransactionsRouter

  /** `r` is what the handlers store after sorting `s`: the stable sort of
      `s`, hence a date-ordered permutation of it. */
  ghost predicate IsSortingOf(r: seq<Transaction>, s: seq<Transaction>)
  {
    r == StableSort(s) && multiset(r) == multiset(s) && SortedByDate(r)
  }

  /** Every bucket is non-empty, ordered by date and never negative, and
      the key order lists exactly the bucket keys. */
  ghost predicate Consistent(l: Ledger)
  {
    Wf(l) &&
    forall k :: k in l.buckets ==>
      l.buckets[k] != [] && SortedByDate(l.buckets[k]) && NonNegativePrefixes(l.buckets[k])
  }

  // ---------------------------------------------------------------------
  // The ledger steps

  lemma SortingFacts(s: seq<Transaction>)
    ensures IsSortingOf(StableSort(s), s)
  {
    StableSortPermutes(s);
    StableSortSorted(s);
  }

  /** Pushing onto a bucket, creating its key when absent, adds exactly
      one transaction and touches no other bucket. */
  lemma AttachFacts(l: Ledger, c: Symbol, t: Transaction)
    ensures Attach(l, c, t).buckets[c] == Bucket(l, c) + [t]
    ensures Attach(l, c, t).buckets.Keys == l.buckets.Keys + {c}
    ensures forall k :: k in l.buckets && k != c ==> Attach(l, c, t).buckets[k] == l.buckets[k]
    ensures Wf(l) ==> Wf(Attach(l, c, t)) && Count(Attach(l, c, t)) == Count(l) + 1
  {
    if Wf(l) {
      if c in l.buckets {
        CountUpdate(l.order, l.buckets, c, l.buckets[c] + [t]);
      } else {
        CountAppend(l.order, l.buckets, c, [t]);
        assert Distinct(l.order + [c]) by {
          forall p, q | 0 <= p < q < |l.order| + 1
            ensures (l.order + [c])[p] != (l.order + [c])[q]
          {
            if q == |l.order| {
              assert (l.order + [c])[p] == l.order[p];
            }
          }
        }
      }
    }
  }

  /** Splicing out one transaction removes exactly it, and the key goes
      away precisely when it was the last one. */
  lemma DetachFacts(l: Ledger, c: Symbol, i: nat)
    requires c in l.buckets && i < |l.buckets[c]|
    ensures c in Detach(l, c, i).buckets <==> |l.buckets[c]| > 1
    ensures c in Detach(l, c, i).buckets ==> Detach(l, c, i).buckets[c] == RemoveAt(l.buckets[c], i)
    ensures Detach(l, c, i).buckets.Keys ==
              if |l.buckets[c]| > 1 then l.buckets.Keys else l.buckets.Keys - {c}
    ensures forall k :: k in l.buckets && k != c ==> Detach(l, c, i).buckets[k] == l.buckets[k]
    ensures Wf(l) ==> Wf(Detach(l, c, i)) && Count(Detach(l, c, i)) + 1 == Count(l)
  {
    if Wf(l) {
      var rest := RemoveAt(l.buckets[c], i);
      if |rest| == 0 {
        CountRemoveKey(l.order, l.buckets, c);
      } else {
        CountUpdate(l.order, l.buckets, c, rest);
      }
    }
  }

  /** Key order under the pushes and splices: a created key goes last,
      and a deleted key leaves the others in their order. */
  lemma AttachDetachOrder(l: Ledger, c: Symbol, t: Transaction, i: nat)
    requires Wf(l)
    ensures c !in l.buckets ==> Attach(l, c, t).order == l.order + [c]
    ensures c in l.buckets ==> Attach(l, c, t).order == l.order
    ensures c in l.buckets && i < |l.buckets[c]| ==>
              exists p :: 0 <= p < |l.order| && l.order[p] == c &&
                Detach(l, c, i).order ==
                  if |l.buckets[c]| > 1 then l.order else l.order[..p] + l.order[p + 1..]
  {
    if c in l.buckets && i < |l.buckets[c]| {
      var p :| 0 <= p < |l.order| && l.order[p] == c;
      assert l.order == l.order[..p] + [c] + l.order[p + 1..];
      RemoveKeyKeepsOrder(l.order[..p], c, l.order[p + 1..]);
    }
  }

  /** Sorting a bucket permutes it and changes nothing else. */
  lemma SortBucketFacts(l: Ledger, c: Symbol)
    requires c in l.buckets
    ensures IsSortingOf(SortBucket(l, c).buckets[c], l.buckets[c])
    ensures SortBucket(l, c).order == l.order && SortBucket(l, c).buckets.Keys == l.buckets.Keys
    ensures forall k :: k in l.buckets && k != c ==> SortBucket(l, c).buckets[k] == l.buckets[k]
    ensures Wf(l) ==> Wf(SortBucket(l, c)) && Count(SortBucket(l, c)) == Count(l)
  {
    SortingFacts(l.buckets[c]);
    if Wf(l) {
      CountUpdate(l.order, l.buckets, c, StableSort(l.buckets[c]));
    }
  }

  /** Sorting `b + [t]` inserts `t` into the sorted `b`. */
  lemma SortAppended(b: seq<Transaction>, t: Transaction)
    ensures StableSort(b + [t]) == InsertByDate(StableSort(b), t)
  {
    assert (b + [t])[..|b|] == b;
  }

  /** A sorted bucket whose first transaction is a sell goes negative. */
  lemma FirstSellFails(u: seq<Transaction>)
    requires u != [] && !u[0].isBuy && Value(u[0].quantity) > 0.0
    ensures !NonNegativePrefixes(u)
  {
    assert u[..1][..0] == [];
    assert Total(u[..1]) < 0.0;
  }

  /** After sorting `b + [t]`, the last transaction is `t` exactly when no
      transaction of `b` is dated later than `t`. */
  lemma LastAfterInsert(b: seq<Transaction>, t: Transaction)
    requires !HasId(b, t.id)
    ensures StableSort(b + [t])[|b|].id == t.id <==> forall k :: 0 <= k < |b| ==> b[k].date <= t.date
  {
    SortAppended(b, t);
    var u := StableSort(b);
    SortingFacts(b);
    if u != [] {
      var last := u[|u| - 1];
      assert last in multiset(b);
      if last.date <= t.date {
        assert StableSort(b + [t]) == u + [t];
        forall k | 0 <= k < |b|
          ensures b[k].date <= t.date
        {
          assert b[k] in multiset(u);
          var j :| 0 <= j < |u| && u[j] == b[k];
          assert j == |u| - 1 || u[j].date <= last.date;
        }
      } else {
        assert StableSort(b + [t])[|b|] == last;
        var k :| 0 <= k < |b| && b[k] == last;
        assert b[k].id != t.id;
      }
    }
  }

  /** In a sorted bucket, a transaction at index `i` has at most
      `|r| - i - 1` later and at most `i` earlier transactions beside it. */
  lemma CountAroundIndex(r: seq<Transaction>, i: nat)
    requires SortedByDate(r) && i < |r|
    ensures CountBeyond(r, r[i].date, true) <= |r| - i - 1
    ensures CountBeyond(r, r[i].date, false) <= i
  {
    var d := r[i].date;
    assert r == r[..i + 1] + r[i + 1..] && r == r[..i] + r[i..];
    CountBeyondNone(r[..i + 1], d, true);
    CountBeyondConcat(r[..i + 1], r[i + 1..], d, true);
    CountBeyondNone(r[i..], d, false);
    CountBeyondConcat(r[..i], r[i..], d, false);
  }

  /** Replacing `b[i]` by something dated before `b[k]`, `k < i`, leaves at
      least `|b| - k - 1` transactions dated after the replacement. */
  lemma LaterBeforeIndex(b: seq<Transaction>, i: nat, t: Transaction, k: nat)
    requires SortedByDate(b) && k < i < |b| && b[k].date > t.date
    ensures CountBeyond(b[i := t], t.date, true) >= |b| - k - 1
  {
    var b', d := b[i := t], t.date;
    var p, q, r := b'[..k], b'[k..i], b'[i..];
    assert b' == p + q + r;
    CountBeyondConcat(p + q, r, d, true);
    CountBeyondConcat(p, q, d, true);
    forall m | 0 <= m < |q|
      ensures Beyond(q[m], d, true)
    {
      assert q[m] == b[k + m];
    }
    CountBeyondAll(q, d, true);
    var rest := r[1..];
    assert r == [t] + rest;
    forall m | 0 <= m < |rest|
      ensures Beyond(rest[m], d, true)
    {
      assert rest[m] == b[i + 1 + m];
    }
    CountBeyondAll(rest, d, true);
    CountBeyondConcat([t], rest, d, true);
  }

  /** Replacing `b[i]` by something dated after `b[k]`, `i < k`, leaves at
      least `i + 1` transactions dated before the replacement. */
  lemma EarlierAfterIndex(b: seq<Transaction>, i: nat, t: Transaction, k: nat)
    requires SortedByDate(b) && i < k < |b| && b[k].date < t.date
    ensures CountBeyond(b[i := t], t.date, false) >= i + 1
  {
    var d := t.date;
    var p, q, e := b[..i], [t] + b[i + 1..k], b[k..];
    assert b[i := t] == p + q + e;
    CountBeyondConcat(p + q, e, d, false);
    CountBeyondConcat(p, q, d, false);
    forall m | 0 <= m < |p|
      ensures Beyond(p[m], d, false)
    {
      assert p[m] == b[m] && b[m].date <= b[k].date;
    }
    CountBeyondAll(p, d, false);
    assert e == [b[k]] + b[k + 1..];
    CountBeyondConcat([b[k]], b[k + 1..], d, false);
    assert [b[k]][..0] == [];
  }

  /** Overwriting `b[i]` in a sorted bucket and sorting again leaves the
      new transaction at index `i` exactly when its date still fits there:
      nothing before `i` is later and nothing after `i` is earlier. */
  lemma StaysAtIndex(b: seq<Transaction>, i: nat, t: Transaction)
    requires SortedByDate(b) && i < |b| && !HasId(b, t.id)
    ensures StableSort(b[i := t])[i].id == t.id <==>
              (forall k :: 0 <= k < i ==> b[k].date <= t.date) &&
              (forall k :: i < k < |b| ==> b[k].date >= t.date)
  {
    var b' := b[i := t];
    var r := StableSort(b');
    SortingFacts(b');
    if (forall k :: 0 <= k < i ==> b[k].date <= t.date) && (forall k :: i < k < |b| ==> b[k].date >= t.date) {
      forall p, q | 0 <= p < q < |b'|
        ensures b'[p].date <= b'[q].date
      {
        if p != i && q != i {
          assert b'[p] == b[p] && b'[q] == b[q];
        }
      }
      StableSortOfSorted(b');
    } else if r[i].id == t.id {
      assert r[i] in multiset(b');
      var m :| 0 <= m < |b'| && b'[m] == r[i];
      assert m == i;
      CountAroundIndex(r, i);
      if exists k :: 0 <= k < i && b[k].date > t.date {
        var k :| 0 <= k < i && b[k].date > t.date;
        StableSortKeepsCount(b', t.date, true);
        LaterBeforeIndex(b, i, t, k);
        assert false;
      } else {
        var k :| i < k < |b| && b[k].date < t.date;
        StableSortKeepsCount(b', t.date, false);
        EarlierAfterIndex(b, i, t, k);
        assert false;
      }
    }
  }

  // ---------------------------------------------------------------------
  // What an accepted request stores

  /** `l'` is `l` with `t` pushed onto the bucket of `c` and that bucket
      sorted; no other bucket changes and the ledger grows by one. */
  ghost predicate Added(l: Ledger, c: Symbol, t: Transaction, l': Ledger)
  {
    c in l'.buckets && IsSortingOf(l'.buckets[c], Bucket(l, c) + [t]) &&
    l'.buckets.Keys == l.buckets.Keys + {c} &&
    (forall k :: k in l.buckets && k != c ==> l'.buckets[k] == l.buckets[k]) &&
    (Wf(l) ==> Wf(l') && Count(l') == Count(l) + 1)
  }

  /** `l'` is `l` with `l.buckets[c][i]` replaced by `t` and that bucket
      sorted; the keys, their order and the other buckets stay. */
  ghost predicate Overwritten(l: Ledger, c: Symbol, i: nat, t: Transaction, l': Ledger)
    requires c in l.buckets && i < |l.buckets[c]|
  {
    var b := l.buckets[c];
    c in l'.buckets && IsSortingOf(l'.buckets[c], b[i := t]) &&
    multiset(l'.buckets[c]) + multiset{b[i]} == multiset(b) + multiset{t} &&
    l'.order == l.order && l'.buckets.Keys == l.buckets.Keys &&
    (forall k :: k in l.buckets && k != c ==> l'.buckets[k] == l.buckets[k]) &&
    (Wf(l) ==> Wf(l') && Count(l') == Count(l))
  }

  /** `l'` is `l` without `l.buckets[c][i]`, the rest of that bucket sorted
      and its key gone when nothing remains of it. */
  ghost predicate Removed(l: Ledger, c: Symbol, i: nat, l': Ledger)
    requires c in l.buckets && i < |l.buckets[c]|
  {
    var b := l.buckets[c];
    (c in l'.buckets <==> |b| > 1) &&
    (c in l'.buckets ==> IsSortingOf(l'.buckets[c], RemoveAt(b, i))) &&
    l'.buckets.Keys == (if |b| > 1 then l.buckets.Keys else l.buckets.Keys - {c}) &&
    (forall k :: k in l.buckets && k != c ==> l'.buckets[k] == l.buckets[k]) &&
    (Wf(l) ==> Wf(l') && Count(l') + 1 == Count(l))
  }

  /** `l'` is `l` with `l.buckets[c][i]` taken out of the bucket of `c` and
      `t` pushed onto the bucket of `c2`, both buckets sorted. */
  ghost predicate Moved(l: Ledger, c: Symbol, i: nat, c2: Symbol, t: Transaction, l': Ledger)
    requires c in l.buckets && i < |l.buckets[c]|
  {
    var b := l.buckets[c];
    c2 in l'.buckets && IsSortingOf(l'.buckets[c2], Bucket(l, c2) + [t]) &&
    (c in l'.buckets <==> |b| > 1) &&
    (c in l'.buckets ==> IsSortingOf(l'.buckets[c], RemoveAt(b, i))) &&
    l'.buckets.Keys == (if |b| > 1 then l.buckets.Keys else l.buckets.Keys - {c}) + {c2} &&
    (forall k :: k in l.buckets && k != c && k != c2 ==> l'.buckets[k] == l.buckets[k]) &&
    (Wf(l) ==> Wf(l') && Count(l') == Count(l))
  }

  lemma AttachSorted(l: Ledger, c: Symbol, t: Transaction)
    ensures Added(l, c, t, SortBucket(Attach(l, c, t), c))
  {
    AttachFacts(l, c, t);
    SortBucketFacts(Attach(l, c, t), c);
  }

  /** Overwriting in place keeps the keys and the number of transactions. */
  lemma OverwriteFacts(l: Ledger, c: Symbol, i: nat, t: Transaction)
    requires c in l.buckets && i < |l.buckets[c]|
    ensures var b := l.buckets[c];
            multiset(b[i := t]) + multiset{b[i]} == multiset(b) + multiset{t}
    ensures var m := Ledger(l.order, l.buckets[c := l.buckets[c][i := t]]);
            Wf(l) ==> Wf(m) && Count(m) == Count(l)
  {
    var b := l.buckets[c];
    assert b == b[..i] + [b[i]] + b[i + 1..];
    assert b[i := t] == b[..i] + [t] + b[i + 1..];
    if Wf(l) {
      CountUpdate(l.order, l.buckets, c, b[i := t]);
    }
  }

  /** Sorting twice is sorting once. */
  lemma SortTwice(s: seq<Transaction>)
    ensures StableSort(StableSort(s)) == StableSort(s)
  {
    StableSortSorted(s);
    StableSortOfSorted(StableSort(s));
  }

  /** Sorting a bucket a second time changes nothing. */
  lemma SortBucketTwice(l: Ledger, c: Symbol)
    requires c in l.buckets
    ensures SortBucket(SortBucket(l, c), c) == SortBucket(l, c)
  {
    var s := SortBucket(l, c);
    SortTwice(l.buckets[c]);
    assert s.buckets[c := StableSort(s.buckets[c])] == s.buckets;
  }

  /** Overwriting in place, then sorting. */
  lemma OverwriteSorted(l: Ledger, c: Symbol, i: nat, t: Transaction)
    requires c in l.buckets && i < |l.buckets[c]|
    ensures Overwritten(l, c, i, t, SortBucket(Ledger(l.order, l.buckets[c := l.buckets[c][i := t]]), c))
  {
    var b := l.buckets[c];
    var m := Ledger(l.order, l.buckets[c := b[i := t]]);
    var s := SortBucket(m, c);
    OverwriteFacts(l, c, i, t);
    SortBucketFacts(m, c);
    assert IsSortingOf(s.buckets[c], b[i := t]);
    assert multiset(s.buckets[c]) + multiset{b[i]} == multiset(b) + multiset{t};
    assert s.order == l.order && s.buckets.Keys == l.buckets.Keys;
    assert forall k :: k in l.buckets && k != c ==> s.buckets[k] == l.buckets[k] by {
      forall k | k in l.buckets && k != c
        ensures s.buckets[k] == l.buckets[k]
      {
        assert m.buckets[k] == l.buckets[k];
      }
    }
    assert Wf(l) ==> Wf(s) && Count(s) == Count(l) by {
      if Wf(l) {
        assert Wf(m) && Count(m) == Count(l);
      }
    }
  }

  /** Splicing out, then sorting what remains when something does. */
  lemma DetachSorted(l: Ledger, c: Symbol, i: nat)
    requires c in l.buckets && i < |l.buckets[c]|
    ensures var d := Detach(l, c, i);
            Removed(l, c, i, if c in d.buckets then SortBucket(d, c) else d)
  {
    var d := Detach(l, c, i);
    DetachFacts(l, c, i);
    if c in d.buckets {
      SortBucketFacts(d, c);
    }
  }

  /** The moving branch of PUT, step by step as the handler takes it. */
  lemma MoveSorted(l: Ledger, c: Symbol, i: nat, c2: Symbol, t: Transaction)
    requires c in l.buckets && i < |l.buckets[c]| && c != c2
    ensures var s := SortBucket(Attach(Detach(l, c, i), c2, t), c2);
            var s' := if c in s.buckets then SortBucket(s, c) else s;
            Moved(l, c, i, c2, t, s') && s'.buckets[c2] == s.buckets[c2] &&
            |Attach(Detach(l, c, i), c2, t).buckets[c2]| == |Bucket(l, c2)| + 1 &&
            Bucket(s', c) == (if |l.buckets[c]| > 1 then StableSort(RemoveAt(l.buckets[c], i)) else [])
  {
    var d := Detach(l, c, i);
    var m := Attach(d, c2, t);
    var s := SortBucket(m, c2);
    MoveSteps(l, c, i, c2, t, d, m, s);
  }

  lemma MoveSteps(l: Ledger, c: Symbol, i: nat, c2: Symbol, t: Transaction, d: Ledger, m: Ledger, s: Ledger)
    requires c in l.buckets && i < |l.buckets[c]| && c != c2
    requires d == Detach(l, c, i) && m == Attach(d, c2, t) && s == SortBucket(m, c2)
    ensures var s' := if c in s.buckets then SortBucket(s, c) else s;
            Moved(l, c, i, c2, t, s') && s'.buckets[c2] == s.buckets[c2] &&
            |m.buckets[c2]| == |Bucket(l, c2)| + 1 &&
            Bucket(s', c) == (if |l.buckets[c]| > 1 then StableSort(RemoveAt(l.buckets[c], i)) else [])
  {
    MoveAttach(l, c, i, c2, t, d, m, s);
    if c in s.buckets {
      SortBucketFacts(s, c);
    }
  }

  /** The moving branch of PUT before the old bucket is sorted. */
  lemma MoveAttach(l: Ledger, c: Symbol, i: nat, c2: Symbol, t: Transaction, d: Ledger, m: Ledger, s: Ledger)
    requires c in l.buckets && i < |l.buckets[c]| && c != c2
    requires d == Detach(l, c, i) && m == Attach(d, c2, t) && s == SortBucket(m, c2)
    ensures IsSortingOf(s.buckets[c2], Bucket(l, c2) + [t]) && |m.buckets[c2]| == |Bucket(l, c2)| + 1
    ensures c in s.buckets <==> |l.buckets[c]| > 1
    ensures c in s.buckets ==> s.buckets[c] == RemoveAt(l.buckets[c], i)
    ensures s.buckets.Keys == (if |l.buckets[c]| > 1 then l.buckets.Keys else l.buckets.Keys - {c}) + {c2}
    ensures forall k :: k in l.buckets && k != c && k != c2 ==> s.buckets[k] == l.buckets[k]
    ensures Wf(l) ==> Wf(s) && Count(s) == Count(l)
  {
    DetachFacts(l, c, i);
    assert Bucket(d, c2) == Bucket(l, c2);
    AttachFacts(d, c2, t);
    SortBucketFacts(m, c2);
  }

  // ---------------------------------------------------------------------
  // POST

  /** A POST is accepted exactly when the bucket with the new transaction
      pushed passes the check; it then stores that bucket sorted. */
  lemma InsertOutcome(l: Ledger, f: Fields, freshId: Id)
    ensures InsertOp(l, f, freshId).Success? <==>
              Passes(Bucket(l, f.crypto) + [NewTransaction(f, freshId)])
    ensures InsertOp(l, f, freshId).Failure? ==> InsertOp(l, f, freshId).error == TransactionInvalid
    ensures InsertOp(l, f, freshId).Success? ==>
              Added(l, f.crypto, NewTransaction(f, freshId), InsertOp(l, f, freshId).value.0)
  {
    AttachSorted(l, f.crypto, NewTransaction(f, freshId));
  }

  /** The POST answer is the id of the new transaction exactly when no
      transaction of its symbol is dated later. */
  lemma InsertReturnedId(l: Ledger, f: Fields, freshId: Id)
    requires !HasId(Bucket(l, f.crypto), freshId)
    ensures InsertOp(l, f, freshId).Success? ==>
              (InsertOp(l, f, freshId).value.1 == freshId <==>
               forall k :: 0 <= k < |Bucket(l, f.crypto)| ==> Bucket(l, f.crypto)[k].date <= f.date)
  {
    var b, t := Bucket(l, f.crypto), NewTransaction(f, freshId);
    AttachSorted(l, f.crypto, t);
    LastAfterInsert(b, t);
  }

  /** A sell dated before every transaction of its symbol is rejected:
      nothing before it covers it. */
  lemma InsertEarliestSellRejected(l: Ledger, f: Fields, freshId: Id)
    requires !f.isBuy && Value(f.quantity) > 0.0
    requires forall k :: 0 <= k < |Bucket(l, f.crypto)| ==> Bucket(l, f.crypto)[k].date > f.date
    ensures InsertOp(l, f, freshId) == Failure(TransactionInvalid)
  {
    var b, t := Bucket(l, f.crypto), NewTransaction(f, freshId);
    InsertOutcome(l, f, freshId);
    SortAppended(b, t);
    var u := StableSort(b);
    SortingFacts(b);
    forall k | 0 <= k < |u|
      ensures u[k].date > t.date
    {
      assert u[k] in multiset(b);
    }
    var j := InsertByDateShape(u, t);
    assert InsertByDate(u, t)[0] == t;
    FirstSellFails(InsertByDate(u, t));
  }

  /** Selling everything held is accepted: the position may reach zero. */
  lemma SellToZeroAccepted(l: Ledger, f: Fields, freshId: Id, x: Transaction)
    requires Bucket(l, f.crypto) == [x]
    requires x.isBuy && x.date <= f.date
    requires !f.isBuy && Value(f.quantity) == Value(x.quantity)
    ensures InsertOp(l, f, freshId).Success?
  {
    var t := NewTransaction(f, freshId);
    InsertOutcome(l, f, freshId);
    SortAppended([x], t);
    assert [x] + [t] == [x, t];
    assert StableSort([x]) == [x];
    ValuePositive(x.quantity);
    BuyThenSellPasses(x, t);
  }

  /** A buy followed by a sell of the same quantity never goes negative. */
  lemma BuyThenSellPasses(buy: Transaction, sell: Transaction)
    requires buy.isBuy && !sell.isBuy && Value(sell.quantity) == Value(buy.quantity)
    ensures NonNegativePrefixes([buy, sell])
  {
    ValuePositive(buy.quantity);
    var s := [buy, sell];
    assert s[..0] == [] && s[..1] == [buy] && s[..2] == s;
    assert [buy][..0] == [];
    assert Total([buy]) == Value(buy.quantity);
    assert Total(s) == Total([buy]) + Delta(sell);
  }

  /** Transactions of the same date are checked in the order they were
      recorded: a sell recorded before the buy that covers it is rejected,
      the other way round accepted. */
  lemma SameDateRecordingOrder(sell: Transaction, buy: Transaction)
    requires !sell.isBuy && buy.isBuy && sell.date == buy.date
    requires Value(sell.quantity) == Value(buy.quantity) > 0.0
    ensures !Passes([sell, buy])
    ensures Passes([buy, sell])
  {
    SortAppended([sell], buy);
    SortAppended([buy], sell);
    assert [sell] + [buy] == [sell, buy] && [buy] + [sell] == [buy, sell];
    assert StableSort([sell]) == [sell] && StableSort([buy]) == [buy];
    assert StableSort([sell, buy]) == [sell, buy];
    assert StableSort([buy, sell]) == [buy, sell];
    FirstSellFails([sell, buy]);
    BuyThenSellPasses(buy, sell);
  }

  // ---------------------------------------------------------------------
  // Lookup failures

  /** With no empty symbol in the ledger, PUT and DELETE answer "not
      found" exactly when no bucket holds the id. */
  lemma UnknownIdNotFound(l: Ledger, id: Id, f: Fields, freshId: Id)
    requires Wf(l) && "" !in l.buckets
    ensures UpdateOp(l, id, f, freshId) == Failure(TransactionNotFound) <==>
              forall k :: k in l.buckets ==> !HasId(l.buckets[k], id)
    ensures DeleteOp(l, id) == Failure(TransactionNotFound) <==>
              forall k :: k in l.buckets ==> !HasId(l.buckets[k], id)
  {
    FindByIdNone(l, id);
  }

  // ---------------------------------------------------------------------
  // PUT

  /** PUT keeping the symbol: the transaction is overwritten at its index,
      accepted exactly when the bucket so changed passes (the handler's
      second check re-sorts an already sorted bucket and always agrees). */
  lemma UpdateInPlace(l: Ledger, id: Id, f: Fields, freshId: Id, c: Symbol, i: nat)
    requires FindById(l, id) == Some(Found(c, i)) && c != "" && c == f.crypto
    ensures UpdateOp(l, id, f, freshId).Success? <==>
              Passes(l.buckets[c][i := NewTransaction(f, freshId)])
    ensures UpdateOp(l, id, f, freshId).Failure? ==> UpdateOp(l, id, f, freshId).error == TransactionInvalid
    ensures UpdateOp(l, id, f, freshId).Success? ==>
              Overwritten(l, c, i, NewTransaction(f, freshId), UpdateOp(l, id, f, freshId).value.0)
  {
    var t := NewTransaction(f, freshId);
    var m := Ledger(l.order, l.buckets[c := l.buckets[c][i := t]]);
    OverwriteSorted(l, c, i, t);
    SortBucketTwice(m, c);
    assert Place(l, c, i, c, t) == (Ledger(l.order, l.buckets[c := l.buckets[c][i := t]]), i);
  }

  /** PUT keeping the symbol and the date of a sorted bucket answers with
      the id the new transaction was given. */
  lemma UpdateSameDateKeepsId(l: Ledger, id: Id, f: Fields, freshId: Id, c: Symbol, i: nat)
    requires FindById(l, id) == Some(Found(c, i)) && c != "" && c == f.crypto
    requires SortedByDate(l.buckets[c]) && f.date == l.buckets[c][i].date
    ensures UpdateOp(l, id, f, freshId).Success? ==> UpdateOp(l, id, f, freshId).value.1 == freshId
  {
    var b, t := l.buckets[c], NewTransaction(f, freshId);
    var m := Ledger(l.order, l.buckets[c := b[i := t]]);
    assert Place(l, c, i, c, t) == (m, i);
    forall k | 0 <= k < |b|
      ensures b[i := t][k].date == b[k].date
    {
    }
    StableSortOfSorted(b[i := t]);
    SortBucketTwice(m, c);
  }

  /** PUT keeping the symbol, on a sorted bucket: the answer is the new
      transaction's id exactly when its date still fits at the index of the
      transaction it replaces. */
  lemma UpdateInPlaceReturnedId(l: Ledger, id: Id, f: Fields, freshId: Id, c: Symbol, i: nat)
    requires FindById(l, id) == Some(Found(c, i)) && c != "" && c == f.crypto
    requires SortedByDate(l.buckets[c]) && !HasId(l.buckets[c], freshId)
    ensures UpdateOp(l, id, f, freshId).Success? ==>
              (UpdateOp(l, id, f, freshId).value.1 == freshId <==>
               (forall k :: 0 <= k < i ==> l.buckets[c][k].date <= f.date) &&
               (forall k :: i < k < |l.buckets[c]| ==> l.buckets[c][k].date >= f.date))
  {
    var b, t := l.buckets[c], NewTransaction(f, freshId);
    var m := Ledger(l.order, l.buckets[c := b[i := t]]);
    assert Place(l, c, i, c, t) == (m, i);
    SortBucketTwice(m, c);
    StaysAtIndex(b, i, t);
  }

  /** PUT for any id: "not found" exactly when the lookup finds nothing
      (or only the empty symbol); otherwise accepted exactly when the
      buckets it changes pass; an accepted PUT keeps the number of
      transactions. */
  lemma UpdateAnyId(l: Ledger, id: Id, f: Fields, freshId: Id)
    ensures UpdateOp(l, id, f, freshId) == Failure(TransactionNotFound) <==>
              FindById(l, id).None? || FindById(l, id).value.crypto == ""
    ensures UpdateOp(l, id, f, freshId).Failure? ==>
              UpdateOp(l, id, f, freshId).error in {TransactionNotFound, TransactionInvalid}
    ensures FindById(l, id).Some? && FindById(l, id).value.crypto != "" ==>
              var c, i := FindById(l, id).value.crypto, FindById(l, id).value.i;
              var t := NewTransaction(f, freshId);
              (UpdateOp(l, id, f, freshId).Success? <==>
                 if c == f.crypto then Passes(l.buckets[c][i := t])
                 else Passes(Bucket(l, f.crypto) + [t]) && Passes(RemoveAt(l.buckets[c], i)))
    ensures Wf(l) && UpdateOp(l, id, f, freshId).Success? ==>
              Wf(UpdateOp(l, id, f, freshId).value.0) && Count(UpdateOp(l, id, f, freshId).value.0) == Count(l)
  {
    var found := FindById(l, id);
    if found.Some? && found.value.crypto != "" {
      var c, i := found.value.crypto, found.value.i;
      if c == f.crypto {
        UpdateInPlace(l, id, f, freshId, c, i);
      } else {
        UpdateMoved(l, id, f, freshId, c, i);
      }
    }
  }

  /** PUT changing the symbol: the transaction leaves its bucket and is
      pushed onto the other one; accepted exactly when both buckets pass. */
  lemma UpdateMoved(l: Ledger, id: Id, f: Fields, freshId: Id, c: Symbol, i: nat)
    requires FindById(l, id) == Some(Found(c, i)) && c != "" && c != f.crypto
    ensures UpdateOp(l, id, f, freshId).Success? <==>
              Passes(Bucket(l, f.crypto) + [NewTransaction(f, freshId)]) && Passes(RemoveAt(l.buckets[c], i))
    ensures UpdateOp(l, id, f, freshId).Failure? ==> UpdateOp(l, id, f, freshId).error == TransactionInvalid
    ensures UpdateOp(l, id, f, freshId).Success? ==>
              Moved(l, c, i, f.crypto, NewTransaction(f, freshId), UpdateOp(l, id, f, freshId).value.0)
  {
    var t := NewTransaction(f, freshId);
    MoveSorted(l, c, i, f.crypto, t);
    assert Place(l, c, i, f.crypto, t).0 == Attach(Detach(l, c, i), f.crypto, t);
    assert |l.buckets[c]| <= 1 ==> RemoveAt(l.buckets[c], i) == [];
  }

  /** The PUT answer after a change of symbol is the new transaction's id
      exactly when nothing in the target bucket is dated later. */
  lemma UpdateMovedReturnedId(l: Ledger, id: Id, f: Fields, freshId: Id, c: Symbol, i: nat)
    requires FindById(l, id) == Some(Found(c, i)) && c != "" && c != f.crypto
    requires !HasId(Bucket(l, f.crypto), freshId)
    ensures UpdateOp(l, id, f, freshId).Success? ==>
              (UpdateOp(l, id, f, freshId).value.1 == freshId <==>
               forall k :: 0 <= k < |Bucket(l, f.crypto)| ==> Bucket(l, f.crypto)[k].date <= f.date)
  {
    var b, t := Bucket(l, f.crypto), NewTransaction(f, freshId);
    MoveSorted(l, c, i, f.crypto, t);
    assert Place(l, c, i, f.crypto, t) == (Attach(Detach(l, c, i), f.crypto, t), |b|);
    LastAfterInsert(b, t);
  }

  /** Moving away the only buy of a bucket whose remaining transactions
      are all sells is rejected. */
  lemma MovingCoveringBuyRejected(l: Ledger, id: Id, f: Fields, freshId: Id, c: Symbol, i: nat)
    requires FindById(l, id) == Some(Found(c, i)) && c != "" && c != f.crypto
    requires |l.buckets[c]| > 1
    requires forall x :: x in RemoveAt(l.buckets[c], i) ==> !x.isBuy && Value(x.quantity) > 0.0
    ensures UpdateOp(l, id, f, freshId) == Failure(TransactionInvalid)
  {
    var rest := RemoveAt(l.buckets[c], i);
    UpdateMoved(l, id, f, freshId, c, i);
    SortingFacts(rest);
    var u := StableSort(rest);
    assert u[0] in multiset(rest);
    FirstSellFails(u);
  }

  // ---------------------------------------------------------------------
  // DELETE

  /** DELETE in terms of the ledger steps. */
  lemma DeleteOpShape(l: Ledger, id: Id, c: Symbol, i: nat)
    requires FindById(l, id) == Some(Found(c, i)) && c != ""
    ensures var d := Detach(l, c, i);
            DeleteOp(l, id) ==
              if Passes(RemoveAt(l.buckets[c], i)) then Success((if c in d.buckets then SortBucket(d, c) else d, ()))
              else Failure(TransactionInvalid)
  {
    var rest := RemoveAt(l.buckets[c], i);
    var d := Detach(l, c, i);
    DetachFacts(l, c, i);
    if |rest| == 0 {
      assert StableSort(rest) == [];
    } else {
      assert d.buckets[c := StableSort(rest)] == l.buckets[c := StableSort(rest)];
    }
  }

  /** A DELETE is accepted exactly when the bucket without the transaction
      passes; the key goes away precisely when it held only that one. */
  lemma DeleteOutcome(l: Ledger, id: Id, c: Symbol, i: nat)
    requires FindById(l, id) == Some(Found(c, i)) && c != ""
    ensures l.buckets[c][i].id == id
    ensures DeleteOp(l, id).Success? <==> Passes(RemoveAt(l.buckets[c], i))
    ensures DeleteOp(l, id).Failure? ==> DeleteOp(l, id).error == TransactionInvalid
    ensures DeleteOp(l, id).Success? ==> Removed(l, c, i, DeleteOp(l, id).value.0)
  {
    DetachSorted(l, c, i);
    DeleteOpShape(l, id, c, i);
  }

  /** DELETE for any id: "not found" exactly when the lookup finds nothing
      (or only the empty symbol); the only other error is the failed check;
      an accepted DELETE removes one transaction. */
  lemma DeleteAnyId(l: Ledger, id: Id)
    ensures DeleteOp(l, id) == Failure(TransactionNotFound) <==>
              FindById(l, id).None? || FindById(l, id).value.crypto == ""
    ensures DeleteOp(l, id).Failure? ==> DeleteOp(l, id).error in {TransactionNotFound, TransactionInvalid}
    ensures Wf(l) && DeleteOp(l, id).Success? ==>
              Wf(DeleteOp(l, id).value.0) && Count(DeleteOp(l, id).value.0) + 1 == Count(l)
  {
    var found := FindById(l, id);
    if found.Some? && found.value.crypto != "" {
      DeleteOutcome(l, id, found.value.crypto, found.value.i);
    }
  }

  /** Deleting the only transaction of a symbol is always accepted and
      removes the symbol. */
  lemma DeleteSoleTransaction(l: Ledger, id: Id, c: Symbol, i: nat)
    requires FindById(l, id) == Some(Found(c, i)) && c != "" && |l.buckets[c]| == 1
    ensures DeleteOp(l, id).Success?
    ensures DeleteOp(l, id).value.0.buckets.Keys == l.buckets.Keys - {c}
    ensures Wf(l) ==> Count(DeleteOp(l, id).value.0) + 1 == Count(l)
  {
    DeleteOutcome(l, id, c, i);
    assert RemoveAt(l.buckets[c], i) == [];
  }

  // ---------------------------------------------------------------------
  // The invariant of every saved ledger

  lemma AddedConsistent(l: Ledger, c: Symbol, t: Transaction, l': Ledger)
    requires Consistent(l) && Added(l, c, t, l') && NonNegativePrefixes(l'.buckets[c])
    ensures Consistent(l')
  {
  }

  lemma OverwrittenConsistent(l: Ledger, c: Symbol, i: nat, t: Transaction, l': Ledger)
    requires c in l.buckets && i < |l.buckets[c]|
    requires Consistent(l) && Overwritten(l, c, i, t, l') && NonNegativePrefixes(l'.buckets[c])
    ensures Consistent(l')
  {
  }

  lemma MovedConsistent(l: Ledger, c: Symbol, i: nat, c2: Symbol, t: Transaction, l': Ledger)
    requires c in l.buckets && i < |l.buckets[c]|
    requires Consistent(l) && Moved(l, c, i, c2, t, l') && NonNegativePrefixes(l'.buckets[c2])
    requires c in l'.buckets ==> NonNegativePrefixes(l'.buckets[c])
    ensures Consistent(l')
  {
  }

  lemma RemovedConsistent(l: Ledger, c: Symbol, i: nat, l': Ledger)
    requires c in l.buckets && i < |l.buckets[c]|
    requires Consistent(l) && Removed(l, c, i, l')
    requires c in l'.buckets ==> NonNegativePrefixes(l'.buckets[c])
    ensures Consistent(l')
  {
  }

  lemma InsertKeepsConsistent(l: Ledger, f: Fields, freshId: Id)
    requires Consistent(l)
    ensures InsertOp(l, f, freshId).Success? ==> Consistent(InsertOp(l, f, freshId).value.0)
  {
    InsertOutcome(l, f, freshId);
    if InsertOp(l, f, freshId).Success? {
      AddedConsistent(l, f.crypto, NewTransaction(f, freshId), InsertOp(l, f, freshId).value.0);
    }
  }

  lemma UpdateKeepsConsistent(l: Ledger, id: Id, f: Fields, freshId: Id)
    requires Consistent(l)
    ensures UpdateOp(l, id, f, freshId).Success? ==> Consistent(UpdateOp(l, id, f, freshId).value.0)
  {
    var found := FindById(l, id);
    if found.Some? && found.value.crypto != "" {
      var c, i := found.value.crypto, found.value.i;
      var t := NewTransaction(f, freshId);
      if c == f.crypto {
        UpdateInPlace(l, id, f, freshId, c, i);
        if UpdateOp(l, id, f, freshId).Success? {
          OverwrittenConsistent(l, c, i, t, UpdateOp(l, id, f, freshId).value.0);
        }
      } else {
        UpdateMoved(l, id, f, freshId, c, i);
        if UpdateOp(l, id, f, freshId).Success? {
          MovedConsistent(l, c, i, f.crypto, t, UpdateOp(l, id, f, freshId).value.0);
        }
      }
    }
  }

  lemma DeleteKeepsConsistent(l: Ledger, id: Id)
    requires Consistent(l)
    ensures DeleteOp(l, id).Success? ==> Consistent(DeleteOp(l, id).value.0)
  {
    var found := FindById(l, id);
    if found.Some? && found.value.crypto != "" {
      var c, i := found.value.crypto, found.value.i;
      DeleteOutcome(l, id, c, i);
      if DeleteOp(l, id).Success? {
        RemovedConsistent(l, c, i, DeleteOp(l, id).value.0);
      }
    }
  }

  // ---------------------------------------------------------------------
  // The routes: validation first, then the handler; what is persisted

  /** POST answers `InvalidParameters` exactly when a validator rejects the
      request; past the validators the only error is the failed check. */
  lemma PostValidatesFirst(l: Ledger, req: Request, now: int, freshId: Id)
    ensures PostOutcome(l, req, now, freshId) == Failure(InvalidParameters) <==> Validate(req, now).Failure?
    ensures PostOutcome(l, req, now, freshId).Failure? && Validate(req, now).Success? ==>
              PostOutcome(l, req, now, freshId).error == TransactionInvalid
  {
  }

  /** PUT answers `InvalidParameters` exactly when a validator rejects the
      request; past the validators it answers "not found" or the failed check. */
  lemma PutValidatesFirst(l: Ledger, id: Id, req: Request, now: int, freshId: Id)
    ensures PutOutcome(l, id, req, now, freshId) == Failure(InvalidParameters) <==> Validate(req, now).Failure?
    ensures PutOutcome(l, id, req, now, freshId).Failure? && Validate(req, now).Success? ==>
              PutOutcome(l, id, req, now, freshId).error in {TransactionNotFound, TransactionInvalid}
  {
    if Validate(req, now).Success? {
      UpdateAnyId(l, id, Validate(req, now).value, freshId);
    }
  }

  /** A new user's ledger, and the ledger after deleting all transactions,
      are consistent. */
  lemma EmptyConsistent()
    ensures Consistent(Empty)
  {
  }

  /** What POST persists is consistent whenever the ledger it started from was. */
  lemma PostPersistsConsistent(l: Ledger, req: Request, now: int, freshId: Id)
    requires Consistent(l)
    ensures Consistent(Persisted(l, PostOutcome(l, req, now, freshId)))
  {
    var v := Validate(req, now);
    if v.Success? {
      InsertKeepsConsistent(l, v.value, freshId);
    }
  }

  /** A GET after an accepted POST lists the new transaction under its
      symbol: reading its rendered document back gives the id, the fields
      as the validators parsed them, and the notes when they are non-empty;
      a price or quantity sent as a canonical literal is listed as that
      very string. */
  lemma PostThenList(l: Ledger, req: Request, now: int, freshId: Id)
    requires Wf(l) && PostOutcome(l, req, now, freshId).Success?
    ensures var g := RenderLedger(PostOutcome(l, req, now, freshId).value.0);
            req.crypto in g &&
            exists j :: 0 <= j < |g[req.crypto]| &&
              FromDocument(g[req.crypto][j]) ==
                Some(Transaction(freshId, req.base, req.isBuy, Parse(req.price).value,
                                 Parse(req.quantity).value, req.date,
                                 if req.notes.Some? && req.notes.value != "" then req.notes else None)) &&
              (Canonical(req.price) ==> Lookup(g[req.crypto][j], "price") == Some(Text(req.price))) &&
              (Canonical(req.quantity) ==> Lookup(g[req.crypto][j], "quantity") == Some(Text(req.quantity)))
  {
    var f := Validate(req, now).value;
    var t := NewTransaction(f, freshId);
    InsertOutcome(l, f, freshId);
    var l' := InsertOp(l, f, freshId).value.0;
    assert Added(l, f.crypto, t, l');
    assert t in multiset(Bucket(l, f.crypto) + [t]);
    if Canonical(req.price) {
      ToStringParse(req.price);
    }
    if Canonical(req.quantity) {
      ToStringParse(req.quantity);
    }
    ListedAfterAdd(l', f.crypto, t);
  }

  /** A transaction held in a bucket of a well-formed ledger is listed,
      and read back, under that bucket's symbol, its decimals rendered
      by `ToString`. */
  lemma ListedAfterAdd(l: Ledger, c: Symbol, t: Transaction)
    requires Wf(l) && c in l.buckets && t in multiset(l.buckets[c])
    ensures c in RenderLedger(l) &&
            exists j :: 0 <= j < |RenderLedger(l)[c]| && FromDocument(RenderLedger(l)[c][j]) == Some(t) &&
              Lookup(RenderLedger(l)[c][j], "price") == Some(Text(ToString(t.price))) &&
              Lookup(RenderLedger(l)[c][j], "quantity") == Some(Text(ToString(t.quantity)))
  {
    var b := l.buckets[c];
    var j :| 0 <= j < |b| && b[j] == t;
    RenderLedgerShape(l);
    RenderRoundTrip(t);
    RenderedLookups(t, RenderDocument(Entries(t)));
    assert RenderLedger(l)[c][j] == RenderDocument(Entries(t));
  }

  /** What PUT persists is consistent whenever the ledger it started from was. */
  lemma PutPersistsConsistent(l: Ledger, id: Id, req: Request, now: int, freshId: Id)
    requires Consistent(l)
    ensures Consistent(Persisted(l, PutOutcome(l, id, req, now, freshId)))
  {
    var v := Validate(req, now);
    if v.Success? {
      UpdateKeepsConsistent(l, id, v.value, freshId);
    }
  }

  /** What DELETE persists is consistent whenever the ledger it started from was. */
  lemma DeletePersistsConsistent(l: Ledger, id: Id)
    requires Consistent(l)
    ensures Consistent(Persisted(l, DeleteOp(l, id)))
  {
    DeleteKeepsConsistent(l, id);
  }
}
