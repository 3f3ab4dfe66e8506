/** The per-user ledger: asset symbol -> transactions of that asset
    (the `transactions` document of a user; one stored transaction follows
    the schema of src/models/transaction.js). */
module LedgerTypes {
  import opened Wrappers
  import opened Decimals

  type Symbol = string
  /** The string form of a transaction's ObjectId. */
  type Id = string

  /** One buy or sell. The symbol is not stored: it is the bucket's key. */
  datatype Transaction = Transaction(
    id: Id,
    base: string,
    isBuy: bool,
    price: Decimal,
    quantity: Decimal,
    date: int,
    notes: Option<string>)

  /** The buckets together with the order in which their keys were created,
      which is the order `Object.entries` and `for ... of` visit them. */
  datatype Ledger = Ledger(order: seq<Symbol>, buckets: map<Symbol, seq<Transaction>>)

  const Empty := Ledger([], map[])

  predicate Distinct<T(==)>(s: seq<T>)
  {
    forall i, j :: 0 <= i < j < |s| ==> s[i] != s[j]
  }

  /** The key order lists every bucket key exactly once. */
  ghost predicate Wf(l: Ledger)
  {
    Distinct(l.order) && forall k :: k in l.buckets <==> k in l.order
  }

  /** `s.splice(i, 1)`. */
  function RemoveAt<T>(s: seq<T>, i: nat): (r: seq<T>)
    requires i < |s|
    ensures |r| == |s| - 1
    ensures forall k :: 0 <= k < |r| ==> r[k] == if k < i then s[k] else s[k + 1]
  {
    s[..i] + s[i + 1..]
  }

  /** The splice removes exactly the one element. */
  lemma RemoveAtPermutes<T>(s: seq<T>, i: nat)
    requires i < |s|
    ensures multiset(RemoveAt(s, i)) + multiset{s[i]} == multiset(s)
  {
    assert s == s[..i] + [s[i]] + s[i + 1..];
  }

  /** The key order after `delete transactions[k]`. */
  function RemoveKey(keys: seq<Symbol>, k: Symbol): (r: seq<Symbol>)
    ensures forall x :: x in r <==> x in keys && x != k
    ensures Distinct(keys) ==> Distinct(r)
  {
    if keys == [] then []
    else if keys[0] == k then RemoveKey(keys[1..], k)
    else
      var rest := RemoveKey(keys[1..], k);
      assert Distinct(keys) ==> keys[0] !in rest;
      [keys[0]] + rest
  }

  /** Deleting a key keeps the other keys in their creation order. */
  lemma {:induction false} RemoveKeyKeepsOrder(a: seq<Symbol>, k: Symbol, b: seq<Symbol>)
    requires Distinct(a + [k] + b)
    ensures RemoveKey(a + [k] + b, k) == a + b
  {
    var keys := a + [k] + b;
    if a == [] {
      assert keys[1..] == b;
      assert k !in b by {
        forall j | 0 <= j < |b| ensures b[j] != k {
          assert keys[0] == k && keys[j + 1] == b[j];
        }
      }
      RemoveKeyAbsent(b, k);
    } else {
      assert keys[0] == a[0] && keys[|a|] == k;
      assert keys[1..] == a[1..] + [k] + b;
      assert Distinct(a[1..] + [k] + b) by {
        forall p, q | 0 <= p < q < |keys| - 1
          ensures keys[1..][p] != keys[1..][q]
        {
          assert keys[1..][p] == keys[p + 1] && keys[1..][q] == keys[q + 1];
        }
      }
      RemoveKeyKeepsOrder(a[1..], k, b);
      assert a + b == [a[0]] + (a[1..] + b);
    }
  }

  /** Number of transactions in the buckets named by `keys`. */
  function CountIn(keys: seq<Symbol>, buckets: map<Symbol, seq<Transaction>>): nat
  {
    if keys == [] then 0
    else (if keys[0] in buckets then |buckets[keys[0]]| else 0) + CountIn(keys[1..], buckets)
  }

  /** Number of transactions in the ledger. */
  function Count(l: Ledger): nat
  {
    CountIn(l.order, l.buckets)
  }

  lemma {:induction false} CountUnlisted(keys: seq<Symbol>, buckets: map<Symbol, seq<Transaction>>, k: Symbol, v: seq<Transaction>)
    requires k !in keys
    ensures CountIn(keys, buckets[k := v]) == CountIn(keys, buckets)
    ensures CountIn(keys, buckets - {k}) == CountIn(keys, buckets)
  {
    if keys != [] {
      CountUnlisted(keys[1..], buckets, k, v);
    }
  }

  lemma {:induction false} CountUpdate(keys: seq<Symbol>, buckets: map<Symbol, seq<Transaction>>, k: Symbol, v: seq<Transaction>)
    requires Distinct(keys) && k in keys && k in buckets
    ensures CountIn(keys, buckets[k := v]) + |buckets[k]| == CountIn(keys, buckets) + |v|
  {
    if keys[0] == k {
      assert k !in keys[1..];
      CountUnlisted(keys[1..], buckets, k, v);
    } else {
      CountUpdate(keys[1..], buckets, k, v);
    }
  }

  lemma {:induction false} CountAppend(keys: seq<Symbol>, buckets: map<Symbol, seq<Transaction>>, k: Symbol, v: seq<Transaction>)
    requires k !in keys
    ensures CountIn(keys + [k], buckets[k := v]) == CountIn(keys, buckets) + |v|
  {
    if keys == [] {
      assert [k][1..] == [];
    } else {
      assert (keys + [k])[1..] == keys[1..] + [k];
      CountAppend(keys[1..], buckets, k, v);
    }
  }

  lemma {:induction false} CountRemoveKey(keys: seq<Symbol>, buckets: map<Symbol, seq<Transaction>>, k: Symbol)
    requires Distinct(keys) && k in keys && k in buckets
    ensures CountIn(RemoveKey(keys, k), buckets - {k}) + |buckets[k]| == CountIn(keys, buckets)
  {
    if keys[0] == k {
      assert k !in keys[1..];
      CountUnlisted(keys[1..], buckets, k, []);
      RemoveKeyAbsent(keys[1..], k);
    } else {
      CountRemoveKey(keys[1..], buckets, k);
    }
  }

  lemma {:induction false} RemoveKeyAbsent(keys: seq<Symbol>, k: Symbol)
    requires k !in keys
    ensures RemoveKey(keys, k) == keys
  {
    if keys != [] {
      RemoveKeyAbsent(keys[1..], k);
    }
  }
}
