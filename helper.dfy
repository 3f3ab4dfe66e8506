/** src/helpers/transaction.helper.js: locating a transaction by id, and
    rendering a ledger with its Decimal128 values turned into strings. */
module TransactionHelper {
  import opened Wrappers
  import opened Decimals
  import opened LedgerTypes

  // ---------------------------------------------------------------------
  // findTransactionByID

  /** Where a transaction was found: its bucket and its index there. */
  datatype Found = Found(crypto: Symbol, i: nat)

  predicate HasId(bucket: seq<Transaction>, id: Id)
  {
    exists j :: 0 <= j < |bucket| && bucket[j].id == id
  }

  /** `transactions.findIndex(t => t._id.toString() === id)`. */
  function FindIndex(bucket: seq<Transaction>, id: Id): (r: int)
    ensures -1 <= r < |bucket|
    ensures r == -1 <==> !HasId(bucket, id)
    ensures r >= 0 ==> bucket[r].id == id && forall j :: 0 <= j < r ==> bucket[j].id != id
  {
    if bucket == [] then -1
    else if bucket[0].id == id then 0
    else
      var k := FindIndex(bucket[1..], id);
      assert forall j :: 1 <= j < |bucket| ==> bucket[j] == bucket[1..][j - 1];
      if k == -1 then -1 else k + 1
  }

  /** The search loop of `findTransactionByID` from the `p`-th key on. */
  function FindFrom(l: Ledger, id: Id, p: nat): (r: Option<Found>)
    requires p <= |l.order|
    decreases |l.order| - p
    ensures r.Some? ==> r.value.crypto in l.buckets && r.value.crypto in l.order
    ensures r.Some? ==> r.value.i < |l.buckets[r.value.crypto]| && l.buckets[r.value.crypto][r.value.i].id == id
    ensures r.Some? ==> forall j :: 0 <= j < r.value.i ==> l.buckets[r.value.crypto][j].id != id
    ensures r.None? <==> forall q :: p <= q < |l.order| && l.order[q] in l.buckets ==> !HasId(l.buckets[l.order[q]], id)
  {
    if p == |l.order| then None
    else
      var crypto := l.order[p];
      if crypto in l.buckets && FindIndex(l.buckets[crypto], id) != -1
      then Some(Found(crypto, FindIndex(l.buckets[crypto], id)))
      else FindFrom(l, id, p + 1)
  }

  /** `findTransactionByID(value, id)`: the first bucket, in key order,
      holding a transaction with that id, and the first such index in it;
      `None` for the empty object `{}`. */
  function FindById(l: Ledger, id: Id): (r: Option<Found>)
    ensures r.Some? ==> r.value.crypto in l.buckets && r.value.crypto in l.order
    ensures r.Some? ==> r.value.i < |l.buckets[r.value.crypto]| && l.buckets[r.value.crypto][r.value.i].id == id
    ensures r.Some? ==> forall j :: 0 <= j < r.value.i ==> l.buckets[r.value.crypto][j].id != id
    ensures r.None? <==> forall q :: 0 <= q < |l.order| && l.order[q] in l.buckets ==> !HasId(l.buckets[l.order[q]], id)
  {
    FindFrom(l, id, 0)
  }

  lemma {:induction false} FindFromFirst(l: Ledger, id: Id, p: nat)
    requires p <= |l.order| && FindFrom(l, id, p).Some?
    ensures exists q :: p <= q < |l.order| && l.order[q] == FindFrom(l, id, p).value.crypto &&
                        (forall q' :: p <= q' < q && l.order[q'] in l.buckets ==> !HasId(l.buckets[l.order[q']], id))
    decreases |l.order| - p
  {
    var crypto := l.order[p];
    if crypto in l.buckets && FindIndex(l.buckets[crypto], id) != -1 {
      assert l.order[p] == FindFrom(l, id, p).value.crypto;
    } else {
      FindFromFirst(l, id, p + 1);
    }
  }

  /** The bucket found is the first one, in key order, holding the id. */
  lemma FindByIdFirst(l: Ledger, id: Id)
    requires FindById(l, id).Some?
    ensures exists q :: 0 <= q < |l.order| && l.order[q] == FindById(l, id).value.crypto &&
                        (forall q' :: 0 <= q' < q && l.order[q'] in l.buckets ==> !HasId(l.buckets[l.order[q']], id))
  {
    FindFromFirst(l, id, 0);
  }

  /** On a well-formed ledger, nothing is found exactly when no bucket
      holds a transaction with that id. */
  lemma FindByIdNone(l: Ledger, id: Id)
    requires Wf(l)
    ensures FindById(l, id).None? <==> forall k :: k in l.buckets ==> !HasId(l.buckets[k], id)
  {
    if FindById(l, id).None? {
      forall k | k in l.buckets
        ensures !HasId(l.buckets[k], id)
      {
        var q :| 0 <= q < |l.order| && l.order[q] == k;
      }
    }
  }

  // ---------------------------------------------------------------------
  // getTransactions

  /** A field value of a stored or rendered transaction document. */
  datatype FieldValue =
    | ObjectId(oid: Id)
    | Text(text: string)
    | Boolean(flag: bool)
    | Number(number: int)
    | Decimal128(decimal: Decimal)

  /** A document's fields in `Object.entries` order. */
  type Document = seq<(string, FieldValue)>

  /** The fields of a stored transaction (`transaction._doc`); `notes` is
      present only when the transaction has notes. */
  function Entries(t: Transaction): Document
  {
    [("_id", ObjectId(t.id)), ("base", Text(t.base)), ("isBuy", Boolean(t.isBuy)),
     ("price", Decimal128(t.price)), ("quantity", Decimal128(t.quantity)), ("date", Number(t.date))]
    + (if t.notes.Some? then [("notes", Text(t.notes.value))] else [])
  }

  /** `val.constructor.name === "Decimal128" ? val.toString() : val`. */
  function RenderValue(v: FieldValue): FieldValue
  {
    if v.Decimal128? then Text(ToString(v.decimal)) else v
  }

  function RenderDocument(doc: Document): (r: Document)
    ensures |r| == |doc|
  {
    seq(|doc|, m requires 0 <= m < |doc| => (doc[m].0, RenderValue(doc[m].1)))
  }

  function RenderBucket(bucket: seq<Transaction>): (r: seq<Document>)
    ensures |r| == |bucket|
  {
    seq(|bucket|, j requires 0 <= j < |bucket| => RenderDocument(Entries(bucket[j])))
  }

  function RenderLedger(l: Ledger): map<Symbol, seq<Document>>
  {
    map k | k in l.buckets && k in l.order :: RenderBucket(l.buckets[k])
  }

  /** `getTransactions(value)`: builds a fresh object with one rendered
      list per bucket, each transaction copied field by field. */
  method GetTransactions(l: Ledger) returns (ret: map<Symbol, seq<Document>>)
    ensures ret == RenderLedger(l)
  {
    ret := map[];
    var p := 0;
    while p < |l.order|
      invariant 0 <= p <= |l.order|
      invariant forall k :: k in ret <==> k in l.buckets && k in l.order[..p]
      invariant forall k :: k in ret ==> ret[k] == RenderBucket(l.buckets[k])
    {
      var crypto := l.order[p];
      assert l.order[..p + 1] == l.order[..p] + [crypto];
      if crypto in l.buckets {
        var transactions := l.buckets[crypto];
        var rendered: seq<Document> := [];
        var j := 0;
        while j < |transactions|
          invariant 0 <= j <= |transactions|
          invariant rendered == RenderBucket(transactions[..j])
        {
          var doc := Entries(transactions[j]);
          var newTransaction: Document := [];
          var m := 0;
          while m < |doc|
            invariant 0 <= m <= |doc|
            invariant newTransaction == RenderDocument(doc[..m])
          {
            var (key, val) := doc[m];
            newTransaction := newTransaction + [(key, if val.Decimal128? then Text(ToString(val.decimal)) else val)];
            m := m + 1;
            assert newTransaction == RenderDocument(doc[..m]);
          }
          assert doc[..m] == doc;
          rendered := rendered + [newTransaction];
          j := j + 1;
          assert rendered == RenderBucket(transactions[..j]);
        }
        assert transactions[..j] == transactions;
        ret := ret[crypto := rendered];
      }
      p := p + 1;
    }
    assert l.order[..p] == l.order;
  }

  /** On a well-formed ledger the rendering has exactly the ledger's keys,
      and each bucket keeps its length and its order. */
  lemma RenderLedgerShape(l: Ledger)
    requires Wf(l)
    ensures RenderLedger(l).Keys == l.buckets.Keys
    ensures forall k :: k in l.buckets ==> |RenderLedger(l)[k]| == |l.buckets[k]|
    ensures forall k, j :: k in l.buckets && 0 <= j < |l.buckets[k]| ==>
      RenderLedger(l)[k][j] == RenderDocument(Entries(l.buckets[k][j]))
  {
  }

  /** Rendering keeps every field name and every non-decimal value, and
      leaves no Decimal128 behind. */
  lemma RenderDocumentFields(doc: Document)
    ensures forall m :: 0 <= m < |doc| ==> RenderDocument(doc)[m].0 == doc[m].0
    ensures forall m :: 0 <= m < |doc| && !doc[m].1.Decimal128? ==> RenderDocument(doc)[m].1 == doc[m].1
    ensures forall m :: 0 <= m < |doc| ==> !RenderDocument(doc)[m].1.Decimal128?
  {
  }

  /** The first value stored under `key`, as a property read finds it. */
  function Lookup(doc: Document, key: string): Option<FieldValue>
  {
    if doc == [] then None
    else if doc[0].0 == key then Some(doc[0].1)
    else Lookup(doc[1..], key)
  }

  /** Reads a transaction back from a rendered document, parsing the
      decimal strings. */
  function FromDocument(doc: Document): Option<Transaction>
  {
    match (Lookup(doc, "_id"), Lookup(doc, "base"), Lookup(doc, "isBuy"),
           Lookup(doc, "price"), Lookup(doc, "quantity"), Lookup(doc, "date"))
    case (Some(ObjectId(id)), Some(Text(base)), Some(Boolean(isBuy)),
          Some(Text(price)), Some(Text(quantity)), Some(Number(date))) =>
      (match (Parse(price), Parse(quantity))
       case (Some(p), Some(q)) =>
         var notes := match Lookup(doc, "notes") case Some(Text(n)) => Some(n) case _ => None;
         Some(Transaction(id, base, isBuy, p, q, date, notes))
       case _ => None)
    case _ => None
  }

  lemma {:induction false} LookupAt(doc: Document, key: string, m: nat)
    requires m < |doc| && doc[m].0 == key
    requires forall m' :: 0 <= m' < m ==> doc[m'].0 != key
    ensures Lookup(doc, key) == Some(doc[m].1)
  {
    if m > 0 {
      LookupAt(doc[1..], key, m - 1);
    }
  }

  lemma {:induction false} LookupAbsent(doc: Document, key: string)
    requires forall m :: 0 <= m < |doc| ==> doc[m].0 != key
    ensures Lookup(doc, key) == None
  {
    if doc != [] {
      LookupAbsent(doc[1..], key);
    }
  }

  /** What a reader of the rendered fields obtains. */
  lemma FromLookups(doc: Document, t: Transaction)
    requires Lookup(doc, "_id") == Some(ObjectId(t.id)) && Lookup(doc, "base") == Some(Text(t.base))
    requires Lookup(doc, "isBuy") == Some(Boolean(t.isBuy)) && Lookup(doc, "date") == Some(Number(t.date))
    requires Lookup(doc, "price") == Some(Text(ToString(t.price)))
    requires Lookup(doc, "quantity") == Some(Text(ToString(t.quantity)))
    requires Lookup(doc, "notes") == if t.notes.Some? then Some(Text(t.notes.value)) else None
    ensures FromDocument(doc) == Some(t)
  {
    ParseToString(t.price);
    ParseToString(t.quantity);
  }

  lemma RenderedEntries(t: Transaction, doc: Document)
    requires doc == RenderDocument(Entries(t))
    ensures |doc| == if t.notes.Some? then 7 else 6
    ensures doc[0] == ("_id", ObjectId(t.id)) && doc[1] == ("base", Text(t.base))
    ensures doc[2] == ("isBuy", Boolean(t.isBuy)) && doc[3] == ("price", Text(ToString(t.price)))
    ensures doc[4] == ("quantity", Text(ToString(t.quantity))) && doc[5] == ("date", Number(t.date))
    ensures t.notes.Some? ==> doc[6] == ("notes", Text(t.notes.value))
  {
    var e := Entries(t);
    assert e[0] == ("_id", ObjectId(t.id)) && e[1] == ("base", Text(t.base));
    assert e[2] == ("isBuy", Boolean(t.isBuy)) && e[3] == ("price", Decimal128(t.price));
    assert e[4] == ("quantity", Decimal128(t.quantity)) && e[5] == ("date", Number(t.date));
    assert t.notes.Some? ==> e[6] == ("notes", Text(t.notes.value));
    forall m | 0 <= m < |e|
      ensures doc[m] == (e[m].0, RenderValue(e[m].1))
    {
    }
  }

  /** The fields a reader finds in a rendered transaction. */
  lemma RenderedLookups(t: Transaction, doc: Document)
    requires doc == RenderDocument(Entries(t))
    ensures Lookup(doc, "_id") == Some(ObjectId(t.id)) && Lookup(doc, "base") == Some(Text(t.base))
    ensures Lookup(doc, "isBuy") == Some(Boolean(t.isBuy)) && Lookup(doc, "date") == Some(Number(t.date))
    ensures Lookup(doc, "price") == Some(Text(ToString(t.price)))
    ensures Lookup(doc, "quantity") == Some(Text(ToString(t.quantity)))
    ensures Lookup(doc, "notes") == if t.notes.Some? then Some(Text(t.notes.value)) else None
  {
    RenderedEntries(t, doc);
    LookupAt(doc, "_id", 0);
    LookupAt(doc, "base", 1);
    LookupAt(doc, "isBuy", 2);
    LookupAt(doc, "price", 3);
    LookupAt(doc, "quantity", 4);
    LookupAt(doc, "date", 5);
    if t.notes.Some? {
      LookupAt(doc, "notes", 6);
    } else {
      LookupAbsent(doc, "notes");
    }
  }

  /** Nothing is lost by rendering: every field, the decimals to their
      full precision, can be read back from the rendered document. */
  lemma RenderRoundTrip(t: Transaction)
    ensures FromDocument(RenderDocument(Entries(t))) == Some(t)
  {
    var doc := RenderDocument(Entries(t));
    RenderedLookups(t, doc);
    FromLookups(doc, t);
  }
}
