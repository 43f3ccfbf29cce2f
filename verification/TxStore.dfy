/**
 The transaction store of `TxStoreManager.ts`: a collection of documents with unique indexes on
 `txId` and on `nonceSigner`. `Rows` is what the indexes make of it, a map from (signer, nonce).
 */
module TxStore {
  import opened Wrappers
  import opened StoredTransactions

  type Rows = map<Key, StoredTx>

  datatype StoreError = InvalidTx | UniqueViolated

  ghost predicate WellKeyed(rows: Rows) {
    forall k :: k in rows ==> rows[k].key == k && rows[k].attempts > 0
  }

  /** Why `putTx` throws, if it does; otherwise it stores the row under its key. */
  function PutError(rows: Rows, tx: StoredTx, updateExisting: bool): Option<StoreError> {
    if tx.attempts == 0 then Some(InvalidTx)
    else if tx.key in rows && !updateExisting then Some(UniqueViolated)
    else None
  }

  predicate InRange(tx: StoredTx, signer: Address, from: nat, to: Option<int>) {
    tx.key.signer == signer && from <= tx.key.nonce && (to.Some? ==> tx.key.nonce <= to.value)
  }

  /** `txs` lists the rows of one signer in a range of nonces, each once, in ascending order of nonce. */
  ghost predicate IsNonceRange(rows: Rows, signer: Address, from: nat, to: Option<int>, txs: seq<StoredTx>) {
    && (forall i, j :: 0 <= i < j < |txs| ==> txs[i].key.nonce < txs[j].key.nonce)
    && (forall i :: 0 <= i < |txs| ==>
          txs[i].key in rows && rows[txs[i].key] == txs[i] && InRange(txs[i], signer, from, to))
    && (forall k :: k in rows && InRange(rows[k], signer, from, to) ==> rows[k] in txs)
  }

  predicate Archived(tx: StoredTx, upToBlock: int, upToTimestamp: int) {
    tx.minedBlock.Some? && tx.minedBlock.value.number <= upToBlock && tx.minedBlock.value.timestamp <= upToTimestamp
  }

  function RemoveArchived(rows: Rows, upToBlock: int, upToTimestamp: int): Rows {
    map k | k in rows && !Archived(rows[k], upToBlock, upToTimestamp) :: rows[k]
  }

  /** The answer of `isActionPendingOrRecentlyMined` over a given row. */
  predicate Blocks(tx: StoredTx, action: ServerAction, currentBlock: int, distance: int, destination: Option<Address>) {
    && tx.action == action
    && (destination.Some? ==> tx.call.to == destination.value)
    && (tx.minedBlock.None? || currentBlock - tx.minedBlock.value.number <= distance)
  }

  ghost predicate ActionPendingOrRecent(
    rows: Rows, action: ServerAction, currentBlock: int, distance: int, destination: Option<Address>)
  {
    exists k :: k in rows && Blocks(rows[k], action, currentBlock, distance, destination)
  }

  // ---------- The documents behind the indexes ----------

  ghost predicate UniqueKeys(docs: seq<StoredTx>) {
    forall i, j :: 0 <= i < j < |docs| ==> docs[i].key != docs[j].key
  }

  function KeysOf(docs: seq<StoredTx>): set<Key> {
    set d | d in docs :: d.key
  }

  ghost function PositionOfKey(docs: seq<StoredTx>, k: Key): (i: nat)
    requires k in KeysOf(docs)
    ensures i < |docs| && docs[i].key == k
  {
    var i :| 0 <= i < |docs| && docs[i].key == k;
    i
  }

  ghost function Index(docs: seq<StoredTx>): (rows: Rows)
    requires UniqueKeys(docs)
    ensures forall i :: 0 <= i < |docs| ==> docs[i].key in rows && rows[docs[i].key] == docs[i]
  {
    map k | k in KeysOf(docs) :: docs[PositionOfKey(docs, k)]
  }

  lemma PositionOf(docs: seq<StoredTx>, k: Key) returns (i: nat)
    requires UniqueKeys(docs) && k in Index(docs)
    ensures i < |docs| && docs[i].key == k && Index(docs)[k] == docs[i]
  {
    i :| 0 <= i < |docs| && docs[i].key == k;
  }

  predicate SortedByNonce(txs: seq<StoredTx>) {
    forall i, j :: 0 <= i < j < |txs| ==> txs[i].key.nonce <= txs[j].key.nonce
  }

  /** The position at which inserting keeps a sorted list sorted (after its equals). */
  method InsertionPoint(txs: seq<StoredTx>, tx: StoredTx) returns (p: nat)
    requires SortedByNonce(txs)
    ensures p <= |txs|
    ensures forall i :: 0 <= i < p ==> txs[i].key.nonce <= tx.key.nonce
    ensures forall i :: p <= i < |txs| ==> tx.key.nonce < txs[i].key.nonce
  {
    p := |txs|;
    while p > 0 && tx.key.nonce < txs[p - 1].key.nonce
      invariant p <= |txs|
      invariant forall i :: p <= i < |txs| ==> tx.key.nonce < txs[i].key.nonce
    {
      p := p - 1;
    }
  }

  lemma InsertedInOrder(sorted: seq<StoredTx>, tx: StoredTx, p: nat)
    requires SortedByNonce(sorted) && p <= |sorted|
    requires forall i :: 0 <= i < p ==> sorted[i].key.nonce <= tx.key.nonce
    requires forall i :: p <= i < |sorted| ==> tx.key.nonce < sorted[i].key.nonce
    ensures SortedByNonce(sorted[..p] + [tx] + sorted[p..])
    ensures multiset(sorted[..p] + [tx] + sorted[p..]) == multiset(sorted) + multiset{tx}
  {
    assert sorted == sorted[..p] + sorted[p..];
  }

  /** The library sort the source calls with a compare-by-nonce function. */
  method SortByNonce(txs: seq<StoredTx>) returns (sorted: seq<StoredTx>)
    ensures SortedByNonce(sorted)
    ensures multiset(sorted) == multiset(txs)
  {
    sorted := [];
    for i := 0 to |txs|
      invariant SortedByNonce(sorted)
      invariant multiset(sorted) == multiset(txs[..i])
    {
      var p := InsertionPoint(sorted, txs[i]);
      assert txs[..i + 1] == txs[..i] + [txs[i]];
      InsertedInOrder(sorted, txs[i], p);
      sorted := sorted[..p] + [txs[i]] + sorted[p..];
    }
    assert txs[..|txs|] == txs;
  }

  class TxStoreManager {
    var documents: seq<StoredTx>

    ghost predicate Valid()
      reads this
    {
      UniqueKeys(documents) && forall d :: d in documents ==> d.attempts > 0
    }

    ghost function View(): (rows: Rows)
      reads this
      requires Valid()
      ensures WellKeyed(rows)
    {
      IndexIsWellKeyed(documents);
      Index(documents)
    }

    constructor ()
      ensures Valid() && View() == map[]
    {
      documents := [];
    }

    method Find(key: Key) returns (found: Option<nat>)
      requires Valid()
      ensures found.None? <==> key !in View()
      ensures found.Some? ==> found.value < |documents| && documents[found.value].key == key
    {
      for i := 0 to |documents|
        invariant forall j :: 0 <= j < i ==> documents[j].key != key
      {
        if documents[i].key == key {
          return Some(i);
        }
      }
      return None;
    }

    method PutTx(tx: StoredTx, updateExisting: bool) returns (r: Result<(), StoreError>)
      requires Valid()
      modifies this
      ensures Valid()
      ensures match PutError(old(View()), tx, updateExisting)
              case None => r == Ok(()) && View() == old(View())[tx.key := tx]
              case Some(e) => r == Err(e) && View() == old(View())
      ensures r == Err(InvalidTx) <==> tx.attempts == 0
      ensures r == Err(UniqueViolated) <==> tx.attempts > 0 && tx.key in old(View()) && !updateExisting
    {
      if tx.attempts == 0 {
        return Err(InvalidTx);
      }
      var existing := Find(tx.key);
      if existing.Some? && updateExisting {
        IndexOfUpdate(documents, existing.value, tx);
        documents := documents[existing.value := tx];
      } else if existing.Some? {
        // the insert is refused by the unique index on nonceSigner
        return Err(UniqueViolated);
      } else {
        IndexOfAppend(documents, tx);
        documents := documents + [tx];
      }
      return Ok(());
    }

    method GetAll() returns (txs: seq<StoredTx>)
      requires Valid()
      ensures SortedByNonce(txs) && multiset(txs) == multiset(documents)
    {
      txs := SortByNonce(documents);
    }

    method GetTxsInNonceRange(signer: Address, from: nat, to: Option<int>) returns (txs: seq<StoredTx>)
      requires Valid()
      ensures IsNonceRange(View(), signer, from, to, txs)
      ensures forall k :: k in View() ==>
        (View()[k] in txs <==> k.signer == signer && k.nonce >= from && (to.Some? ==> k.nonce <= to.value))
    {
      var found: seq<StoredTx> := [];
      for i := 0 to |documents|
        invariant UniqueKeys(found)
        invariant forall d :: d in found <==> d in documents[..i] && InRange(d, signer, from, to)
      {
        if InRange(documents[i], signer, from, to) {
          LaterKeyIsNew(documents, i, found);
          found := found + [documents[i]];
        }
      }
      assert documents[..|documents|] == documents;
      txs := SortByNonce(found);
      SortedCopyOfUniqueIsStrict(found, txs);
      forall k | k in View() && InRange(View()[k], signer, from, to)
        ensures View()[k] in txs
      {
        var i := PositionOf(documents, k);
        assert documents[i] in found;
      }
      forall i | 0 <= i < |txs|
        ensures txs[i].key in View() && View()[txs[i].key] == txs[i] && InRange(txs[i], signer, from, to)
      {
        assert txs[i] in found;
        var j :| 0 <= j < |documents| && documents[j] == txs[i];
      }
    }

    method RemoveArchivedTransactions(upToBlock: int, upToTimestamp: int)
      requires Valid()
      modifies this
      ensures Valid() && View() == RemoveArchived(old(View()), upToBlock, upToTimestamp)
      ensures forall k :: k in View() ==> k in old(View()) && View()[k] == old(View())[k]
      ensures forall k :: k in old(View()) ==>
        var mined := old(View())[k].minedBlock;
        (k !in View() <==> mined.Some? && mined.value.number <= upToBlock && mined.value.timestamp <= upToTimestamp)
    {
      var docs, kept: seq<StoredTx> := documents, [];
      for i := 0 to |docs|
        invariant UniqueKeys(kept)
        invariant forall d :: d in kept <==> d in docs[..i] && !Archived(d, upToBlock, upToTimestamp)
      {
        if !Archived(docs[i], upToBlock, upToTimestamp) {
          LaterKeyIsNew(docs, i, kept);
          kept := kept + [docs[i]];
        }
      }
      assert docs[..|docs|] == docs;
      documents := kept;
      SameIndex(kept, RemoveArchived(Index(docs), upToBlock, upToTimestamp)) by {
        forall k | k in RemoveArchived(Index(docs), upToBlock, upToTimestamp)
          ensures exists j :: 0 <= j < |kept| && kept[j].key == k
        {
          var i := PositionOf(docs, k);
          assert docs[i] in kept;
        }
        forall j | 0 <= j < |kept|
          ensures kept[j].key in Index(docs) && Index(docs)[kept[j].key] == kept[j]
        {
          assert kept[j] in docs;
        }
      }
    }

    method IsActionPendingOrRecentlyMined(
      action: ServerAction, currentBlock: int, distance: int, destination: Option<Address>) returns (answer: bool)
      requires Valid()
      ensures answer <==> ActionPendingOrRecent(View(), action, currentBlock, distance, destination)
      ensures answer <==> exists k ::
        && k in View() && View()[k].action == action
        && (destination == None || destination == Some(View()[k].call.to))
        && (View()[k].Pending() || View()[k].minedBlock.value.number + distance >= currentBlock)
    {
      for i := 0 to |documents|
        invariant forall j :: 0 <= j < i ==> !Blocks(documents[j], action, currentBlock, distance, destination)
      {
        if Blocks(documents[i], action, currentBlock, distance, destination) {
          return true;
        }
      }
      return false;
    }
  }

  lemma IndexIsWellKeyed(docs: seq<StoredTx>)
    requires UniqueKeys(docs) && forall d :: d in docs ==> d.attempts > 0
    ensures WellKeyed(Index(docs))
  {
    forall k | k in Index(docs)
      ensures Index(docs)[k].key == k && Index(docs)[k].attempts > 0
    {
      var i := PositionOf(docs, k);
    }
  }

  lemma IndexOfUpdate(docs: seq<StoredTx>, i: nat, tx: StoredTx)
    requires UniqueKeys(docs) && i < |docs| && docs[i].key == tx.key
    ensures UniqueKeys(docs[i := tx]) && Index(docs[i := tx]) == Index(docs)[tx.key := tx]
  {
    var now := docs[i := tx];
    assert UniqueKeys(now);
    assert now[i] == tx;
    var rows := Index(docs)[tx.key := tx];
    SameIndex(now, rows) by {
      forall k | k in rows
        ensures exists j :: 0 <= j < |now| && now[j].key == k
      {
        if k != tx.key {
          var j := PositionOf(docs, k);
          assert now[j].key == k;
        }
      }
      assert forall j :: 0 <= j < |now| && j != i ==> now[j] == docs[j];
    }
  }

  lemma IndexOfAppend(docs: seq<StoredTx>, tx: StoredTx)
    requires UniqueKeys(docs) && tx.key !in Index(docs)
    ensures UniqueKeys(docs + [tx]) && Index(docs + [tx]) == Index(docs)[tx.key := tx]
  {
    var now := docs + [tx];
    assert now[|docs|] == tx;
    assert forall j :: 0 <= j < |docs| ==> now[j] == docs[j] && docs[j].key in Index(docs);
    var rows := Index(docs)[tx.key := tx];
    SameIndex(now, rows) by {
      forall k | k in rows
        ensures exists j :: 0 <= j < |now| && now[j].key == k
      {
        if k != tx.key {
          var j := PositionOf(docs, k);
          assert now[j].key == k;
        }
      }
    }
  }

  /** A map that agrees with the documents and has no other keys is their index. */
  lemma SameIndex(docs: seq<StoredTx>, rows: Rows)
    requires UniqueKeys(docs)
    requires forall j :: 0 <= j < |docs| ==> docs[j].key in rows && rows[docs[j].key] == docs[j]
    requires forall k :: k in rows ==> exists j :: 0 <= j < |docs| && docs[j].key == k
    ensures Index(docs) == rows
  {
    forall k
      ensures k in Index(docs) <==> k in rows
      ensures k in rows ==> Index(docs)[k] == rows[k]
    {
      if k in Index(docs) {
        var j := PositionOf(docs, k);
      }
    }
  }

  lemma LaterKeyIsNew(docs: seq<StoredTx>, i: nat, earlier: seq<StoredTx>)
    requires UniqueKeys(docs) && i < |docs| && UniqueKeys(earlier)
    requires forall d :: d in earlier ==> d in docs[..i]
    ensures UniqueKeys(earlier + [docs[i]])
  {
    forall e | e in earlier
      ensures e.key != docs[i].key
    {
      var j :| 0 <= j < i && docs[..i][j] == e;
      assert docs[j] == e;
    }
  }

  lemma SortedCopyOfUniqueIsStrict(txs: seq<StoredTx>, sorted: seq<StoredTx>)
    requires UniqueKeys(txs) && SortedByNonce(sorted) && multiset(sorted) == multiset(txs)
    requires forall d, e :: d in txs && e in txs ==> d.key.signer == e.key.signer
    ensures forall i, j :: 0 <= i < j < |sorted| ==> sorted[i].key.nonce < sorted[j].key.nonce
    ensures forall d :: d in sorted <==> d in txs
  {
    assert forall d :: d in sorted <==> d in multiset(sorted);
    assert forall d :: d in txs <==> d in multiset(txs);
    forall i, j | 0 <= i < j < |sorted|
      ensures sorted[i].key.nonce < sorted[j].key.nonce
    {
      if sorted[i].key.nonce == sorted[j].key.nonce {
        assert sorted[i] in txs && sorted[j] in txs;
        assert sorted[i] == sorted[j] by {
          var a :| 0 <= a < |txs| && txs[a] == sorted[i];
          var b :| 0 <= b < |txs| && txs[b] == sorted[j];
          assert a == b;
        }
        TwiceInSequence(sorted, i, j);
        OnceInUnique(txs, sorted[i]);
      }
    }
  }

  lemma TwiceInSequence(s: seq<StoredTx>, i: nat, j: nat)
    requires i < j < |s| && s[i] == s[j]
    ensures multiset(s)[s[i]] >= 2
  {
    assert s == s[..i] + [s[i]] + s[i + 1..j] + [s[j]] + s[j + 1..];
  }

  lemma OnceInUnique(s: seq<StoredTx>, d: StoredTx)
    requires UniqueKeys(s)
    ensures multiset(s)[d] <= 1
  {
    if s != [] {
      assert s == s[..|s| - 1] + [s[|s| - 1]];
      OnceInUnique(s[..|s| - 1], d);
    }
  }
}
