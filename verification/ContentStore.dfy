/**
 The deduplicating table of immutable content. A row is keyed by a 32-byte
 digest; nothing is assumed about the hash function, so two payloads may
 collide and a row may be damaged. Every read re-hashes what it returns.
 */
module ContentStore {
  import opened Prelude
  import opened TreeNode

  datatype Kind = Blob | TreeKind

  datatype Row = Row(kind: Kind, payload: Bytes)

  type Digest = d: Bytes | |d| == HASH_BYTES witness seq(HASH_BYTES, _ => 0)
  type Hash = (Kind, Bytes) -> Digest
  type Rows = map<Bytes, Row>

  /** What a verified read of one digest yields. */
  function Fetch(h: Hash, rows: Rows, kind: Kind, digest: Bytes): Option<Bytes> {
    if |digest| == HASH_BYTES && digest in rows && rows[digest].kind == kind && h(kind, rows[digest].payload) == digest
    then Some(rows[digest].payload)
    else None
  }

  /** Rows are only ever added. */
  predicate Extends(before: Rows, after: Rows) {
    forall d | d in before :: d in after && after[d] == before[d]
  }

  /** The digest of this content is free, or already holds exactly this content. */
  predicate Storable(h: Hash, rows: Rows, kind: Kind, payload: Bytes) {
    h(kind, payload) in rows ==> rows[h(kind, payload)] == Row(kind, payload)
  }

  /** Content together with the digest computed when it was prepared. */
  datatype Prepared = Prepared(kind: Kind, payload: Bytes, sha256: Bytes)

  predicate Honest(h: Hash, item: Prepared) {
    item.sha256 == h(item.kind, item.payload)
  }

  /** No two items of a batch share a digest without sharing their payload. */
  predicate NoClash(items: seq<Prepared>) {
    forall i, j | 0 <= i < j < |items| :: items[i].sha256 == items[j].sha256 ==> items[i].payload == items[j].payload
  }

  /** No item of the batch differs from what is stored, or comes earlier in the batch, under its digest. */
  predicate Insertable(rows: Rows, kind: Kind, items: seq<Prepared>) {
    forall i | 0 <= i < |items| ::
      && items[i].kind == kind
      && (items[i].sha256 in rows ==> rows[items[i].sha256] == Row(kind, items[i].payload))
      && forall j | 0 <= j < i :: items[j].sha256 == items[i].sha256 ==> items[j].payload == items[i].payload
  }

  /** Every item is there, what was there is as it was, and nothing else is. */
  ghost predicate Inserted(rows: Rows, after: Rows, kind: Kind, items: seq<Prepared>) {
    && (forall i | 0 <= i < |items| ::
          items[i].sha256 in after && after[items[i].sha256] == Row(kind, items[i].payload))
    && (forall d | d in rows :: d in after && after[d] == rows[d])
    && forall d | d in after :: d in rows || exists i :: 0 <= i < |items| && items[i].sha256 == d
  }

  function RowsOf(kind: Kind, items: seq<Prepared>): Rows {
    if items == [] then map[] else
      var last := |items| - 1;
      RowsOf(kind, items[..last])[items[last].sha256 := Row(kind, items[last].payload)]
  }

  class Store {
    const hash: Hash
    var rows: Rows

    constructor (hash: Hash)
      ensures this.hash == hash && rows == map[]
    {
      this.hash := hash;
      rows := map[];
    }

    /** Content comes back only under its own digest and kind. */
    method Load(kind: Kind, digest: Bytes) returns (r: Option<Bytes>)
      ensures r == Fetch(hash, rows, kind, digest)
      ensures forall payload :: r == Some(payload) <==>
                |digest| == 32 && digest in rows && rows[digest] == Row(kind, payload) && hash(kind, payload) == digest
    {
      if |digest| != HASH_BYTES {
        return None;
      }
      if digest !in rows {
        return None;
      }
      var row := rows[digest];
      if row.kind != kind {
        return None;
      }
      if hash(kind, row.payload) != digest {
        return None;
      }
      return Some(row.payload);
    }

    /** All requested content or nothing; repeated digests are read once. */
    method GetMany(kind: Kind, hashes: seq<Bytes>) returns (r: Option<map<Bytes, Bytes>>)
      ensures r.Some? <==> forall i | 0 <= i < |hashes| :: Fetch(hash, rows, kind, hashes[i]).Some?
      ensures r.Some? ==> r.value.Keys == set i | 0 <= i < |hashes| :: hashes[i]
      ensures r.Some? ==> forall d | d in r.value :: Fetch(hash, rows, kind, d) == Some(r.value[d])
      ensures r.Some? <==> forall i | 0 <= i < |hashes| ::
                var d := hashes[i];
                |d| == 32 && d in rows && rows[d].kind == kind && hash(kind, rows[d].payload) == d
      ensures r.Some? ==> forall i | 0 <= i < |hashes| ::
                hashes[i] in r.value && r.value[hashes[i]] == rows[hashes[i]].payload
    {
      var result: map<Bytes, Bytes> := map[];
      for i := 0 to |hashes|
        invariant result.Keys == set j | 0 <= j < i :: hashes[j]
        invariant forall d | d in result :: Fetch(hash, rows, kind, d) == Some(result[d])
      {
        if hashes[i] !in result {
          var payload := Load(kind, hashes[i]);
          if payload.None? {
            return None;
          }
          result := result[hashes[i] := payload.value];
        }
      }
      forall i | 0 <= i < |hashes|
        ensures Fetch(hash, rows, kind, hashes[i]).Some?
      {
        assert hashes[i] in result.Keys;
      }
      return Some(result);
    }

    /** Insert once; an existing row must hold these very bytes. */
    method Put(kind: Kind, payload: Bytes) returns (r: Option<Bytes>)
      modifies this
      ensures r.Some? <==> Storable(hash, old(rows), kind, payload)
      ensures r.Some? ==> r.value == hash(kind, payload) && rows == old(rows)[r.value := Row(kind, payload)]
      ensures r.None? ==> rows == old(rows)
      ensures r.Some? <==> hash(kind, payload) !in old(rows) || old(rows)[hash(kind, payload)] == Row(kind, payload)
    {
      var digest := hash(kind, payload);
      if digest !in rows {
        rows := rows[digest := Row(kind, payload)];
      }
      var actual := Load(kind, digest);
      if actual.None? || actual.value != payload {
        return None;
      }
      return Some(digest);
    }

    /**
     Insert a prepared batch. Collisions inside the batch and against stored
     rows are both detected; what was inserted before a mismatch is left for
     the caller's transaction to roll back.
     */
    method PutManyPrepared(kind: Kind, items: seq<Prepared>) returns (r: Option<seq<Bytes>>)
      requires forall i | 0 <= i < |items| :: Honest(hash, items[i])
      modifies this
      ensures Extends(old(rows), rows)
      ensures r.Some? <==>
              && (forall i | 0 <= i < |items| :: items[i].kind == kind)
              && NoClash(items)
              && forall i | 0 <= i < |items| :: Storable(hash, old(rows), kind, items[i].payload)
      ensures r.Some? ==> rows == old(rows) + RowsOf(kind, items)
      ensures r.Some? ==> |r.value| == |items| && forall i | 0 <= i < |items| :: r.value[i] == items[i].sha256
      ensures r.Some? <==> Insertable(old(rows), kind, items)
      ensures r.Some? ==> Inserted(old(rows), rows, kind, items)
    {
      hide Insertable, Inserted;
      InsertableIs(hash, rows, kind, items);
      var unique := Deduplicate(kind, items);
      if unique.None? {
        return None;
      }
      var batch := unique.value;
      var conflict := exists d | d in batch :: d in rows && rows[d] != batch[d];
      rows := batch + rows;
      if conflict {
        ghost var d :| d in batch && d in old(rows) && old(rows)[d] != batch[d];
        FromItem(kind, items, d);
        return None;
      }
      forall i | 0 <= i < |items|
        ensures Storable(hash, old(rows), kind, items[i].payload)
      {
        assert batch[items[i].sha256] == Row(kind, items[i].payload);
      }
      assert rows == old(rows) + batch;
      InsertedRows(hash, old(rows), kind, items);
      return Some(seq(|items|, i requires 0 <= i < |items| => items[i].sha256));
    }

    /** The first loop of a batch insert: refuse foreign kinds and collisions, drop repeats. */
    method Deduplicate(kind: Kind, items: seq<Prepared>) returns (r: Option<Rows>)
      requires forall i | 0 <= i < |items| :: Honest(hash, items[i])
      ensures r.Some? <==> (forall i | 0 <= i < |items| :: items[i].kind == kind) && NoClash(items)
      ensures r.Some? ==> r.value == RowsOf(kind, items)
      ensures r.Some? ==> forall i | 0 <= i < |items| ::
                Get(r.value, items[i].sha256) == Some(Row(kind, items[i].payload))
    {
      var unique: Rows := map[];
      for i := 0 to |items|
        invariant unique == RowsOf(kind, items[..i])
        invariant forall j | 0 <= j < i :: items[j].kind == kind
        invariant forall j | 0 <= j < i :: Get(unique, items[j].sha256) == Some(Row(kind, items[j].payload))
      {
        assert items[..i + 1][..i] == items[..i];
        if items[i].kind != kind {
          return None;
        }
        if items[i].sha256 in unique {
          if unique[items[i].sha256] != Row(kind, items[i].payload) {
            ClashWitness(kind, items, i);
            return None;
          }
        } else {
          unique := unique[items[i].sha256 := Row(kind, items[i].payload)];
        }
      }
      assert items[..|items|] == items;
      return Some(unique);
    }
  }

  /** A row of the batch comes from one of its items. */
  lemma {:induction false} FromItem(kind: Kind, items: seq<Prepared>, d: Bytes)
    requires d in RowsOf(kind, items)
    ensures exists i :: 0 <= i < |items| && items[i].sha256 == d
              && RowsOf(kind, items)[d] == Row(kind, items[i].payload)
  {
    var last := |items| - 1;
    if items[last].sha256 != d {
      FromItem(kind, items[..last], d);
    }
  }

  lemma InsertableIs(h: Hash, rows: Rows, kind: Kind, items: seq<Prepared>)
    requires forall i | 0 <= i < |items| :: Honest(h, items[i])
    ensures Insertable(rows, kind, items) <==>
              && (forall i | 0 <= i < |items| :: items[i].kind == kind) && NoClash(items)
              && forall i | 0 <= i < |items| :: Storable(h, rows, kind, items[i].payload)
  {}

  lemma InsertedRows(h: Hash, rows: Rows, kind: Kind, items: seq<Prepared>)
    requires (forall i | 0 <= i < |items| :: Honest(h, items[i]) && items[i].kind == kind) && NoClash(items)
    requires forall i | 0 <= i < |items| :: Storable(h, rows, kind, items[i].payload)
    ensures Inserted(rows, rows + RowsOf(kind, items), kind, items)
  {
    hide RowsOf, NoClash;
    var batch := RowsOf(kind, items);
    forall i | 0 <= i < |items|
      ensures items[i].sha256 in batch && batch[items[i].sha256] == Row(kind, items[i].payload)
    {
      RowsOfAll(kind, items, i);
    }
    forall d | d in batch
      ensures exists i :: 0 <= i < |items| && items[i].sha256 == d && batch[d] == Row(kind, items[i].payload)
    {
      FromItem(kind, items, d);
    }
  }

  /** Every item of a batch without clashes gives its row. */
  lemma {:induction false} RowsOfAll(kind: Kind, items: seq<Prepared>, i: nat)
    requires i < |items| && NoClash(items)
    ensures Get(RowsOf(kind, items), items[i].sha256) == Some(Row(kind, items[i].payload))
  {
    var last := |items| - 1;
    if items[i].sha256 != items[last].sha256 {
      RowsOfAll(kind, items[..last], i);
    } else if i < last {
      assert items[i].payload == items[last].payload;
    }
  }

  lemma ClashWitness(kind: Kind, items: seq<Prepared>, i: nat)
    requires i < |items| && items[i].sha256 in RowsOf(kind, items[..i])
    requires RowsOf(kind, items[..i])[items[i].sha256] != Row(kind, items[i].payload)
    ensures !NoClash(items)
  {
    FromItem(kind, items[..i], items[i].sha256);
  }
}
