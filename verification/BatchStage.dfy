/** The staging area of a batch: nodes prepared in memory on top of a store. */
module BatchStage {
  import opened Prelude
  import opened Uuid
  import opened TreeNode
  import opened RadixTree
  import opened ContentStore
  import opened TreeStore
  import opened TreeParts
  import opened SortedRange
  import NodeCodec

  type StagedMap = map<Bytes, Bytes>

  ghost predicate Digested(h: Hash, staged: StagedMap) {
    forall d | d in staged :: h(TreeKind, staged[d]) == d
  }

  /** Staged payloads sit under their own digests and are among the given ones. */
  ghost predicate Faithful(h: Hash, staged: StagedMap, payloads: iset<Bytes>) {
    Digested(h, staged) && forall d | d in staged :: staged[d] in payloads
  }

  /** Every node of the trie is staged down to subtries that the store holds completely. */
  ghost predicate Anchored(h: Hash, rows: Rows, staged: StagedMap, t: Tree) {
    t.Sub? ==>
      && |t.prefix| <= KEY_NIBBLES && AllNibbles(t.prefix)
      && if Root(h, t) in staged then
           staged[Root(h, t)] == Encode(NodeOf(h, t)) && forall e | 0 <= e < |t.kids| ::
             Anchored(h, rows, staged, t.kids[e])
         else Held(h, rows, t)
  }

  lemma AbsentAnchored(h: Hash, rows: Rows, staged: StagedMap)
    ensures Anchored(h, rows, staged, Absent) && Root(h, Absent) == []
  {}

  predicate Grows(before: StagedMap, after: StagedMap) {
    forall d | d in before :: d in after && after[d] == before[d]
  }

  /** Subtries of the old tree are anchored whatever has been staged. */
  lemma {:induction false} AnchoredOld(h: Hash, rows: Rows, staged: StagedMap, payloads: iset<Bytes>, t: Tree)
    requires Held(h, rows, t) && Faithful(h, staged, payloads) && Clean(h, rows, payloads)
    ensures Anchored(h, rows, staged, t)
    decreases t
  {
    hide Encode;
    if t.Sub? && Root(h, t) in staged {
      forall e | 0 <= e < |t.kids|
        ensures Anchored(h, rows, staged, t.kids[e])
      {
        AnchoredOld(h, rows, staged, payloads, t.kids[e]);
      }
    }
  }

  /** Staging more nodes keeps every trie anchored. */
  lemma {:induction false} AnchoredGrows(h: Hash, rows: Rows, before: StagedMap, after: StagedMap,
                                         payloads: iset<Bytes>, t: Tree)
    requires Anchored(h, rows, before, t) && Grows(before, after) && Faithful(h, after, payloads)
               && Clean(h, rows, payloads)
    ensures Anchored(h, rows, after, t)
    decreases t
  {
    hide Encode;
    if t.Sub? {
      if Root(h, t) in before {
        forall e | 0 <= e < |t.kids|
          ensures Anchored(h, rows, after, t.kids[e])
        {
          AnchoredGrows(h, rows, before, after, payloads, t.kids[e]);
        }
      } else {
        AnchoredOld(h, rows, after, payloads, t);
      }
    }
  }

  /** The children of an anchored trie are anchored. */
  lemma AnchoredKid(h: Hash, rows: Rows, staged: StagedMap, payloads: iset<Bytes>, t: Tree, e: nat)
    requires t.Sub? && e < |t.kids| && Anchored(h, rows, staged, t) && Faithful(h, staged, payloads)
               && Clean(h, rows, payloads)
    ensures Anchored(h, rows, staged, t.kids[e])
  {
    hide Encode;
    if Root(h, t) !in staged {
      AnchoredOld(h, rows, staged, payloads, t.kids[e]);
    }
  }

  /** What a batch reads under a digest: staged nodes first, then stored ones. */
  ghost function Peek(h: Hash, rows: Rows, staged: StagedMap, digest: Bytes, depth: nat): Option<Node> {
    if digest in staged then Decode(staged[digest], depth) else ReadNode(h, rows, digest, depth)
  }

  lemma PeekAnchored(h: Hash, rows: Rows, staged: StagedMap, t: Tree, depth: nat)
    requires depth <= KEY_NIBBLES && Valid(t, depth) && Anchored(h, rows, staged, t)
    ensures Root(h, t) != [] && Peek(h, rows, staged, Root(h, t), depth) == Some(NodeOf(h, t))
    ensures forall e | 0 <= e < BRANCHES :: NodeOf(h, t).children[e] == Root(h, t.kids[e])
    ensures Present(NodeOf(h, t).children) == Occupied(t.kids)
  {
    hide Encode, Decode;
    NodeOfShape(h, t, depth);
    DecodeEncode(NodeOf(h, t), depth);
  }

  class Batch {
    const db: Store
    const changes: seq<Entry<Option<Bytes>>>
    var prepared: seq<Prepared>
    var preparedIndex: map<Bytes, nat>
    var loadedPayloads: map<Bytes, Bytes>
    /** The maps before and after the batch. */
    ghost const was: map<Key, Bytes>
    ghost const will: map<Key, Bytes>

    ghost predicate Valid()
      reads this, db
    {
      && (forall i | 0 <= i < |prepared| :: Honest(db.hash, prepared[i]) && prepared[i].kind == TreeKind)
      && (forall i | 0 <= i < |prepared| :: WellFormed(prepared[i].payload))
      && (forall i | 0 <= i < |prepared| :: Get(preparedIndex, prepared[i].sha256) == Some(i))
      && (forall d | d in preparedIndex :: preparedIndex[d] < |prepared| && prepared[preparedIndex[d]].sha256 == d)
      && (forall d | d in loadedPayloads :: Fetch(db.hash, db.rows, TreeKind, d) == Some(loadedPayloads[d]))
    }

    /** What is staged, by digest. */
    ghost function Staged(): (staged: StagedMap)
      reads this, db
      requires Valid()
      ensures staged.Keys == preparedIndex.Keys && Digested(db.hash, staged)
      ensures forall d | d in staged :: WellFormed(staged[d])
    {
      map d | d in preparedIndex :: prepared[preparedIndex[d]].payload
    }

    /** Only parts of the two maps are staged, and those are free of collisions. */
    ghost predicate Safe()
      reads this, db
      requires Valid()
      ensures Safe() ==> Clean(db.hash, db.rows, Parts(db.hash, was, will))
      ensures Safe() ==> Faithful(db.hash, Staged(), Parts(db.hash, was, will))
    {
      && BatchClean(db.hash, db.rows, was, will)
      && forall d | d in Staged() :: Part(db.hash, was, will, Staged()[d])
    }

    constructor (db: Store, changes: seq<Entry<Option<Bytes>>>, ghost was: map<Key, Bytes>, ghost will: map<Key, Bytes>)
      ensures this.db == db && this.changes == changes && this.was == was && this.will == will
      ensures Valid() && Staged() == map[] && prepared == []
      ensures Safe() <==> BatchClean(db.hash, db.rows, was, will)
    {
      this.db, this.changes, this.was, this.will := db, changes, was, will;
      prepared, preparedIndex, loadedPayloads := [], map[], map[];
    }

    /** Stage an encoded node unless its digest is already staged. */
    method StageItem(item: Prepared)
      requires Valid() && Honest(db.hash, item) && item.kind == TreeKind && WellFormed(item.payload)
      modifies this
      ensures Valid() && Grows(old(Staged()), Staged()) && Staged().Keys == old(Staged()).Keys + {item.sha256}
      ensures item.sha256 !in old(Staged()) ==> Staged()[item.sha256] == item.payload
      ensures old(Safe()) && Part(db.hash, was, will, item.payload) ==> Safe() && Staged()[item.sha256] == item.payload
    {
      hide WellFormed, Encode, Part, Clean, Fetch, BatchClean, Parts, Valid;
      if item.sha256 in preparedIndex {
        if Safe() && Part(db.hash, was, will, item.payload) {
          NoTwins(db.hash, db.rows, was, will, Staged()[item.sha256], item.payload);
        }
      } else {
        AddItem(item);
      }
    }

    method AddItem(item: Prepared)
      requires Valid() && Honest(db.hash, item) && item.kind == TreeKind && WellFormed(item.payload)
      requires item.sha256 !in preparedIndex
      modifies this`prepared, this`preparedIndex
      ensures Valid() && Staged() == old(Staged())[item.sha256 := item.payload]
    {
      hide WellFormed;
      preparedIndex := preparedIndex[item.sha256 := |prepared|];
      prepared := prepared + [item];
    }

    method StageNode(n: Node, depth: nat, ghost t: Tree) returns (r: Option<Bytes>)
      requires Valid()
      modifies this
      ensures Valid() && Grows(old(Staged()), Staged())
      ensures r.None? <==> !ValidShape(n, depth)
      ensures old(Safe()) && RadixTree.Valid(t, depth) && n == NodeOf(db.hash, t) && Part(db.hash, was, will, Encode(n))
              && (forall e | 0 <= e < |t.kids| :: Anchored(db.hash, db.rows, old(Staged()), t.kids[e])) ==>
                Safe() && r == Some(Root(db.hash, t)) && Anchored(db.hash, db.rows, Staged(), t)
    {
      hide Encode, WellFormed, Part, Clean;
      if !ValidShape(n, depth) {
        if RadixTree.Valid(t, depth) { NodeOfShape(db.hash, t, depth); }
        return None;
      }
      var payload := NodeCodec.EncodeNode(n);
      var digest := db.hash(TreeKind, payload);
      ghost var before := Staged();
      ChildrenOfNode(payload, n, depth);
      StageItem(Prepared(TreeKind, payload, digest));
      if old(Safe()) && Part(db.hash, was, will, payload) && RadixTree.Valid(t, depth) && n == NodeOf(db.hash, t)
         && (forall e | 0 <= e < |t.kids| :: Anchored(db.hash, db.rows, before, t.kids[e])) {
        forall e | 0 <= e < |t.kids|
          ensures Anchored(db.hash, db.rows, Staged(), t.kids[e])
        {
          AnchoredGrows(db.hash, db.rows, before, Staged(), Parts(db.hash, was, will), t.kids[e]);
        }
      }
      return Some(digest);
    }

    /** Read a node that may be staged, cached or stored. */
    method ReadBatchNode(digest: Bytes, depth: nat) returns (r: Option<Node>)
      requires Valid()
      modifies this`loadedPayloads
      ensures Valid() && r == Peek(db.hash, db.rows, Staged(), digest, depth)
      ensures r.Some? ==> ValidShape(r.value, depth)
      ensures Staged() == old(Staged()) && (Safe() <==> old(Safe()))
    {
      hide Encode, Decode, Part, Clean, WellFormed, Fetch;
      if digest in preparedIndex {
        r := NodeCodec.DecodeNode(prepared[preparedIndex[digest]].payload, depth);
        return;
      }
      if digest !in loadedPayloads {
        var payload := db.Load(TreeKind, digest);
        if payload.None? {
          return None;
        }
        loadedPayloads := loadedPayloads[digest := payload.value];
      }
      r := NodeCodec.DecodeNode(loadedPayloads[digest], depth);
    }
  }
}
